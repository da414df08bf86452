/** The `add` command end to end: snapshot, dependency closure and manifest edit. */
module AddCommand {
  import opened Catalog
  import opened Graph
  import opened ManifestAdd
  import opened ManifestEditor
  import opened ManifestTheorems
  import opened Resolver
  import opened Snapshot
  import opened Sorting
  import opened Text
  import opened Wrappers

  datatype AddError =
    | BadSnapshot(load: LoadError)
    | UnknownModule
    | NotAvailable(status: string)
    | Unresolvable(resolve: ResolveError)
    | BadManifest(edit: EditError)

  type SnapshotIndex = map<string, SnapshotModule>

  /** Everything the modules of a closure need, collected by `expand`. */
  function AdditionsFor(index: SnapshotIndex, closure: seq<string>): Additions
    requires forall x | x in closure :: x in index
  {
    Additions(
      Elements(closure),
      set x, s | x in closure && s in index[x].apiScopes :: s,
      set x, s | x in closure && s in index[x].devicePermissions :: s)
  }

  /** The lists of a manifest, by the fields that `validateManifest` reads. */
  function Declared(manifest: string): Option<Declarations> {
    var lines := Lines(manifest);
    var modules := Read(lines, Target("features", "modules"));
    var apiScopes := Read(lines, Target("permissions", "apiScopes"));
    var device := Read(lines, Target("permissions", "device"));
    if modules.Success? && apiScopes.Success? && device.Success? then
      Some(Declarations(modules.value, apiScopes.value, device.value))
    else None
  }

  lemma DeclaredIsReadable(manifest: string)
    ensures Declared(manifest).Some? <==> Readable(Lines(manifest))
  {
    hide Lines, Read;
  }

  /** What each module needs, by its id. */
  datatype Needs = Needs(
    modules: Dependencies, apiScopes: map<string, seq<string>>, device: map<string, seq<string>>)

  function NeedsOfSnapshot(index: SnapshotIndex): Needs {
    Needs(
      map x | x in index :: index[x].requiredModules,
      map x | x in index :: index[x].apiScopes,
      map x | x in index :: index[x].devicePermissions)
  }

  function NeedsOfCatalog(index: Index): Needs {
    Needs(
      map x | x in index :: index[x].requiredModules,
      map x | x in index :: index[x].apiScopes,
      map x | x in index :: index[x].devicePermissions)
  }

  /** Some module reachable from `id` names the value. */
  ghost predicate NamedBy(needs: Needs, id: string, lists: map<string, seq<string>>, value: string) {
    exists x :: x in lists && Reachable(needs.modules, id, x) && value in lists[x]
  }

  /** Each list holds exactly its old entries and what the modules reachable from `id` need. */
  ghost predicate AddsWhatIsNeeded(needs: Needs, id: string, old_: Declarations, new_: Declarations) {
    && (forall x :: x in new_.modules <==> x in old_.modules || Reachable(needs.modules, id, x))
    && (forall s :: s in new_.apiScopes <==> s in old_.apiScopes || NamedBy(needs, id, needs.apiScopes, s))
    && (forall s :: s in new_.device <==> s in old_.device || NamedBy(needs, id, needs.device, s))
  }

  ghost predicate OneLineIndex(index: SnapshotIndex) {
    forall x | x in index ::
      && OneLine(x)
      && (forall s | s in index[x].apiScopes :: OneLine(s))
      && (forall s | s in index[x].devicePermissions :: OneLine(s))
  }

  lemma AddsNeeded(index: SnapshotIndex, id: string, closure: seq<string>, manifest: string)
    requires IsClosure(SnapshotDependencies(index), id, closure)
    requires forall x | x in closure :: x in index
    requires Readable(Lines(manifest)) && OneLineAdditions(AdditionsFor(index, closure))
    ensures
      var added := AddText(manifest, AdditionsFor(index, closure));
      && added.Success? && Declared(manifest).Some? && Declared(added.value).Some?
      && AddsWhatIsNeeded(NeedsOfSnapshot(index), id, Declared(manifest).value, Declared(added.value).value)
  {
    hide AddText, Lines, Read, OneLineAdditions;
    var a, needs := AdditionsFor(index, closure), NeedsOfSnapshot(index);
    assert needs.modules == SnapshotDependencies(index);
    AddTextReads(manifest, a);
    NamedInClosure(index, id, closure);
  }

  lemma NamedInClosure(index: SnapshotIndex, id: string, closure: seq<string>)
    requires IsClosure(SnapshotDependencies(index), id, closure)
    requires forall x | x in closure :: x in index
    ensures
      var a, needs := AdditionsFor(index, closure), NeedsOfSnapshot(index);
      && (forall x :: x in a.modules <==> Reachable(needs.modules, id, x))
      && (forall s :: s in a.apiScopes <==> NamedBy(needs, id, needs.apiScopes, s))
      && (forall s :: s in a.device <==> NamedBy(needs, id, needs.device, s))
  {
    var needs := NeedsOfSnapshot(index);
    assert needs.modules == SnapshotDependencies(index);
    hide Reachable;
    assert forall x | x in closure :: needs.apiScopes[x] == index[x].apiScopes;
    assert forall x | x in closure :: needs.device[x] == index[x].devicePermissions;
  }

  method Expand(index: SnapshotIndex, closure: seq<string>) returns (a: Additions)
    requires forall x | x in closure :: x in index
    ensures a == AdditionsFor(index, closure)
    ensures forall x :: x in a.modules <==> x in closure
    ensures forall s :: s in a.apiScopes <==> exists x :: x in closure && s in index[x].apiScopes
    ensures forall s :: s in a.device <==> exists x :: x in closure && s in index[x].devicePermissions
  {
    var scopes: set<string> := {};
    var device: set<string> := {};
    for i := 0 to |closure|
      invariant scopes == set x, s | x in closure[..i] && s in index[x].apiScopes :: s
      invariant device == set x, s | x in closure[..i] && s in index[x].devicePermissions :: s
    {
      var own := index[closure[i]];
      scopes := scopes + Elements(own.apiScopes);
      device := device + Elements(own.devicePermissions);
      assert closure[..i + 1] == closure[..i] + [closure[i]];
    }
    assert closure[..|closure|] == closure;
    return Additions(Elements(closure), scopes, device);
  }

  /** Succeeds exactly when every step can, and then writes what the whole closure needs. */
  method Add(decoded: Json, value: string, manifest: string) returns (r: Result<string, AddError>)
    ensures
      var loaded := LoadSnapshot(decoded);
      r.Success? <==>
        && loaded.Success?
        && value in IndexOfSnapshot(loaded.value)
        && IndexOfSnapshot(loaded.value)[value].status == "available"
        && Resolvable(SnapshotDependencies(IndexOfSnapshot(loaded.value)), value)
        && Readable(Lines(manifest))
    ensures r.Success? ==>
      var index := IndexOfSnapshot(LoadSnapshot(decoded).value);
      exists closure ::
        && IsClosure(SnapshotDependencies(index), value, closure)
        && (forall x | x in closure :: x in index)
        && AddText(manifest, AdditionsFor(index, closure)) == Success(r.value)
    ensures r.Success? ==>
      var index := IndexOfSnapshot(LoadSnapshot(decoded).value);
      OneLineIndex(index) ==>
        && Declared(manifest).Some? && Declared(r.value).Some?
        && AddsWhatIsNeeded(NeedsOfSnapshot(index), value, Declared(manifest).value, Declared(r.value).value)
    ensures LoadSnapshot(decoded).Failure? ==> r == Failure(BadSnapshot(LoadSnapshot(decoded).error))
    ensures LoadSnapshot(decoded).Success? ==>
      var index := IndexOfSnapshot(LoadSnapshot(decoded).value);
      && (value !in index <==> r == Failure(UnknownModule))
      && (value in index && index[value].status != "available" <==> r.Failure? && r.error.NotAvailable?)
      && (r.Failure? && r.error.Unresolvable? ==> Justified(SnapshotDependencies(index), value, r.error.resolve))
  {
    hide LoadSnapshot, IndexOfSnapshot, Readable, AddText;
    var loaded := LoadSnapshot(decoded);
    if loaded.Failure? {
      return Failure(BadSnapshot(loaded.error));
    }
    var index := IndexOfSnapshot(loaded.value);
    if value !in index {
      return Failure(UnknownModule);
    }
    if index[value].status != "available" {
      return Failure(NotAvailable(index[value].status));
    }
    var selected := DependenciesFor(SnapshotDependencies(index), value);
    if selected.Failure? {
      return Failure(Unresolvable(selected.error));
    }
    var closure := selected.value;
    assert forall x | x in closure :: Reachable(SnapshotDependencies(index), value, x);
    var additions := Expand(index, closure);
    var updated := ManifestAdd.Add(manifest, additions);
    AddTextSucceeds(manifest, additions);
    if updated.Failure? {
      return Failure(BadManifest(updated.error));
    }
    if OneLineIndex(index) {
      OneLineClosure(index, closure);
      AddsNeeded(index, value, closure, manifest);
    }
    return Success(updated.value);
  }

  lemma OneLineClosure(index: SnapshotIndex, closure: seq<string>)
    requires OneLineIndex(index) && forall x | x in closure :: x in index
    ensures OneLineAdditions(AdditionsFor(index, closure))
  {
  }

  /**
   * Adding is safe: in an accepted catalog, adding the closure of an available module to a valid
   * manifest succeeds, leaves it valid and keeps every line outside of its lists.
   */
  lemma AddingIsSafe(modules: seq<Descriptor>, id: string, closure: seq<string>, manifest: string)
    requires WellRelated(modules)
    requires forall m | m in modules :: SchemaValid(m)
    requires id in ById(modules) && ById(modules)[id].status == "available"
    requires IsClosure(DependenciesOf(ById(modules)), id, closure)
    requires Declared(manifest).Some? && ManifestValid(ById(modules), Declared(manifest).value)
    ensures forall x | x in closure :: x in EntryIndex(ById(modules))
    ensures
      var added := AddText(manifest, AdditionsFor(EntryIndex(ById(modules)), closure));
      && added.Success?
      && Declared(added.value).Some?
      && ManifestValid(ById(modules), Declared(added.value).value)
      && id in Declared(added.value).value.modules
      && Outside(Lines(added.value)) == Outside(Lines(manifest))
  {
    hide AddText, Lines, Read, ById, SchemaValid, WellRelated, ManifestValid, IsClosure, Outside;
    var index := ById(modules);
    AvailabilityPropagates(modules, id);
    ClosureIsReachable(DependenciesOf(index), id, closure);
    var a := AdditionsFor(EntryIndex(index), closure);
    AdditionsAreOneLine(modules, closure);
    AddTextReads(manifest, a);
    AddTextKeepsOutside(manifest, a);
    var d, merged := Declared(manifest).value, Declared(AddText(manifest, a).value).value;
    AdditionsCoverClosure(index, closure);
    MergeKeepsManifestValid(index, d, merged, id, closure);
  }

  /** Adding the same module again, whatever order its closure is found in, changes nothing. */
  lemma AddingAgainChangesNothing(
    modules: seq<Descriptor>, id: string, closure: seq<string>, again: seq<string>, manifest: string)
    requires forall m | m in modules :: SchemaValid(m)
    requires IsClosure(DependenciesOf(ById(modules)), id, closure)
    requires IsClosure(DependenciesOf(ById(modules)), id, again)
    requires forall x | x in closure :: x in EntryIndex(ById(modules))
    requires AddText(manifest, AdditionsFor(EntryIndex(ById(modules)), closure)).Success?
    ensures forall x | x in again :: x in EntryIndex(ById(modules))
    ensures
      var once := AddText(manifest, AdditionsFor(EntryIndex(ById(modules)), closure));
      AddText(once.value, AdditionsFor(EntryIndex(ById(modules)), again)) == once
  {
    hide AddText, ById, SchemaValid;
    assert forall x :: x in closure <==> x in again;
    AdditionsAreOneLine(modules, closure);
    SameElementsSameAdditions(EntryIndex(ById(modules)), closure, again);
    AddTextIsIdempotent(manifest, AdditionsFor(EntryIndex(ById(modules)), closure));
  }

  lemma SameElementsSameAdditions(index: SnapshotIndex, a: seq<string>, b: seq<string>)
    requires forall x :: x in a <==> x in b
    requires forall x | x in a :: x in index
    ensures AdditionsFor(index, a) == AdditionsFor(index, b)
  {
    assert Elements(a) == Elements(b);
  }

  lemma ClosureIsReachable(g: Dependencies, id: string, closure: seq<string>)
    requires IsClosure(g, id, closure)
    ensures forall x | x in closure :: Reachable(g, id, x)
  {
  }

  lemma AdditionsAreOneLine(modules: seq<Descriptor>, closure: seq<string>)
    requires forall m | m in modules :: SchemaValid(m)
    requires forall x | x in closure :: x in ById(modules)
    ensures OneLineAdditions(AdditionsFor(EntryIndex(ById(modules)), closure))
  {
  }

  lemma AdditionsCoverClosure(index: Index, closure: seq<string>)
    requires forall x | x in closure :: x in index
    ensures
      var a := AdditionsFor(EntryIndex(index), closure);
      forall x | x in closure :: Subset(index[x].apiScopes, a.apiScopes)
                              && Subset(index[x].devicePermissions, a.device)
  {
    var entries := EntryIndex(index);
    forall x | x in closure ensures
      var a := AdditionsFor(entries, closure);
      Subset(index[x].apiScopes, a.apiScopes) && Subset(index[x].devicePermissions, a.device)
    {
      var a := AdditionsFor(entries, closure);
      assert x in entries;
      forall i | 0 <= i < |index[x].apiScopes| ensures index[x].apiScopes[i] in a.apiScopes {
        assert index[x].apiScopes[i] in entries[x].apiScopes;
      }
      forall i | 0 <= i < |index[x].devicePermissions|
        ensures index[x].devicePermissions[i] in a.device
      {
        assert index[x].devicePermissions[i] in entries[x].devicePermissions;
      }
    }
  }

  /**
   * From descriptors to a validated manifest: when the catalog loads without errors and the
   * manifest is valid, publishing the snapshot and adding any available module succeeds, and the
   * catalog finds nothing to report about the result.
   */
  method PublishAndAdd(parsed: seq<Descriptor>, id: string, manifest: string)
    returns (loadErrors: seq<string>, added: Result<string, AddError>, manifestErrors: seq<string>)
    requires forall m | m in parsed :: SchemaValid(m)
    ensures loadErrors == [] <==> WellRelated(SortedBy(parsed, IdOf))
    ensures
      var index := ById(SortedBy(parsed, IdOf));
      && loadErrors == []
      && Declared(manifest).Some? && ManifestValid(index, Declared(manifest).value)
      && id in index && index[id].status == "available"
      ==> added.Success? && manifestErrors == []
          && Declared(added.value).Some? && id in Declared(added.value).value.modules
          && AddsWhatIsNeeded(NeedsOfCatalog(index), id, Declared(manifest).value, Declared(added.value).value)
          && Outside(Lines(added.value)) == Outside(Lines(manifest))
  {
    hide Outside, AddsWhatIsNeeded, OneLineIndex, NeedsOfSnapshot, NeedsOfCatalog, Declared, WellRelated,
      ManifestValid, LoadSnapshot, SnapshotOf, AddText, SchemaValid, ById, IndexOfSnapshot, Readable;
    var modules;
    modules, loadErrors := Load(parsed, []);
    forall m | m in modules ensures SchemaValid(m) {
      assert m in multiset(modules);
    }
    added := Add(SnapshotOf(modules), id, manifest);
    manifestErrors := [];
    if added.Success? {
      manifestErrors := ValidateManifest(ById(modules), Declared(added.value));
    }
    if
      && loadErrors == []
      && Declared(manifest).Some? && ManifestValid(ById(modules), Declared(manifest).value)
      && id in ById(modules) && ById(modules)[id].status == "available"
    {
      AddedFromCatalog(modules, id, manifest);
      ghost var g := DependenciesOf(ById(modules));
      ghost var closure :| IsClosure(g, id, closure)
        && (forall x | x in closure :: x in EntryIndex(ById(modules)))
        && AddText(manifest, AdditionsFor(EntryIndex(ById(modules)), closure)) == Success(added.value);
      AddingIsSafe(modules, id, closure, manifest);
      CatalogIsOneLine(modules);
      SameNeeds(ById(modules));
    }
  }

  lemma CatalogIsOneLine(modules: seq<Descriptor>)
    requires forall m | m in modules :: SchemaValid(m)
    ensures OneLineIndex(EntryIndex(ById(modules)))
  {
    hide ById;
    var index := ById(modules);
    forall x | x in index ensures OneLine(x)
      && (forall s | s in Entry(index[x]).apiScopes :: OneLine(s))
      && (forall s | s in Entry(index[x]).devicePermissions :: OneLine(s))
    {
      assert SchemaValid(index[x]);
    }
  }

  lemma SameNeeds(index: Index)
    ensures NeedsOfSnapshot(EntryIndex(index)) == NeedsOfCatalog(index)
  {
  }

  /** On its own snapshot, the command sees what the catalog saw. */
  lemma AddedFromCatalog(modules: seq<Descriptor>, id: string, manifest: string)
    requires WellRelated(modules) && InOrder(modules, IdOf)
    requires forall m | m in modules :: SchemaValid(m)
    requires Declared(manifest).Some?
    requires id in ById(modules) && ById(modules)[id].status == "available"
    ensures LoadSnapshot(SnapshotOf(modules)).Success?
    ensures IndexOfSnapshot(LoadSnapshot(SnapshotOf(modules)).value) == EntryIndex(ById(modules))
    ensures SnapshotDependencies(EntryIndex(ById(modules))) == DependenciesOf(ById(modules))
    ensures Resolvable(DependenciesOf(ById(modules)), id)
    ensures Readable(Lines(manifest))
    ensures id in EntryIndex(ById(modules)) && EntryIndex(ById(modules))[id].status == "available"
  {
    hide LoadSnapshot, SnapshotOf, ById, IndexOfSnapshot, Readable, Declared, SnapshotDependencies, DependenciesOf;
    DeclaredIsReadable(manifest);
    SnapshotSurvives(modules);
    IndexSurvives(modules);
    DependenciesSurvive(modules);
    AvailabilityPropagates(modules, id);
  }
}
