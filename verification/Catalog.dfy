/** The module catalog: relationship checks between descriptors and manifest validation. */
module Catalog {
  import opened CycleSearch
  import opened Graph
  import opened Resolver
  import opened Sorting
  import opened Text
  import opened Wrappers

  datatype Descriptor = Descriptor(
    id: string,
    names: map<string, string>,
    summaries: map<string, string>,
    status: string,
    deliveryType: string,
    package: Option<string>,
    requiredModules: seq<string>,
    apiScopes: seq<string>,
    features: seq<string>,
    permissions: seq<string>,
    devicePermissions: seq<string>,
    deepLinks: seq<string>)

  type Index = map<string, Descriptor>

  /** `{for (final module in modules) module.id: module}`: the last descriptor of an id wins. */
  function ById(modules: seq<Descriptor>): (index: Index)
    ensures forall id :: id in index <==> exists i :: 0 <= i < |modules| && modules[i].id == id
    ensures forall id | id in index :: index[id] in modules && index[id].id == id
  {
    if modules == [] then map[]
    else
      var last := modules[|modules| - 1];
      ById(modules[..|modules| - 1])[last.id := last]
  }

  function DependenciesOf(index: Index): Dependencies {
    map id | id in index :: index[id].requiredModules
  }

  function IdOf(m: Descriptor): string {
    m.id
  }

  /** What an accepted catalog promises about its descriptors and their relationships. */
  ghost predicate WellRelated(modules: seq<Descriptor>) {
    && modules != []
    && DistinctKeys(modules, IdOf)
    && (forall i | 0 <= i < |modules| :: RequirementsMet(ById(modules), modules[i]))
    && Acyclic(DependenciesOf(ById(modules)))
  }

  ghost predicate RequirementsMet(index: Index, m: Descriptor) {
    forall i | 0 <= i < |m.requiredModules| :: RequirementMet(index, m, m.requiredModules[i])
  }

  predicate RequirementMet(index: Index, m: Descriptor, dependency: string) {
    dependency in index && (m.status == "available" ==> index[dependency].status == "available")
  }

  /** The message names the module and a required module that is unknown, or not as available. */
  ghost predicate ReportsRequirement(index: Index, m: Descriptor, message: string) {
    exists i :: 0 <= i < |m.requiredModules| && !RequirementMet(index, m, m.requiredModules[i])
      && message == RequirementMessage(index, m, m.requiredModules[i])
  }

  function RequirementMessage(index: Index, m: Descriptor, dependency: string): string {
    if dependency !in index then "Module " + m.id + " requires unknown module " + dependency + "."
    else "Available module " + m.id + " requires unavailable module " + dependency + "."
  }

  /** Reports exactly the requirements of one module that are not met. */
  method RequirementErrors(index: Index, m: Descriptor) returns (errors: seq<string>)
    ensures errors == [] <==> RequirementsMet(index, m)
    ensures forall message :: message in errors <==> ReportsRequirement(index, m, message)
  {
    errors := [];
    for i := 0 to |m.requiredModules|
      invariant errors == [] <==> forall j | 0 <= j < i :: RequirementMet(index, m, m.requiredModules[j])
      invariant forall message :: message in errors <==>
        exists j :: 0 <= j < i && !RequirementMet(index, m, m.requiredModules[j])
          && message == RequirementMessage(index, m, m.requiredModules[j])
    {
      var dependency := m.requiredModules[i];
      if dependency !in index {
        errors := errors + ["Module " + m.id + " requires unknown module " + dependency + "."];
      } else if m.status == "available" && index[dependency].status != "available" {
        errors := errors
          + ["Available module " + m.id + " requires unavailable module " + dependency + "."];
      }
    }
  }

  method RelationshipErrors(index: Index, modules: seq<Descriptor>) returns (errors: seq<string>)
    ensures errors == [] <==> forall i | 0 <= i < |modules| :: RequirementsMet(index, modules[i])
    ensures forall message :: message in errors <==>
      exists i :: 0 <= i < |modules| && ReportsRequirement(index, modules[i], message)
  {
    hide RequirementsMet, ReportsRequirement;
    errors := [];
    for i := 0 to |modules|
      invariant errors == [] <==> forall j | 0 <= j < i :: RequirementsMet(index, modules[j])
      invariant forall message :: message in errors <==>
        exists j :: 0 <= j < i && ReportsRequirement(index, modules[j], message)
    {
      var unmet := RequirementErrors(index, modules[i]);
      errors := errors + unmet;
    }
  }

  /** The message names an id that two modules share. */
  ghost predicate ReportsDuplicate(modules: seq<Descriptor>, message: string) {
    exists i, j :: 0 <= i < j < |modules| && modules[i].id == modules[j].id
      && message == DuplicateMessage(modules[i].id)
  }

  function DuplicateMessage(id: string): string {
    "Duplicate module id: " + id + "."
  }

  /** In a sorted list, a repeated id is repeated by neighbours. */
  lemma RepeatedByNeighbours(modules: seq<Descriptor>, i: nat, j: nat)
    requires InOrder(modules, IdOf) && i < j < |modules| && modules[i].id == modules[j].id
    ensures modules[i].id == modules[i + 1].id
  {
    assert !Before(IdOf(modules[i + 1]), IdOf(modules[i]));
    assert i + 1 < j ==> !Before(IdOf(modules[j]), IdOf(modules[i + 1]));
    BeforeIsTotal(modules[i].id, modules[i + 1].id);
  }

  lemma NeighboursFindRepeated(modules: seq<Descriptor>, duplicateIds: set<string>)
    requires InOrder(modules, IdOf)
    requires forall id :: id in duplicateIds <==>
      exists i :: 0 < i < |modules| && modules[i - 1].id == modules[i].id == id
    ensures forall id :: id in duplicateIds <==>
      exists i, j :: 0 <= i < j < |modules| && modules[i].id == modules[j].id == id
  {
    hide InOrder;
    forall id ensures id in duplicateIds <==>
      exists i, j :: 0 <= i < j < |modules| && modules[i].id == modules[j].id == id
    {
      if i, j :| 0 <= i < j < |modules| && modules[i].id == modules[j].id == id {
        RepeatedByNeighbours(modules, i, j);
        assert modules[i + 1 - 1].id == modules[i + 1].id == id;
      }
      if id in duplicateIds {
        var k :| 0 < k < |modules| && modules[k - 1].id == modules[k].id == id;
        assert 0 <= k - 1 < k;
      }
    }
  }

  method DuplicateErrors(modules: seq<Descriptor>) returns (errors: seq<string>)
    requires InOrder(modules, IdOf)
    ensures errors == [] <==> DistinctKeys(modules, IdOf)
    ensures forall message :: message in errors <==> ReportsDuplicate(modules, message)
  {
    hide InOrder, DistinctKeys, ReportsDuplicate;
    var duplicateIds: set<string> := {};
    var index := 1;
    while index < |modules|
      invariant 1 <= index
      invariant forall id :: id in duplicateIds <==>
        exists i :: 0 < i < |modules| && i < index && modules[i - 1].id == modules[i].id == id
    {
      if modules[index - 1].id == modules[index].id {
        duplicateIds := duplicateIds + {modules[index].id};
      }
      index := index + 1;
    }
    NeighboursFindRepeated(modules, duplicateIds);
    var sorted := Ascending(duplicateIds);
    errors := [];
    for i := 0 to |sorted|
      invariant |errors| == i && forall j | 0 <= j < i :: errors[j] == DuplicateMessage(sorted[j])
    {
      errors := errors + ["Duplicate module id: " + sorted[i] + "."];
    }
    DuplicatesAreReported(modules, duplicateIds, sorted, errors);
  }

  lemma DuplicatesAreReported(
    modules: seq<Descriptor>, duplicateIds: set<string>, sorted: seq<string>, errors: seq<string>)
    requires forall id :: id in duplicateIds <==>
      exists i, j :: 0 <= i < j < |modules| && modules[i].id == modules[j].id == id
    requires forall id :: id in sorted <==> id in duplicateIds
    requires |errors| == |sorted| && forall j | 0 <= j < |sorted| :: errors[j] == DuplicateMessage(sorted[j])
    ensures errors == [] <==> DistinctKeys(modules, IdOf)
    ensures forall message :: message in errors <==> ReportsDuplicate(modules, message)
  {
    hide DuplicateMessage;
    if i, j :| 0 <= i < j < |modules| && IdOf(modules[i]) == IdOf(modules[j]) {
      assert modules[i].id in duplicateIds;
      assert modules[i].id in sorted;
    }
    if errors != [] {
      assert sorted[0] in duplicateIds;
      var i, j :| 0 <= i < j < |modules| && modules[i].id == modules[j].id == sorted[0];
      assert IdOf(modules[i]) == IdOf(modules[j]);
    }
    forall message ensures message in errors <==> ReportsDuplicate(modules, message) {
      if message in errors {
        var k :| 0 <= k < |errors| && errors[k] == message;
        assert sorted[k] in duplicateIds;
      }
      if ReportsDuplicate(modules, message) {
        var i, j :| 0 <= i < j < |modules| && modules[i].id == modules[j].id
          && message == DuplicateMessage(modules[i].id);
        assert modules[i].id in sorted;
        var k :| 0 <= k < |sorted| && sorted[k] == modules[i].id;
        assert errors[k] == message;
      }
    }
  }

  const NO_DESCRIPTOR := "The module catalog must contain at least one descriptor."

  /** What can be said exactly about a catalog; of cycles, some are reported whenever there are any. */
  ghost predicate ReportsRelationship(modules: seq<Descriptor>, message: string) {
    || (modules == [] && message == NO_DESCRIPTOR)
    || ReportsDuplicate(modules, message)
    || exists i :: 0 <= i < |modules| && ReportsRequirement(ById(modules), modules[i], message)
  }

  /**
   * The part of `load` that follows the descriptors' own checks: errors are only added, none is
   * added exactly when the catalog is well related, and each names what is wrong.
   */
  method Load(parsed: seq<Descriptor>, descriptorErrors: seq<string>)
    returns (modules: seq<Descriptor>, errors: seq<string>)
    ensures modules == SortedBy(parsed, IdOf)
    ensures descriptorErrors <= errors
    ensures errors == descriptorErrors <==> WellRelated(modules)
    ensures forall message | message in errors[|descriptorErrors|..] ::
      ReportsRelationship(modules, message) || ReportsCycle(DependenciesOf(ById(modules)), message)
    ensures forall message | ReportsRelationship(modules, message) :: message in errors[|descriptorErrors|..]
    ensures Acyclic(DependenciesOf(ById(modules))) || exists message ::
      message in errors[|descriptorErrors|..] && ReportsCycle(DependenciesOf(ById(modules)), message)
  {
    hide ReportsDuplicate, ReportsRequirement, RequirementsMet, ReportsCycle, ById;
    modules := SortedBy(parsed, IdOf);
    errors := [];
    if modules == [] {
      errors := errors + ["The module catalog must contain at least one descriptor."];
    }
    var duplicates := DuplicateErrors(modules);
    errors := errors + duplicates;
    var index := ById(modules);
    var unmet := RelationshipErrors(index, modules);
    errors := errors + unmet;
    var cycles := DependencyCycleErrors(DependenciesOf(index));
    if cycles != [] {
      assert cycles[0] in cycles && ReportsCycle(DependenciesOf(index), cycles[0]);
    }
    errors := errors + cycles;
    assert errors == [] <==> WellRelated(modules);
    ghost var own := errors;
    errors := descriptorErrors + errors;
    assert errors[|descriptorErrors|..] == own;
  }

  /** In a well-related catalog, what an available module needs is known and available. */
  lemma AvailabilityPropagates(modules: seq<Descriptor>, id: string)
    requires WellRelated(modules)
    requires id in ById(modules) && ById(modules)[id].status == "available"
    ensures forall x | Reachable(DependenciesOf(ById(modules)), id, x) ::
      x in ById(modules) && ById(modules)[x].status == "available"
    ensures Resolvable(DependenciesOf(ById(modules)), id)
  {
    var index := ById(modules);
    var available := set x | x in index && index[x].status == "available";
    forall x, y | x in available && Edge(DependenciesOf(index), x, y) ensures y in available {
      var i :| 0 <= i < |modules| && modules[i] == index[x];
      var j :| 0 <= j < |index[x].requiredModules| && index[x].requiredModules[j] == y;
      assert RequirementsMet(index, modules[i]);
    }
    ClosedSetContainsReachable(DependenciesOf(index), id, available);
  }

  /** The module lists of a manifest, as `validateManifest` reads them. */
  datatype Declarations = Declarations(
    modules: seq<string>, apiScopes: seq<string>, device: seq<string>)

  function Members(list: seq<string>): set<string> {
    set x | x in list
  }

  ghost predicate Subset(list: seq<string>, s: set<string>) {
    forall i | 0 <= i < |list| :: list[i] in s
  }

  ghost predicate SelectionMet(index: Index, d: Declarations, id: string) {
    && id in index
    && index[id].status == "available"
    && Subset(index[id].requiredModules, Members(d.modules))
    && Subset(index[id].apiScopes, Members(d.apiScopes))
    && Subset(index[id].devicePermissions, Members(d.device))
  }

  ghost predicate ManifestValid(index: Index, d: Declarations) {
    forall id | id in d.modules :: SelectionMet(index, d, id)
  }

  /** The message names a required entry that is not declared. */
  ghost predicate ReportsMissing(required: seq<string>, declared: set<string>, prefix: string, message: string) {
    exists i :: 0 <= i < |required| && required[i] !in declared && message == prefix + required[i] + "."
  }

  method Missing(required: seq<string>, declared: set<string>, prefix: string) returns (errors: seq<string>)
    ensures errors == [] <==> Subset(required, declared)
    ensures forall message :: message in errors <==> ReportsMissing(required, declared, prefix, message)
  {
    errors := [];
    for i := 0 to |required|
      invariant errors == [] <==> forall j | 0 <= j < i :: required[j] in declared
      invariant forall message :: message in errors <==>
        exists j :: 0 <= j < i && required[j] !in declared && message == prefix + required[j] + "."
    {
      if required[i] !in declared {
        errors := errors + [prefix + required[i] + "."];
      }
    }
  }

  /** What is wrong with the selection of one module, by name. */
  ghost predicate ReportsSelection(index: Index, d: Declarations, id: string, message: string) {
    if id !in index then message == "Manifest selects unknown module " + id + "."
    else
      var m := index[id];
      || (m.status != "available" && message == "Module " + id + " is " + m.status + " and cannot be selected.")
      || ReportsMissing(m.requiredModules, Members(d.modules), "Module " + id + " requires selected module ", message)
      || ReportsMissing(m.apiScopes, Members(d.apiScopes), "Module " + id + " requires API scope ", message)
      || ReportsMissing(
           m.devicePermissions, Members(d.device), "Module " + id + " requires device permission ", message)
  }

  method SelectionErrors(index: Index, d: Declarations, id: string) returns (errors: seq<string>)
    ensures errors == [] <==> SelectionMet(index, d, id)
    ensures forall message :: message in errors <==> ReportsSelection(index, d, id, message)
  {
    hide ReportsMissing, Subset;
    if id !in index {
      return ["Manifest selects unknown module " + id + "."];
    }
    errors := [];
    if index[id].status != "available" {
      errors := ["Module " + id + " is " + index[id].status + " and cannot be selected."];
    }
    var missing :=
      Missing(index[id].requiredModules, Members(d.modules), "Module " + id + " requires selected module ");
    errors := errors + missing;
    missing := Missing(index[id].apiScopes, Members(d.apiScopes), "Module " + id + " requires API scope ");
    errors := errors + missing;
    missing :=
      Missing(index[id].devicePermissions, Members(d.device), "Module " + id + " requires device permission ");
    errors := errors + missing;
  }

  /** Reports exactly what is wrong with each selected module. */
  method ValidateManifest(index: Index, manifest: Option<Declarations>) returns (errors: seq<string>)
    ensures errors == [] <==> manifest.Some? && ManifestValid(index, manifest.value)
    ensures manifest.None? ==> errors == ["Manifest module declarations are unavailable."]
    ensures manifest.Some? ==> forall message :: message in errors <==>
      exists id :: id in manifest.value.modules && ReportsSelection(index, manifest.value, id, message)
  {
    hide ReportsSelection, SelectionMet;
    if manifest.None? {
      return ["Manifest module declarations are unavailable."];
    }
    var d := manifest.value;
    var selected := Ascending(Members(d.modules));
    errors := [];
    for i := 0 to |selected|
      invariant errors == [] <==> forall j | 0 <= j < i :: SelectionMet(index, d, selected[j])
      invariant forall message :: message in errors <==>
        exists j :: 0 <= j < i && ReportsSelection(index, d, selected[j], message)
    {
      var own := SelectionErrors(index, d, selected[i]);
      errors := errors + own;
    }
    assert forall id :: id in selected <==> id in d.modules;
  }

  /** Adding a closure of available modules with all it needs keeps a manifest valid. */
  lemma MergeKeepsManifestValid(
    index: Index, d: Declarations, merged: Declarations, id: string, closure: seq<string>)
    requires ManifestValid(index, d)
    requires IsClosure(DependenciesOf(index), id, closure)
    requires forall x | x in closure :: index[x].status == "available"
    requires Members(merged.modules) == Members(d.modules) + Members(closure)
    requires Members(d.apiScopes) <= Members(merged.apiScopes)
    requires Members(d.device) <= Members(merged.device)
    requires forall x | x in closure :: Subset(index[x].apiScopes, Members(merged.apiScopes))
    requires forall x | x in closure :: Subset(index[x].devicePermissions, Members(merged.device))
    ensures ManifestValid(index, merged) && id in merged.modules
  {
    var g := DependenciesOf(index);
    assert id in Members(merged.modules);
    forall x | x in merged.modules ensures SelectionMet(index, merged, x) {
      assert x in Members(merged.modules);
      if x in closure {
        var k :| 0 <= k < |closure| && closure[k] == x;
        forall i | 0 <= i < |index[x].requiredModules|
          ensures index[x].requiredModules[i] in Members(merged.modules)
        {
          assert index[x].requiredModules[i] in closure[..k];
          assert index[x].requiredModules[i] in Members(closure);
        }
      } else {
        assert SelectionMet(index, d, x);
      }
    }
  }
}
