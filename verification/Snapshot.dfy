/** The JSON snapshot of the catalog: written by the catalog, read by the module command. */
module Snapshot {
  import opened Catalog
  import opened Graph
  import opened Sorting
  import opened Text
  import opened Wrappers

  /** The field names of the snapshot; localized texts are keyed by language code. */
  datatype Key =
    | SchemaVersion | Modules
    | Id | Name | Summary | Status | Delivery | Type | Package | DeepLinks
    | Requires | ApiScopes | Features | Permissions | DevicePermissions
    | Language(code: string)

  datatype Json =
    | Null
    | Number(n: int)
    | Str(s: string)
    | Arr(items: seq<Json>)
    | Obj(fields: map<Key, Json>)

  /** A module as the command reads it from the snapshot. */
  datatype SnapshotModule = SnapshotModule(
    id: string,
    name: map<string, string>,
    summary: map<string, string>,
    status: string,
    delivery: string,
    requiredModules: seq<string>,
    apiScopes: seq<string>,
    features: seq<string>,
    permissions: seq<string>,
    devicePermissions: seq<string>,
    deepLinks: seq<string>)

  function StringsToJson(values: seq<string>): Json {
    Arr(seq(|values|, i requires 0 <= i < |values| => Str(values[i])))
  }

  function LocalizedToJson(values: map<string, string>): Json {
    Obj(map k | k in values :: Language(k) := Str(values[k]))
  }

  function DeliveryToJson(m: Descriptor): Json {
    Obj(if m.package.Some? then map[Type := Str(m.deliveryType), Package := Str(m.package.value)]
        else map[Type := Str(m.deliveryType)])
  }

  function RequiresToJson(m: Descriptor): Json {
    Obj(map[
      Modules := StringsToJson(m.requiredModules),
      ApiScopes := StringsToJson(m.apiScopes),
      Features := StringsToJson(m.features),
      Permissions := StringsToJson(m.permissions),
      DevicePermissions := StringsToJson(m.devicePermissions)])
  }

  function ToJson(m: Descriptor): Json {
    Obj(map[
      Id := Str(m.id),
      Name := LocalizedToJson(m.names),
      Summary := LocalizedToJson(m.summaries),
      Status := Str(m.status),
      Delivery := DeliveryToJson(m),
      Requires := RequiresToJson(m),
      DeepLinks := StringsToJson(m.deepLinks)])
  }

  /** `renderSnapshot` of all modules, before it is printed. */
  function SnapshotOf(modules: seq<Descriptor>): Json {
    Obj(map[
      SchemaVersion := Number(1),
      Modules := Arr(seq(|modules|, i requires 0 <= i < |modules| => ToJson(modules[i])))])
  }

  // Reading: any missing or malformed field rejects the snapshot.

  function Field(value: Json, key: Key): Option<Json> {
    if value.Obj? && key in value.fields then Some(value.fields[key]) else None
  }

  function ObjectField(value: Json, key: Key): Option<Json> {
    var field :- Field(value, key);
    if field.Obj? then Some(field) else None
  }

  function StringField(value: Json, key: Key): Option<string> {
    var field :- Field(value, key);
    if field.Str? && field.s != "" then Some(field.s) else None
  }

  function StringsField(value: Json, key: Key): Option<seq<string>> {
    var field :- Field(value, key);
    if field.Arr? && forall i | 0 <= i < |field.items| :: field.items[i].Str? then
      Some(seq(|field.items|, i requires 0 <= i < |field.items| => field.items[i].s))
    else None
  }

  function LocalizedField(value: Json, key: Key): Option<map<string, string>> {
    var field :- ObjectField(value, key);
    var de :- StringField(field, Language("de"));
    var en :- StringField(field, Language("en"));
    Some(map["de" := de, "en" := en])
  }

  function DeliveryText(delivery: Json): Option<string> {
    var kind :- StringField(delivery, Type);
    var package := Field(delivery, Package);
    if package.None? || package.value.Null? then Some(kind)
    else
      var name :- StringField(delivery, Package);
      Some(kind + " (" + name + ")")
  }

  datatype Requirements = Requirements(
    modules: seq<string>,
    apiScopes: seq<string>,
    features: seq<string>,
    permissions: seq<string>,
    devicePermissions: seq<string>)

  function RequirementsFromJson(value: Json): Option<Requirements> {
    var modules :- StringsField(value, Modules);
    var apiScopes :- StringsField(value, ApiScopes);
    var features :- StringsField(value, Features);
    var permissions :- StringsField(value, Permissions);
    var devicePermissions :- StringsField(value, DevicePermissions);
    Some(Requirements(modules, apiScopes, features, permissions, devicePermissions))
  }

  function ModuleFromJson(value: Json): Option<SnapshotModule> {
    var delivery :- ObjectField(value, Delivery);
    var requires_ :- ObjectField(value, Requires);
    var id :- StringField(value, Id);
    var name :- LocalizedField(value, Name);
    var summary :- LocalizedField(value, Summary);
    var status :- StringField(value, Status);
    var deliveryText :- DeliveryText(delivery);
    var needs :- RequirementsFromJson(requires_);
    var deepLinks :- StringsField(value, DeepLinks);
    Some(SnapshotModule(
      id, name, summary, status, deliveryText, needs.modules, needs.apiScopes, needs.features,
      needs.permissions, needs.devicePermissions, deepLinks))
  }

  function ModulesFromJson(values: seq<Json>): Option<seq<SnapshotModule>> {
    if values == [] then Some([])
    else
      var first :- ModuleFromJson(values[0]);
      var rest :- ModulesFromJson(values[1..]);
      Some([first] + rest)
  }

  function KeyOf(m: SnapshotModule): string {
    m.id
  }

  /** `modules.map((module) => module.id).toSet()`. */
  function Ids(modules: seq<SnapshotModule>): (ids: set<string>)
    ensures forall id :: id in ids <==> exists i :: 0 <= i < |modules| && modules[i].id == id
  {
    if modules == [] then {} else Ids(modules[..|modules| - 1]) + {modules[|modules| - 1].id}
  }

  datatype LoadError = UnsupportedSnapshot | NoModules | InvalidModule | DuplicateIds

  function LoadSnapshot(decoded: Json): Result<seq<SnapshotModule>, LoadError> {
    var version := Field(decoded, SchemaVersion);
    if version != Some(Number(1)) then Failure(UnsupportedSnapshot)
    else
      var values := Field(decoded, Modules);
      if values.None? || !values.value.Arr? then Failure(NoModules)
      else
        var parsed := ModulesFromJson(values.value.items);
        if parsed.None? then Failure(InvalidModule)
        else
          var modules := SortedBy(parsed.value, KeyOf);
          if |Ids(modules)| != |modules| then Failure(DuplicateIds)
          else Success(modules)
  }

  /** The last entry of an id, as in a Dart map literal. */
  function IndexOfSnapshot(modules: seq<SnapshotModule>): (index: map<string, SnapshotModule>)
    ensures forall id | id in index :: index[id] in modules && index[id].id == id
    ensures forall m | m in modules :: m.id in index
  {
    if modules == [] then map[]
    else
      var last := modules[|modules| - 1];
      assert forall m | m in modules :: m == last || m in modules[..|modules| - 1];
      IndexOfSnapshot(modules[..|modules| - 1])[last.id := last]
  }

  function SnapshotDependencies(index: map<string, SnapshotModule>): Dependencies {
    map id | id in index :: index[id].requiredModules
  }

  // What the reader accepts.

  /** An entry with all its fields; the package may be missing or null. */
  predicate Complete(value: Json) {
    && HasText(value, Id) && HasText(value, Status)
    && HasTexts(value, Name) && HasTexts(value, Summary)
    && HasStrings(value, DeepLinks)
    && Field(value, Delivery).Some?
    && var delivery := Field(value, Delivery).value;
    && delivery.Obj? && HasText(delivery, Type)
    && (Field(delivery, Package) in {None, Some(Null)} || HasText(delivery, Package))
    && Field(value, Requires).Some?
    && var needs := Field(value, Requires).value;
    && needs.Obj?
    && HasStrings(needs, Modules) && HasStrings(needs, ApiScopes) && HasStrings(needs, Features)
    && HasStrings(needs, Permissions) && HasStrings(needs, DevicePermissions)
  }

  predicate HasText(value: Json, key: Key) {
    value.Obj? && key in value.fields && value.fields[key].Str? && value.fields[key].s != ""
  }

  predicate HasTexts(value: Json, key: Key) {
    && value.Obj? && key in value.fields && value.fields[key].Obj?
    && HasText(value.fields[key], Language("de")) && HasText(value.fields[key], Language("en"))
  }

  predicate HasStrings(value: Json, key: Key) {
    && value.Obj? && key in value.fields && value.fields[key].Arr?
    && forall i | 0 <= i < |value.fields[key].items| :: value.fields[key].items[i].Str?
  }

  lemma EntryIsRead(value: Json)
    ensures ModuleFromJson(value).Some? <==> Complete(value)
    ensures Complete(value) ==> ModuleFromJson(value).value.id == value.fields[Id].s
  {
  }

  lemma {:induction false} EntriesAreRead(values: seq<Json>)
    ensures ModulesFromJson(values).Some? <==> forall i | 0 <= i < |values| :: Complete(values[i])
    ensures ModulesFromJson(values).Some? ==>
      && |ModulesFromJson(values).value| == |values|
      && forall i | 0 <= i < |values| :: ModuleFromJson(values[i]) == Some(ModulesFromJson(values).value[i])
  {
    hide Complete, ModuleFromJson;
    if values != [] {
      EntryIsRead(values[0]);
      EntriesAreRead(values[1..]);
      assert forall i | 0 < i < |values| :: values[i] == values[1..][i - 1];
      assert forall i | 0 <= i < |values| - 1 :: values[1..][i] == values[i + 1];
    }
  }

  /** Schema version 1, and a list of complete entries. */
  predicate WellFormedSnapshot(decoded: Json) {
    && Field(decoded, SchemaVersion) == Some(Number(1))
    && Field(decoded, Modules).Some? && Field(decoded, Modules).value.Arr?
    && forall i | 0 <= i < |Field(decoded, Modules).value.items| :: Complete(Field(decoded, Modules).value.items[i])
  }

  /** The entries as written, in their order. */
  ghost predicate ReadAs(decoded: Json, parsed: seq<SnapshotModule>) {
    && WellFormedSnapshot(decoded)
    && var values := Field(decoded, Modules).value.items;
    && |parsed| == |values|
    && forall i | 0 <= i < |values| :: ModuleFromJson(values[i]) == Some(parsed[i])
  }

  /**
   * The reader accepts exactly snapshots of version 1 with complete entries and distinct ids, and
   * returns all entries sorted by id.
   */
  lemma AcceptedSnapshots(decoded: Json)
    ensures LoadSnapshot(decoded).Success? <==> exists parsed :: ReadAs(decoded, parsed) && DistinctKeys(parsed, KeyOf)
    ensures LoadSnapshot(decoded).Success? ==>
      var modules := LoadSnapshot(decoded).value;
      InOrder(modules, KeyOf) && exists parsed :: ReadAs(decoded, parsed) && multiset(parsed) == multiset(modules)
  {
    hide Complete, ModuleFromJson, ModulesFromJson, SortedBy, Ids, InOrder, DistinctKeys;
    if WellFormedSnapshot(decoded) {
      var values := Field(decoded, Modules).value.items;
      EntriesAreRead(values);
      var parsed := ModulesFromJson(values).value;
      assert ReadAs(decoded, parsed);
      var modules := SortedBy(parsed, KeyOf);
      assert multiset(modules) == multiset(parsed);
      CountDecidesDistinct(modules);
      DistinctIsUnordered(parsed, modules);
      forall other | ReadAs(decoded, other) ensures other == parsed {
        assert forall i | 0 <= i < |values| :: Some(other[i]) == Some(parsed[i]);
      }
    } else if Field(decoded, Modules).Some? && Field(decoded, Modules).value.Arr? {
      EntriesAreRead(Field(decoded, Modules).value.items);
    }
  }

  lemma {:induction false} CountDecidesDistinct(modules: seq<SnapshotModule>)
    ensures |Ids(modules)| <= |modules|
    ensures |Ids(modules)| == |modules| <==> DistinctKeys(modules, KeyOf)
  {
    hide DistinctKeys;
    if modules == [] {
      NoneAreDistinct();
    } else {
      var front, last := modules[..|modules| - 1], modules[|modules| - 1];
      assert modules == front + [last];
      CountDecidesDistinct(front);
      DistinctGrows(front, last);
    }
  }

  lemma NoneAreDistinct()
    ensures DistinctKeys([], KeyOf)
  {
  }

  lemma DistinctGrows(front: seq<SnapshotModule>, last: SnapshotModule)
    ensures DistinctKeys(front + [last], KeyOf) <==> DistinctKeys(front, KeyOf) && last.id !in Ids(front)
  {
    var modules := front + [last];
    assert forall i | 0 <= i < |front| :: modules[i] == front[i];
    if DistinctKeys(modules, KeyOf) {
      assert forall i | 0 <= i < |front| :: KeyOf(modules[i]) != KeyOf(modules[|front|]);
      assert forall i, j | 0 <= i < j < |front| :: KeyOf(modules[i]) != KeyOf(modules[j]);
    }
  }

  lemma DistinctIsUnordered(a: seq<SnapshotModule>, b: seq<SnapshotModule>)
    requires multiset(a) == multiset(b)
    ensures DistinctKeys(a, KeyOf) <==> DistinctKeys(b, KeyOf)
  {
    CountDecidesDistinct(a);
    CountDecidesDistinct(b);
    assert |multiset(a)| == |multiset(b)|;
    assert forall m :: m in a <==> m in multiset(a);
    assert forall m :: m in b <==> m in multiset(b);
    forall id ensures id in Ids(a) <==> id in Ids(b) {
      if id in Ids(a) {
        var i :| 0 <= i < |a| && a[i].id == id;
        assert a[i] in b;
      }
      if id in Ids(b) {
        var i :| 0 <= i < |b| && b[i].id == id;
        assert b[i] in a;
      }
    }
    assert Ids(a) == Ids(b);
  }

  // What the descriptor schema guarantees about every descriptor the catalog accepts.

  predicate Localized(values: map<string, string>) {
    && values.Keys == {"de", "en"}
    && values["de"] != "" && values["en"] != ""
  }

  predicate SchemaValid(m: Descriptor) {
    && m.id != "" && m.status != "" && m.deliveryType != ""
    && Localized(m.names) && Localized(m.summaries)
    && m.package != Some("")
    && OneLine(m.id)
    && (forall i | 0 <= i < |m.apiScopes| :: OneLine(m.apiScopes[i]))
    && (forall i | 0 <= i < |m.devicePermissions| :: OneLine(m.devicePermissions[i]))
  }

  /** The snapshot entry a descriptor becomes: only the delivery is rendered to text. */
  function Entry(m: Descriptor): SnapshotModule {
    SnapshotModule(
      m.id, m.names, m.summaries, m.status,
      if m.package.Some? then m.deliveryType + " (" + m.package.value + ")" else m.deliveryType,
      m.requiredModules, m.apiScopes, m.features, m.permissions, m.devicePermissions, m.deepLinks)
  }

  lemma StringsSurvive(values: seq<string>, value: Json, key: Key)
    requires Field(value, key) == Some(StringsToJson(values))
    ensures StringsField(value, key) == Some(values)
  {
    assert StringsField(value, key).value == values;
  }

  lemma LocalizedSurvives(values: map<string, string>, value: Json, key: Key)
    requires Localized(values) && Field(value, key) == Some(LocalizedToJson(values))
    ensures LocalizedField(value, key) == Some(values)
  {
    assert values == map["de" := values["de"], "en" := values["en"]];
  }

  lemma RequirementsSurvive(m: Descriptor)
    ensures RequirementsFromJson(RequiresToJson(m)) == Some(Requirements(
      m.requiredModules, m.apiScopes, m.features, m.permissions, m.devicePermissions))
  {
    var value := RequiresToJson(m);
    StringsSurvive(m.requiredModules, value, Modules);
    StringsSurvive(m.apiScopes, value, ApiScopes);
    StringsSurvive(m.features, value, Features);
    StringsSurvive(m.permissions, value, Permissions);
    StringsSurvive(m.devicePermissions, value, DevicePermissions);
  }

  /** Reading a rendered descriptor gives back everything the command uses. */
  lemma EntrySurvives(m: Descriptor)
    requires SchemaValid(m)
    ensures ModuleFromJson(ToJson(m)) == Some(Entry(m))
  {
    hide RequirementsFromJson, DeliveryText;
    hide LocalizedField, LocalizedToJson, StringsField, StringsToJson;
    var value := ToJson(m);
    RequirementsSurvive(m);
    DeliverySurvives(m);
    LocalizedSurvives(m.names, value, Name);
    LocalizedSurvives(m.summaries, value, Summary);
    StringsSurvive(m.deepLinks, value, DeepLinks);
  }

  lemma DeliverySurvives(m: Descriptor)
    requires SchemaValid(m)
    ensures DeliveryText(DeliveryToJson(m)) == Some(Entry(m).delivery)
  {
  }

  function Entries(modules: seq<Descriptor>): seq<SnapshotModule> {
    seq(|modules|, i requires 0 <= i < |modules| => Entry(modules[i]))
  }

  function JsonOf(modules: seq<Descriptor>): seq<Json> {
    seq(|modules|, i requires 0 <= i < |modules| => ToJson(modules[i]))
  }

  lemma {:induction false} EntriesSurvive(modules: seq<Descriptor>)
    requires forall m | m in modules :: SchemaValid(m)
    ensures ModulesFromJson(JsonOf(modules)) == Some(Entries(modules))
  {
    hide ModuleFromJson, ToJson, Entry;
    if modules != [] {
      EntrySurvives(modules[0]);
      EntriesSurvive(modules[1..]);
      assert JsonOf(modules)[1..] == JsonOf(modules[1..]);
      assert Entries(modules) == [Entry(modules[0])] + Entries(modules[1..]);
    }
  }

  lemma EntriesInOrder(modules: seq<Descriptor>)
    requires InOrder(modules, IdOf) && DistinctKeys(modules, IdOf)
    ensures InOrder(Entries(modules), KeyOf) && DistinctKeys(Entries(modules), KeyOf)
  {
    assert forall i | 0 <= i < |modules| :: KeyOf(Entries(modules)[i]) == IdOf(modules[i]);
  }

  /**
   * A sorted catalog with distinct ids comes back from its snapshot in the same order, entry by
   * entry; the duplicate check of the reader never fires on it.
   */
  lemma SnapshotSurvives(modules: seq<Descriptor>)
    requires InOrder(modules, IdOf) && DistinctKeys(modules, IdOf)
    requires forall m | m in modules :: SchemaValid(m)
    ensures LoadSnapshot(SnapshotOf(modules)) == Success(Entries(modules))
  {
    hide ModulesFromJson, ToJson, SortedBy, InOrder, DistinctKeys, Ids;
    var entries := Entries(modules);
    EntriesSurvive(modules);
    EntriesInOrder(modules);
    assert Field(SnapshotOf(modules), Modules) == Some(Arr(JsonOf(modules)));
    SortIsCanonical(entries, SortedBy(entries, KeyOf), KeyOf);
    CountDecidesDistinct(entries);
  }

  /** The snapshot does not depend on the order in which descriptors were found. */
  lemma SnapshotIsStable(parsed: seq<Descriptor>, reordered: seq<Descriptor>)
    requires multiset(parsed) == multiset(reordered)
    requires DistinctKeys(SortedBy(parsed, IdOf), IdOf)
    ensures SnapshotOf(SortedBy(parsed, IdOf)) == SnapshotOf(SortedBy(reordered, IdOf))
  {
    SortIsCanonical(SortedBy(parsed, IdOf), SortedBy(reordered, IdOf), IdOf);
  }

  function EntryIndex(index: Index): map<string, SnapshotModule> {
    map id | id in index :: Entry(index[id])
  }

  /** The command sees the same modules and states as the catalog. */
  lemma {:induction false} IndexSurvives(modules: seq<Descriptor>)
    ensures IndexOfSnapshot(Entries(modules)) == EntryIndex(ById(modules))
  {
    hide Entry, EntryIndex, ById, IndexOfSnapshot;
    if modules == [] {
      EmptyIndexes();
    } else {
      var front, last := modules[..|modules| - 1], modules[|modules| - 1];
      assert modules == front + [last];
      IndexSurvives(front);
      assert Entries(modules) == Entries(front) + [Entry(last)];
      EntryId(last);
      SnapshotIndexGrows(Entries(front), Entry(last));
      CatalogIndexGrows(front, last);
      EntryIndexGrows(ById(front), last);
    }
  }

  lemma EmptyIndexes()
    ensures IndexOfSnapshot(Entries([])) == EntryIndex(ById([]))
  {
  }

  lemma SnapshotIndexGrows(front: seq<SnapshotModule>, last: SnapshotModule)
    ensures IndexOfSnapshot(front + [last]) == IndexOfSnapshot(front)[last.id := last]
  {
    assert (front + [last])[..|front|] == front;
  }

  lemma CatalogIndexGrows(front: seq<Descriptor>, last: Descriptor)
    ensures ById(front + [last]) == ById(front)[last.id := last]
  {
    assert (front + [last])[..|front|] == front;
  }

  lemma EntryIndexGrows(index: Index, last: Descriptor)
    ensures EntryIndex(index[last.id := last]) == EntryIndex(index)[last.id := Entry(last)]
  {
    hide Entry;
  }

  lemma EntryId(m: Descriptor)
    ensures Entry(m).id == m.id && Entry(m).requiredModules == m.requiredModules
  {
  }

  /** ... and the same dependency graph. */
  lemma DependenciesSurvive(modules: seq<Descriptor>)
    ensures SnapshotDependencies(IndexOfSnapshot(Entries(modules))) == DependenciesOf(ById(modules))
  {
    hide IndexOfSnapshot, ById, Entry;
    IndexSurvives(modules);
    forall m { EntryId(m); }
  }
}
