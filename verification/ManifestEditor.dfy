/** Line-level edits of the manifest: sorted lists merged in place, everything else kept. */
module ManifestEditor {
  import opened Text
  import opened Wrappers

  /** A list field: a key line inside a top-level section. */
  datatype Target = Target(section: string, key: string)

  datatype EditError = NoSection | NoField | NotScalarList

  /** Where a list is written: its section line, and its block from the key line to `end`. */
  datatype Place = Place(section: nat, start: nat, end: nat)

  predicate SectionLine(t: Target, line: string) {
    line == t.section + ":"
  }

  predicate KeyLine(t: Target, line: string) {
    line == "  " + t.key + ":" || line == "  " + t.key + ": []"
  }

  /** A line that ends a section. */
  predicate Stops(line: string) {
    line != "" && !StartsWith(line, " ")
  }

  predicate InBlock(line: string) {
    line == "" || StartsWith(line, "    ")
  }

  predicate ItemLine(line: string) {
    StartsWith(line, "    - ")
  }

  predicate ScalarList(block: seq<string>) {
    forall i | 0 <= i < |block| :: block[i] == "" || ItemLine(block[i])
  }

  function ItemsIn(block: seq<string>): seq<string> {
    if block == [] then []
    else ItemIn(block[0]) + ItemsIn(block[1..])
  }

  function ItemIn(line: string): seq<string> {
    if ItemLine(line) then [line[|"    - "|..]] else []
  }

  function Elements(list: seq<string>): set<string> {
    set x | x in list
  }

  function FindSection(lines: seq<string>, t: Target, from: nat): (r: Option<nat>)
    requires from <= |lines|
    ensures r.Some? ==> from <= r.value < |lines| && SectionLine(t, lines[r.value])
    ensures forall i | from <= i < (if r.Some? then r.value else |lines|) :: !SectionLine(t, lines[i])
    decreases |lines| - from
  {
    if from == |lines| then None
    else if SectionLine(t, lines[from]) then Some(from)
    else FindSection(lines, t, from + 1)
  }

  function FindField(lines: seq<string>, t: Target, from: nat): (r: Option<nat>)
    requires from <= |lines|
    ensures r.Some? ==>
      && from <= r.value < |lines|
      && !Stops(lines[r.value]) && KeyLine(t, lines[r.value])
      && forall i | from <= i < r.value :: !Stops(lines[i]) && !KeyLine(t, lines[i])
    decreases |lines| - from
  {
    if from == |lines| || Stops(lines[from]) then None
    else if KeyLine(t, lines[from]) then Some(from)
    else FindField(lines, t, from + 1)
  }

  function BlockEnd(lines: seq<string>, from: nat): (end: nat)
    requires from <= |lines|
    ensures from <= end <= |lines|
    ensures forall i | from <= i < end :: InBlock(lines[i])
    ensures end < |lines| ==> !InBlock(lines[end])
    decreases |lines| - from
  {
    if from < |lines| && InBlock(lines[from]) then BlockEnd(lines, from + 1) else from
  }

  function Locate(lines: seq<string>, t: Target): Result<Place, EditError> {
    var section := FindSection(lines, t, 0);
    if section.None? then Failure(NoSection)
    else
      var start := FindField(lines, t, section.value + 1);
      if start.None? then Failure(NoField)
      else Success(Place(section.value, start.value, BlockEnd(lines, start.value + 1)))
  }

  /** The items of a list, in the order in which they are written. */
  function Read(lines: seq<string>, t: Target): Result<seq<string>, EditError> {
    var place :- Locate(lines, t);
    var block := lines[place.start + 1..place.end];
    if ScalarList(block) then Success(ItemsIn(block)) else Failure(NotScalarList)
  }

  function Replacement(t: Target, values: seq<string>): seq<string> {
    if values == [] then ["  " + t.key + ": []"]
    else ["  " + t.key + ":"] + seq(|values|, i requires 0 <= i < |values| => "    - " + values[i])
  }

  function Replace(lines: seq<string>, place: Place, block: seq<string>): seq<string>
    requires place.start <= place.end <= |lines|
  {
    lines[..place.start] + block + lines[place.end..]
  }

  function Merged(lines: seq<string>, t: Target, additions: set<string>): Result<seq<string>, EditError> {
    var existing :- Read(lines, t);
    var values := Ascending(Elements(existing) + additions);
    Success(Replace(lines, Locate(lines, t).value, Replacement(t, values)))
  }

  lemma {:induction false} ItemsAppend(a: seq<string>, b: seq<string>)
    ensures ItemsIn(a + b) == ItemsIn(a) + ItemsIn(b)
  {
    hide ItemIn;
    if a == [] {
      assert a + b == b;
    } else {
      ItemsAppend(a[1..], b);
      assert (a + b)[0] == a[0] && (a + b)[1..] == a[1..] + b;
      Associative(ItemIn(a[0]), ItemsIn(a[1..]), ItemsIn(b));
    }
  }

  lemma Associative<T>(a: seq<T>, b: seq<T>, c: seq<T>)
    ensures a + (b + c) == (a + b) + c
  {
  }

  lemma NoItems()
    ensures ItemsIn([]) == []
  {
  }

  lemma OneItem(line: string)
    ensures ItemsIn([line]) == ItemIn(line)
    ensures line == "" ==> ItemIn(line) == []
  {
    assert [line][1..] == [];
  }

  /** The scan of a section for its field. */
  method FieldIndex(lines: seq<string>, t: Target, section: nat) returns (childIndex: Option<nat>)
    requires section < |lines|
    ensures childIndex == FindField(lines, t, section + 1)
  {
    hide KeyLine, StartsWith;
    childIndex := None;
    var index := section + 1;
    while index < |lines|
      invariant section + 1 <= index <= |lines| && childIndex == None
      invariant FindField(lines, t, section + 1) == FindField(lines, t, index)
    {
      var line := lines[index];
      if line != "" && !StartsWith(line, " ") {
        break;
      }
      if KeyLine(t, line) {
        return Some(index);
      }
      index := index + 1;
    }
  }

  /** The scan of a block for its end and its items; `None` for a line that is not an item. */
  method Collect(lines: seq<string>, start: nat) returns (r: Option<(nat, set<string>)>)
    requires start < |lines|
    ensures
      var end := BlockEnd(lines, start + 1);
      var block := lines[start + 1..end];
      r == if ScalarList(block) then Some((end, Elements(ItemsIn(block)))) else None
  {
    hide ItemLine, StartsWith, ItemIn, ItemsIn;
    NoItems();
    assert lines[start + 1..start + 1] == [];
    var endIndex := start + 1;
    var existing: set<string> := {};
    while endIndex < |lines| && (lines[endIndex] == "" || StartsWith(lines[endIndex], "    "))
      invariant start < endIndex <= |lines|
      invariant BlockEnd(lines, start + 1) == BlockEnd(lines, endIndex)
      invariant ScalarList(lines[start + 1..endIndex])
      invariant existing == Elements(ItemsIn(lines[start + 1..endIndex]))
    {
      var line := lines[endIndex];
      ghost var seen := lines[start + 1..endIndex];
      assert lines[start + 1..endIndex + 1] == seen + [line];
      ItemsAppend(seen, [line]);
      OneItem(line);
      if ItemLine(line) {
        existing := existing + Elements(ItemIn(line));
      } else if line != "" {
        assert BlockEnd(lines, endIndex) == BlockEnd(lines, endIndex + 1);
        assert lines[start + 1..BlockEnd(lines, start + 1)][endIndex - start - 1] == line;
        return None;
      }
      endIndex := endIndex + 1;
    }
    return Some((endIndex, existing));
  }

  /** Scans for the section and the field, collects the written items and rewrites the block. */
  method MergeList(lines: seq<string>, t: Target, additions: set<string>)
    returns (r: Result<seq<string>, EditError>)
    ensures r == Merged(lines, t, additions)
  {
    hide FindSection, FindField, BlockEnd, Replacement, ItemsIn, ScalarList, Ascending;
    var section := FindSection(lines, t, 0);
    if section.None? {
      return Failure(NoSection);
    }
    var childIndex := FieldIndex(lines, t, section.value);
    if childIndex.None? {
      return Failure(NoField);
    }
    var collected := Collect(lines, childIndex.value);
    if collected.None? {
      return Failure(NotScalarList);
    }
    var (endIndex, existing) := collected.value;
    var values := Ascending(existing + additions);
    return Success(lines[..childIndex.value] + Replacement(t, values) + lines[endIndex..]);
  }
}
