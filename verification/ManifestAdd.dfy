/** Adding modules to a manifest: three merges, and the text they produce. */
module ManifestAdd {
  import opened ManifestEditor
  import opened ManifestFrame
  import opened Text
  import opened Wrappers

  const MODULES := Target("features", "modules")
  const API_SCOPES := Target("permissions", "apiScopes")
  const DEVICE := Target("permissions", "device")

  datatype Additions = Additions(modules: set<string>, apiScopes: set<string>, device: set<string>)

  function AddLines(lines: seq<string>, a: Additions): Result<seq<string>, EditError> {
    var withModules :- Merged(lines, MODULES, a.modules);
    var withScopes :- Merged(withModules, API_SCOPES, a.apiScopes);
    Merged(withScopes, DEVICE, a.device)
  }

  function Rejoined(source: string, lines: seq<string>): string {
    var result := Join(lines);
    if EndsWithNewline(source) && !EndsWithNewline(result) then result + "\n" else result
  }

  function AddText(source: string, a: Additions): Result<string, EditError> {
    var lines :- AddLines(Lines(source), a);
    Success(Rejoined(source, lines))
  }

  method Add(source: string, a: Additions) returns (r: Result<string, EditError>)
    ensures r == AddText(source, a)
  {
    var merged := MergeList(Lines(source), MODULES, a.modules);
    if merged.Failure? {
      return Failure(merged.error);
    }
    merged := MergeList(merged.value, API_SCOPES, a.apiScopes);
    if merged.Failure? {
      return Failure(merged.error);
    }
    merged := MergeList(merged.value, DEVICE, a.device);
    if merged.Failure? {
      return Failure(merged.error);
    }
    var result := Join(merged.value);
    if EndsWithNewline(source) && !EndsWithNewline(result) {
      result := result + "\n";
    }
    return Success(result);
  }

  lemma TargetsAreUnrelated()
    ensures Unrelated(MODULES, API_SCOPES) && Unrelated(API_SCOPES, MODULES)
    ensures Unrelated(MODULES, DEVICE) && Unrelated(DEVICE, MODULES)
    ensures Unrelated(API_SCOPES, DEVICE) && Unrelated(DEVICE, API_SCOPES)
  {
    assert "modules"[0] == 'm' && "apiScopes"[0] == 'a' && "device"[0] == 'd';
  }

  /** The lines outside of a list's block. */
  function Erased(lines: seq<string>, t: Target): seq<string> {
    var place := Locate(lines, t);
    if place.Success? then Replace(lines, place.value, []) else lines
  }

  /** The lines outside of all three blocks, in order. */
  function Outside(lines: seq<string>): seq<string> {
    Erased(Erased(Erased(lines, MODULES), API_SCOPES), DEVICE)
  }

  /** One merge: the list becomes the sorted union, its block is what is written for it. */
  lemma MergeWrites(lines: seq<string>, t: Target, additions: set<string>)
    requires Plain(t) && Read(lines, t).Success?
    ensures Locate(lines, t).Success?
    ensures
      var values := Ascending(Elements(Read(lines, t).value) + additions);
      var p := Locate(lines, t).value;
      var block := Replacement(t, values);
      && IsPlace(lines, t, p)
      && Merged(lines, t, additions) == Success(Replace(lines, p, block))
      && IsPlace(Replace(lines, p, block), t, Place(p.section, p.start, p.start + |block|))
      && Read(Replace(lines, p, block), t) == Success(values)
  {
    hide Locate, IsPlace, ScalarList, ItemsIn, OwnBlock, Replacement;
    LocateFindsPlace(lines, t);
    var values := Ascending(Elements(Read(lines, t).value) + additions);
    var p := Locate(lines, t).value;
    var block := Replacement(t, values);
    ReplacementReads(t, values);
    WrittenBlock(lines, t, p, values);
  }

  lemma WrittenBlock(lines: seq<string>, t: Target, p: Place, values: seq<string>)
    requires Plain(t) && IsPlace(lines, t, p)
    ensures
      var after := Replace(lines, p, Replacement(t, values));
      && IsPlace(after, t, Place(p.section, p.start, p.start + |Replacement(t, values)|))
      && Read(after, t) == Success(values)
  {
    hide Locate, Replacement, ScalarList, ItemsIn, InBlock, Stops, KeyLine, SectionLine, Read;
    var block := Replacement(t, values);
    ReplacementReads(t, values);
    ReplaceKeepsOwnPlace(lines, t, p, block);
    var after := Replace(lines, p, block);
    ReadAt(after, t, Place(p.section, p.start, p.start + |block|));
    assert after[p.start + 1..p.start + |block|] == block[1..];
  }

  /** Merging into one list neither breaks nor repairs another, and does not change it. */
  lemma MergeKeepsOther(lines: seq<string>, t: Target, additions: set<string>, u: Target)
    requires Unrelated(t, u) && Read(lines, t).Success?
    ensures Merged(lines, t, additions).Success?
    ensures Read(lines, u).Success? ==> Read(Merged(lines, t, additions).value, u) == Read(lines, u)
    ensures Read(Merged(lines, t, additions).value, u).Success? ==> Read(lines, u).Success?
  {
    hide Locate, IsPlace, ScalarList, ItemsIn, Replacement, Inert, Plain, InBlock;
    MergeWrites(lines, t, additions);
    var p := Locate(lines, t).value;
    var values := Ascending(Elements(Read(lines, t).value) + additions);
    var block := Replacement(t, values);
    var after := Merged(lines, t, additions).value;
    ReplacementIsInert(t, values, u);
    LocateFindsPlace(lines, u);
    LocateFindsPlace(after, u);
    if Locate(lines, u).Success? {
      ReplaceKeepsOther(lines, t, p, block, u, Locate(lines, u).value);
    } else if Locate(after, u).Success? {
      PlaceRestored(lines, t, p, block, u);
    }
  }

  /** Undoing a replacement brings back the original lines, so no other list can appear. */
  lemma PlaceRestored(lines: seq<string>, t: Target, p: Place, block: seq<string>, u: Target)
    requires Unrelated(t, u) && IsPlace(lines, t, p)
    requires IsPlace(Replace(lines, p, block), t, Place(p.section, p.start, p.start + |block|))
    requires Locate(Replace(lines, p, block), u).Success?
    ensures Locate(lines, u).Success?
  {
    hide Locate, Inert, Plain, InBlock, Stops, KeyLine, SectionLine, Moved, Replace, Read;
    ReplaceBack(lines, p, block);
    var after := Replace(lines, p, block);
    var back := Place(p.section, p.start, p.start + |block|);
    var original := lines[p.start..p.end];
    BlockIsInert(lines, t, p, u);
    LocateFindsPlace(after, u);
    ReplaceKeepsOther(after, t, back, original, u, Locate(after, u).value);
    PlaceIsLocated(lines, u, Moved(Locate(after, u).value, back, |original|));
  }

  /** The block of the list is exactly what the editor writes for these values. */
  ghost predicate Written(lines: seq<string>, t: Target, values: seq<string>) {
    exists p :: WrittenAt(lines, t, values, p)
  }

  ghost predicate WrittenAt(lines: seq<string>, t: Target, values: seq<string>, p: Place) {
    IsPlace(lines, t, p) && lines[p.start..p.end] == Replacement(t, values)
  }

  lemma MergeWritesBlock(lines: seq<string>, t: Target, additions: set<string>)
    requires Plain(t) && Read(lines, t).Success?
    ensures Written(Merged(lines, t, additions).value, t, Ascending(Elements(Read(lines, t).value) + additions))
  {
    hide Locate, IsPlace, Replacement, Plain, Read;
    MergeWrites(lines, t, additions);
    var values := Ascending(Elements(Read(lines, t).value) + additions);
    var p, block := Locate(lines, t).value, Replacement(t, values);
    assert p.start < p.end <= |lines| by { PlaceBounds(lines, t, p); }
    assert Replace(lines, p, block)[p.start..p.start + |block|] == block;
    assert WrittenAt(Replace(lines, p, block), t, values, Place(p.section, p.start, p.start + |block|));
  }

  lemma PlaceBounds(lines: seq<string>, t: Target, p: Place)
    requires IsPlace(lines, t, p)
    ensures p.section < p.start < p.end <= |lines|
  {
  }

  lemma MergeKeepsWritten(lines: seq<string>, t: Target, additions: set<string>, u: Target, values: seq<string>)
    requires Unrelated(t, u) && Read(lines, t).Success? && Written(lines, u, values)
    ensures Merged(lines, t, additions).Success? && Written(Merged(lines, t, additions).value, u, values)
  {
    hide Locate, IsPlace, Replacement, Plain, Read, Inert, InBlock;
    MergeWrites(lines, t, additions);
    var written := Ascending(Elements(Read(lines, t).value) + additions);
    var p, block := Locate(lines, t).value, Replacement(t, written);
    var q :| WrittenAt(lines, u, values, q);
    ReplacementIsInert(t, written, u);
    ReplaceKeepsOther(lines, t, p, block, u, q);
    PlaceBounds(lines, t, p);
    PlaceBounds(lines, u, q);
    MovedBlock(lines, p, block, q);
    assert WrittenAt(Replace(lines, p, block), u, values, Moved(q, p, |block|));
  }

  /** Merging values that are already written changes nothing, also before a trailing blank line. */
  lemma MergeIsStable(lines: seq<string>, tail: seq<string>, t: Target, additions: set<string>, values: seq<string>)
    requires Plain(t) && Written(lines, t, values) && (tail == [] || tail == [""])
    requires Ascending(Elements(values) + additions) == values
    ensures Read(lines + tail, t) == Success(values)
    ensures Merged(lines + tail, t, additions) == Success(lines)
         || Merged(lines + tail, t, additions) == Success(lines + tail)
  {
    hide Locate, IsPlace, Replacement, Read, Replace;
    var p :| WrittenAt(lines, t, values, p);
    PlaceBounds(lines, t, p);
    StableRead(lines, tail, t, values, p);
    if p.end == |lines| {
      DroppedTail(lines, tail, p);
    } else {
      assert (lines + tail)[p.start..p.end] == lines[p.start..p.end];
      UnchangedBlock(lines + tail, p, Replacement(t, values));
    }
  }

  lemma StableRead(lines: seq<string>, tail: seq<string>, t: Target, values: seq<string>, p: Place)
    requires Plain(t) && WrittenAt(lines, t, values, p) && (tail == [] || tail == [""])
    ensures Locate(lines + tail, t) == Success(if p.end == |lines| then p.(end := |lines + tail|) else p)
    ensures Read(lines + tail, t) == Success(values)
  {
    hide Locate, IsPlace, Replacement, ItemsIn, Read, Plain;
    var longer := lines + tail;
    var q := if p.end == |lines| then p.(end := |longer|) else p;
    PlaceBounds(lines, t, p);
    PlaceBeforeTail(lines, tail, t, p);
    PlaceBounds(longer, t, q);
    ReplacementReads(t, values);
    ReadAt(longer, t, q);
    var written := Replacement(t, values)[1..];
    assert written == lines[p.start + 1..p.end] by { assert written == lines[p.start..p.end][1..]; }
    if q == p {
      assert longer[q.start + 1..q.end] == written;
    } else {
      assert longer[q.start + 1..q.end] == written + tail;
      ItemsAppend(written, tail);
      BlankTail(tail);
      forall i | 0 <= i < |written + tail| ensures (written + tail)[i] == "" || ItemLine((written + tail)[i]) {
        if i < |written| { assert (written + tail)[i] == written[i]; }
      }
      assert values + [] == values;
    }
  }

  lemma UnchangedBlock(lines: seq<string>, p: Place, block: seq<string>)
    requires p.start <= p.end <= |lines| && lines[p.start..p.end] == block
    ensures Replace(lines, p, block) == lines
  {
  }

  lemma DroppedTail(lines: seq<string>, tail: seq<string>, p: Place)
    requires p.start <= p.end == |lines|
    ensures Replace(lines + tail, p.(end := |lines + tail|), lines[p.start..p.end]) == lines
  {
  }

  lemma PlaceBeforeTail(lines: seq<string>, tail: seq<string>, t: Target, p: Place)
    requires IsPlace(lines, t, p) && (tail == [] || tail == [""])
    ensures IsPlace(lines + tail, t, if p.end == |lines| then p.(end := |lines + tail|) else p)
  {
    hide Stops, KeyLine, SectionLine;
    var longer := lines + tail;
    assert forall i | 0 <= i < |lines| :: longer[i] == lines[i];
  }

  lemma BlankTail(tail: seq<string>)
    requires tail == [] || tail == [""]
    ensures ItemsIn(tail) == [] && ScalarList(tail)
  {
    assert tail == [""] ==> tail[1..] == [];
  }
}
