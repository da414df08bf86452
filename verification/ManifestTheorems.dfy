/** The promises of the manifest editor over whole additions. */
module ManifestTheorems {
  import opened ManifestAdd
  import opened ManifestEditor
  import opened ManifestFrame
  import opened Text
  import opened Wrappers

  /** The manifest has the three lists, each written as scalars. */
  predicate Readable(lines: seq<string>) {
    Read(lines, MODULES).Success? && Read(lines, API_SCOPES).Success? && Read(lines, DEVICE).Success?
  }

  /** The sorted union of a list's values and the added ones. */
  function Union(lines: seq<string>, t: Target, additions: set<string>): seq<string>
    requires Read(lines, t).Success?
  {
    Ascending(Elements(Read(lines, t).value) + additions)
  }

  lemma UnionIsStable(values: set<string>, additions: set<string>)
    ensures
      var union := Ascending(values + additions);
      Ascending(Elements(union) + additions) == union
  {
    assert Elements(Ascending(values + additions)) + additions == values + additions;
  }

  /**
   * Adding succeeds exactly on readable manifests. Each list then reads as the sorted union of
   * its old values and the additions: the three merges do not disturb each other.
   */
  lemma AddWritesUnions(lines: seq<string>, a: Additions)
    ensures AddLines(lines, a).Success? <==> Readable(lines)
    ensures Readable(lines) ==>
      var after := AddLines(lines, a).value;
      && Read(after, MODULES) == Success(Union(lines, MODULES, a.modules))
      && Read(after, API_SCOPES) == Success(Union(lines, API_SCOPES, a.apiScopes))
      && Read(after, DEVICE) == Success(Union(lines, DEVICE, a.device))
      && Written(after, MODULES, Union(lines, MODULES, a.modules))
      && Written(after, API_SCOPES, Union(lines, API_SCOPES, a.apiScopes))
      && Written(after, DEVICE, Union(lines, DEVICE, a.device))
  {
    hide Read, Merged, Written;
    TargetsAreUnrelated();
    ReadDecidesMerge(lines, MODULES, a.modules);
    if Read(lines, MODULES).Success? {
      var first := Merged(lines, MODULES, a.modules).value;
      MergeWritesUnion(lines, MODULES, a.modules);
      MergeKeepsOther(lines, MODULES, a.modules, API_SCOPES);
      MergeKeepsOther(lines, MODULES, a.modules, DEVICE);
      ReadDecidesMerge(first, API_SCOPES, a.apiScopes);
      if Read(first, API_SCOPES).Success? {
        var second := Merged(first, API_SCOPES, a.apiScopes).value;
        MergeWritesUnion(first, API_SCOPES, a.apiScopes);
        MergeKeepsOther(first, API_SCOPES, a.apiScopes, MODULES);
        MergeKeepsOther(first, API_SCOPES, a.apiScopes, DEVICE);
        MergeKeepsWritten(first, API_SCOPES, a.apiScopes, MODULES, Union(lines, MODULES, a.modules));
        ReadDecidesMerge(second, DEVICE, a.device);
        if Read(second, DEVICE).Success? {
          MergeWritesUnion(second, DEVICE, a.device);
          MergeKeepsOther(second, DEVICE, a.device, MODULES);
          MergeKeepsOther(second, DEVICE, a.device, API_SCOPES);
          MergeKeepsWritten(second, DEVICE, a.device, MODULES, Union(lines, MODULES, a.modules));
          MergeKeepsWritten(second, DEVICE, a.device, API_SCOPES, Union(lines, API_SCOPES, a.apiScopes));
        }
      }
    }
  }

  lemma ReadDecidesMerge(lines: seq<string>, t: Target, additions: set<string>)
    ensures Merged(lines, t, additions).Success? <==> Read(lines, t).Success?
  {
  }

  lemma MergeWritesUnion(lines: seq<string>, t: Target, additions: set<string>)
    requires Plain(t) && Read(lines, t).Success?
    ensures Merged(lines, t, additions).Success?
    ensures Read(Merged(lines, t, additions).value, t) == Success(Union(lines, t, additions))
    ensures Written(Merged(lines, t, additions).value, t, Union(lines, t, additions))
  {
    hide Read, Written, IsPlace, Locate, Replacement;
    MergeWrites(lines, t, additions);
    MergeWritesBlock(lines, t, additions);
  }

  // The frame: lines outside of the blocks keep their content and order.

  lemma EraseOwn(lines: seq<string>, t: Target, additions: set<string>)
    requires Plain(t) && Read(lines, t).Success?
    ensures Erased(Merged(lines, t, additions).value, t) == Erased(lines, t)
  {
    hide Read, Locate, IsPlace, Replacement;
    MergeWrites(lines, t, additions);
    var p := Locate(lines, t).value;
    var block := Replacement(t, Union(lines, t, additions));
    PlaceBounds(lines, t, p);
    var after := Replace(lines, p, block);
    PlaceIsLocated(after, t, Place(p.section, p.start, p.start + |block|));
    assert after[..p.start] == lines[..p.start];
    assert after[p.start + |block|..] == lines[p.end..];
  }

  lemma EraseCommutes(lines: seq<string>, t: Target, additions: set<string>, u: Target)
    requires Unrelated(t, u) && Read(lines, t).Success? && Read(lines, u).Success?
    ensures Read(Erased(lines, u), t) == Read(lines, t)
    ensures Merged(Erased(lines, u), t, additions) == Success(Erased(Merged(lines, t, additions).value, u))
  {
    hide Locate, IsPlace, Replacement, Replace, Plain, Inert, InBlock;
    MergeWrites(lines, t, additions);
    LocateFindsPlace(lines, u);
    var p, q := Locate(lines, t).value, Locate(lines, u).value;
    PlaceBounds(lines, t, p);
    PlaceBounds(lines, u, q);
    var block := Replacement(t, Union(lines, t, additions));
    ReplaceKeepsOther(lines, u, q, [], t, p);
    PlaceIsLocated(Replace(lines, q, []), t, Moved(p, q, 0));
    ReplacementIsInert(t, Union(lines, t, additions), u);
    ReplaceKeepsOther(lines, t, p, block, u, q);
    PlaceIsLocated(Replace(lines, p, block), u, Moved(q, p, |block|));
    ReplacesCommute(lines, p, block, q, []);
  }

  /** Every line outside of the three blocks keeps its content and its order. */
  lemma AddKeepsOutside(lines: seq<string>, a: Additions)
    requires Readable(lines)
    ensures AddLines(lines, a).Success? && Outside(AddLines(lines, a).value) == Outside(lines)
  {
    hide Read, Merged, Erased, Written;
    AddWritesUnions(lines, a);
    TargetsAreUnrelated();
    var first := Merged(lines, MODULES, a.modules).value;
    MergeKeepsOther(lines, MODULES, a.modules, API_SCOPES);
    MergeKeepsOther(lines, MODULES, a.modules, DEVICE);
    MergeWritesUnion(lines, MODULES, a.modules);
    var second := Merged(first, API_SCOPES, a.apiScopes).value;
    MergeKeepsOther(first, API_SCOPES, a.apiScopes, MODULES);
    MergeKeepsOther(first, API_SCOPES, a.apiScopes, DEVICE);
    MergeWritesUnion(first, API_SCOPES, a.apiScopes);
    // Without the modules, only the other two merges remain visible, and so on.
    var l1 := Erased(lines, MODULES);
    EraseOwn(lines, MODULES, a.modules);
    EraseCommutes(first, API_SCOPES, a.apiScopes, MODULES);
    EraseCommutes(second, DEVICE, a.device, MODULES);
    var s1 := Erased(second, MODULES);
    var l2 := Erased(l1, API_SCOPES);
    ErasedStillReads(first, MODULES, API_SCOPES);
    ErasedStillReads(first, MODULES, DEVICE);
    EraseOwn(l1, API_SCOPES, a.apiScopes);
    ErasedStillReads(second, MODULES, API_SCOPES);
    ErasedStillReads(second, MODULES, DEVICE);
    EraseCommutes(s1, DEVICE, a.device, API_SCOPES);
    EraseOwn(l2, DEVICE, a.device);
  }

  lemma ErasedStillReads(lines: seq<string>, t: Target, u: Target)
    requires Unrelated(t, u) && Read(lines, t).Success? && Read(lines, u).Success?
    ensures Read(Erased(lines, t), u) == Read(lines, u)
  {
    hide Merged, Read, Erased;
    EraseCommutes(lines, u, {}, t);
  }

  // From lines to the text of the file.

  ghost predicate OneLineAdditions(a: Additions) {
    forall x | x in a.modules + a.apiScopes + a.device :: OneLine(x)
  }

  lemma {:induction false} ItemsAreOneLine(block: seq<string>)
    requires AllOneLine(block)
    ensures AllOneLine(ItemsIn(block))
  {
    if block != [] {
      ItemsAreOneLine(block[1..]);
    }
  }

  lemma MergeStaysOneLine(lines: seq<string>, t: Target, additions: set<string>)
    requires AllOneLine(lines) && OneLine(t.key) && Read(lines, t).Success?
    requires forall x | x in additions :: OneLine(x)
    ensures AllOneLine(Merged(lines, t, additions).value) && Merged(lines, t, additions).value != []
  {
    hide IsPlace, Locate;
    var p := Locate(lines, t).value;
    LocateFindsPlace(lines, t);
    PlaceBounds(lines, t, p);
    ItemsAreOneLine(lines[p.start + 1..p.end]);
    var values := Union(lines, t, additions);
    forall i | 0 <= i < |values| ensures OneLine(values[i]) {
      assert values[i] in values;
    }
    ReplacementIsOneLine(t, values);
  }

  lemma ReplacementIsOneLine(t: Target, values: seq<string>)
    requires OneLine(t.key) && AllOneLine(values)
    ensures AllOneLine(Replacement(t, values))
  {
  }

  lemma AddStaysOneLine(lines: seq<string>, a: Additions)
    requires AllOneLine(lines) && OneLineAdditions(a) && AddLines(lines, a).Success?
    ensures AllOneLine(AddLines(lines, a).value) && AddLines(lines, a).value != []
  {
    hide Read, Merged, AllOneLine;
    ReadDecidesMerge(lines, MODULES, a.modules);
    var first := Merged(lines, MODULES, a.modules).value;
    MergeStaysOneLine(lines, MODULES, a.modules);
    ReadDecidesMerge(first, API_SCOPES, a.apiScopes);
    var second := Merged(first, API_SCOPES, a.apiScopes).value;
    MergeStaysOneLine(first, API_SCOPES, a.apiScopes);
    ReadDecidesMerge(second, DEVICE, a.device);
    MergeStaysOneLine(second, DEVICE, a.device);
  }

  /** The written text splits into the edited lines, and a blank one if a final newline was restored. */
  lemma LinesOfRejoined(source: string, lines: seq<string>)
    requires lines != [] && AllOneLine(lines)
    ensures Lines(Rejoined(source, lines)) == lines
         || (Lines(Rejoined(source, lines)) == lines + [""]
             && !EndsWithNewline(Join(lines)) && Rejoined(source, lines) == Join(lines) + "\n")
  {
    LinesOfJoin(lines);
    LinesOfJoin(lines + [""]);
    JoinAppendEmpty(lines);
  }

  lemma WrittenLinesAreStable(
    lines: seq<string>, tail: seq<string>, a: Additions,
    modules: seq<string>, apiScopes: seq<string>, device: seq<string>)
    requires tail == [] || tail == [""]
    requires Written(lines, MODULES, modules) && Ascending(Elements(modules) + a.modules) == modules
    requires Written(lines, API_SCOPES, apiScopes) && Ascending(Elements(apiScopes) + a.apiScopes) == apiScopes
    requires Written(lines, DEVICE, device) && Ascending(Elements(device) + a.device) == device
    ensures AddLines(lines + tail, a) == Success(lines) || AddLines(lines + tail, a) == Success(lines + tail)
    ensures Read(lines + tail, MODULES) == Success(modules)
    ensures Read(lines + tail, API_SCOPES) == Success(apiScopes)
    ensures Read(lines + tail, DEVICE) == Success(device)
  {
    hide Read, Merged, Written;
    TargetsAreUnrelated();
    assert lines + [] == lines;
    MergeIsStable(lines, tail, MODULES, a.modules, modules);
    MergeIsStable(lines, tail, API_SCOPES, a.apiScopes, apiScopes);
    MergeIsStable(lines, tail, DEVICE, a.device, device);
    MergeIsStable(lines, [], API_SCOPES, a.apiScopes, apiScopes);
    MergeIsStable(lines, [], DEVICE, a.device, device);
  }

  lemma EditedLinesAreStable(lines: seq<string>, tail: seq<string>, a: Additions)
    requires AddLines(lines, a).Success? && (tail == [] || tail == [""])
    ensures
      var after := AddLines(lines, a).value;
      AddLines(after + tail, a) == Success(after) || AddLines(after + tail, a) == Success(after + tail)
    ensures
      var after := AddLines(lines, a).value;
      && Read(after + tail, MODULES) == Read(after, MODULES)
      && Read(after + tail, API_SCOPES) == Read(after, API_SCOPES)
      && Read(after + tail, DEVICE) == Read(after, DEVICE)
  {
    hide Read, AddLines, Written;
    AddWritesUnions(lines, a);
    UnionIsStable(Elements(Read(lines, MODULES).value), a.modules);
    UnionIsStable(Elements(Read(lines, API_SCOPES).value), a.apiScopes);
    UnionIsStable(Elements(Read(lines, DEVICE).value), a.device);
    WrittenLinesAreStable(
      AddLines(lines, a).value, tail, a, Union(lines, MODULES, a.modules),
      Union(lines, API_SCOPES, a.apiScopes), Union(lines, DEVICE, a.device));
  }

  lemma RejoiningIsStable(source: string, lines: seq<string>)
    requires lines != []
    ensures
      var text := Rejoined(source, lines);
      && Rejoined(text, lines) == text
      && (text == Join(lines) + "\n" ==> Rejoined(text, lines + [""]) == text)
  {
    hide Join;
    JoinAppendEmpty(lines);
  }

  /** Adding twice gives the same text as adding once. */
  lemma AddTextIsIdempotent(source: string, a: Additions)
    requires OneLineAdditions(a) && AddText(source, a).Success?
    ensures AddText(AddText(source, a).value, a) == AddText(source, a)
  {
    hide AddLines, Lines, Join, AllOneLine, Rejoined, EndsWithNewline;
    var lines := Lines(source);
    LinesAreOneLine(source);
    AddStaysOneLine(lines, a);
    var after := AddLines(lines, a).value;
    EditedLinesAreStable(lines, [], a);
    EditedLinesAreStable(lines, [""], a);
    LinesOfRejoined(source, after);
    RejoiningIsStable(source, after);
    assert after + [] == after;
  }

  /** After an addition, the text reads back as the three sorted unions. */
  lemma AddTextReads(source: string, a: Additions)
    requires OneLineAdditions(a)
    ensures AddText(source, a).Success? <==> Readable(Lines(source))
    ensures Readable(Lines(source)) ==>
      var lines, after := Lines(source), Lines(AddText(source, a).value);
      && Read(after, MODULES) == Success(Union(lines, MODULES, a.modules))
      && Read(after, API_SCOPES) == Success(Union(lines, API_SCOPES, a.apiScopes))
      && Read(after, DEVICE) == Success(Union(lines, DEVICE, a.device))
  {
    hide AddLines, Read, Union, Lines, AllOneLine;
    var lines := Lines(source);
    LinesAreOneLine(source);
    AddWritesUnions(lines, a);
    if Readable(lines) {
      AddStaysOneLine(lines, a);
      EditedLinesAreStable(lines, [""], a);
      LinesOfRejoined(source, AddLines(lines, a).value);
    }
  }

  // The frame on the text: a restored final newline adds a blank line that belongs to a list's block.

  ghost predicate AtEnd(lines: seq<string>, t: Target) {
    exists p :: IsPlace(lines, t, p) && p.end == |lines|
  }

  /** A merge keeps the last line, unless it belongs to the list itself, which then stays at the end. */
  lemma MergeKeepsEnd(lines: seq<string>, t: Target, additions: set<string>)
    requires Plain(t) && Read(lines, t).Success?
    ensures
      var after := Merged(lines, t, additions).value;
      lines != [] && after != [] && (AtEnd(after, t) || after[|after| - 1] == lines[|lines| - 1])
  {
    hide Read, Locate, IsPlace, Replacement;
    MergeWrites(lines, t, additions);
    var p := Locate(lines, t).value;
    var block := Replacement(t, Union(lines, t, additions));
    PlaceBounds(lines, t, p);
    var after := Replace(lines, p, block);
    var q := Place(p.section, p.start, p.start + |block|);
    PlaceBounds(after, t, q);
    assert IsPlace(after, t, q);
  }

  lemma MergeKeepsOtherEnd(lines: seq<string>, t: Target, additions: set<string>, u: Target)
    requires Unrelated(t, u) && Read(lines, t).Success? && AtEnd(lines, u)
    ensures AtEnd(Merged(lines, t, additions).value, u)
  {
    hide Read, Locate, IsPlace, Replacement, Replace, Plain, Inert, InBlock;
    MergeWrites(lines, t, additions);
    var p := Locate(lines, t).value;
    var block := Replacement(t, Union(lines, t, additions));
    var q :| IsPlace(lines, u, q) && q.end == |lines|;
    PlaceBounds(lines, t, p);
    PlaceBounds(lines, u, q);
    ReplacementIsInert(t, Union(lines, t, additions), u);
    ReplaceKeepsOther(lines, t, p, block, u, q);
    ReplaceLength(lines, p, block);
    assert IsPlace(Replace(lines, p, block), u, Moved(q, p, |block|));
  }

  /** If the last line is blank and an addition drops it, some list has become the end of the file. */
  lemma DroppedBlankWasInBlock(lines: seq<string>, a: Additions)
    requires Readable(lines) && AddLines(lines, a).Success?
    ensures
      var after := AddLines(lines, a).value;
      && lines != [] && after != []
      && (|| after[|after| - 1] == lines[|lines| - 1]
          || AtEnd(after, MODULES) || AtEnd(after, API_SCOPES) || AtEnd(after, DEVICE))
  {
    hide Read, Merged, AtEnd;
    TargetsAreUnrelated();
    AddWritesUnions(lines, a);
    var first := Merged(lines, MODULES, a.modules).value;
    MergeKeepsOther(lines, MODULES, a.modules, API_SCOPES);
    MergeKeepsOther(lines, MODULES, a.modules, DEVICE);
    MergeKeepsEnd(lines, MODULES, a.modules);
    var second := Merged(first, API_SCOPES, a.apiScopes).value;
    MergeKeepsOther(first, API_SCOPES, a.apiScopes, DEVICE);
    MergeKeepsEnd(first, API_SCOPES, a.apiScopes);
    MergeKeepsEnd(second, DEVICE, a.device);
    if AtEnd(first, MODULES) {
      MergeKeepsOtherEnd(first, API_SCOPES, a.apiScopes, MODULES);
    }
    if AtEnd(second, MODULES) {
      MergeKeepsOtherEnd(second, DEVICE, a.device, MODULES);
    }
    if AtEnd(second, API_SCOPES) {
      MergeKeepsOtherEnd(second, DEVICE, a.device, API_SCOPES);
    }
  }

  /** Erasing a list takes a blank line behind it along, and leaves any other one. */
  lemma EraseBeforeBlank(lines: seq<string>, t: Target)
    requires Read(lines, t).Success?
    ensures Erased(lines + [""], t) == if AtEnd(lines, t) then Erased(lines, t) else Erased(lines, t) + [""]
  {
    hide Read, Locate, IsPlace;
    LocateFindsPlace(lines, t);
    assert Locate(lines, t).Success? by { ReadIsLocated(lines, t); }
    var p := Locate(lines, t).value;
    PlaceBounds(lines, t, p);
    PlaceBeforeTail(lines, [""], t, p);
    PlaceIsLocated(lines + [""], t, if p.end == |lines| then p.(end := |lines + [""]|) else p);
    if AtEnd(lines, t) {
      var q :| IsPlace(lines, t, q) && q.end == |lines|;
      PlaceIsLocated(lines, t, q);
      assert q == p;
    } else {
      assert p.end < |lines|;
    }
  }

  lemma ReadIsLocated(lines: seq<string>, t: Target)
    requires Read(lines, t).Success?
    ensures Locate(lines, t).Success?
  {
  }

  lemma EraseKeepsOtherEnd(lines: seq<string>, t: Target, u: Target)
    requires Unrelated(t, u) && Read(lines, t).Success? && AtEnd(lines, u)
    ensures !AtEnd(lines, t) && AtEnd(Erased(lines, t), u)
  {
    hide Read, Locate, IsPlace, Replace, Plain, Inert, InBlock;
    ReadIsLocated(lines, t);
    LocateFindsPlace(lines, t);
    var p := Locate(lines, t).value;
    var q :| IsPlace(lines, u, q) && q.end == |lines|;
    PlaceBounds(lines, t, p);
    PlaceBounds(lines, u, q);
    ReplaceKeepsOther(lines, t, p, [], u, q);
    ReplaceLength(lines, p, []);
    assert IsPlace(Replace(lines, p, []), u, Moved(q, p, 0));
    if AtEnd(lines, t) {
      var other :| IsPlace(lines, t, other) && other.end == |lines|;
      PlaceIsLocated(lines, t, other);
    }
  }

  lemma BlankTailIsOutsideNothing(lines: seq<string>)
    requires Readable(lines)
    requires AtEnd(lines, MODULES) || AtEnd(lines, API_SCOPES) || AtEnd(lines, DEVICE)
    ensures Outside(lines + [""]) == Outside(lines)
  {
    hide Read, Erased, AtEnd;
    TargetsAreUnrelated();
    EraseBeforeBlank(lines, MODULES);
    if !AtEnd(lines, MODULES) {
      var l1 := Erased(lines, MODULES);
      ErasedStillReads(lines, MODULES, API_SCOPES);
      ErasedStillReads(lines, MODULES, DEVICE);
      EraseBeforeBlank(l1, API_SCOPES);
      if AtEnd(lines, API_SCOPES) {
        EraseKeepsOtherEnd(lines, MODULES, API_SCOPES);
      } else {
        EraseKeepsOtherEnd(lines, MODULES, DEVICE);
        EraseKeepsOtherEnd(l1, API_SCOPES, DEVICE);
        ErasedStillReads(l1, API_SCOPES, DEVICE);
        EraseBeforeBlank(Erased(l1, API_SCOPES), DEVICE);
      }
    }
  }

  lemma {:induction false} FinalNewlineIsBlankLine(text: string)
    requires EndsWithNewline(text)
    ensures |Lines(text)| > 1 && Lines(text)[|Lines(text)| - 1] == ""
  {
    if |text| > 1 {
      FinalNewlineIsBlankLine(text[1..]);
    } else {
      assert text[1..] == "";
    }
  }

  /** The same on the text: whatever the final newline, every line outside of the lists is kept. */
  lemma AddTextKeepsOutside(source: string, a: Additions)
    requires OneLineAdditions(a) && AddText(source, a).Success?
    ensures Outside(Lines(AddText(source, a).value)) == Outside(Lines(source))
  {
    hide AddLines, Lines, Join, AllOneLine, OneLineAdditions, Outside, AtEnd, Readable, Rejoined, EndsWithNewline;
    var lines := Lines(source);
    LinesAreOneLine(source);
    AddTextSucceeds(source, a);
    AddStaysOneLine(lines, a);
    AddKeepsOutside(lines, a);
    var after := AddLines(lines, a).value;
    LinesOfRejoined(source, after);
    if Lines(Rejoined(source, after)) != after {
      RestoredNewline(source, after);
      FinalNewlineIsBlankLine(source);
      JoinEndsWithNewline(after);
      DroppedBlankWasInBlock(lines, a);
      AddedIsReadable(lines, a);
      BlankTailIsOutsideNothing(after);
    }
  }

  lemma RestoredNewline(source: string, lines: seq<string>)
    ensures Rejoined(source, lines) == Join(lines) || EndsWithNewline(source)
  {
  }

  lemma AddTextSucceeds(source: string, a: Additions)
    ensures AddText(source, a).Success? <==> Readable(Lines(source))
    ensures AddText(source, a).Success? <==> AddLines(Lines(source), a).Success?
  {
    hide AddLines, Lines, Readable;
    AddWritesUnions(Lines(source), a);
  }

  lemma AddedIsReadable(lines: seq<string>, a: Additions)
    requires Readable(lines)
    ensures AddLines(lines, a).Success? && Readable(AddLines(lines, a).value) && |AddLines(lines, a).value| > 1
  {
    hide Read, Written;
    AddWritesUnions(lines, a);
    ReadableHasLines(AddLines(lines, a).value);
  }

  lemma WrittenEndsInText(lines: seq<string>, t: Target, values: seq<string>)
    requires Written(lines, t, values) && AtEnd(lines, t)
    ensures lines != [] && lines[|lines| - 1] != ""
  {
    hide IsPlace;
    var p :| WrittenAt(lines, t, values, p);
    var q :| IsPlace(lines, t, q) && q.end == |lines|;
    PlaceIsLocated(lines, t, p);
    PlaceIsLocated(lines, t, q);
    PlaceBounds(lines, t, p);
    var block := Replacement(t, values);
    assert lines[|lines| - 1] == lines[p.start..p.end][|block| - 1] == block[|block| - 1];
  }

  /** The file ends with a newline after the addition exactly when it did before. */
  lemma FinalNewlineIsKept(source: string, a: Additions)
    requires OneLineAdditions(a) && AddText(source, a).Success?
    ensures EndsWithNewline(AddText(source, a).value) <==> EndsWithNewline(source)
  {
    hide AddLines, Lines, Join, AllOneLine, OneLineAdditions, AtEnd, Readable, Written, Union, Read;
    var lines := Lines(source);
    LinesAreOneLine(source);
    AddTextSucceeds(source, a);
    AddStaysOneLine(lines, a);
    AddedIsReadable(lines, a);
    var after := AddLines(lines, a).value;
    JoinOfLines(source);
    JoinEndsWithNewline(lines);
    JoinEndsWithNewline(after);
    if !EndsWithNewline(source) {
      DroppedBlankWasInBlock(lines, a);
      EndedListsAreText(lines, a);
      LastLineOfText(source);
      ReadableHasLines(lines);
    }
  }

  lemma LastLineOfText(source: string)
    requires !EndsWithNewline(source)
    ensures Lines(source)[|Lines(source)| - 1] == "" ==> |Lines(source)| == 1
  {
    LinesAreOneLine(source);
    JoinOfLines(source);
    JoinEndsWithNewline(Lines(source));
  }

  lemma EndedListsAreText(lines: seq<string>, a: Additions)
    requires Readable(lines) && AddLines(lines, a).Success?
    ensures
      var after := AddLines(lines, a).value;
      AtEnd(after, MODULES) || AtEnd(after, API_SCOPES) || AtEnd(after, DEVICE) ==>
        after != [] && after[|after| - 1] != ""
  {
    hide Read, AddLines, Written, AtEnd, Union;
    AddWritesUnions(lines, a);
    var after := AddLines(lines, a).value;
    if AtEnd(after, MODULES) {
      WrittenEndsInText(after, MODULES, Union(lines, MODULES, a.modules));
    } else if AtEnd(after, API_SCOPES) {
      WrittenEndsInText(after, API_SCOPES, Union(lines, API_SCOPES, a.apiScopes));
    } else if AtEnd(after, DEVICE) {
      WrittenEndsInText(after, DEVICE, Union(lines, DEVICE, a.device));
    }
  }

  lemma ReadableHasLines(lines: seq<string>)
    requires Readable(lines)
    ensures |lines| > 1
  {
    hide Read;
    ReadIsLocated(lines, MODULES);
    LocateFindsPlace(lines, MODULES);
    PlaceBounds(lines, MODULES, Locate(lines, MODULES).value);
  }
}
