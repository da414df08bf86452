/** What the manifest editor keeps: other lists, other lines, and its own result. */
module ManifestFrame {
  import opened ManifestEditor
  import opened Text
  import opened Wrappers

  /** `Locate` without the search: the first section line, and its first field line in reach. */
  ghost predicate IsPlace(lines: seq<string>, t: Target, p: Place) {
    && p.section < p.start < p.end <= |lines|
    && SectionLine(t, lines[p.section])
    && (forall i | 0 <= i < p.section :: !SectionLine(t, lines[i]))
    && KeyLine(t, lines[p.start]) && !Stops(lines[p.start])
    && (forall i | p.section < i < p.start :: !Stops(lines[i]) && !KeyLine(t, lines[i]))
    && (forall i | p.start < i < p.end :: InBlock(lines[i]))
    && (p.end < |lines| ==> !InBlock(lines[p.end]))
  }

  lemma LocateFindsPlace(lines: seq<string>, t: Target)
    ensures Locate(lines, t).Success? ==> IsPlace(lines, t, Locate(lines, t).value)
  {
    hide SectionLine, KeyLine, Stops, InBlock;
  }

  lemma PlaceIsLocated(lines: seq<string>, t: Target, p: Place)
    requires IsPlace(lines, t, p)
    ensures Locate(lines, t) == Success(p)
  {
    hide SectionLine, KeyLine, Stops, InBlock;
    var section := FindSection(lines, t, 0);
    assert section == Some(p.section);
    FieldIsFound(lines, t, p, p.section + 1);
    assert BlockEnd(lines, p.start + 1) == p.end;
  }

  /** A block line, character by character: blank, or indented by four spaces. */
  predicate Indented(line: string) {
    line == "" || (|line| >= 4 && line[0] == line[1] == line[2] == line[3] == ' ')
  }

  predicate TopLevel(line: string) {
    line != "" && line[0] != ' '
  }

  predicate WritesItem(line: string, item: string) {
    line == "    - " + item
  }

  /** Where a list is written, told by its lines: its section, its key line within it, and its block. */
  ghost predicate WrittenAtLines(lines: seq<string>, section: string, key: string, p: Place) {
    && p.section < p.start < p.end <= |lines|
    && lines[p.section] == section + ":" && section + ":" !in lines[..p.section]
    && lines[p.start] in ["  " + key + ":", "  " + key + ": []"]
    && (forall i | p.section < i < p.start ::
          !TopLevel(lines[i]) && lines[i] !in ["  " + key + ":", "  " + key + ": []"])
    && (forall i | p.start < i < p.end :: Indented(lines[i]))
    && (p.end < |lines| ==> !Indented(lines[p.end]))
  }

  /** A list is found exactly where its section, key and block are written. */
  lemma FoundWhereWritten(lines: seq<string>, section: string, key: string, p: Place)
    ensures Locate(lines, Target(section, key)) == Success(p) <==> WrittenAtLines(lines, section, key, p)
  {
    hide Locate;
    var t := Target(section, key);
    forall line: string ensures InBlock(line) <==> Indented(line) {
      assert |line| >= 4 ==> line[..4] == [line[0], line[1], line[2], line[3]];
    }
    forall line: string ensures Stops(line) <==> TopLevel(line) {
      assert line != "" ==> line[..1] == [line[0]];
    }
    assert !TopLevel("  " + key + ":") && !TopLevel("  " + key + ": []");
    assert IsPlace(lines, t, p) <==> WrittenAtLines(lines, section, key, p) by {
      SamePlace(lines, section, key, p);
    }
    LocateFindsPlace(lines, t);
    if IsPlace(lines, t, p) {
      PlaceIsLocated(lines, t, p);
    }
  }

  lemma SamePlace(lines: seq<string>, section: string, key: string, p: Place)
    requires forall line: string :: InBlock(line) <==> Indented(line)
    requires forall line: string :: Stops(line) <==> TopLevel(line)
    requires !TopLevel("  " + key + ":") && !TopLevel("  " + key + ": []")
    ensures IsPlace(lines, Target(section, key), p) <==> WrittenAtLines(lines, section, key, p)
  {
    hide InBlock, Indented, Stops, TopLevel;
    if p.section < p.start < p.end <= |lines| {
      assert section + ":" in lines[..p.section] <==> exists i :: 0 <= i < p.section && lines[i] == section + ":" by {
        assert forall i | 0 <= i < p.section :: lines[..p.section][i] == lines[i];
      }
    }
  }

  lemma {:induction false} FieldIsFound(lines: seq<string>, t: Target, p: Place, from: nat)
    requires IsPlace(lines, t, p) && p.section < from <= p.start
    ensures FindField(lines, t, from) == Some(p.start)
    decreases p.start - from
  {
    hide SectionLine, KeyLine, Stops, InBlock;
    if from < p.start {
      FieldIsFound(lines, t, p, from + 1);
    }
  }

  /** The targets of the module command; none of their lines can be mistaken for another's. */
  ghost predicate Plain(t: Target) {
    && t.section != "" && t.section[0] != ' '
    && t.key != "" && t.key[0] != ' ' && ':' !in t.key
  }

  /** The line neither ends a section nor starts the field of `t`. */
  ghost predicate Inert(line: string, t: Target) {
    !Stops(line) && !SectionLine(t, line) && !KeyLine(t, line)
  }

  ghost predicate AllInert(block: seq<string>, t: Target) {
    forall i | 0 <= i < |block| :: Inert(block[i], t)
  }

  /** A block that cannot be read as the continuation of a preceding one. */
  ghost predicate Bounded(block: seq<string>) {
    block != [] ==> !InBlock(block[0])
  }

  lemma BlockLinesAreInert(line: string, t: Target)
    requires Plain(t) && InBlock(line)
    ensures Inert(line, t)
  {
    if line != "" {
      assert line[0] == line[..4][0] == ' ' && line[2] == line[..4][2] == ' ';
      assert line[..1] == " ";
      assert ("  " + t.key + ":")[2] == t.key[0] && ("  " + t.key + ": []")[2] == t.key[0];
      assert (t.section + ":")[0] == t.section[0];
    }
  }

  lemma UpToColon(key: string, text: string)
    requires ':' !in key && (text == key + ":" || text == key + ": []")
    ensures |key| < |text| && text[|key|] == ':' && text[..|key|] == key
    ensures forall i | 0 <= i < |key| :: text[i] != ':'
  {
  }

  lemma KeyLineNamesItsKey(line: string, t: Target, u: Target)
    requires KeyLine(t, line) && KeyLine(u, line)
    requires ':' !in t.key && ':' !in u.key
    ensures t.key == u.key
  {
    UpToColon(t.key, line[2..]);
    UpToColon(u.key, line[2..]);
  }

  lemma KeyLinesAreInert(line: string, t: Target, u: Target)
    requires Plain(t) && Plain(u) && KeyLine(t, line) && t.key != u.key
    ensures Inert(line, u) && !InBlock(line)
  {
    assert line[..1] == " ";
    assert line[2] == t.key[0];
    assert (u.section + ":")[0] == u.section[0];
    if KeyLine(u, line) {
      KeyLineNamesItsKey(line, t, u);
    }
  }

  /** Position `i` of the lines, after the block of `p` was replaced by `n` lines. */
  function Shift(i: int, p: Place, n: nat): int {
    if i < p.start then i else i - (p.end - p.start) + n
  }

  function Moved(q: Place, p: Place, n: nat): (r: Place)
    requires p.start <= p.end && (q.start >= p.end || q.end <= p.start)
    requires q.section < p.start || q.section >= p.end
    requires q.start < q.end
  {
    Place(Shift(q.section, p, n), Shift(q.start, p, n), if q.end <= p.start then q.end else Shift(q.end, p, n))
  }

  ghost predicate OwnBlock(block: seq<string>, t: Target) {
    && block != [] && KeyLine(t, block[0]) && !Stops(block[0])
    && forall i | 0 < i < |block| :: InBlock(block[i])
  }

  lemma ReplaceKeepsOwnPlace(lines: seq<string>, t: Target, p: Place, block: seq<string>)
    requires IsPlace(lines, t, p) && OwnBlock(block, t)
    ensures IsPlace(Replace(lines, p, block), t, Place(p.section, p.start, p.start + |block|))
  {
    hide SectionLine, KeyLine, Stops, InBlock;
    var after := Replace(lines, p, block);
    assert forall i | 0 <= i < p.start :: after[i] == lines[i];
    assert forall i | 0 <= i < |block| :: after[p.start + i] == block[i];
    assert forall i | p.start < i < p.start + |block| :: after[i] == block[i - p.start];
    assert p.end < |lines| ==> after[p.start + |block|] == lines[p.end];
  }

  /** The blocks of different lists do not overlap. */
  lemma PlacesAreApart(lines: seq<string>, t: Target, p: Place, u: Target, q: Place)
    requires IsPlace(lines, t, p) && IsPlace(lines, u, q)
    requires AllInert(lines[p.start..p.end], u) && !InBlock(lines[p.start])
    ensures q.end <= p.start || q.start >= p.end
    ensures q.section < p.start || q.section >= p.end
  {
    hide SectionLine, KeyLine, Stops, InBlock;
    assert forall i | p.start <= i < p.end :: lines[i] == lines[p.start..p.end][i - p.start];
  }

  lemma ReplaceMovesOtherPlace(lines: seq<string>, t: Target, p: Place, block: seq<string>, u: Target, q: Place)
    requires IsPlace(lines, t, p) && IsPlace(lines, u, q)
    requires AllInert(lines[p.start..p.end], u) && !InBlock(lines[p.start])
    requires AllInert(block, u) && Bounded(block)
    ensures q.end <= p.start || q.start >= p.end
    ensures q.section < p.start || q.section >= p.end
    ensures IsPlace(Replace(lines, p, block), u, Moved(q, p, |block|))
  {
    hide SectionLine, KeyLine, Stops, InBlock, Replace;
    PlacesAreApart(lines, t, p, u, q);
    ReplaceLength(lines, p, block);
    var after, r, n := Replace(lines, p, block), Moved(q, p, |block|), |block|;
    AfterAt(lines, p, block, r.section);
    AfterAt(lines, p, block, r.start);
    forall i | 0 <= i < r.section ensures !SectionLine(u, after[i]) {
      AfterAt(lines, p, block, i);
      if p.start <= i < p.start + n { assert Inert(block[i - p.start], u); }
    }
    forall i | r.section < i < r.start ensures !Stops(after[i]) && !KeyLine(u, after[i]) {
      AfterAt(lines, p, block, i);
      if p.start <= i < p.start + n { assert Inert(block[i - p.start], u); }
    }
    forall i | r.start < i < r.end ensures InBlock(after[i]) {
      AfterAt(lines, p, block, i);
    }
    if r.end < |after| {
      AfterAt(lines, p, block, r.end);
    }
  }

  lemma ReplaceLength(lines: seq<string>, p: Place, block: seq<string>)
    requires p.start <= p.end <= |lines|
    ensures |Replace(lines, p, block)| == |lines| - (p.end - p.start) + |block|
  {
  }

  /** Each line after a replacement is a line of the block or an untouched one. */
  lemma AfterAt(lines: seq<string>, p: Place, block: seq<string>, i: int)
    requires p.start <= p.end <= |lines| && 0 <= i < |Replace(lines, p, block)|
    ensures Replace(lines, p, block)[i] ==
      if i < p.start then lines[i]
      else if i < p.start + |block| then block[i - p.start]
      else lines[i - |block| + (p.end - p.start)]
  {
  }

  ghost predicate Unrelated(t: Target, u: Target) {
    Plain(t) && Plain(u) && t.key != u.key
  }

  lemma BlockIsInert(lines: seq<string>, t: Target, p: Place, u: Target)
    requires IsPlace(lines, t, p) && Unrelated(t, u)
    ensures AllInert(lines[p.start..p.end], u) && !InBlock(lines[p.start])
  {
    hide Inert, KeyLine, InBlock;
    KeyLinesAreInert(lines[p.start], t, u);
    forall i | p.start <= i < p.end ensures Inert(lines[i], u) {
      if i > p.start { BlockLinesAreInert(lines[i], u); }
    }
  }

  lemma {:induction false} ItemsRead(values: seq<string>, i: nat)
    requires i <= |values|
    ensures
      var block := seq(|values|, k requires 0 <= k < |values| => "    - " + values[k]);
      ItemsIn(block[i..]) == values[i..]
    decreases |values| - i
  {
    var block := seq(|values|, k requires 0 <= k < |values| => "    - " + values[k]);
    if i < |values| {
      ItemsRead(values, i + 1);
      assert block[i..][1..] == block[i + 1..];
      assert ItemIn(block[i]) == [values[i]];
    }
  }

  /** A written list reads back as exactly its values. */
  lemma ReplacementReads(t: Target, values: seq<string>)
    requires Plain(t)
    ensures OwnBlock(Replacement(t, values), t)
    ensures ScalarList(Replacement(t, values)[1..])
    ensures ItemsIn(Replacement(t, values)[1..]) == values
  {
    var block := Replacement(t, values);
    assert KeyLine(t, block[0]) && block[0][..1] == " ";
    if values != [] {
      ItemsRead(values, 0);
      var items := seq(|values|, k requires 0 <= k < |values| => "    - " + values[k]);
      assert block[1..] == items == items[0..];
      forall i | 0 <= i < |items| ensures ItemLine(items[i]) && InBlock(items[i]) {
        assert items[i][..6] == "    - " && items[i][..4] == "    - "[..4] == "    ";
      }
    }
  }

  lemma ReplacementIsInert(t: Target, values: seq<string>, u: Target)
    requires Unrelated(t, u)
    ensures AllInert(Replacement(t, values), u) && Bounded(Replacement(t, values))
  {
    hide Inert, KeyLine, InBlock;
    var block := Replacement(t, values);
    ReplacementReads(t, values);
    KeyLinesAreInert(block[0], t, u);
    forall i | 0 <= i < |block| ensures Inert(block[i], u) {
      if i > 0 { BlockLinesAreInert(block[i], u); }
    }
  }

  lemma ReadAt(lines: seq<string>, t: Target, p: Place)
    requires IsPlace(lines, t, p)
    ensures Locate(lines, t) == Success(p)
    ensures Read(lines, t) ==
      if ScalarList(lines[p.start + 1..p.end]) then Success(ItemsIn(lines[p.start + 1..p.end]))
      else Failure(NotScalarList)
  {
    hide Locate;
    PlaceIsLocated(lines, t, p);
  }

  /** A block reads as the items written in it, and not at all if it holds any other line. */
  lemma {:induction false} ItemsAreWritten(block: seq<string>)
    ensures ScalarList(block) <==> forall i | 0 <= i < |block| :: block[i] == "" || exists x :: WritesItem(block[i], x)
    ensures ScalarList(block) ==>
      forall x :: x in ItemsIn(block) <==> exists i :: 0 <= i < |block| && WritesItem(block[i], x)
  {
    forall line: string ensures ItemLine(line) <==> exists x :: WritesItem(line, x) {
      if ItemLine(line) {
        assert line == line[..6] + line[6..];
        assert WritesItem(line, line[6..]);
      }
      if x :| WritesItem(line, x) {
        assert line[..6] == "    - ";
      }
    }
    if block != [] && ScalarList(block) {
      var rest := block[1..];
      assert forall i | 0 <= i < |rest| :: rest[i] == block[i + 1];
      ItemsAreWritten(rest);
      forall x ensures x in ItemIn(block[0]) <==> WritesItem(block[0], x) {
        if ItemLine(block[0]) {
          assert block[0] == block[0][..6] + block[0][6..];
        }
        if WritesItem(block[0], x) {
          assert block[0][..6] == "    - " && block[0][6..] == x;
        }
      }
      forall x ensures x in ItemsIn(block) <==> exists i :: 0 <= i < |block| && WritesItem(block[i], x) {
        if i :| 0 <= i < |block| && WritesItem(block[i], x) {
          assert i > 0 ==> WritesItem(rest[i - 1], x);
        }
        if x in ItemsIn(rest) {
          var i :| 0 <= i < |rest| && WritesItem(rest[i], x);
          assert WritesItem(block[i + 1], x);
        }
      }
    }
  }

  lemma MovedBlock(lines: seq<string>, p: Place, block: seq<string>, q: Place)
    requires p.start < p.end <= |lines| && q.start < q.end <= |lines|
    requires q.end <= p.start || q.start >= p.end
    requires q.section < p.start || q.section >= p.end
    ensures
      var r := Moved(q, p, |block|);
      && r.start < r.end <= |Replace(lines, p, block)|
      && Replace(lines, p, block)[r.start..r.end] == lines[q.start..q.end]
      && Replace(lines, p, block)[r.start + 1..r.end] == lines[q.start + 1..q.end]
  {
    hide Replace;
    ReplaceLength(lines, p, block);
    var after, r := Replace(lines, p, block), Moved(q, p, |block|);
    forall i | r.start <= i < r.end ensures after[i] == lines[q.start + (i - r.start)] {
      AfterAt(lines, p, block, i);
    }
  }

  /** Rewriting the block of one list leaves every other list readable and unchanged. */
  lemma ReplaceKeepsOther(lines: seq<string>, t: Target, p: Place, block: seq<string>, u: Target, q: Place)
    requires IsPlace(lines, t, p) && IsPlace(lines, u, q) && Unrelated(t, u)
    requires AllInert(block, u) && Bounded(block)
    ensures q.end <= p.start || q.start >= p.end
    ensures q.section < p.start || q.section >= p.end
    ensures IsPlace(Replace(lines, p, block), u, Moved(q, p, |block|))
    ensures Read(Replace(lines, p, block), u) == Read(lines, u)
  {
    hide SectionLine, KeyLine, Stops, InBlock, Read, Locate, Replace;
    ReplaceLength(lines, p, block);
    BlockIsInert(lines, t, p, u);
    assert q.start < q.end <= |lines| && p.start < p.end <= |lines|;
    ReplaceMovesOtherPlace(lines, t, p, block, u, q);
    var after, r := Replace(lines, p, block), Moved(q, p, |block|);
    ReadAt(lines, u, q);
    ReadAt(after, u, r);
    MovedBlock(lines, p, block, q);
  }

  lemma ReplaceBack(lines: seq<string>, p: Place, block: seq<string>)
    requires p.start <= p.end <= |lines|
    ensures p.start + |block| <= |Replace(lines, p, block)|
    ensures Replace(Replace(lines, p, block), Place(p.section, p.start, p.start + |block|),
                    lines[p.start..p.end]) == lines
  {
    var after := Replace(lines, p, block);
    assert after[..p.start] == lines[..p.start];
    assert after[p.start + |block|..] == lines[p.end..];
  }

  /** Edits of two lists can be made in either order. */
  lemma ReplacesCommute(lines: seq<string>, p: Place, block: seq<string>, q: Place, other: seq<string>)
    requires p.start < p.end <= |lines| && q.start < q.end <= |lines|
    requires q.end <= p.start || q.start >= p.end
    requires p.section < p.start && q.section < q.start
    requires q.section < p.start || q.section >= p.end
    requires p.section < q.start || p.section >= q.end
    ensures
      var movedQ, movedP := Moved(q, p, |block|), Moved(p, q, |other|);
      && movedQ.start <= movedQ.end <= |Replace(lines, p, block)|
      && movedP.start <= movedP.end <= |Replace(lines, q, other)|
      && Replace(Replace(lines, p, block), movedQ, other) == Replace(Replace(lines, q, other), movedP, block)
  {
    var movedQ, movedP := Moved(q, p, |block|), Moved(p, q, |other|);
    hide Replace;
    ReplaceLength(lines, p, block);
    ReplaceLength(lines, q, other);
    var viaP, viaQ := Replace(lines, p, block), Replace(lines, q, other);
    var left, right := Replace(viaP, movedQ, other), Replace(viaQ, movedP, block);
    ReplaceLength(viaP, movedQ, other);
    ReplaceLength(viaQ, movedP, block);
    forall i | 0 <= i < |left| ensures left[i] == right[i] {
      AfterAt(viaP, movedQ, other, i);
      AfterAt(viaQ, movedP, block, i);
      if !(movedQ.start <= i < movedQ.start + |other|) {
        AfterAt(lines, p, block, if i < movedQ.start then i else i - |other| + (movedQ.end - movedQ.start));
      }
      if !(movedP.start <= i < movedP.start + |block|) {
        AfterAt(lines, q, other, if i < movedP.start then i else i - |block| + (movedP.end - movedP.start));
      }
    }
  }
}
