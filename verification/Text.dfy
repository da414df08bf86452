/** Dart strings as sequences of code units: their order, sorting, prefixes and lines. */
module Text {

  /** `left.compareTo(right) < 0`: lexicographic by code unit. */
  predicate Before(left: string, right: string) {
    if right == "" then false
    else if left == "" then true
    else left[0] < right[0] || (left[0] == right[0] && Before(left[1..], right[1..]))
  }

  /** The strings agree up to `k`; there the left one ends or has the smaller code unit. */
  predicate BeforeAt(left: string, right: string, k: nat) {
    && k <= |left| && k < |right| && (forall i | 0 <= i < k :: left[i] == right[i])
    && (k == |left| || left[k] < right[k])
  }

  lemma {:induction false} BeforeIsLexicographic(left: string, right: string)
    ensures Before(left, right) <==> exists k: nat :: BeforeAt(left, right, k)
  {
    if left != "" && right != "" && left[0] == right[0] {
      BeforeIsLexicographic(left[1..], right[1..]);
      if k: nat :| BeforeAt(left[1..], right[1..], k) {
        assert forall i | 0 < i < k + 1 :: left[i] == left[1..][i - 1] && right[i] == right[1..][i - 1];
        assert BeforeAt(left, right, k + 1);
      }
      if k: nat :| BeforeAt(left, right, k) {
        assert k > 0;
        assert BeforeAt(left[1..], right[1..], k - 1);
      }
    } else if Before(left, right) {
      assert BeforeAt(left, right, 0);
    }
  }

  lemma {:induction false} BeforeIsTotal(a: string, b: string)
    ensures Before(a, b) || a == b || Before(b, a)
    ensures !(Before(a, b) && (a == b || Before(b, a)))
  {
    if a != "" && b != "" {
      BeforeIsTotal(a[1..], b[1..]);
      if a[0] == b[0] && a[1..] == b[1..] {
        assert a == [a[0]] + a[1..] && b == [b[0]] + b[1..];
      }
    }
  }

  lemma {:induction false} BeforeIsTransitive(a: string, b: string, c: string)
    requires Before(a, b) && Before(b, c)
    ensures Before(a, c)
  {
    if a != "" && a[0] == b[0] && b[0] == c[0] {
      BeforeIsTransitive(a[1..], b[1..], c[1..]);
    }
  }

  predicate IsLeast(m: string, s: set<string>) {
    m in s && forall x | x in s :: x == m || Before(m, x)
  }

  lemma {:induction false} LeastExists(s: set<string>)
    requires s != {}
    ensures exists m :: IsLeast(m, s)
  {
    var m :| m in s;
    if s == {m} {
      assert IsLeast(m, s);
    } else {
      LeastExists(s - {m});
      var n :| IsLeast(n, s - {m});
      BeforeIsTotal(m, n);
      if Before(m, n) {
        forall x | x in s && x != m ensures Before(m, x) {
          if x != n { BeforeIsTransitive(m, n, x); }
        }
        assert IsLeast(m, s);
      } else {
        assert IsLeast(n, s);
      }
    }
  }

  lemma LeastIsUnique(s: set<string>)
    ensures forall m, n :: IsLeast(m, s) && IsLeast(n, s) ==> m == n
  {
    forall m, n | IsLeast(m, s) && IsLeast(n, s) ensures m == n {
      BeforeIsTotal(m, n);
    }
  }

  function Least(s: set<string>): (m: string)
    requires s != {}
    ensures IsLeast(m, s)
  {
    LeastExists(s);
    LeastIsUnique(s);
    var m :| m in s && IsLeast(m, s);
    m
  }

  ghost predicate StrictlyAscending(r: seq<string>) {
    forall i, j | 0 <= i < j < |r| :: Before(r[i], r[j])
  }

  /** The elements of a set in order: `toList()..sort()` on a Dart set of strings. */
  function Ascending(s: set<string>): (r: seq<string>)
    ensures StrictlyAscending(r)
    ensures forall x :: x in r <==> x in s
  {
    if s == {} then [] else [Least(s)] + Ascending(s - {Least(s)})
  }

  /** Order and elements determine the list, so any correct sort returns it. */
  lemma {:induction false} AscendingIsUnique(r: seq<string>, s: set<string>)
    requires StrictlyAscending(r)
    requires forall x :: x in r <==> x in s
    ensures r == Ascending(s)
  {
    if r == [] {
      assert s == {} by { assert forall x :: x !in s; }
    } else {
      assert r[0] in s;
      var m := Least(s);
      var k :| 0 <= k < |r| && r[k] == m;
      BeforeIsTotal(r[0], m);
      assert r[0] == m;
      forall x ensures x in r[1..] <==> x in s - {m} {
        BeforeIsTotal(m, m);
        if x in s - {m} {
          var j :| 0 <= j < |r| && r[j] == x;
          assert r[1..][j - 1] == x;
        }
      }
      AscendingIsUnique(r[1..], s - {m});
      assert r == [m] + r[1..];
    }
  }

  predicate StartsWith(line: string, prefix: string) {
    |prefix| <= |line| && line[..|prefix|] == prefix
  }

  predicate EndsWithNewline(text: string) {
    text != "" && text[|text| - 1] == '\n'
  }

  /** `text.split('\n')`. */
  function Lines(text: string): (lines: seq<string>)
    ensures lines != []
  {
    if text == "" then [""]
    else
      var rest := Lines(text[1..]);
      if text[0] == '\n' then [""] + rest else [[text[0]] + rest[0]] + rest[1..]
  }

  /** `lines.join('\n')`. */
  function Join(lines: seq<string>): string {
    if |lines| == 0 then ""
    else if |lines| == 1 then lines[0]
    else lines[0] + "\n" + Join(lines[1..])
  }

  predicate OneLine(line: string) {
    '\n' !in line
  }

  ghost predicate AllOneLine(lines: seq<string>) {
    forall i | 0 <= i < |lines| :: OneLine(lines[i])
  }

  lemma {:induction false} LinesAreOneLine(text: string)
    ensures AllOneLine(Lines(text))
  {
    if text != "" { LinesAreOneLine(text[1..]); }
  }

  lemma {:induction false} LinesPrepend(line: string, tail: string)
    requires OneLine(line)
    ensures Lines(line + tail) == [line + Lines(tail)[0]] + Lines(tail)[1..]
  {
    if line == "" {
      assert line + tail == tail;
      assert line + Lines(tail)[0] == Lines(tail)[0];
      assert [Lines(tail)[0]] + Lines(tail)[1..] == Lines(tail);
    } else {
      LinesPrepend(line[1..], tail);
      assert (line + tail)[1..] == line[1..] + tail;
      assert [line[0]] + (line[1..] + Lines(tail)[0]) == line + Lines(tail)[0];
    }
  }

  /** Splitting the joined lines gives the lines back. */
  lemma {:induction false} LinesOfJoin(lines: seq<string>)
    requires lines != [] && AllOneLine(lines)
    ensures Lines(Join(lines)) == lines
  {
    LinesPrepend(lines[0], "");
    assert lines[0] + "" == lines[0];
    if |lines| > 1 {
      var tail := "\n" + Join(lines[1..]);
      LinesOfJoin(lines[1..]);
      assert tail[1..] == Join(lines[1..]);
      assert Lines(tail) == [""] + lines[1..];
      LinesPrepend(lines[0], tail);
      assert Join(lines) == lines[0] + tail;
      assert lines == [lines[0]] + lines[1..];
    }
  }

  /** Joining the lines of a text gives the text back. */
  lemma {:induction false} JoinOfLines(text: string)
    ensures Join(Lines(text)) == text
  {
    if text != "" {
      var rest, lines := Lines(text[1..]), Lines(text);
      JoinOfLines(text[1..]);
      assert text == [text[0]] + text[1..];
      if text[0] == '\n' {
        assert lines[1..] == rest;
      } else {
        assert lines[1..] == rest[1..];
      }
    }
  }

  lemma {:induction false} JoinEndsWithNewline(lines: seq<string>)
    requires lines != [] && AllOneLine(lines)
    ensures EndsWithNewline(Join(lines)) <==> |lines| > 1 && lines[|lines| - 1] == ""
  {
    if |lines| > 1 {
      JoinEndsWithNewline(lines[1..]);
      assert Join(lines) == lines[0] + "\n" + Join(lines[1..]);
      if |lines| == 2 { assert Join(lines[1..]) == lines[1]; }
    }
  }

  lemma {:induction false} JoinAppendEmpty(lines: seq<string>)
    requires lines != []
    ensures Join(lines + [""]) == Join(lines) + "\n"
  {
    if |lines| > 1 {
      JoinAppendEmpty(lines[1..]);
      assert (lines + [""])[1..] == lines[1..] + [""];
    } else {
      assert (lines + [""])[1..] == [""];
    }
  }
}
