/**
 * The facade's diffs (`RoomListDiff`, `TimelineDiff` and `ThreadListDiff` have this one shape)
 * and the lists the app keeps by applying them.
 */
module FacadeList {
  import opened Integers
  import opened Wrappers
  import SdkVector

  datatype ListDiff<T> =
    | Append(values: seq<T>)
    | Clear
    | PushFront(value: T)
    | PushBack(value: T)
    | PopFront
    | PopBack
    | Insert(index: U32, value: T)
    | Set(index: U32, value: T)
    | Remove(index: U32)
    | Truncate(length: U32)
    | Reset(values: seq<T>)

  function MapAll<S, T>(f: S -> T, items: seq<S>): (r: seq<T>)
    ensures |r| == |items|
    ensures forall i | 0 <= i < |items| :: r[i] == f(items[i])
  {
    seq(|items|, i requires 0 <= i < |items| => f(items[i]))
  }

  /** `value.try_into().unwrap_or(u32::MAX)`. */
  function ToU32(n: nat): U32 {
    if n < 0x1_0000_0000 then n else 0xFFFF_FFFF
  }

  /** `map_diff`: items are mapped, indices and lengths are converted. */
  function Translate<S, T>(f: S -> T, diff: SdkVector.VectorDiff<S>): ListDiff<T> {
    match diff
    case Append(values) => Append(MapAll(f, values))
    case Clear => Clear
    case PushFront(value) => PushFront(f(value))
    case PushBack(value) => PushBack(f(value))
    case PopFront => PopFront
    case PopBack => PopBack
    case Insert(index, value) => Insert(ToU32(index), f(value))
    case Set(index, value) => Set(ToU32(index), f(value))
    case Remove(index) => Remove(ToU32(index))
    case Truncate(length) => Truncate(ToU32(length))
    case Reset(values) => Reset(MapAll(f, values))
  }

  function TranslateAll<S, T>(f: S -> T, diffs: seq<SdkVector.VectorDiff<S>>): seq<ListDiff<T>> {
    if diffs == [] then [] else [Translate(f, diffs[0])] + TranslateAll(f, diffs[1..])
  }

  /** One case of the app's `applyDiffs`; `None` where the list operation throws. */
  function Apply<T>(diff: ListDiff<T>, list: seq<T>): Option<seq<T>> {
    match diff
    case Append(values) => Some(list + values)
    case Clear => Some([])
    case PushFront(value) => Some([value] + list)
    case PushBack(value) => Some(list + [value])
    case PopFront => if list == [] then None else Some(list[1..])
    case PopBack => if list == [] then None else Some(list[..|list| - 1])
    case Insert(index, value) => if index <= |list| then Some(list[..index] + [value] + list[index..]) else None
    case Set(index, value) => if index < |list| then Some(list[index := value]) else None
    case Remove(index) => if index < |list| then Some(list[..index] + list[index + 1..]) else None
    case Truncate(length) => if length <= |list| then Some(list[..length]) else None
    case Reset(values) => Some(values)
  }

  function ApplyAll<T>(diffs: seq<ListDiff<T>>, list: seq<T>): Option<seq<T>> {
    if diffs == [] then Some(list)
    else
      var next :- Apply(diffs[0], list);
      ApplyAll(diffs[1..], next)
  }

  /** `applyDiffs`: a copy of the list, changed diff by diff. */
  method ApplyDiffs<T>(current: seq<T>, diffs: seq<ListDiff<T>>) returns (r: Option<seq<T>>)
    ensures r == ApplyAll(diffs, current)
  {
    var next := current;
    for i := 0 to |diffs|
      invariant ApplyAll(diffs, current) == ApplyAll(diffs[i..], next)
    {
      var diff := diffs[i];
      assert diffs[i..][0] == diff && diffs[i..][1..] == diffs[i + 1..];
      match diff {
        case Append(values) => next := next + values;
        case Clear => next := [];
        case PushFront(value) => next := [value] + next;
        case PushBack(value) => next := next + [value];
        case PopFront =>
          if next == [] { return None; }
          next := next[1..];
        case PopBack =>
          if next == [] { return None; }
          next := next[..|next| - 1];
        case Insert(index, value) =>
          if index > |next| { return None; }
          next := next[..index] + [value] + next[index..];
        case Set(index, value) =>
          if index >= |next| { return None; }
          next := next[index := value];
        case Remove(index) =>
          if index >= |next| { return None; }
          next := next[..index] + next[index + 1..];
        case Truncate(length) =>
          if length > |next| { return None; }
          next := next[..length];
        case Reset(values) => next := values;
      }
    }
    return Some(next);
  }

  /** The diffs at the ends of a list, and of all of it, are insertions, removals and truncations there. */
  lemma EndsArePositions<T>(list: seq<T>, value: T, last: U32)
    ensures Apply(PushFront(value), list) == Apply(Insert(0, value), list)
    ensures last == |list| ==> Apply(PushBack(value), list) == Apply(Insert(last, value), list)
    ensures Apply(PopFront, list) == Apply(Remove(0), list)
    ensures last + 1 == |list| ==> Apply(PopBack, list) == Apply(Remove(last), list) == Apply(Truncate(last), list)
    ensures Apply(Clear, list) == Apply(Truncate(0), list) == Apply(Reset([]), list)
  {
    if list != [] {
      assert list[..0] + list[1..] == list[1..];
      assert list[..|list| - 1] + list[|list|..] == list[..|list| - 1];
    }
    assert list[..0] + [value] + list[0..] == [value] + list;
    assert list[..|list|] + [value] + list[|list|..] == list + [value];
  }

  lemma PairApplies<T>(first: ListDiff<T>, second: ListDiff<T>, list: seq<T>)
    ensures ApplyAll([first, second], list) ==
      if Apply(first, list).Some? then Apply(second, Apply(first, list).value) else None
  {
    assert [first, second][1..] == [second] && [second][1..] == [];
    if Apply(first, list).Some? && Apply(second, Apply(first, list).value).Some? {
      assert ApplyAll([], Apply(second, Apply(first, list).value).value).Some?;
    }
  }

  /** Insertion puts the item at its index and moves the rest; removal undoes it. */
  lemma InsertionLaws<T>(list: seq<T>, value: T, index: U32)
    ensures Apply(Insert(index, value), list).Some? <==> index <= |list|
    ensures index <= |list| ==>
      && Apply(Insert(index, value), list).value[index] == value
      && Apply(Remove(index), Apply(Insert(index, value), list).value) == Some(list)
  {
    if index <= |list| {
      var inserted := list[..index] + [value] + list[index..];
      assert inserted[..index] == list[..index] && inserted[index + 1..] == list[index..];
      assert list[..index] + list[index..] == list;
    }
  }

  /** Setting is removing and inserting. */
  lemma SetLaw<T>(list: seq<T>, value: T, index: U32)
    ensures Apply(Set(index, value), list).Some? <==> Apply(Remove(index), list).Some?
    ensures index < |list| ==>
      Apply(Set(index, value), list) == Apply(Insert(index, value), Apply(Remove(index), list).value)
  {
    if index < |list| {
      var removed := list[..index] + list[index + 1..];
      assert removed[..index] + [value] + removed[index..] == list[index := value];
    }
  }

  /** Appending adds behind; truncation keeps a prefix of exactly its length. */
  lemma AppendLaws<T>(list: seq<T>, a: seq<T>, b: seq<T>, value: T, length: U32)
    ensures ApplyAll([Append(a), Append(b)], list) == Apply(Append(a + b), list)
    ensures ApplyAll([Reset(a), Append(b)], list) == Apply(Reset(a + b), list)
    ensures Apply(PushBack(value), list) == Apply(Append([value]), list)
    ensures Apply(Append(a), list).Some? && list <= Apply(Append(a), list).value
    ensures Apply(Truncate(length), list).Some? <==> length <= |list|
    ensures length <= |list| ==>
      Apply(Truncate(length), list).value <= list && |Apply(Truncate(length), list).value| == length
  {
    PairApplies(Append(a), Append(b), list);
    PairApplies(Reset(a), Append(b), list);
    assert (list + a) + b == list + (a + b);
  }

  // Translation is exact where its indices fit and it removes only items that are there.

  predicate Fits<S>(diff: SdkVector.VectorDiff<S>) {
    match diff
    case Insert(index, _) => index < 0x1_0000_0000
    case Set(index, _) => index < 0x1_0000_0000
    case Remove(index) => index < 0x1_0000_0000
    case Truncate(length) => length < 0x1_0000_0000
    case _ => true
  }

  /** The diff removes items that are not there: the SDK may let it pass, the app throws. */
  predicate RemovesNothing<S>(diff: SdkVector.VectorDiff<S>, v: seq<S>) {
    ((diff.PopFront? || diff.PopBack?) && v == []) || (diff.Truncate? && diff.length > |v|)
  }

  /** Applying a translated diff to the mapped list is mapping the list after the diff. */
  lemma TranslationCommutes<S, T>(f: S -> T, diff: SdkVector.VectorDiff<S>, v: seq<S>)
    requires SdkVector.Apply(diff, v).Some? && Fits(diff) && !RemovesNothing(diff, v)
    ensures Apply(Translate(f, diff), MapAll(f, v)) == Some(MapAll(f, SdkVector.Apply(diff, v).value))
  {
    var after := SdkVector.Apply(diff, v).value;
    var applied := Apply(Translate(f, diff), MapAll(f, v));
    assert applied.Some? && |applied.value| == |after|;
    assert applied.value == MapAll(f, after);
  }

  /** On lists shorter than 2^32, every applicable diff has indices that fit. */
  lemma ShortListsFit<S>(diff: SdkVector.VectorDiff<S>, v: seq<S>)
    requires SdkVector.Apply(diff, v).Some? && |v| < 0x1_0000_0000 && !RemovesNothing(diff, v)
    ensures Fits(diff)
  {
  }

  /**
   * Where a diff fits and the SDK can apply it, translating it is exact unless it removes items that
   * are not there: the SDK then leaves the vector as it is, the app throws.
   */
  lemma TranslationIsExactWhen<S, T>(f: S -> T, diff: SdkVector.VectorDiff<S>, v: seq<S>)
    requires SdkVector.Apply(diff, v).Some? && Fits(diff)
    ensures
      Apply(Translate(f, diff), MapAll(f, v)) == Some(MapAll(f, SdkVector.Apply(diff, v).value))
      <==> !RemovesNothing(diff, v)
    ensures RemovesNothing(diff, v) ==>
      SdkVector.Apply(diff, v) == Some(v) && Apply(Translate(f, diff), MapAll(f, v)) == None
  {
    if !RemovesNothing(diff, v) {
      TranslationCommutes(f, diff, v);
    }
  }

  function Identity(n: int): int {
    n
  }

  /**
   * A diff that does not fit is sent with the largest index and goes wrong on some list, so no weaker
   * condition on diffs would do.
   */
  lemma SaturationShows(diff: SdkVector.VectorDiff<int>)
    requires !Fits(diff)
    ensures var at := Translate(Identity, diff);
      (if diff.Truncate? then at.length else at.index) == 0xFFFF_FFFF
    ensures exists v ::
      && SdkVector.Apply(diff, v).Some?
      && Apply(Translate(Identity, diff), MapAll(Identity, v)) != SdkVector.Apply(diff, v)
  {
    // The first index that saturates to another one tells the two results apart.
    var at := if diff.Truncate? then diff.length else diff.index;
    var v := seq(at + 1, i => if diff.Insert? || diff.Set? then diff.value + 1 else i);
    assert MapAll(Identity, v) == v;
    var expected := SdkVector.Apply(diff, v).value;
    var actual := Apply(Translate(Identity, diff), v).value;
    var k := 0xFFFF_FFFF;
    assert |actual| != |expected| || actual[k] != expected[k];
  }

  // Whole streams.

  /** Every diff of the stream can be applied and translated where it arrives. */
  ghost predicate Translatable<S>(diffs: seq<SdkVector.VectorDiff<S>>, v: seq<S>) {
    diffs != [] ==>
      && SdkVector.Apply(diffs[0], v).Some?
      && Fits(diffs[0]) && !RemovesNothing(diffs[0], v)
      && Translatable(diffs[1..], SdkVector.Apply(diffs[0], v).value)
  }

  lemma {:induction false} StreamCommutes<S, T>(f: S -> T, diffs: seq<SdkVector.VectorDiff<S>>, v: seq<S>)
    requires Translatable(diffs, v)
    ensures SdkVector.ApplyAll(diffs, v).Some?
    ensures ApplyAll(TranslateAll(f, diffs), MapAll(f, v)) == Some(MapAll(f, SdkVector.ApplyAll(diffs, v).value))
  {
    if diffs != [] {
      TranslationCommutes(f, diffs[0], v);
      StreamCommutes(f, diffs[1..], SdkVector.Apply(diffs[0], v).value);
      assert TranslateAll(f, diffs)[1..] == TranslateAll(f, diffs[1..]);
    }
  }

  /** Lists that stay shorter than 2^32 are followed as long as only items that are there are removed. */
  ghost predicate ShortAndSound<S>(diffs: seq<SdkVector.VectorDiff<S>>, v: seq<S>) {
    diffs != [] ==>
      && SdkVector.Apply(diffs[0], v).Some?
      && |v| < 0x1_0000_0000 && !RemovesNothing(diffs[0], v)
      && ShortAndSound(diffs[1..], SdkVector.Apply(diffs[0], v).value)
  }

  lemma {:induction false} ShortListsAreTranslatable<S>(diffs: seq<SdkVector.VectorDiff<S>>, v: seq<S>)
    requires ShortAndSound(diffs, v)
    ensures Translatable(diffs, v)
  {
    if diffs != [] {
      ShortListsFit(diffs[0], v);
      ShortListsAreTranslatable(diffs[1..], SdkVector.Apply(diffs[0], v).value);
    }
  }

  // Views of a list: what an observer of one property of the items sees.

  function MapDiff<S, T>(g: S -> T, diff: ListDiff<S>): ListDiff<T> {
    match diff
    case Append(values) => Append(MapAll(g, values))
    case Clear => Clear
    case PushFront(value) => PushFront(g(value))
    case PushBack(value) => PushBack(g(value))
    case PopFront => PopFront
    case PopBack => PopBack
    case Insert(index, value) => Insert(index, g(value))
    case Set(index, value) => Set(index, g(value))
    case Remove(index) => Remove(index)
    case Truncate(length) => Truncate(length)
    case Reset(values) => Reset(MapAll(g, values))
  }

  /** Whether a diff applies, and where, does not depend on the items. */
  lemma ApplyIsNatural<S, T>(g: S -> T, diff: ListDiff<S>, list: seq<S>)
    ensures Apply(MapDiff(g, diff), MapAll(g, list)).Some? <==> Apply(diff, list).Some?
    ensures Apply(diff, list).Some? ==>
      Apply(MapDiff(g, diff), MapAll(g, list)) == Some(MapAll(g, Apply(diff, list).value))
  {
    if Apply(diff, list).Some? {
      var viewed, image := Apply(MapDiff(g, diff), MapAll(g, list)), MapAll(g, Apply(diff, list).value);
      assert |viewed.value| == |image|;
      assert viewed.value == image;
    }
  }

  lemma TranslateThenView<S(!new), T, U>(f: S -> T, g: T -> U, h: S -> U, diff: SdkVector.VectorDiff<S>)
    requires forall s :: g(f(s)) == h(s)
    ensures MapDiff(g, Translate(f, diff)) == Translate(h, diff)
  {
    match diff
    case Append(values) => assert MapAll(g, MapAll(f, values)) == MapAll(h, values);
    case Reset(values) => assert MapAll(g, MapAll(f, values)) == MapAll(h, values);
    case _ =>
  }
}
