/** `list.sort` by a string key. */
module Sorting {
  import opened Text

  ghost predicate InOrder<T>(items: seq<T>, key: T -> string) {
    forall i, j | 0 <= i < j < |items| :: !Before(key(items[j]), key(items[i]))
  }

  ghost predicate DistinctKeys<T>(items: seq<T>, key: T -> string) {
    forall i, j | 0 <= i < j < |items| :: key(items[i]) != key(items[j])
  }

  function SortedBy<T>(items: seq<T>, key: T -> string): (sorted: seq<T>)
    ensures multiset(sorted) == multiset(items)
    ensures InOrder(sorted, key)
  {
    if items == [] then []
    else
      assert items == items[..|items| - 1] + [items[|items| - 1]];
      InsertKeepsOrder(items[|items| - 1], SortedBy(items[..|items| - 1], key), key);
      Insert(items[|items| - 1], SortedBy(items[..|items| - 1], key), key)
  }

  function Insert<T>(item: T, sorted: seq<T>, key: T -> string): (r: seq<T>)
    ensures multiset(r) == multiset(sorted) + multiset{item}
  {
    if sorted == [] || Before(key(item), key(sorted[0])) then [item] + sorted
    else
      assert sorted == [sorted[0]] + sorted[1..];
      [sorted[0]] + Insert(item, sorted[1..], key)
  }

  lemma {:induction false} InsertKeepsOrder<T>(item: T, sorted: seq<T>, key: T -> string)
    requires InOrder(sorted, key)
    ensures InOrder(Insert(item, sorted, key), key)
  {
    if sorted != [] {
      if Before(key(item), key(sorted[0])) {
        HeadIsFirst(item, sorted, key);
      } else {
        var rest := Insert(item, sorted[1..], key);
        InsertKeepsOrder(item, sorted[1..], key);
        forall j | 0 <= j < |rest| ensures !Before(key(rest[j]), key(sorted[0])) {
          assert rest[j] in multiset(rest);
          assert rest[j] == item || rest[j] in sorted[1..];
        }
      }
    }
  }

  lemma HeadIsFirst<T>(item: T, sorted: seq<T>, key: T -> string)
    requires InOrder(sorted, key) && sorted != [] && Before(key(item), key(sorted[0]))
    ensures InOrder([item] + sorted, key)
  {
    forall j | 0 <= j < |sorted| ensures !Before(key(sorted[j]), key(item)) {
      BeforeIsTotal(key(sorted[0]), key(sorted[j]));
      if Before(key(sorted[0]), key(sorted[j])) {
        BeforeIsTransitive(key(item), key(sorted[0]), key(sorted[j]));
      }
      BeforeIsTotal(key(item), key(sorted[j]));
    }
  }

  /** In a sorted list, comparing neighbours finds every repeated key. */
  lemma NeighboursDecideDistinct<T>(items: seq<T>, key: T -> string)
    requires InOrder(items, key)
    ensures DistinctKeys(items, key) <==> forall i | 0 < i < |items| :: key(items[i - 1]) != key(items[i])
  {
    if forall i | 0 < i < |items| :: key(items[i - 1]) != key(items[i]) {
      forall i, j | 0 <= i < j < |items| ensures key(items[i]) != key(items[j]) {
        StrictlyBetween(items, key, i, j);
        BeforeIsTotal(key(items[i]), key(items[j]));
      }
    }
  }

  lemma {:induction false} StrictlyBetween<T>(items: seq<T>, key: T -> string, i: nat, j: nat)
    requires InOrder(items, key) && i < j < |items|
    requires forall k | 0 < k < |items| :: key(items[k - 1]) != key(items[k])
    ensures Before(key(items[i]), key(items[j]))
    decreases j
  {
    BeforeIsTotal(key(items[j - 1]), key(items[j]));
    assert key(items[j - 1]) != key(items[j]);
    if i < j - 1 {
      StrictlyBetween(items, key, i, j - 1);
      BeforeIsTransitive(key(items[i]), key(items[j - 1]), key(items[j]));
    }
  }

  /** With distinct keys the sorted list does not depend on the original order. */
  lemma {:induction false} SortIsCanonical<T>(a: seq<T>, b: seq<T>, key: T -> string)
    requires InOrder(a, key) && InOrder(b, key) && DistinctKeys(a, key)
    requires multiset(a) == multiset(b)
    ensures a == b
  {
    assert |multiset(a)| == |multiset(b)|;
    if a != [] {
      FirstAgrees(a, b, key);
      TailElements(a);
      TailElements(b);
      SortIsCanonical(a[1..], b[1..], key);
    }
  }

  lemma TailElements<T>(a: seq<T>)
    requires a != []
    ensures a == [a[0]] + a[1..]
    ensures multiset(a[1..]) == multiset(a) - multiset{a[0]}
  {
    assert a == [a[0]] + a[1..];
  }

  lemma FirstAgrees<T>(a: seq<T>, b: seq<T>, key: T -> string)
    requires InOrder(a, key) && InOrder(b, key) && DistinctKeys(a, key)
    requires multiset(a) == multiset(b) && a != [] && b != []
    ensures a[0] == b[0]
  {
    assert a[0] in multiset(b) && b[0] in multiset(a);
    var i :| 0 <= i < |a| && a[i] == b[0];
    var j :| 0 <= j < |b| && b[j] == a[0];
    BeforeIsTotal(key(a[0]), key(b[0]));
    assert key(a[0]) == key(b[0]);
  }
}
