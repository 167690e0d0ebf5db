/**
 * Operations on a cab's destination queue (a sequence of floor numbers):
 * the de-duplication, filtering and sorting the source performs with
 * `Array.from(new Set(...))`, `filter` and `sort`.
 */
module Queues {

  /** No floor occurs twice. */
  ghost predicate NoDuplicates(s: seq<int>) {
    forall x :: multiset(s)[x] <= 1
  }

  lemma NoDuplicatesPrefix(s: seq<int>, n: nat)
    requires n <= |s| && NoDuplicates(s)
    ensures NoDuplicates(s[..n])
  {
    assert s == s[..n] + s[n..];
    forall x ensures multiset(s[..n])[x] <= 1 {
      assert multiset(s)[x] == multiset(s[..n])[x] + multiset(s[n..])[x];
    }
  }

  /** Keeps the first occurrence of every value, in order, as `Array.from(new Set(s))` does. */
  function Dedupe(s: seq<int>): seq<int>
    decreases |s|
  {
    if s == [] then []
    else
      var d := Dedupe(s[..|s| - 1]);
      if s[|s| - 1] in d then d else d + [s[|s| - 1]]
  }

  /** The result holds every value of `s` once, and is `s` itself when `s` has no duplicates. */
  lemma {:induction false} DedupeSpec(s: seq<int>)
    ensures NoDuplicates(Dedupe(s))
    ensures forall x :: x in Dedupe(s) <==> x in s
    ensures NoDuplicates(s) ==> Dedupe(s) == s
    decreases |s|
  {
    if s != [] {
      var init, last := s[..|s| - 1], s[|s| - 1];
      assert s == init + [last];
      DedupeSpec(init);
      var d := Dedupe(init);
      if last in d {
        assert !NoDuplicates(s) by {
          assert multiset(s)[last] == multiset(init)[last] + 1;
        }
      } else {
        assert forall x :: multiset(d + [last])[x] == multiset(d)[x] + multiset([last])[x];
        if NoDuplicates(s) {
          NoDuplicatesPrefix(s, |s| - 1);
        }
      }
    }
  }

  /** `s.filter(item => item !== x)`. */
  function RemoveAll(s: seq<int>, x: int): (r: seq<int>)
    ensures forall y :: y in r <==> y in s && y != x
    ensures multiset(r) == multiset(s)[x := 0]
  {
    if s == [] then []
    else
      assert s == [s[0]] + s[1..];
      (if s[0] == x then [] else [s[0]]) + RemoveAll(s[1..], x)
  }

  /** Filtering a sequence split at its head. */
  lemma RemoveAllCons(h: int, t: seq<int>, x: int)
    ensures RemoveAll([h] + t, x) == (if h == x then [] else [h]) + RemoveAll(t, x)
  {
    assert ([h] + t)[0] == h && ([h] + t)[1..] == t;
  }

  /** Filtering distributes over concatenation, so the kept entries stay in their order. */
  lemma {:induction false} RemoveAllAppend(a: seq<int>, b: seq<int>, x: int)
    ensures RemoveAll(a + b, x) == RemoveAll(a, x) + RemoveAll(b, x)
  {
    if a == [] {
      assert a + b == b;
    } else {
      var h, t := a[0], a[1..];
      var kept := if h == x then [] else [h];
      assert a == [h] + t;
      assert a + b == [h] + (t + b);
      RemoveAllCons(h, t + b, x);
      RemoveAllCons(h, t, x);
      RemoveAllAppend(t, b, x);
      AppendAssoc(kept, RemoveAll(t, x), RemoveAll(b, x));
    }
  }

  lemma AppendAssoc(a: seq<int>, b: seq<int>, c: seq<int>)
    ensures a + (b + c) == (a + b) + c
  {
  }

  /** Filtering out a value that does not occur changes nothing. */
  lemma {:induction false} RemoveAllAbsent(s: seq<int>, x: int)
    requires x !in s
    ensures RemoveAll(s, x) == s
  {
    if s != [] {
      RemoveAllAbsent(s[1..], x);
    }
  }

  lemma NoDuplicatesRemoveAll(s: seq<int>, x: int)
    requires NoDuplicates(s)
    ensures NoDuplicates(RemoveAll(s, x))
  {
  }

  /** The comparison of `sort((a, b) => a - b)` (ascending) or `sort((a, b) => b - a)`. */
  predicate InOrder(a: int, b: int, ascending: bool) {
    if ascending then a <= b else a >= b
  }

  ghost predicate SortedBy(s: seq<int>, ascending: bool) {
    forall i, j :: 0 <= i < j < |s| ==> InOrder(s[i], s[j], ascending)
  }

  function Insert(x: int, s: seq<int>, ascending: bool): seq<int> {
    if s == [] || InOrder(x, s[0], ascending) then [x] + s
    else [s[0]] + Insert(x, s[1..], ascending)
  }

  lemma {:induction false} InsertMultiset(x: int, s: seq<int>, ascending: bool)
    ensures multiset(Insert(x, s, ascending)) == multiset(s) + multiset{x}
  {
    if s != [] && !InOrder(x, s[0], ascending) {
      InsertMultiset(x, s[1..], ascending);
      assert s == [s[0]] + s[1..];
    }
  }

  /** Sortedness of a non-empty sequence, split at its head. */
  lemma SortedCons(h: int, t: seq<int>, ascending: bool)
    requires SortedBy(t, ascending)
    requires forall y :: y in t ==> InOrder(h, y, ascending)
    ensures SortedBy([h] + t, ascending)
  {
    var r := [h] + t;
    forall i, j | 0 <= i < j < |r| ensures InOrder(r[i], r[j], ascending) {
      assert r[j] == t[j - 1];
      if i > 0 {
        assert r[i] == t[i - 1];
      }
    }
  }

  lemma SortedTail(s: seq<int>, ascending: bool)
    requires s != [] && SortedBy(s, ascending)
    ensures SortedBy(s[1..], ascending)
    ensures forall y :: y in s[1..] ==> InOrder(s[0], y, ascending)
  {
    forall i, j | 0 <= i < j < |s[1..]| ensures InOrder(s[1..][i], s[1..][j], ascending) {
      assert s[1..][i] == s[i + 1] && s[1..][j] == s[j + 1];
    }
  }

  lemma {:induction false} InsertSorted(x: int, s: seq<int>, ascending: bool)
    requires SortedBy(s, ascending)
    ensures SortedBy(Insert(x, s, ascending), ascending)
  {
    if s == [] || InOrder(x, s[0], ascending) {
      if s != [] {
        SortedTail(s, ascending);
      }
      SortedCons(x, s, ascending);
    } else {
      var t := Insert(x, s[1..], ascending);
      SortedTail(s, ascending);
      InsertSorted(x, s[1..], ascending);
      InsertMultiset(x, s[1..], ascending);
      forall y | y in t ensures InOrder(s[0], y, ascending) {
        assert y in multiset(t);
        if y != x {
          assert y in multiset(s[1..]);
        }
      }
      SortedCons(s[0], t, ascending);
    }
  }

  /** Insertion keeps the order and adds exactly one occurrence of `x`. */
  lemma InsertSpec(x: int, s: seq<int>, ascending: bool)
    requires SortedBy(s, ascending)
    ensures SortedBy(Insert(x, s, ascending), ascending)
    ensures multiset(Insert(x, s, ascending)) == multiset(s) + multiset{x}
  {
    InsertSorted(x, s, ascending);
    InsertMultiset(x, s, ascending);
  }

  /** A library sort with the given comparison. */
  function Sort(s: seq<int>, ascending: bool): seq<int> {
    if s == [] then [] else Insert(s[0], Sort(s[1..], ascending), ascending)
  }

  /** The result is a sorted permutation of the input. */
  lemma {:induction false} SortSpec(s: seq<int>, ascending: bool)
    ensures SortedBy(Sort(s, ascending), ascending)
    ensures multiset(Sort(s, ascending)) == multiset(s)
  {
    if s != [] {
      assert s == [s[0]] + s[1..];
      SortSpec(s[1..], ascending);
      InsertSpec(s[0], Sort(s[1..], ascending), ascending);
    }
  }
}
