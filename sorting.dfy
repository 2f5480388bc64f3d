/** `Array.prototype.sort` with a comparator of the form `(a, b) => key(b) - key(a)`:
    a stable sort into non-increasing key order. JavaScript requires the sort
    to be stable, so it is modelled as an insertion sort that places each
    element after every earlier one whose key is at least as large. */
module Sorting {

  predicate NonIncreasing<T>(s: seq<T>, key: T -> int) {
    forall i, j :: 0 <= i < j < |s| ==> key(s[i]) >= key(s[j])
  }

  /** Sorted by key, largest first, and among equal keys by rank, smallest first. */
  predicate OrderedByKeyThenRank<T>(s: seq<T>, key: T -> int, rank: T -> int) {
    forall i, j :: 0 <= i < j < |s| ==>
      key(s[i]) > key(s[j]) || (key(s[i]) == key(s[j]) && rank(s[i]) < rank(s[j]))
  }

  predicate StrictlyIncreasingRank<T>(s: seq<T>, rank: T -> int) {
    forall i, j :: 0 <= i < j < |s| ==> rank(s[i]) < rank(s[j])
  }

  function InsertDesc<T>(s: seq<T>, x: T, key: T -> int): (r: seq<T>)
    ensures multiset(r) == multiset(s) + multiset{x}
    ensures |r| == |s| + 1
  {
    if s == [] then [x]
    else if key(s[0]) >= key(x) then
      assert s == [s[0]] + s[1..];
      [s[0]] + InsertDesc(s[1..], x, key)
    else [x] + s
  }

  function SortDesc<T>(s: seq<T>, key: T -> int): (r: seq<T>)
    ensures multiset(r) == multiset(s)
    ensures |r| == |s|
  {
    if s == [] then []
    else
      assert s == s[..|s| - 1] + [s[|s| - 1]];
      InsertDesc(SortDesc(s[..|s| - 1], key), s[|s| - 1], key)
  }

  lemma InsertDescMember<T>(s: seq<T>, x: T, key: T -> int, j: nat)
    requires j < |InsertDesc(s, x, key)|
    ensures InsertDesc(s, x, key)[j] == x || exists k :: 0 <= k < |s| && s[k] == InsertDesc(s, x, key)[j]
  {
    var r := InsertDesc(s, x, key);
    assert r[j] in multiset(r);
    if r[j] != x {
      assert r[j] in multiset(s);
    }
  }

  lemma {:induction false} InsertDescNonIncreasing<T>(s: seq<T>, x: T, key: T -> int)
    requires NonIncreasing(s, key)
    ensures NonIncreasing(InsertDesc(s, x, key), key)
  {
    var r := InsertDesc(s, x, key);
    if s == [] {
    } else if key(s[0]) >= key(x) {
      var rest := InsertDesc(s[1..], x, key);
      InsertDescNonIncreasing(s[1..], x, key);
      assert r == [s[0]] + rest;
      forall i, j | 0 <= i < j < |r| ensures key(r[i]) >= key(r[j]) {
        if i == 0 {
          InsertDescMember(s[1..], x, key, j - 1);
        } else {
          assert r[i] == rest[i - 1] && r[j] == rest[j - 1];
        }
      }
    } else {
      assert r == [x] + s;
      forall i, j | 0 <= i < j < |r| ensures key(r[i]) >= key(r[j]) {
        if i == 0 {
          assert key(s[0]) >= key(s[j - 1]) || j == 1;
        } else {
          assert r[i] == s[i - 1] && r[j] == s[j - 1];
        }
      }
    }
  }

  /** The result of the sort is in non-increasing key order. */
  lemma {:induction false} SortDescNonIncreasing<T>(s: seq<T>, key: T -> int)
    ensures NonIncreasing(SortDesc(s, key), key)
  {
    if s != [] {
      SortDescNonIncreasing(s[..|s| - 1], key);
      InsertDescNonIncreasing(SortDesc(s[..|s| - 1], key), s[|s| - 1], key);
    }
  }

  predicate HeadComesFirst<T>(h: T, rest: seq<T>, key: T -> int, rank: T -> int) {
    forall j :: 0 <= j < |rest| ==>
      key(h) > key(rest[j]) || (key(h) == key(rest[j]) && rank(h) < rank(rest[j]))
  }

  lemma ConsOrdered<T>(h: T, rest: seq<T>, key: T -> int, rank: T -> int)
    requires OrderedByKeyThenRank(rest, key, rank)
    requires HeadComesFirst(h, rest, key, rank)
    ensures OrderedByKeyThenRank([h] + rest, key, rank)
  {
    var r := [h] + rest;
    forall i, j | 0 <= i < j < |r|
      ensures key(r[i]) > key(r[j]) || (key(r[i]) == key(r[j]) && rank(r[i]) < rank(r[j]))
    {
      assert r[j] == rest[j - 1];
      if i > 0 {
        assert r[i] == rest[i - 1];
      }
    }
  }

  /** The head of the list stays in front of the insertion into its tail. */
  lemma HeadBeforeInsertion<T>(s: seq<T>, x: T, key: T -> int, rank: T -> int)
    requires s != [] && key(s[0]) >= key(x)
    requires OrderedByKeyThenRank(s, key, rank)
    requires forall i :: 0 <= i < |s| ==> rank(s[i]) < rank(x)
    ensures HeadComesFirst(s[0], InsertDesc(s[1..], x, key), key, rank)
  {
    var rest := InsertDesc(s[1..], x, key);
    forall j | 0 <= j < |rest|
      ensures key(s[0]) > key(rest[j]) || (key(s[0]) == key(rest[j]) && rank(s[0]) < rank(rest[j]))
    {
      assert rest[j] in multiset(rest);
      if rest[j] != x {
        assert rest[j] in multiset(s[1..]);
        var k :| 1 <= k < |s| && s[k] == rest[j];
      }
    }
  }

  lemma {:induction false} InsertDescKeepsTies<T>(s: seq<T>, x: T, key: T -> int, rank: T -> int)
    requires OrderedByKeyThenRank(s, key, rank)
    requires forall i :: 0 <= i < |s| ==> rank(s[i]) < rank(x)
    ensures OrderedByKeyThenRank(InsertDesc(s, x, key), key, rank)
  {
    if s == [] {
    } else if key(s[0]) >= key(x) {
      assert OrderedByKeyThenRank(s[1..], key, rank);
      InsertDescKeepsTies(s[1..], x, key, rank);
      HeadBeforeInsertion(s, x, key, rank);
      ConsOrdered(s[0], InsertDesc(s[1..], x, key), key, rank);
    } else {
      forall j | 0 <= j < |s| ensures key(x) > key(s[j]) {
        if j > 0 {
          assert key(s[0]) >= key(s[j]);
        }
      }
      ConsOrdered(x, s, key, rank);
    }
  }

  /** Stability: when the input is listed in increasing rank, equal keys keep
      that order in the result. */
  lemma {:induction false} SortDescKeepsTies<T>(s: seq<T>, key: T -> int, rank: T -> int)
    requires StrictlyIncreasingRank(s, rank)
    ensures OrderedByKeyThenRank(SortDesc(s, key), key, rank)
  {
    if s != [] {
      var init, last := s[..|s| - 1], s[|s| - 1];
      SortDescKeepsTies(init, key, rank);
      var sorted := SortDesc(init, key);
      forall i | 0 <= i < |sorted| ensures rank(sorted[i]) < rank(last) {
        assert sorted[i] in multiset(sorted);
        assert sorted[i] in multiset(init);
        var k :| 0 <= k < |init| && init[k] == sorted[i];
      }
      InsertDescKeepsTies(sorted, last, key, rank);
    }
  }
}
