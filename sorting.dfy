/**
  Rust's slice `sort` (day 1) and `sort_by` on a count (day 11) are library calls; their result is
  the unique ascending arrangement of the values, specified here by insertion sort. The lemmas say
  what the last positions of that arrangement hold: the largest values of the input.
 */
module Sorting {

  predicate SortedAsc(s: seq<int>) {
    forall i, j :: 0 <= i < j < |s| ==> s[i] <= s[j]
  }

  function Insert(x: int, s: seq<int>): (r: seq<int>)
    requires SortedAsc(s)
    ensures |r| == |s| + 1
    ensures r[0] == if s == [] || x <= s[0] then x else s[0]
    ensures SortedAsc(r)
  {
    if s == [] || x <= s[0] then [x] + s
    else
      assert s == [s[0]] + s[1..];
      [s[0]] + Insert(x, s[1..])
  }

  lemma {:induction false} InsertPermutes(x: int, s: seq<int>)
    requires SortedAsc(s)
    ensures multiset(Insert(x, s)) == multiset(s) + multiset{x}
    decreases |s|
  {
    if s != [] && x > s[0] {
      var rest := s[1..];
      assert s == [s[0]] + rest;
      assert Insert(x, s) == [s[0]] + Insert(x, rest);
      InsertPermutes(x, rest);
      assert multiset(Insert(x, s)) == multiset{s[0]} + multiset(Insert(x, rest));
    }
  }

  /** The values of `s` in ascending order. */
  function SortAsc(s: seq<int>): (r: seq<int>)
    ensures |r| == |s|
    ensures SortedAsc(r)
  {
    if s == [] then [] else Insert(s[0], SortAsc(s[1..]))
  }

  /** Sorting only rearranges: the result is a permutation of the input. */
  lemma {:induction false} SortAscPermutes(s: seq<int>)
    ensures multiset(SortAsc(s)) == multiset(s)
    decreases |s|
  {
    if s != [] {
      SortAscPermutes(s[1..]);
      InsertPermutes(s[0], SortAsc(s[1..]));
      assert s == [s[0]] + s[1..];
    }
  }

  /** How many entries of `s` are at least `v`. */
  function CountAtLeast(s: seq<int>, v: int): (n: nat)
    ensures n <= |s|
  {
    if s == [] then 0 else CountAtLeast(s[..|s| - 1], v) + (if s[|s| - 1] >= v then 1 else 0)
  }

  lemma {:induction false} CountAtLeastAppend(a: seq<int>, b: seq<int>, v: int)
    ensures CountAtLeast(a + b, v) == CountAtLeast(a, v) + CountAtLeast(b, v)
    decreases |b|
  {
    if b == [] {
      assert a + b == a;
    } else {
      assert (a + b)[..|a + b| - 1] == a + b[..|b| - 1];
      CountAtLeastAppend(a, b[..|b| - 1], v);
    }
  }

  lemma {:induction false} CountAtLeastInsert(x: int, s: seq<int>, v: int)
    requires SortedAsc(s)
    ensures CountAtLeast(Insert(x, s), v) == CountAtLeast(s, v) + (if x >= v then 1 else 0)
    decreases |s|
  {
    if s == [] || x <= s[0] {
      CountAtLeastAppend([x], s, v);
    } else {
      CountAtLeastInsert(x, s[1..], v);
      CountAtLeastAppend([s[0]], Insert(x, s[1..]), v);
      CountAtLeastAppend([s[0]], s[1..], v);
      assert s == [s[0]] + s[1..];
    }
  }

  /** Sorting keeps, for every threshold, the number of entries that reach it. */
  lemma {:induction false} CountAtLeastSortAsc(s: seq<int>, v: int)
    ensures CountAtLeast(SortAsc(s), v) == CountAtLeast(s, v)
    decreases |s|
  {
    if s != [] {
      CountAtLeastSortAsc(s[1..], v);
      CountAtLeastInsert(s[0], SortAsc(s[1..]), v);
      CountAtLeastAppend([s[0]], s[1..], v);
      assert s == [s[0]] + s[1..];
    }
  }

  /** A set of positions whose entries all reach `v` is no larger than the count of such entries. */
  lemma {:induction false} CountAtLeastPositions(s: seq<int>, v: int, positions: set<int>)
    requires forall i :: i in positions ==> 0 <= i < |s| && s[i] >= v
    ensures |positions| <= CountAtLeast(s, v)
    decreases |s|
  {
    if s == [] {
      assert positions == {} by {
        forall i | i in positions ensures false {
        }
      }
    } else {
      var last := |s| - 1;
      var rest := positions - {last};
      assert forall i :: i in rest ==> 0 <= i < |s[..last]| && s[..last][i] >= v;
      CountAtLeastPositions(s[..last], v, rest);
      if last in positions {
        assert |rest| == |positions| - 1;
      } else {
        assert rest == positions;
      }
    }
  }

  /** In an ascending sequence, an entry below `v` leaves room for at most the entries after it. */
  lemma {:induction false} CountAtLeastSorted(r: seq<int>, v: int, p: nat)
    requires SortedAsc(r) && p < |r| && r[p] < v
    ensures CountAtLeast(r, v) <= |r| - p - 1
    decreases |r|
  {
    if |r| - 1 > p {
      CountAtLeastSorted(r[..|r| - 1], v, p);
    } else {
      NoneAtLeast(r, v);
    }
  }

  lemma {:induction false} NoneAtLeast(s: seq<int>, v: int)
    requires forall i :: 0 <= i < |s| ==> s[i] < v
    ensures CountAtLeast(s, v) == 0
    decreases |s|
  {
    if s != [] {
      NoneAtLeast(s[..|s| - 1], v);
    }
  }

  /** If `m` entries of `s` reach `v`, the m-th largest entry of `s` does. */
  lemma {:induction false} MthFromEndAtLeast(s: seq<int>, v: int, m: nat)
    requires 0 < m <= CountAtLeast(s, v)
    ensures m <= |s| && SortAsc(s)[|s| - m] >= v
  {
    var r := SortAsc(s);
    CountAtLeastSortAsc(s, v);
    if r[|r| - m] < v {
      CountAtLeastSorted(r, v, |r| - m);
    }
  }

  lemma {:induction false} OneAtLeast(s: seq<int>, v: int, i: nat)
    requires i < |s| && s[i] >= v
    ensures CountAtLeast(s, v) >= 1
  {
    CountAtLeastPositions(s, v, {i});
  }

  lemma {:induction false} TwoAtLeast(s: seq<int>, v: int, i: nat, j: nat)
    requires i < |s| && j < |s| && i != j && s[i] >= v && s[j] >= v
    ensures CountAtLeast(s, v) >= 2
  {
    var p := {i, j};
    assert |p| == 2;
    CountAtLeastPositions(s, v, p);
  }

  lemma {:induction false} ThreeAtLeast(s: seq<int>, v: int, i: nat, j: nat, k: nat)
    requires i < |s| && j < |s| && k < |s| && i != j && j != k && i != k
    requires s[i] >= v && s[j] >= v && s[k] >= v
    ensures CountAtLeast(s, v) >= 3
  {
    var p := {i, j};
    assert |p| == 2;
    assert k !in p;
    var q := p + {k};
    assert |q| == 3;
    CountAtLeastPositions(s, v, q);
  }

  /** The last two entries of the ascending arrangement bound any two entries at distinct
      positions: the larger by the last, the smaller by the one before it. */
  lemma {:induction false} TopTwoBound(s: seq<int>, hi: nat, lo: nat)
    requires hi < |s| && lo < |s| && hi != lo && s[lo] <= s[hi]
    ensures |SortAsc(s)| >= 2
    ensures SortAsc(s)[|s| - 1] >= s[hi] && SortAsc(s)[|s| - 2] >= s[lo]
  {
    OneAtLeast(s, s[hi], hi);
    MthFromEndAtLeast(s, s[hi], 1);
    TwoAtLeast(s, s[lo], hi, lo);
    MthFromEndAtLeast(s, s[lo], 2);
  }

  /** The last three entries of the ascending arrangement bound any three entries at distinct
      positions hi, mid and lo (ordered by value), entry by entry. */
  lemma {:induction false} TopThreeBound(s: seq<int>, hi: nat, mid: nat, lo: nat)
    requires hi < |s| && mid < |s| && lo < |s| && hi != mid && mid != lo && hi != lo
    requires s[lo] <= s[mid] <= s[hi]
    ensures |SortAsc(s)| >= 3
    ensures SortAsc(s)[|s| - 1] >= s[hi] && SortAsc(s)[|s| - 2] >= s[mid]
    ensures SortAsc(s)[|s| - 3] >= s[lo]
  {
    TopTwoBound(s, hi, mid);
    ThreeAtLeast(s, s[lo], hi, mid, lo);
    MthFromEndAtLeast(s, s[lo], 3);
  }
}
