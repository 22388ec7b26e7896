/** `Array.prototype.sort` with the comparator `a < b ? -1 : a > b ? 1 : 0`
    over values that may be `undefined`: JavaScript moves every `undefined`
    entry to the end without consulting the comparator, and orders the rest
    ascending. */
module Sorting {
  import opened Outcomes

  /** The order the sort produces: defined values by size, `undefined`
      after all of them. */
  predicate Le(a: Option<int>, b: Option<int>) {
    match b
    case None => true
    case Some(y) => a.Some? && a.value <= y
  }

  lemma LeTotal(a: Option<int>, b: Option<int>)
    ensures Le(a, b) || Le(b, a)
  {
  }

  lemma LeAntisymmetric(a: Option<int>, b: Option<int>)
    requires Le(a, b) && Le(b, a)
    ensures a == b
  {
  }

  predicate Sorted(s: seq<Option<int>>) {
    forall i, j :: 0 <= i < j < |s| ==> Le(s[i], s[j])
  }

  /** `x` placed in front of the first element it does not exceed. */
  function Insert(x: Option<int>, s: seq<Option<int>>): (r: seq<Option<int>>)
    requires Sorted(s)
    ensures Sorted(r)
    ensures multiset(r) == multiset(s) + multiset{x}
  {
    if |s| == 0 then [x]
    else if Le(x, s[0]) then [x] + s
    else
      var tail := Insert(x, s[1..]);
      InsertBehind(x, s, tail);
      [s[0]] + tail
  }

  /** The step of `Insert` past a head that `x` exceeds: the head stays
      in front of the rest with `x` inserted. */
  lemma InsertBehind(x: Option<int>, s: seq<Option<int>>, tail: seq<Option<int>>)
    requires |s| > 0 && Sorted(s) && !Le(x, s[0])
    requires Sorted(tail) && multiset(tail) == multiset(s[1..]) + multiset{x}
    ensures Sorted([s[0]] + tail)
    ensures multiset([s[0]] + tail) == multiset(s) + multiset{x}
  {
    assert s == [s[0]] + s[1..];
    LeTotal(x, s[0]);
    forall k | 0 <= k < |tail|
      ensures Le(s[0], tail[k])
    {
      assert tail[k] in multiset(tail);
      if tail[k] != x {
        assert tail[k] in multiset(s[1..]);
        var j :| 0 <= j < |s[1..]| && s[1..][j] == tail[k];
        assert s[j + 1] == tail[k];
      }
    }
    var r := [s[0]] + tail;
    forall i, j | 0 <= i < j < |r|
      ensures Le(r[i], r[j])
    {
      if i > 0 {
        assert r[i] == tail[i - 1] && r[j] == tail[j - 1];
      }
    }
  }

  /** The sorted arrangement of `s`: ascending, `undefined` last, the same
      entries with the same multiplicities. */
  function Sort(s: seq<Option<int>>): (r: seq<Option<int>>)
    ensures Sorted(r)
    ensures multiset(r) == multiset(s)
  {
    if |s| == 0 then []
    else
      assert s == [s[0]] + s[1..];
      Insert(s[0], Sort(s[1..]))
  }

  /** The first element of a sorted sequence is below all of its entries. */
  lemma SortedHeadIsLeast(s: seq<Option<int>>, x: Option<int>)
    requires Sorted(s) && x in multiset(s)
    ensures |s| > 0 && Le(s[0], x)
  {
    var k :| 0 <= k < |s| && s[k] == x;
    if k == 0 {
      assert Le(x, x);
    }
  }

  /** A sorted arrangement is unique: two sorted sequences holding the same
      entries are the same sequence. */
  lemma {:induction false} SortedUnique(a: seq<Option<int>>, b: seq<Option<int>>)
    requires Sorted(a) && Sorted(b) && multiset(a) == multiset(b)
    ensures a == b
    decreases |a|
  {
    if |a| == 0 {
      assert |multiset(b)| == 0;
    } else {
      assert a[0] in multiset(a);
      SortedHeadIsLeast(b, a[0]);
      assert b[0] in multiset(b);
      SortedHeadIsLeast(a, b[0]);
      LeAntisymmetric(a[0], b[0]);
      MultisetTailOf(a);
      MultisetTailOf(b);
      SortedUnique(a[1..], b[1..]);
    }
  }

  /** Sorting depends only on the entries, not on their order. */
  lemma SortPermutationInvariant(a: seq<Option<int>>, b: seq<Option<int>>)
    requires multiset(a) == multiset(b)
    ensures Sort(a) == Sort(b)
  {
    SortedUnique(Sort(a), Sort(b));
  }

  /** `sorted[Math.floor(sorted.length / 2)]`: `undefined` when empty. */
  function Middle(s: seq<Option<int>>): (r: Option<int>)
    ensures |s| == 0 ==> r == None
    ensures |s| > 0 ==> r == s[|s| / 2]
  {
    if |s| == 0 then None else s[|s| / 2]
  }

  /** `s.map(f)`. */
  function MapSeq<A, B>(f: A -> B, s: seq<A>): (r: seq<B>)
    ensures |r| == |s|
    ensures forall i :: 0 <= i < |s| ==> r[i] == f(s[i])
  {
    seq(|s|, i requires 0 <= i < |s| => f(s[i]))
  }

  lemma MapAppend<A, B>(f: A -> B, a: seq<A>, b: seq<A>)
    ensures MapSeq(f, a + b) == MapSeq(f, a) + MapSeq(f, b)
  {
    forall i | 0 <= i < |a + b|
      ensures MapSeq(f, a + b)[i] == (MapSeq(f, a) + MapSeq(f, b))[i]
    {
      if i >= |a| {
        assert (a + b)[i] == b[i - |a|];
      }
    }
  }

  /** Removing the entry at `j` removes one copy of it from the multiset. */
  lemma MultisetRemove<A>(s: seq<A>, j: nat)
    requires j < |s|
    ensures multiset(s[..j] + s[j + 1..]) == multiset(s) - multiset{s[j]}
  {
    assert s == s[..j] + [s[j]] + s[j + 1..];
  }

  /** Dropping the head removes one copy of it from the multiset. */
  lemma MultisetTailOf<A>(s: seq<A>)
    requires |s| > 0
    ensures multiset(s[1..]) == multiset(s) - multiset{s[0]}
  {
    assert s == [s[0]] + s[1..];
  }

  /** Mapping keeps track of a removed entry: the image of `s` is the
      image of `s` without entry `j`, plus the image of that entry. */
  lemma MapRemove<A, B>(f: A -> B, s: seq<A>, j: nat)
    requires j < |s|
    ensures multiset(MapSeq(f, s)) == multiset(MapSeq(f, s[..j] + s[j + 1..])) + multiset{f(s[j])}
  {
    assert s == (s[..j] + [s[j]]) + s[j + 1..];
    MapAppend(f, s[..j] + [s[j]], s[j + 1..]);
    MapAppend(f, s[..j], [s[j]]);
    MapAppend(f, s[..j], s[j + 1..]);
  }

  lemma MapHead<A, B>(f: A -> B, s: seq<A>)
    requires |s| > 0
    ensures multiset(MapSeq(f, s)) == multiset(MapSeq(f, s[1..])) + multiset{f(s[0])}
  {
    assert MapSeq(f, s) == [f(s[0])] + MapSeq(f, s[1..]);
  }

  /** The inductive step of `MapPermutation`: matching the first entry of
      `a` with entry `j` of `b`. */
  lemma MapPermutationStep<A, B>(f: A -> B, a: seq<A>, b: seq<A>, j: nat)
    requires |a| > 0 && j < |b| && b[j] == a[0]
    requires multiset(MapSeq(f, a[1..])) == multiset(MapSeq(f, b[..j] + b[j + 1..]))
    ensures multiset(MapSeq(f, a)) == multiset(MapSeq(f, b))
  {
    MapHead(f, a);
    MapRemove(f, b, j);
    var ma, mb := multiset(MapSeq(f, a[1..])), multiset(MapSeq(f, b[..j] + b[j + 1..]));
    assert multiset(MapSeq(f, a)) == ma + multiset{f(a[0])};
    assert multiset(MapSeq(f, b)) == mb + multiset{f(b[j])};
  }

  /** Mapping a permutation gives a permutation: `map` keeps the entries'
      multiplicities whatever their order. */
  lemma {:induction false} MapPermutation<A, B>(f: A -> B, a: seq<A>, b: seq<A>)
    requires multiset(a) == multiset(b)
    ensures multiset(MapSeq(f, a)) == multiset(MapSeq(f, b))
    decreases |a|
  {
    if |a| == 0 {
      assert |multiset(b)| == 0;
      assert b == [];
    } else {
      assert a[0] in multiset(b);
      var j :| 0 <= j < |b| && b[j] == a[0];
      MultisetRemove(b, j);
      MultisetTailOf(a);
      MapPermutation(f, a[1..], b[..j] + b[j + 1..]);
      MapPermutationStep(f, a, b, j);
    }
  }
}
