/** Sequence operations behind the queries of the model: filtering (a WHERE clause
    or a list comprehension), paging (OFFSET/LIMIT) and stable sorting under a strict
    weak order, the way Python's list.sort(key=…) and ORDER BY order rows. */
module Sequences {
  import opened Wrappers

  /** The elements of s satisfying p, in order. */
  function Filter<T>(s: seq<T>, p: T -> bool): (r: seq<T>)
    ensures |r| <= |s|
    ensures forall k :: 0 <= k < |r| ==> r[k] in s && p(r[k])
    ensures forall k :: 0 <= k < |s| && p(s[k]) ==> s[k] in r
    decreases |s|
  {
    if s == [] then [] else (if p(s[0]) then [s[0]] else []) + Filter(s[1..], p)
  }

  /** Filtering keeps the relative order: the result is a subsequence. */
  lemma {:induction false} FilterAppend<T>(a: seq<T>, b: seq<T>, p: T -> bool)
    ensures Filter(a + b, p) == Filter(a, p) + Filter(b, p)
    decreases |a|
  {
    if a == [] {
      assert a + b == b;
    } else {
      assert (a + b)[1..] == a[1..] + b;
      FilterAppend(a[1..], b, p);
    }
  }

  lemma {:induction false} FilterAll<T>(s: seq<T>, p: T -> bool)
    requires forall k :: 0 <= k < |s| ==> p(s[k])
    ensures Filter(s, p) == s
    decreases |s|
  {
    if s != [] {
      FilterAll(s[1..], p);
    }
  }

  /** Filtering depends only on what the predicate says about the elements. */
  /** Filtering with a predicate no element satisfies leaves nothing. */
  lemma {:induction false} FilterNone<T>(s: seq<T>, p: T -> bool)
    requires forall i :: 0 <= i < |s| ==> !p(s[i])
    ensures Filter(s, p) == []
    decreases |s|
  {
    if s != [] {
      assert forall i :: 0 <= i < |s[1..]| ==> s[1..][i] == s[i + 1];
      FilterNone(s[1..], p);
    }
  }

  lemma {:induction false} FilterSamePredicate<T>(s: seq<T>, p: T -> bool, q: T -> bool)
    requires forall k :: 0 <= k < |s| ==> p(s[k]) == q(s[k])
    ensures Filter(s, p) == Filter(s, q)
    decreases |s|
  {
    if s != [] {
      FilterSamePredicate(s[1..], p, q);
    }
  }

  /** The values f gives for the elements of s, in order, skipping the Nones: a loop
      that appends each parsed item that is not None. */
  function FilterMap<A, B>(s: seq<A>, f: A -> Option<B>): (r: seq<B>)
    ensures |r| <= |s|
    decreases |s|
  {
    if s == [] then [] else (if f(s[0]).Some? then [f(s[0]).value] else []) + FilterMap(s[1..], f)
  }

  /** One step of that loop, at position i. */
  lemma FilterMapStep<A, B>(s: seq<A>, i: nat, f: A -> Option<B>)
    requires i < |s|
    ensures FilterMap(s[i..], f) == (if f(s[i]).Some? then [f(s[i]).value] else []) + FilterMap(s[i + 1..], f)
  {
    assert s[i..][1..] == s[i + 1..];
  }

  /** FilterMap depends only on the values of f. */
  lemma {:induction false} FilterMapSameValues<A, B>(s: seq<A>, f: A -> Option<B>, g: A -> Option<B>)
    requires forall k :: 0 <= k < |s| ==> f(s[k]) == g(s[k])
    ensures FilterMap(s, f) == FilterMap(s, g)
    decreases |s|
  {
    if s != [] {
      FilterMapSameValues(s[1..], f, g);
    }
  }

  /** Every output value is the value of some input element, and every input element
      with a value contributes it. */
  lemma {:induction false} FilterMapMembers<A, B>(s: seq<A>, f: A -> Option<B>)
    ensures forall b :: b in FilterMap(s, f) ==> exists k :: 0 <= k < |s| && f(s[k]) == Some(b)
    ensures forall k :: 0 <= k < |s| && f(s[k]).Some? ==> f(s[k]).value in FilterMap(s, f)
    decreases |s|
  {
    if s != [] {
      FilterMapMembers(s[1..], f);
      var r := FilterMap(s, f);
      var rest := FilterMap(s[1..], f);
      assert r == (if f(s[0]).Some? then [f(s[0]).value] else []) + rest;
      forall b | b in r ensures exists k :: 0 <= k < |s| && f(s[k]) == Some(b) {
        if b in rest {
          var k :| 0 <= k < |s[1..]| && f(s[1..][k]) == Some(b);
          assert s[1..][k] == s[k + 1];
        } else {
          assert f(s[0]) == Some(b);
        }
      }
      forall k | 0 <= k < |s| && f(s[k]).Some? ensures f(s[k]).value in r {
        if k > 0 {
          assert s[k] == s[1..][k - 1];
        }
      }
    }
  }

  /** OFFSET skip LIMIT limit. */
  function Page<T>(s: seq<T>, skip: nat, limit: nat): (r: seq<T>)
    ensures |r| == if |s| <= skip then 0 else if |s| - skip < limit then |s| - skip else limit
    ensures forall k :: 0 <= k < |r| ==> r[k] == s[skip + k]
  {
    var rest := if |s| <= skip then [] else s[skip..];
    if |rest| <= limit then rest else rest[..limit]
  }

  /** lt is irreflexive, transitive, and incomparability is transitive too. */
  ghost predicate StrictWeakOrder<T(!new)>(lt: (T, T) -> bool) {
    (forall a :: !lt(a, a))
    && (forall a, b, c {:trigger lt(a, b), lt(b, c)} :: lt(a, b) && lt(b, c) ==> lt(a, c))
    && (forall a, b, c {:trigger lt(a, c), lt(b, c)} {:trigger lt(a, c), lt(a, b)} ::
          lt(a, c) ==> lt(a, b) || lt(b, c))
  }

  /** No later element is strictly less than an earlier one. */
  ghost predicate Sorted<T>(s: seq<T>, lt: (T, T) -> bool) {
    forall i, j :: 0 <= i < j < |s| ==> !lt(s[j], s[i])
  }

  /** Insert e after every element it is not strictly less than. */
  function Insert<T>(e: T, r: seq<T>, lt: (T, T) -> bool): (q: seq<T>)
    ensures |q| == |r| + 1
  {
    if r == [] then [e]
    else if lt(e, r[0]) then [e] + r
    else [r[0]] + Insert(e, r[1..], lt)
  }

  /** Insertion sort: the last element goes into the sorted prefix, after its equals. */
  function SortBy<T>(s: seq<T>, lt: (T, T) -> bool): (r: seq<T>)
    ensures |r| == |s|
    decreases |s|
  {
    if s == [] then [] else Insert(s[|s| - 1], SortBy(s[..|s| - 1], lt), lt)
  }

  lemma {:induction false} InsertSorted<T(!new)>(e: T, r: seq<T>, lt: (T, T) -> bool)
    requires StrictWeakOrder(lt) && Sorted(r, lt)
    ensures Sorted(Insert(e, r, lt), lt)
    ensures forall k :: 0 <= k < |Insert(e, r, lt)| ==> Insert(e, r, lt)[k] == e || Insert(e, r, lt)[k] in r
    decreases |r|
  {
    if r != [] && !lt(e, r[0]) {
      var t := Insert(e, r[1..], lt);
      InsertSorted(e, r[1..], lt);
      var q := [r[0]] + t;
      forall i, j | 0 <= i < j < |q| ensures !lt(q[j], q[i]) {
        if i == 0 {
          assert q[j] == e || q[j] in r[1..];
          if q[j] != e {
            var k :| 0 <= k < |r[1..]| && r[1..][k] == q[j];
            assert r[k + 1] == q[j];
          }
        } else {
          assert q[i] == t[i - 1] && q[j] == t[j - 1];
        }
      }
    }
  }

  /** The result is ordered. */
  lemma {:induction false} SortBySorted<T(!new)>(s: seq<T>, lt: (T, T) -> bool)
    requires StrictWeakOrder(lt)
    ensures Sorted(SortBy(s, lt), lt)
    decreases |s|
  {
    if s != [] {
      SortBySorted(s[..|s| - 1], lt);
      InsertSorted(s[|s| - 1], SortBy(s[..|s| - 1], lt), lt);
    }
  }

  lemma {:induction false} InsertPermutation<T>(e: T, r: seq<T>, lt: (T, T) -> bool)
    ensures multiset(Insert(e, r, lt)) == multiset(r) + multiset{e}
    decreases |r|
  {
    if r != [] {
      assert r == [r[0]] + r[1..];
      if !lt(e, r[0]) {
        InsertPermutation(e, r[1..], lt);
        assert Insert(e, r, lt) == [r[0]] + Insert(e, r[1..], lt);
      }
    }
  }

  /** The result holds the same elements, as often as the input does. */
  lemma {:induction false} SortByPermutation<T>(s: seq<T>, lt: (T, T) -> bool)
    ensures multiset(SortBy(s, lt)) == multiset(s)
    decreases |s|
  {
    if s != [] {
      SortByPermutation(s[..|s| - 1], lt);
      InsertPermutation(s[|s| - 1], SortBy(s[..|s| - 1], lt), lt);
      assert s == s[..|s| - 1] + [s[|s| - 1]];
    }
  }

  /** The elements of s that rank equal to x, in the order of s. */
  function EqualRank<T>(s: seq<T>, lt: (T, T) -> bool, x: T): seq<T>
    decreases |s|
  {
    if s == [] then []
    else EqualRank(s[..|s| - 1], lt, x) + (if !lt(s[|s| - 1], x) && !lt(x, s[|s| - 1]) then [s[|s| - 1]] else [])
  }

  lemma {:induction false} EqualRankAppend<T>(a: seq<T>, b: seq<T>, lt: (T, T) -> bool, x: T)
    ensures EqualRank(a + b, lt, x) == EqualRank(a, lt, x) + EqualRank(b, lt, x)
    decreases |b|
  {
    if b == [] {
      assert a + b == a;
    } else {
      assert (a + b)[..|a + b| - 1] == a + b[..|b| - 1];
      EqualRankAppend(a, b[..|b| - 1], lt, x);
    }
  }

  lemma {:induction false} EqualRankNone<T>(s: seq<T>, lt: (T, T) -> bool, x: T)
    requires forall k :: 0 <= k < |s| ==> lt(x, s[k])
    ensures EqualRank(s, lt, x) == []
    decreases |s|
  {
    if s != [] {
      EqualRankNone(s[..|s| - 1], lt, x);
    }
  }

  /** Where Insert puts e: before the first element greater than it. */
  function InsertPos<T>(e: T, r: seq<T>, lt: (T, T) -> bool): (p: nat)
    ensures p <= |r|
  {
    if r == [] || lt(e, r[0]) then 0 else 1 + InsertPos(e, r[1..], lt)
  }

  /** Insert puts e in front of the first element greater than it. */
  lemma {:induction false} InsertSplit<T>(e: T, r: seq<T>, lt: (T, T) -> bool)
    ensures Insert(e, r, lt) == r[..InsertPos(e, r, lt)] + [e] + r[InsertPos(e, r, lt)..]
    ensures InsertPos(e, r, lt) == |r| || lt(e, r[InsertPos(e, r, lt)])
    decreases |r|
  {
    if r == [] || lt(e, r[0]) {
      assert r[..0] == [] && r[0..] == r;
    } else {
      var r' := r[1..];
      var p := InsertPos(e, r', lt);
      InsertSplit(e, r', lt);
      assert Insert(e, r, lt) == [r[0]] + Insert(e, r', lt);
      assert [r[0]] + r'[..p] == r[..p + 1];
      assert r'[p..] == r[p + 1..];
      if p < |r'| {
        assert r'[p] == r[p + 1];
      }
    }
  }

  /** In a sorted sequence, everything from the first element greater than e on
      is greater than anything ranked equal to e. */
  lemma AboveFrom<T(!new)>(e: T, r: seq<T>, p: nat, lt: (T, T) -> bool, x: T, k: nat)
    requires StrictWeakOrder(lt) && Sorted(r, lt)
    requires p <= k < |r| && lt(e, r[p]) && !lt(e, x)
    ensures lt(x, r[k])
  {
    if k > p {
      assert !lt(r[k], r[p]);
    }
    assert lt(e, r[k]);
  }

  lemma TailAbove<T(!new)>(e: T, r: seq<T>, p: nat, lt: (T, T) -> bool, x: T)
    requires StrictWeakOrder(lt) && Sorted(r, lt)
    requires p <= |r| && (p == |r| || lt(e, r[p])) && !lt(e, x)
    ensures EqualRank(r[p..], lt, x) == []
  {
    var tail := r[p..];
    forall k | 0 <= k < |tail| ensures lt(x, tail[k]) {
      AboveFrom(e, r, p, lt, x, p + k);
    }
    EqualRankNone(tail, lt, x);
  }

  /** Inserting into a sorted sequence keeps elements of equal rank in order, the new
      one last. */
  lemma InsertEqualRank<T(!new)>(e: T, r: seq<T>, lt: (T, T) -> bool, x: T)
    requires StrictWeakOrder(lt) && Sorted(r, lt)
    ensures EqualRank(Insert(e, r, lt), lt, x)
      == EqualRank(r, lt, x) + (if !lt(e, x) && !lt(x, e) then [e] else [])
  {
    InsertSplit(e, r, lt);
    var p := InsertPos(e, r, lt);
    EqualRankAround(r, p, e, lt, x);
    if !lt(e, x) && !lt(x, e) {
      TailAbove(e, r, p, lt, x);
    }
  }

  /** EqualRank of r with e spliced in at p, piece by piece. */
  lemma EqualRankAround<T>(r: seq<T>, p: nat, e: T, lt: (T, T) -> bool, x: T)
    requires p <= |r|
    ensures var mid := if !lt(e, x) && !lt(x, e) then [e] else [];
      EqualRank(r[..p] + [e] + r[p..], lt, x) == EqualRank(r[..p], lt, x) + mid + EqualRank(r[p..], lt, x)
      && EqualRank(r, lt, x) == EqualRank(r[..p], lt, x) + EqualRank(r[p..], lt, x)
  {
    assert r == r[..p] + r[p..];
    EqualRankAppend(r[..p], r[p..], lt, x);
    EqualRankSplice(r[..p], e, r[p..], lt, x);
  }

  lemma EqualRankSplice<T>(head: seq<T>, e: T, tail: seq<T>, lt: (T, T) -> bool, x: T)
    ensures EqualRank(head + [e] + tail, lt, x)
         == EqualRank(head, lt, x) + (if !lt(e, x) && !lt(x, e) then [e] else []) + EqualRank(tail, lt, x)
  {
    assert EqualRank([e], lt, x) == (if !lt(e, x) && !lt(x, e) then [e] else []) by {
      assert [e][..0] == [];
    }
    EqualRankAppend(head + [e], tail, lt, x);
    EqualRankAppend(head, [e], lt, x);
  }

  /** Sorting keeps elements of equal rank in their input order (stability). */
  lemma {:induction false} SortByStable<T(!new)>(s: seq<T>, lt: (T, T) -> bool, x: T)
    requires StrictWeakOrder(lt)
    ensures EqualRank(SortBy(s, lt), lt, x) == EqualRank(s, lt, x)
    decreases |s|
  {
    if s != [] {
      SortByStable(s[..|s| - 1], lt, x);
      SortBySorted(s[..|s| - 1], lt);
      InsertEqualRank(s[|s| - 1], SortBy(s[..|s| - 1], lt), lt, x);
    }
  }

  /** A loop that parses each item in turn and appends the results that are present. */
  method CollectEvents<A, B>(items: seq<A>, parse: A -> Option<B>) returns (events: seq<B>)
    ensures events == FilterMap(items, parse)
  {
    events := [];
    var i := 0;
    assert items[i..] == items;
    while i < |items|
      invariant 0 <= i <= |items|
      invariant events + FilterMap(items[i..], parse) == FilterMap(items, parse)
    {
      FilterMapStep(items, i, parse);
      ghost var rest := FilterMap(items[i + 1..], parse);
      var event := parse(items[i]);
      if event.Some? {
        assert events + [event.value] + rest == events + ([event.value] + rest);
        events := events + [event.value];
      }
      i := i + 1;
    }
    assert events + [] == events;
  }

  /** A loop that appends f of each item in turn. */
  method MapEach<A, B>(items: seq<A>, f: A -> B) returns (out: seq<B>)
    ensures |out| == |items|
    ensures forall k :: 0 <= k < |items| ==> out[k] == f(items[k])
  {
    out := [];
    var i := 0;
    while i < |items|
      invariant 0 <= i <= |items| && |out| == i
      invariant forall k :: 0 <= k < i ==> out[k] == f(items[k])
    {
      out := out + [f(items[i])];
      i := i + 1;
    }
  }
}
