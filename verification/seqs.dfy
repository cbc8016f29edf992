/** Sequence helpers shared by the result cache and the backup list:
    the rolling window `[...xs, x].slice(-n)` and order-preserving filters. */
module Seqs {

  /** `xs.slice(-n)` for n > 0: the last `n` elements, or all of them when
      there are fewer. */
  function KeepLast<T(==)>(xs: seq<T>, n: nat): (r: seq<T>)
    ensures |r| == if |xs| < n then |xs| else n
    ensures IsSuffix(r, xs)
  {
    if |xs| <= n then xs else xs[|xs| - n..]
  }

  predicate IsSuffix<T(==)>(a: seq<T>, b: seq<T>) {
    |a| <= |b| && a == b[|b| - |a|..]
  }

  /** Appending one element then keeping the last `n`: the rolling window
      used by both the cache (n = 50) and the backups (n = 10). */
  function PushWindow<T(==)>(xs: seq<T>, x: T, n: nat): (r: seq<T>)
    requires n > 0
    ensures |r| == if |xs| + 1 < n then |xs| + 1 else n
    ensures r[|r| - 1] == x
    ensures IsSuffix(r[..|r| - 1], xs)
    ensures |xs| < n ==> r == xs + [x]
  {
    var r := KeepLast(xs + [x], n);
    assert r[..|r| - 1] == xs[|xs| + 1 - |r|..];
    r
  }

  /** Windowing twice is windowing once: the last `n` elements of
      `s + t` depend only on the last `n` elements of `s`. */
  lemma {:induction false} KeepLastAppend<T>(s: seq<T>, t: seq<T>, n: nat)
    ensures KeepLast(KeepLast(s, n) + t, n) == KeepLast(s + t, n)
  {
    if |s| > n {
      var k := s[|s| - n..];
      assert KeepLast(s, n) == k;
      if |t| == 0 {
        assert k + t == k;
        assert s + t == s;
      } else {
        var lhs := (k + t)[|k + t| - n..];
        var rhs := (s + t)[|s + t| - n..];
        assert |lhs| == |rhs|;
        forall i | 0 <= i < n
          ensures lhs[i] == rhs[i]
        {
          if i + |t| < n {
            assert lhs[i] == k[i + |t|] == s[|s| - n + i + |t|];
          }
        }
        assert lhs == rhs;
      }
    }
  }

  /** Pushing each element of `ys` in turn through the window. */
  function PushEach<T(==)>(xs: seq<T>, ys: seq<T>, n: nat): seq<T>
    requires n > 0
    decreases |ys|
  {
    if |ys| == 0 then xs
    else PushEach(PushWindow(xs, ys[0], n), ys[1..], n)
  }

  /** Pushing one by one keeps exactly the last `n` of everything seen. */
  lemma {:induction false} PushEachWindow<T>(xs: seq<T>, ys: seq<T>, n: nat)
    requires n > 0 && |xs| <= n
    ensures PushEach(xs, ys, n) == KeepLast(xs + ys, n)
    decreases |ys|
  {
    if |ys| == 0 {
      assert xs + ys == xs;
    } else {
      var x1 := PushWindow(xs, ys[0], n);
      PushEachWindow(x1, ys[1..], n);
      KeepLastAppend(xs + [ys[0]], ys[1..], n);
      AppendHead(xs, ys);
    }
  }

  /** Moving the head of `ys` across the join. */
  lemma AppendHead<T>(xs: seq<T>, ys: seq<T>)
    requires |ys| > 0
    ensures xs + [ys[0]] + ys[1..] == xs + ys
  {
    assert ys == [ys[0]] + ys[1..];
  }

  /** No element occurs twice. */
  predicate Distinct<T(==)>(xs: seq<T>) {
    forall i, j :: 0 <= i < j < |xs| ==> xs[i] != xs[j]
  }

  /** `xs.filter(keep)`. */
  function Filter<T(==,!new)>(xs: seq<T>, keep: T -> bool): (r: seq<T>)
    ensures |r| <= |xs|
    ensures forall i :: 0 <= i < |r| ==> r[i] in xs && keep(r[i])
    ensures forall i :: 0 <= i < |xs| && keep(xs[i]) ==> xs[i] in r
    ensures IsSubsequence(r, xs)
    ensures forall x :: multiset(r)[x] == if keep(x) then multiset(xs)[x] else 0
  {
    if |xs| == 0 then []
    else
      var rest := Filter(xs[1..], keep);
      var r := if keep(xs[0]) then [xs[0]] + rest else rest;
      FilterStep(xs, keep, rest, r);
      CountsGiveMembership(xs, keep, r);
      r
  }

  /** One step of the filter: what holds of the filtered tail carries over
      to the whole sequence. */
  lemma FilterStep<T(!new)>(xs: seq<T>, keep: T -> bool, rest: seq<T>, r: seq<T>)
    requires |xs| > 0
    requires |rest| <= |xs| - 1 && IsSubsequence(rest, xs[1..])
    requires forall x :: multiset(rest)[x] == if keep(x) then multiset(xs[1..])[x] else 0
    requires r == if keep(xs[0]) then [xs[0]] + rest else rest
    ensures |r| <= |xs| && IsSubsequence(r, xs)
    ensures forall x :: multiset(r)[x] == if keep(x) then multiset(xs)[x] else 0
  {
    if keep(xs[0]) {
      assert r[1..] == rest;
    } else {
      SubsequenceOfTail(rest, xs);
    }
    FilterCountStep(xs, keep, rest, r);
  }

  /** Exact counts give membership both ways: every element kept is a
      kept element of `xs`, and every kept element of `xs` is kept. */
  lemma CountsGiveMembership<T(!new)>(xs: seq<T>, keep: T -> bool, r: seq<T>)
    requires forall x :: multiset(r)[x] == if keep(x) then multiset(xs)[x] else 0
    ensures forall i :: 0 <= i < |r| ==> r[i] in xs && keep(r[i])
    ensures forall i :: 0 <= i < |xs| && keep(xs[i]) ==> xs[i] in r
  {
    forall i | 0 <= i < |r|
      ensures r[i] in xs && keep(r[i])
    {
      assert multiset(r)[r[i]] > 0;
    }
    forall i | 0 <= i < |xs| && keep(xs[i])
      ensures xs[i] in r
    {
      assert multiset(xs)[xs[i]] > 0;
    }
  }

  /** The element counts of a filter, one step further along `xs`. */
  lemma FilterCountStep<T(!new)>(xs: seq<T>, keep: T -> bool, rest: seq<T>, r: seq<T>)
    requires |xs| > 0
    requires forall x :: multiset(rest)[x] == if keep(x) then multiset(xs[1..])[x] else 0
    requires r == if keep(xs[0]) then [xs[0]] + rest else rest
    ensures forall x :: multiset(r)[x] == if keep(x) then multiset(xs)[x] else 0
  {
    assert xs == [xs[0]] + xs[1..];
    assert multiset(xs) == multiset{xs[0]} + multiset(xs[1..]);
  }

  /** Dropping the head of `b` keeps `a` a subsequence of `b`. */
  lemma {:induction false} SubsequenceOfTail<T>(a: seq<T>, b: seq<T>)
    requires |b| > 0 && IsSubsequence(a, b[1..])
    ensures IsSubsequence(a, b)
    decreases |b|
  {
    if |a| > 0 && a[0] == b[0] {
      SubsequenceWeaken(a, b[1..]);
      SubsequenceOfTail(a[1..], b[1..]);
    }
  }

  /** A subsequence stays one after its head is dropped. */
  lemma {:induction false} SubsequenceWeaken<T>(a: seq<T>, b: seq<T>)
    requires |a| > 0 && IsSubsequence(a, b)
    ensures IsSubsequence(a[1..], b[1..])
    decreases |b|
  {
    if a[0] != b[0] {
      SubsequenceWeaken(a, b[1..]);
      SubsequenceOfTail(a[1..], b[1..]);
    }
  }

  /** Filters that agree on the elements give the same result. */
  lemma {:induction false} FilterAgree<T(!new)>(xs: seq<T>, f: T -> bool, g: T -> bool)
    requires forall x :: x in xs ==> f(x) == g(x)
    ensures Filter(xs, f) == Filter(xs, g)
  {
    if |xs| > 0 {
      FilterAgree(xs[1..], f, g);
    }
  }

  /** `a` is `b` with some elements dropped, the rest kept in order. */
  predicate IsSubsequence<T(==)>(a: seq<T>, b: seq<T>)
    decreases |b|
  {
    if |a| == 0 then true
    else if |b| == 0 then false
    else if a[0] == b[0] then IsSubsequence(a[1..], b[1..])
    else IsSubsequence(a, b[1..])
  }

  /** A filter that keeps everything is the identity. */
  lemma {:induction false} FilterKeepsAll<T(!new)>(xs: seq<T>, keep: T -> bool)
    requires forall x :: x in xs ==> keep(x)
    ensures Filter(xs, keep) == xs
  {
    if |xs| > 0 {
      FilterKeepsAll(xs[1..], keep);
    }
  }
}
