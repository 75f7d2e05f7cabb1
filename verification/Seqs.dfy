/** The few Array.prototype operations the application relies on, over `seq`. */
module Seqs {
  import opened Wrappers

  /** `xs.filter(p)`: the elements of `xs` satisfying `p`, in their original order. */
  function Filter<T(==)>(xs: seq<T>, p: T -> bool): (r: seq<T>)
    ensures |r| <= |xs|
    ensures forall i :: 0 <= i < |r| ==> r[i] in xs && p(r[i])
    ensures forall i :: 0 <= i < |xs| && p(xs[i]) ==> xs[i] in r
    decreases |xs|
  {
    if |xs| == 0 then []
    else (if p(xs[0]) then [xs[0]] else []) + Filter(xs[1..], p)
  }

  /** Filtering is a homomorphism over concatenation: together with its action on a
      single element this pins the result down, including the relative order. */
  lemma {:induction false} FilterConcat<T>(xs: seq<T>, ys: seq<T>, p: T -> bool)
    ensures Filter(xs + ys, p) == Filter(xs, p) + Filter(ys, p)
    decreases |xs|
  {
    if |xs| == 0 {
      assert xs + ys == ys;
    } else {
      assert (xs + ys)[0] == xs[0];
      assert (xs + ys)[1..] == xs[1..] + ys;
      FilterConcat(xs[1..], ys, p);
    }
  }

  /** Filtering with a predicate every element satisfies keeps the sequence as it is. */
  lemma {:induction false} FilterKeepsAll<T>(xs: seq<T>, p: T -> bool)
    requires forall i :: 0 <= i < |xs| ==> p(xs[i])
    ensures Filter(xs, p) == xs
    decreases |xs|
  {
    if |xs| > 0 {
      FilterKeepsAll(xs[1..], p);
    }
  }

  /** Filtering with a predicate no element satisfies leaves nothing. */
  lemma {:induction false} FilterNone<T>(xs: seq<T>, p: T -> bool)
    requires forall i :: 0 <= i < |xs| ==> !p(xs[i])
    ensures Filter(xs, p) == []
    decreases |xs|
  {
    if |xs| > 0 {
      FilterNone(xs[1..], p);
    }
  }

  /** `idx` lists, in strictly increasing order, positions of `xs` that spell out `ys`. */
  ghost predicate Embeds<T>(idx: seq<nat>, ys: seq<T>, xs: seq<T>) {
    && |idx| == |ys|
    && (forall i :: 0 <= i < |idx| ==> idx[i] < |xs| && ys[i] == xs[idx[i]])
    && (forall i, j :: 0 <= i < j < |idx| ==> idx[i] < idx[j])
  }

  /** `ys` is `xs` with exactly the elements satisfying `p` kept, in their order: the
      kept positions are those where `p` holds. This says what `filter` does without
      saying how. */
  ghost predicate KeepsInOrder<T>(ys: seq<T>, xs: seq<T>, p: T -> bool) {
    exists idx :: Embeds(idx, ys, xs) && forall j :: 0 <= j < |xs| ==> (p(xs[j]) <==> j in idx)
  }

  /** `Filter` keeps exactly the elements satisfying the predicate, in order. */
  lemma {:induction false} FilterKeepsInOrder<T>(xs: seq<T>, p: T -> bool)
    ensures KeepsInOrder(Filter(xs, p), xs, p)
    decreases |xs|
  {
    if |xs| == 0 {
      assert Embeds([], Filter(xs, p), xs);
    } else {
      FilterKeepsInOrder(xs[1..], p);
      KeepsInOrderCons(xs[0], xs[1..], Filter(xs[1..], p), p);
      assert [xs[0]] + xs[1..] == xs;
    }
  }

  /** Which elements are kept depends only on the predicate's values on the input. */
  lemma KeepsInOrderSame<T>(ys: seq<T>, xs: seq<T>, p: T -> bool, q: T -> bool)
    requires KeepsInOrder(ys, xs, p)
    requires forall j :: 0 <= j < |xs| ==> p(xs[j]) == q(xs[j])
    ensures KeepsInOrder(ys, xs, q)
  {
    var idx :| Embeds(idx, ys, xs) && forall j :: 0 <= j < |xs| ==> (p(xs[j]) <==> j in idx);
    assert forall j :: 0 <= j < |xs| ==> (q(xs[j]) <==> j in idx);
  }

  /** Putting one element in front of the input puts it in front of the kept elements
      exactly when it satisfies the predicate. */
  lemma KeepsInOrderCons<T>(x: T, xs: seq<T>, ys: seq<T>, p: T -> bool)
    requires KeepsInOrder(ys, xs, p)
    ensures KeepsInOrder((if p(x) then [x] else []) + ys, [x] + xs, p)
  {
    var idx :| Embeds(idx, ys, xs) && forall j :: 0 <= j < |xs| ==> (p(xs[j]) <==> j in idx);
    var shifted := Shift(idx);
    ShiftMembers(idx);
    EmbedsCons(idx, ys, xs, x);
    var xxs := [x] + xs;
    var positions: seq<nat> := if p(x) then [0] + shifted else shifted;
    assert Embeds(positions, (if p(x) then [x] else []) + ys, xxs) by {
      if !p(x) {
        assert [] + ys == ys;
      }
    }
    assert forall j :: 0 < j < |xxs| ==> (j in positions <==> j in shifted);
    forall j | 0 <= j < |xxs| ensures p(xxs[j]) <==> j in positions {
      if j > 0 {
        assert xxs[j] == xs[j - 1];
        assert (j - 1) + 1 in shifted <==> j - 1 in idx;
      }
    }
  }

  /** Every position moved one place on. */
  function Shift(idx: seq<nat>): (r: seq<nat>)
    ensures |r| == |idx|
    ensures forall i :: 0 <= i < |idx| ==> r[i] == idx[i] + 1
  {
    seq(|idx|, i requires 0 <= i < |idx| => idx[i] + 1)
  }

  /** A shifted position list never holds 0, and holds `j + 1` exactly when the original
      holds `j`. */
  lemma ShiftMembers(idx: seq<nat>)
    ensures 0 !in Shift(idx)
    ensures forall j: nat :: j + 1 in Shift(idx) <==> j in idx
  {
    forall j: nat ensures j + 1 in Shift(idx) <==> j in idx {
      if j in idx {
        var i :| 0 <= i < |idx| && idx[i] == j;
        assert Shift(idx)[i] == j + 1;
      }
    }
  }

  /** An embedding into `xs` shifts to one into `[x] + xs`, and extends by position 0
      to one of `[x] + ys`. */
  lemma EmbedsCons<T>(idx: seq<nat>, ys: seq<T>, xs: seq<T>, x: T)
    requires Embeds(idx, ys, xs)
    ensures Embeds(Shift(idx), ys, [x] + xs)
    ensures Embeds([0] + Shift(idx), [x] + ys, [x] + xs)
  {
    var xxs := [x] + xs;
    assert forall i :: 0 <= i < |idx| ==> xxs[Shift(idx)[i]] == xs[idx[i]];
    var full: seq<nat> := [0] + Shift(idx);
    assert forall i :: 1 <= i < |full| ==> full[i] == Shift(idx)[i - 1];
  }

  /** `xs.map(f)` */
  function Map<T, U>(xs: seq<T>, f: T -> U): (r: seq<U>)
    ensures |r| == |xs|
    ensures forall i :: 0 <= i < |xs| ==> r[i] == f(xs[i])
  {
    seq(|xs|, i requires 0 <= i < |xs| => f(xs[i]))
  }

  /** `xs.findIndex(p)`, with absence as `None` instead of -1. */
  function FirstIndex<T>(xs: seq<T>, p: T -> bool): (r: Option<nat>)
    ensures r.None? <==> forall i :: 0 <= i < |xs| ==> !p(xs[i])
    ensures r.Some? ==> r.value < |xs| && p(xs[r.value])
    ensures r.Some? ==> forall j :: 0 <= j < r.value ==> !p(xs[j])
    decreases |xs|
  {
    if |xs| == 0 then None
    else if p(xs[0]) then Some(0)
    else match FirstIndex(xs[1..], p)
      case None => None
      case Some(k) => Some(k + 1)
  }

  /** `xs.find(p) ?? null`: the first element satisfying `p`. */
  function FindFirst<T(==)>(xs: seq<T>, p: T -> bool): (r: Option<T>)
    ensures r.None? <==> forall i :: 0 <= i < |xs| ==> !p(xs[i])
    ensures r.Some? ==> r.value in xs && p(r.value)
  {
    match FirstIndex(xs, p)
    case None => None
    case Some(k) => Some(xs[k])
  }

  /** The first `n` elements, or all of them when there are fewer: `xs.slice(0, n)`,
      and for strings `s.substring(0, n)`. */
  function Take<T>(xs: seq<T>, n: nat): (r: seq<T>)
    ensures |r| == if |xs| <= n then |xs| else n
    ensures r == xs[..|r|]
  {
    if |xs| <= n then xs else xs[..n]
  }

  /** The element `find` returns is the one at the first matching position. */
  lemma FindFirstAt<T>(xs: seq<T>, p: T -> bool, k: nat)
    requires k < |xs| && p(xs[k])
    requires forall j :: 0 <= j < k ==> !p(xs[j])
    ensures FindFirst(xs, p) == Some(xs[k])
  {
    var m := FirstIndex(xs, p).value;
    assert !(m < k) && !(k < m);
  }

  function Reverse<T>(xs: seq<T>): (r: seq<T>)
    ensures |r| == |xs|
    ensures forall i :: 0 <= i < |xs| ==> r[i] == xs[|xs| - 1 - i]
    decreases |xs|
  {
    if |xs| == 0 then [] else Reverse(xs[1..]) + [xs[0]]
  }

  /** No two elements share a key. */
  predicate DistinctBy<T, K(==)>(xs: seq<T>, key: T -> K) {
    forall i, j :: 0 <= i < j < |xs| ==> key(xs[i]) != key(xs[j])
  }

  /** Filtering keeps keys distinct. */
  lemma {:induction false} FilterKeepsDistinct<T, K>(xs: seq<T>, p: T -> bool, key: T -> K)
    requires DistinctBy(xs, key)
    ensures DistinctBy(Filter(xs, p), key)
    decreases |xs|
  {
    if |xs| > 0 {
      FilterKeepsDistinct(xs[1..], p, key);
      var rest := Filter(xs[1..], p);
      forall j | 0 <= j < |rest|
        ensures key(xs[0]) != key(rest[j])
      {
        var k :| 0 <= k < |xs[1..]| && xs[1..][k] == rest[j];
        assert xs[k + 1] == rest[j];
      }
    }
  }

  /** Two key-distinct sequences with no key in common concatenate to a key-distinct one. */
  lemma DistinctConcat<T, K>(xs: seq<T>, ys: seq<T>, key: T -> K)
    requires DistinctBy(xs, key) && DistinctBy(ys, key)
    requires forall i, j :: 0 <= i < |xs| && 0 <= j < |ys| ==> key(xs[i]) != key(ys[j])
    ensures DistinctBy(xs + ys, key)
  {
    var zs := xs + ys;
    forall i, j | 0 <= i < j < |zs|
      ensures key(zs[i]) != key(zs[j])
    {
      if j < |xs| {
        assert zs[i] == xs[i] && zs[j] == xs[j];
      } else if i < |xs| {
        assert zs[i] == xs[i] && zs[j] == ys[j - |xs|];
      } else {
        assert zs[i] == ys[i - |xs|] && zs[j] == ys[j - |xs|];
      }
    }
  }
}
