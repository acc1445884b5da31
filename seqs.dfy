/** Generic facts about sequences: concatenation, mapping with
    `FlatMap`, and mapping up to a stopping element with `TakeThrough`. */
module Seqs {

  lemma SplitAt<T>(s: seq<T>, i: nat)
    requires i <= |s|
    ensures s[..i] + s[i..] == s
  {
  }

  /** The concatenation of `f(x)` over the elements `x` of `xs`, in order. */
  function FlatMap<T, U>(xs: seq<T>, f: T -> seq<U>): seq<U> {
    if xs == [] then [] else FlatMap(xs[..|xs| - 1], f) + f(xs[|xs| - 1])
  }

  lemma {:induction false} FlatMapAppend<T, U>(a: seq<T>, b: seq<T>, f: T -> seq<U>)
    ensures FlatMap(a + b, f) == FlatMap(a, f) + FlatMap(b, f)
    decreases |b|
  {
    if b == [] {
      AppendEmpty(a, b);
    } else {
      var init, last := b[..|b| - 1], b[|b| - 1];
      AppendInit(a, b);
      assert (a + b)[|a + b| - 1] == last;
      calc {
        FlatMap(a + b, f);
        FlatMap(a + init, f) + f(last);
        { FlatMapAppend(a, init, f); }
        (FlatMap(a, f) + FlatMap(init, f)) + f(last);
        { AppendAssoc(FlatMap(a, f), FlatMap(init, f), f(last)); }
        FlatMap(a, f) + (FlatMap(init, f) + f(last));
        FlatMap(a, f) + FlatMap(b, f);
      }
    }
  }

  lemma FlatMapSingle<T, U>(x: T, f: T -> seq<U>)
    ensures FlatMap([x], f) == f(x)
  {
    assert [x][..0] == [];
    assert [] + f(x) == f(x);
  }

  lemma FlatMapStep<T, U>(xs: seq<T>, i: nat, f: T -> seq<U>)
    requires i < |xs|
    ensures FlatMap(xs[..i + 1], f) == FlatMap(xs[..i], f) + f(xs[i])
  {
    assert xs[..i + 1][..i] == xs[..i];
  }

  /** `f` applied to the elements of `xs` in order, up to and including
      the first result that `stop` accepts. */
  function TakeThrough<T, U>(xs: seq<T>, f: T --> U, stop: U -> bool): (ys: seq<U>)
    requires forall x :: x in xs ==> f.requires(x)
    ensures |ys| <= |xs|
  {
    if xs == [] then []
    else
      var y := f(xs[0]);
      if stop(y) then [y] else [y] + TakeThrough(xs[1..], f, stop)
  }

  /** The results are a prefix of the mapped sequence; only the last may
      stop, and it stops whenever it falls short of the whole input. */
  lemma {:induction false} TakeThroughShape<T, U>(xs: seq<T>, f: T --> U, stop: U -> bool)
    requires forall x :: x in xs ==> f.requires(x)
    ensures var ys := TakeThrough(xs, f, stop);
            (forall k :: 0 <= k < |ys| ==> ys[k] == f(xs[k]))
            && (forall k :: 0 <= k < |ys| - 1 ==> !stop(ys[k]))
            && (|ys| < |xs| ==> |ys| > 0 && stop(ys[|ys| - 1]))
  {
    if xs != [] && !stop(f(xs[0])) {
      var tail := xs[1..];
      TakeThroughShape(tail, f, stop);
      var ys, rest := TakeThrough(xs, f, stop), TakeThrough(tail, f, stop);
      assert ys == [f(xs[0])] + rest;
      forall k | 1 <= k < |ys| ensures ys[k] == f(xs[k]) {
        assert ys[k] == rest[k - 1] && tail[k - 1] == xs[k];
      }
    }
  }

  /** Taking from the `k`-th element on: its result, then, unless that
      stops, the results of the elements after it. */
  lemma TakeThroughFrom<T, U>(xs: seq<T>, k: nat, f: T --> U, stop: U -> bool)
    requires k < |xs| && forall x :: x in xs ==> f.requires(x)
    ensures TakeThrough(xs[k..], f, stop) ==
      if stop(f(xs[k])) then [f(xs[k])] else [f(xs[k])] + TakeThrough(xs[k + 1..], f, stop)
  {
    assert xs[k..][0] == xs[k];
    assert xs[k..][1..] == xs[k + 1..];
  }

  /** A sequence is what comes before position `k`, the element at `k`,
      and what comes after it. */
  lemma Around<T>(s: seq<T>, k: nat)
    requires k < |s|
    ensures s == s[..k] + ([s[k]] + s[k + 1..])
  {
  }

  /** A non-empty sequence is its front followed by its last element. */
  lemma InitLast<T>(s: seq<T>)
    requires s != []
    ensures s == s[..|s| - 1] + [s[|s| - 1]]
  {
  }

  lemma AppendAssoc<T>(x: seq<T>, y: seq<T>, z: seq<T>)
    ensures (x + y) + z == x + (y + z)
  {
  }

  lemma AppendEmpty<T>(a: seq<T>, b: seq<T>)
    requires b == []
    ensures a + b == a
  {
  }

  lemma EmptyAppend<T>(a: seq<T>, b: seq<T>)
    requires a == []
    ensures a + b == b
  {
  }

  /** The head and the tail of `a + b`, for a non-empty `a`. */
  lemma ConsAppend<T>(a: seq<T>, b: seq<T>)
    requires a != []
    ensures (a + b)[0] == a[0] && (a + b)[1..] == a[1..] + b
  {
  }

  /** All but the last element of `a + b`, for a non-empty `b`. */
  lemma AppendInit<T>(a: seq<T>, b: seq<T>)
    requires b != []
    ensures (a + b)[..|a + b| - 1] == a + b[..|b| - 1]
  {
  }
}
