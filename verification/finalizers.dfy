/**
 * The finalizer list helpers: membership and removal of every occurrence
 * of a string, keeping the other entries in their original order.
 */
module Finalizers {

  /** Number of occurrences of `s` in `xs`. */
  function Count(xs: seq<string>, s: string): nat
  {
    if xs == [] then 0 else (if xs[0] == s then 1 else 0) + Count(xs[1..], s)
  }

  /** A linear scan for `s`; true exactly when `s` occurs in `xs`. */
  function ContainsString(xs: seq<string>, s: string): (b: bool)
    ensures b <==> s in xs
    ensures b <==> Count(xs, s) > 0
  {
    if xs == [] then false else xs[0] == s || ContainsString(xs[1..], s)
  }

  /**
   * `xs` without any occurrence of `s`: every other entry keeps its number of
   * occurrences, and only the occurrences of `s` are dropped.
   */
  function RemoveString(xs: seq<string>, s: string): (ys: seq<string>)
    ensures s !in ys
    ensures forall y :: y in ys <==> y in xs && y != s
    ensures forall y :: y != s ==> Count(ys, y) == Count(xs, y)
    ensures |ys| == |xs| - Count(xs, s)
  {
    if xs == [] then []
    else
      var rest := RemoveString(xs[1..], s);
      if xs[0] == s then rest
      else
        var ys := [xs[0]] + rest;
        assert ys[1..] == rest;
        ys
  }

  /** Removal works piecewise, so the surviving entries keep their relative order. */
  lemma {:induction false} RemoveStringConcat(a: seq<string>, b: seq<string>, s: string)
    ensures RemoveString(a + b, s) == RemoveString(a, s) + RemoveString(b, s)
  {
    if a != [] {
      assert (a + b)[1..] == a[1..] + b;
      RemoveStringConcat(a[1..], b, s);
    } else {
      assert a + b == b;
    }
  }

  /** Removing an absent entry changes nothing. */
  lemma {:induction false} RemoveStringAbsent(xs: seq<string>, s: string)
    requires s !in xs
    ensures RemoveString(xs, s) == xs
  {
    if xs != [] {
      RemoveStringAbsent(xs[1..], s);
      assert [xs[0]] + xs[1..] == xs;
    }
  }

  /** Removing twice is removing once. */
  lemma RemoveStringIdempotent(xs: seq<string>, s: string)
    ensures RemoveString(RemoveString(xs, s), s) == RemoveString(xs, s)
  {
    RemoveStringAbsent(RemoveString(xs, s), s);
  }

  /** Appending an absent finalizer and removing it again restores the original list. */
  lemma AppendThenRemove(xs: seq<string>, s: string)
    requires !ContainsString(xs, s)
    ensures RemoveString(xs + [s], s) == xs
  {
    RemoveStringConcat(xs, [s], s);
    RemoveStringAbsent(xs, s);
    assert RemoveString([s], s) == [];
  }

  /**
   * Appending a finalizer only when it is absent never duplicates it: it ends
   * up present, and its number of occurrences grows only from zero to one.
   */
  lemma AppendIfAbsentOnce(xs: seq<string>, s: string)
    ensures Count(if ContainsString(xs, s) then xs else xs + [s], s) == (if Count(xs, s) == 0 then 1 else Count(xs, s))
  {
    if !ContainsString(xs, s) {
      CountConcat(xs, [s], s);
    }
  }

  lemma {:induction false} CountConcat(a: seq<string>, b: seq<string>, s: string)
    ensures Count(a + b, s) == Count(a, s) + Count(b, s)
  {
    if a != [] {
      assert (a + b)[1..] == a[1..] + b;
      CountConcat(a[1..], b, s);
    } else {
      assert a + b == b;
    }
  }
}
