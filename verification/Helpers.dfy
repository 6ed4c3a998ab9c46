/** Notions that several modules share. */
module Helpers {
  datatype Option<T> = None | Some(value: T)

  /** How many elements satisfy a test. */
  function CountIf<T>(xs: seq<T>, p: T -> bool): nat {
    if |xs| == 0 then 0
    else CountIf(xs[..|xs| - 1], p) + (if p(xs[|xs| - 1]) then 1 else 0)
  }

  lemma {:induction false} CountUpdate<T>(xs: seq<T>, i: nat, x: T, p: T -> bool)
    requires i < |xs|
    ensures CountIf(xs[i := x], p) + (if p(xs[i]) then 1 else 0) == CountIf(xs, p) + (if p(x) then 1 else 0)
    ensures CountIf(xs, p) <= |xs| && (!p(xs[i]) ==> CountIf(xs, p) < |xs|)
  {
    var n := |xs| - 1;
    if i == n {
      assert xs[i := x][..n] == xs[..n];
      CountBound(xs[..n], p);
    } else {
      assert xs[i := x][..n] == xs[..n][i := x];
      CountUpdate(xs[..n], i, x, p);
    }
  }

  lemma {:induction false} CountBound<T>(xs: seq<T>, p: T -> bool)
    ensures CountIf(xs, p) <= |xs|
  {
    if |xs| > 0 {
      CountBound(xs[..|xs| - 1], p);
    }
  }

  lemma {:induction false} CountNone<T>(xs: seq<T>, p: T -> bool)
    requires forall i :: 0 <= i < |xs| ==> !p(xs[i])
    ensures CountIf(xs, p) == 0
  {
    if |xs| > 0 {
      CountNone(xs[..|xs| - 1], p);
    }
  }

  lemma {:induction false} CountSame<T>(a: seq<T>, b: seq<T>, p: T -> bool)
    requires |a| == |b| && forall i :: 0 <= i < |a| ==> p(a[i]) == p(b[i])
    ensures CountIf(a, p) == CountIf(b, p)
  {
    if |a| > 0 {
      CountSame(a[..|a| - 1], b[..|b| - 1], p);
    }
  }
}
