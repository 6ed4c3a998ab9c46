/** Smooth weighted round robin: the scheduler state of one flow and its exact fairness. */
module Swrr {
  import opened Serial

  const MAX_WANS: nat := 16

  /** Pool, credits and the index at which ties are broken first. */
  datatype State = State(wans: seq<int>, current: seq<int>, tie: nat)

  predicate StateOk(s: State) {
    |s.wans| == |s.current| && s.tie < 256
  }

  function Pos(w: int): nat {
    if w > 0 then w else 0
  }

  function Total(ws: seq<int>): (t: int)
    ensures t >= 0
  {
    if |ws| == 0 then 0 else Total(ws[..|ws| - 1]) + Pos(ws[|ws| - 1])
  }

  function Credit(cur: seq<int>, ws: seq<int>): seq<int>
    requires |cur| == |ws|
  {
    seq(|cur|, i requires 0 <= i < |cur| => cur[i] + Pos(ws[i]))
  }

  /** The index `off` steps after the tie index, cyclically. */
  function Cyclic(tie: nat, off: nat, n: nat): (i: nat)
    requires n > 0
    ensures i < n
  {
    (tie + off) % n
  }

  /** The scan for the largest credit among positive weights, from the tie index on, cyclically. */
  function Best(cur: seq<int>, ws: seq<int>, tie: nat, off: nat, best: int): (b: int)
    requires |cur| == |ws| > 0 && off <= |cur| && -1 <= best < |cur|
    ensures -1 <= b < |cur|
    decreases |cur| - off
  {
    if off == |cur| then best
    else
      var i := Cyclic(tie, off, |cur|);
      Best(cur, ws, tie, off + 1, if ws[i] > 0 && (best < 0 || cur[i] > cur[best]) then i else best)
  }

  /** The index picked for one packet. */
  function Choice(s: State, ws: seq<int>): (i: nat)
    requires StateOk(s) && |ws| == |s.wans| > 0
    ensures i < |s.wans|
  {
    if |s.wans| == 1 then 0
    else if Total(ws) <= 0 then s.tie % |s.wans|
    else
      var b := Best(Credit(s.current, ws), ws, s.tie, 0, -1);
      if b < 0 then 0 else b
  }

  /** The state after one packet. */
  function Next(s: State, ws: seq<int>): (r: State)
    requires StateOk(s) && |ws| == |s.wans| > 0 && |s.wans| <= MAX_WANS
    ensures StateOk(r) && r.wans == s.wans
  {
    if |s.wans| == 1 then s
    else if Total(ws) <= 0 then s.(tie := (s.tie + 1) % 256)
    else
      var b := Choice(s, ws);
      var c := Credit(s.current, ws);
      State(s.wans, c[b := c[b] - Total(ws)], (b + 1) % |s.wans|)
  }

  function Reset(wans: seq<int>, hash: nat): (s: State)
    requires |wans| <= MAX_WANS
    ensures StateOk(s) && s.wans == wans
  {
    State(wans, seq(|wans|, i => 0), if |wans| > 0 then hash % |wans| else 0)
  }

  /** The first pass: every positive weight is credited. */
  method AddCredits(current: seq<int>, ws: seq<int>) returns (cur: seq<int>, total: int)
    requires |current| == |ws|
    ensures cur == Credit(current, ws) && |cur| == |ws| && total == Total(ws)
  {
    cur, total := current, 0;
    for i := 0 to |ws|
      invariant |cur| == |ws|
      invariant total == Total(ws[..i])
      invariant forall j :: 0 <= j < i ==> cur[j] == current[j] + Pos(ws[j])
      invariant forall j :: i <= j < |ws| ==> cur[j] == current[j]
    {
      assert ws[..i + 1][..i] == ws[..i];
      if ws[i] > 0 {
        cur := cur[i := cur[i] + ws[i]];
        total := total + ws[i];
      }
    }
    assert ws[..|ws|] == ws;
  }

  /** The second pass: the largest credit, ties going to the first index after the last winner. */
  method FindBest(cur: seq<int>, ws: seq<int>, tie: nat) returns (best: int)
    requires |cur| == |ws| > 0
    ensures best == Best(cur, ws, tie, 0, -1)
  {
    hide Cyclic;
    best := -1;
    for off := 0 to |cur|
      invariant -1 <= best < |cur|
      invariant Best(cur, ws, tie, off, best) == Best(cur, ws, tie, 0, -1)
    {
      var i := Cyclic(tie, off, |cur|);
      if ws[i] > 0 && (best < 0 || cur[i] > cur[best]) {
        best := i;
      }
    }
  }

  /** `flow_swrr_pick` */
  method Pick(s: State, ws: seq<int>) returns (r: State, wan: int)
    requires StateOk(s) && |ws| == |s.wans| <= MAX_WANS
    ensures |s.wans| == 0 ==> r == s && wan == 0
    ensures |s.wans| > 0 ==> r == Next(s, ws) && wan == s.wans[Choice(s, ws)]
  {
    hide Best, Total, Credit;
    var n := |s.wans|;
    if n == 0 {
      return s, 0;
    }
    if n == 1 {
      return s, s.wans[0];
    }
    var cur, total := AddCredits(s.current, ws);
    if total <= 0 {
      return s.(tie := (s.tie + 1) % 256), s.wans[s.tie % n];
    }
    var best := FindBest(cur, ws, s.tie);
    if best < 0 {
      best := 0;
    }
    r := State(s.wans, cur[best := cur[best] - total], (best + 1) % n);
    wan := s.wans[best];
  }

  /* ---- the winner has the largest credit ---- */

  /** The cyclic scan reaches every index. */
  lemma OffsetOf(tie: nat, n: nat, j: nat) returns (off: nat)
    requires j < n
    ensures off < n && Cyclic(tie, off, n) == j
  {
    var q, t := tie / n, tie % n;
    assert tie == q * n + t;
    if j >= t {
      off := j - t;
      ModUnique(tie + off, n, q, j);
    } else {
      off := j - t + n;
      assert (q + 1) * n == q * n + n;
      ModUnique(tie + off, n, q + 1, j);
    }
  }

  lemma {:induction false} BestMax(cur: seq<int>, ws: seq<int>, tie: nat, off: nat, best: int)
    requires |cur| == |ws| > 0 && off <= |cur| && -1 <= best < |cur|
    requires best >= 0 ==> ws[best] > 0
    requires forall k :: 0 <= k < off ==>
               var i := Cyclic(tie, k, |cur|); ws[i] > 0 ==> best >= 0 && cur[i] <= cur[best]
    ensures var b := Best(cur, ws, tie, off, best);
            && (b >= 0 ==> ws[b] > 0)
            && forall k :: 0 <= k < |cur| ==>
                 var i := Cyclic(tie, k, |cur|); ws[i] > 0 ==> b >= 0 && cur[i] <= cur[b]
    decreases |cur| - off
  {
    hide Cyclic;
    if off < |cur| {
      var i := Cyclic(tie, off, |cur|);
      BestMax(cur, ws, tie, off + 1, if ws[i] > 0 && (best < 0 || cur[i] > cur[best]) then i else best);
    }
  }

  lemma WinnerMax(cur: seq<int>, ws: seq<int>, tie: nat, j: nat)
    requires |cur| == |ws| && j < |cur| && ws[j] > 0
    ensures var b := Best(cur, ws, tie, 0, -1); b >= 0 && ws[b] > 0 && cur[j] <= cur[b]
  {
    hide Cyclic, Best;
    BestMax(cur, ws, tie, 0, -1);
    var k := OffsetOf(tie, |cur|, j);
    assert Cyclic(tie, k, |cur|) == j;
  }

  lemma {:induction false} BestFirst(cur: seq<int>, ws: seq<int>, tie: nat, off: nat, best: int, at: nat)
    returns (k: nat)
    requires |cur| == |ws| > 0 && off <= |cur| && -1 <= best < |cur|
    requires best >= 0 ==> at < off && Cyclic(tie, at, |cur|) == best && ws[best] > 0
    requires forall j :: 0 <= j < off ==> var i := Cyclic(tie, j, |cur|); ws[i] > 0 ==> best >= 0 && cur[i] <= cur[best]
    requires best >= 0 ==> forall j :: 0 <= j < at ==> var i := Cyclic(tie, j, |cur|); ws[i] > 0 ==> cur[i] < cur[best]
    ensures var b := Best(cur, ws, tie, off, best);
            b >= 0 ==>
              && k < |cur| && Cyclic(tie, k, |cur|) == b
              && forall j :: 0 <= j < k ==> var i := Cyclic(tie, j, |cur|); ws[i] > 0 ==> cur[i] < cur[b]
    decreases |cur| - off
  {
    hide Cyclic;
    if off == |cur| {
      k := at;
    } else {
      var i := Cyclic(tie, off, |cur|);
      if ws[i] > 0 && (best < 0 || cur[i] > cur[best]) {
        k := BestFirst(cur, ws, tie, off + 1, i, off);
      } else {
        k := BestFirst(cur, ws, tie, off + 1, best, at);
      }
    }
  }

  /** Of several largest credits the first one, cyclically from the tie index on, wins: every weighted index
      passed on the way to the winner has strictly less. */
  lemma TieFirst(cur: seq<int>, ws: seq<int>, tie: nat, j: nat) returns (k: nat)
    requires |cur| == |ws| && j < |cur| && ws[j] > 0
    ensures var b := Best(cur, ws, tie, 0, -1);
            && b >= 0 && k < |cur| && b == (tie + k) % |cur|
            && forall o :: 0 <= o < k ==> var i := Cyclic(tie, o, |cur|); ws[i] > 0 ==> cur[i] < cur[b]
  {
    hide Best;
    WinnerMax(cur, ws, tie, j);
    k := BestFirst(cur, ws, tie, 0, -1, 0);
  }

  /** Without credits the largest weight wins, and of several the first one cyclically from the tie index. */
  lemma FreshPick(s: State, ws: seq<int>, i: nat) returns (k: nat)
    requires StateOk(s) && |ws| == |s.wans| && i < |ws| && ws[i] > 0
    requires s.tie < |ws| && forall j :: 0 <= j < |ws| ==> s.current[j] == 0
    ensures k < |ws| && Choice(s, ws) == Cyclic(s.tie, k, |ws|) && ws[i] <= ws[Cyclic(s.tie, k, |ws|)]
    ensures forall o :: 0 <= o < k ==> ws[Cyclic(s.tie, o, |ws|)] < ws[Cyclic(s.tie, k, |ws|)]
  {
    hide Best, Total;
    k := 0;
    if |ws| > 1 {
      var c := Credit(s.current, ws);
      WinnerMax(c, ws, s.tie, i);
      k := TieFirst(c, ws, s.tie, i);
      TotalAbove(ws, i);
    }
  }

  lemma {:induction false} TotalAbove(ws: seq<int>, i: nat)
    requires i < |ws| && ws[i] > 0
    ensures Total(ws) > 0
  {
    if i < |ws| - 1 {
      TotalAbove(ws[..|ws| - 1], i);
    }
  }

  /* ---- sums ---- */

  function Sum(c: seq<int>): int {
    if |c| == 0 then 0 else Sum(c[..|c| - 1]) + c[|c| - 1]
  }

  lemma {:induction false} SumUpdate(c: seq<int>, i: nat, v: int)
    requires i < |c|
    ensures Sum(c[i := v]) == Sum(c) - c[i] + v
  {
    var n := |c| - 1;
    if i == n {
      assert c[i := v][..n] == c[..n];
    } else {
      assert c[i := v][..n] == c[..n][i := v];
      SumUpdate(c[..n], i, v);
    }
  }

  lemma {:induction false} SumCredit(c: seq<int>, ws: seq<int>)
    requires |c| == |ws|
    ensures Sum(Credit(c, ws)) == Sum(c) + Total(ws)
  {
    if |c| > 0 {
      var n := |c| - 1;
      assert Credit(c, ws)[..n] == Credit(c[..n], ws[..n]);
      SumCredit(c[..n], ws[..n]);
    }
  }

  lemma {:induction false} SumSign(c: seq<int>)
    ensures (forall i :: 0 <= i < |c| ==> c[i] <= 0) ==> Sum(c) <= 0
    ensures (forall i :: 0 <= i < |c| ==> c[i] >= 0) ==> Sum(c) >= 0
    ensures (forall i :: 0 <= i < |c| ==> c[i] >= 0) && Sum(c) == 0 ==> forall i :: 0 <= i < |c| ==> c[i] == 0
  {
    if |c| > 0 {
      SumSign(c[..|c| - 1]);
    }
  }

  lemma {:induction false} SumAbove(c: seq<int>, w: int)
    requires forall i :: 0 <= i < |c| ==> c[i] > -w
    ensures |c| > 0 ==> Sum(c) > -w * |c|
  {
    if |c| > 1 {
      SumAbove(c[..|c| - 1], w);
      assert -w * |c| == -w * (|c| - 1) - w;
    } else if |c| == 1 {
      assert c[..0] == [];
    }
  }

  lemma {:induction false} TotalPositive(ws: seq<int>) returns (j: nat)
    requires Total(ws) > 0
    ensures j < |ws| && ws[j] > 0
  {
    if ws[|ws| - 1] > 0 {
      j := |ws| - 1;
    } else {
      j := TotalPositive(ws[..|ws| - 1]);
    }
  }

  /* ---- the credit invariant ---- */

  /** Credits sum to zero; a weighted WAN is never a full round behind; the others keep none. */
  ghost predicate CreditOk(s: State, ws: seq<int>) {
    && StateOk(s) && |ws| == |s.wans|
    && Sum(s.current) == 0
    && forall i :: 0 <= i < |ws| ==> if ws[i] > 0 then s.current[i] > -Total(ws) else s.current[i] == 0
  }

  lemma NextKeepsCredit(s: State, ws: seq<int>)
    requires CreditOk(s, ws) && 2 <= |ws| <= MAX_WANS && Total(ws) > 0
    ensures CreditOk(Next(s, ws), ws)
    ensures ws[Choice(s, ws)] > 0
  {
    hide Sum, Best, Total;
    var c := Credit(s.current, ws);
    var b := Choice(s, ws);
    var j := TotalPositive(ws);
    WinnerMax(c, ws, s.tie, j);
    SumCredit(s.current, ws);
    SumUpdate(c, b, c[b] - Total(ws));
    SumSign(c);
    if c[b] <= 0 {
      forall i | 0 <= i < |c| ensures c[i] <= 0 {
        if ws[i] > 0 {
          WinnerMax(c, ws, s.tie, i);
        }
      }
      assert false;
    }
  }

  /* ---- runs with constant weights ---- */

  function After(s: State, ws: seq<int>, n: nat): (r: State)
    requires StateOk(s) && |ws| == |s.wans| > 0 && |s.wans| <= MAX_WANS
    ensures StateOk(r) && r.wans == s.wans
  {
    if n == 0 then s else Next(After(s, ws, n - 1), ws)
  }

  /** How often index `i` was picked for the first `n` packets. */
  function Picks(s: State, ws: seq<int>, n: nat, i: nat): nat
    requires StateOk(s) && |ws| == |s.wans| > 0 && |s.wans| <= MAX_WANS
  {
    if n == 0 then 0
    else Picks(s, ws, n - 1, i) + (if Choice(After(s, ws, n - 1), ws) == i then 1 else 0)
  }

  /** A fresh schedule over a pool. */
  ghost predicate Fresh(s: State, ws: seq<int>) {
    StateOk(s) && |ws| == |s.wans| && 2 <= |ws| <= MAX_WANS && Total(ws) > 0
    && forall i :: 0 <= i < |ws| ==> s.current[i] == 0
  }

  lemma {:induction false} CreditLaw(s: State, ws: seq<int>, n: nat, i: nat)
    requires Fresh(s, ws) && i < |ws|
    ensures CreditOk(After(s, ws, n), ws)
    ensures After(s, ws, n).current[i] == n * Pos(ws[i]) - Total(ws) * Picks(s, ws, n, i)
  {
    hide Sum, Best, Total, Choice, Next;
    if n == 0 {
      SumSign(s.current);
    } else {
      CreditLaw(s, ws, n - 1, i);
      var p := After(s, ws, n - 1);
      NextKeepsCredit(p, ws);
      NextCredit(p, ws, i);
      LawStep(n, Pos(ws[i]), Total(ws), Picks(s, ws, n - 1, i), if Choice(p, ws) == i then 1 else 0);
    }
  }

  lemma LawStep(n: int, p: int, w: int, c: int, one: int)
    ensures n * p - w * (c + one) == ((n - 1) * p - w * c) + p - w * one
  {
    assert n * p == (n - 1) * p + p;
    assert w * (c + one) == w * c + w * one;
  }

  lemma NextCredit(s: State, ws: seq<int>, i: nat)
    requires StateOk(s) && |ws| == |s.wans| && 2 <= |ws| <= MAX_WANS && Total(ws) > 0 && i < |ws|
    ensures Next(s, ws).current[i] == s.current[i] + Pos(ws[i]) - Total(ws) * (if Choice(s, ws) == i then 1 else 0)
  {
    hide Sum, Best, Total, Choice;
  }

  /* ---- equal and zero weights ---- */

  lemma ModShift(x: nat, y: nat, n: nat)
    requires n > 0
    ensures (x % n + y) % n == (x + y) % n && (x + y % n) % n == (x + y) % n
  {
    var a, b := x / n, y / n;
    assert x == a * n + x % n && y == b * n + y % n;
    ModMultiple(x % n + y, a, n);
    ModMultiple(x + y % n, b, n);
  }

  lemma ModMultiple(x: nat, a: nat, n: nat)
    requires n > 0
    ensures (x + a * n) % n == x % n
  {
    var q, r := x / n, x % n;
    assert x == q * n + r;
    assert (q + a) * n == q * n + a * n;
    ModUnique(x + a * n, n, q + a, r);
  }

  /** Adding two offsets below n to the same index gives different indices. */
  lemma CyclicApart(tie: nat, o: nat, p: nat, n: nat)
    requires o < n && p < n && (tie + o) % n == (tie + p) % n
    ensures o == p
  {
    var q, r := (tie + o) / n, (tie + p) / n;
    assert tie + o == q * n + (tie + o) % n && tie + p == r * n + (tie + p) % n;
    assert (q - r) * n == q * n - r * n;
    if q > r {
      MulAtLeast(q - r, n);
    } else if q < r {
      MulAtLeast(r - q, n);
    }
  }

  lemma DivNext(k: nat, n: nat)
    requires n > 0
    ensures if k % n + 1 == n then (k + 1) / n == k / n + 1 && (k + 1) % n == 0
            else (k + 1) / n == k / n && (k + 1) % n == k % n + 1
  {
    var q, r := k / n, k % n;
    assert k == q * n + r;
    if r + 1 == n {
      assert (q + 1) * n == q * n + n;
      ModUnique(k + 1, n, q + 1, 0);
      DivUnique(k + 1, n, q + 1, 0);
    } else {
      ModUnique(k + 1, n, q, r + 1);
      DivUnique(k + 1, n, q, r + 1);
    }
  }

  lemma DivUnique(x: nat, n: nat, q: nat, r: nat)
    requires n > 0 && r < n && x == q * n + r
    ensures x / n == q
  {
    ModUnique(x, n, q, r);
    var p := x / n;
    assert x == p * n + x % n;
    assert (p - q) * n == p * n - q * n;
    if p > q {
      MulAtLeast(p - q, n);
    } else if p < q {
      MulAtLeast(q - p, n);
    }
  }

  /** How often the index `o` after the first was picked when the picks go round. */
  function Rotated(k: nat, o: nat, n: nat): nat
    requires n > 0
  {
    k / n + (if o < k % n then 1 else 0)
  }

  /** After k picks with equal weights: the tie index is k further, and the picks went round. */
  ghost predicate WentRound(s: State, ws: seq<int>, k: nat) {
    && Fresh(s, ws)
    && After(s, ws, k).tie % |ws| == (s.tie + k) % |ws|
    && forall o :: 0 <= o < |ws| ==> Picks(s, ws, k, Cyclic(s.tie, o, |ws|)) == Rotated(k, o, |ws|)
  }

  /** The scheduler is a plain round robin when all weights are equal: the k-th pick is the k-th index after the
      first, and the first is the tie index, which a new flow takes from its hash. */
  lemma {:induction false} EqualWeightsRotate(s: State, ws: seq<int>, k: nat)
    requires Fresh(s, ws) && forall i :: 0 <= i < |ws| ==> ws[i] == ws[0] > 0
    ensures WentRound(s, ws, k) && Choice(After(s, ws, k), ws) == (s.tie + k) % |ws|
  {
    hide Choice, Next, Picks, Cyclic, Total;
    if k == 0 {
      RoundStart(s, ws);
    } else {
      EqualWeightsRotate(s, ws, k - 1);
      RoundNext(s, ws, k - 1);
    }
    RoundChoice(s, ws, k);
  }

  lemma RoundStart(s: State, ws: seq<int>)
    requires Fresh(s, ws)
    ensures WentRound(s, ws, 0)
  {
  }

  /** The index whose turn it is has been picked least. */
  lemma RoundChoice(s: State, ws: seq<int>, k: nat)
    requires WentRound(s, ws, k) && forall i :: 0 <= i < |ws| ==> ws[i] == ws[0] > 0
    ensures Choice(After(s, ws, k), ws) == (s.tie + k) % |ws|
  {
    hide Total, Best, Next, Picks, After;
    var n, p := |ws|, After(s, ws, k);
    var c := Credit(p.current, ws);
    ModShift(s.tie, k, n);
    ModShift(p.tie, 0, n);
    var m := (s.tie + k) % n;
    var j := TieFirst(c, ws, p.tie, 0);
    var b := Best(c, ws, p.tie, 0, -1);
    assert Cyclic(p.tie, 0, n) == m && Cyclic(s.tie, k % n, n) == m;
    var o := OffsetOf(s.tie, n, b);
    CreditLaw(s, ws, k, m);
    CreditLaw(s, ws, k, b);
    LessPicked(Total(ws), Picks(s, ws, k, m), Picks(s, ws, k, b));
    WinnerMax(c, ws, p.tie, m);
    assert c[m] >= c[b];
  }

  lemma LessPicked(w: int, a: int, b: int)
    requires w > 0 && a <= b
    ensures w * a <= w * b
  {
  }

  lemma RoundNext(s: State, ws: seq<int>, k: nat)
    requires WentRound(s, ws, k) && Choice(After(s, ws, k), ws) == (s.tie + k) % |ws|
    ensures WentRound(s, ws, k + 1)
  {
    hide Total, Best;
    var n, p := |ws|, After(s, ws, k);
    var b := Choice(p, ws);
    ModShift(s.tie + k, 1, n);
    ModShift(b + 1, 0, n);
    ModShift(s.tie, k, n);
    DivNext(k, n);
    forall o | 0 <= o < n ensures Picks(s, ws, k + 1, Cyclic(s.tie, o, n)) == Rotated(k + 1, o, n) {
      if Cyclic(s.tie, o, n) == b {
        CyclicApart(s.tie, o, k % n, n);
      }
    }
  }

  /** With no weight at all the picks go round too, as long as the 8-bit tie index does not wrap. */
  lemma {:induction false} ZeroWeightsRotate(s: State, ws: seq<int>, k: nat)
    requires StateOk(s) && |ws| == |s.wans| && 2 <= |ws| <= MAX_WANS && Total(ws) <= 0 && s.tie + k < 256
    ensures After(s, ws, k) == s.(tie := s.tie + k) && Choice(After(s, ws, k), ws) == (s.tie + k) % |ws|
  {
    hide Total;
    if k > 0 {
      ZeroWeightsRotate(s, ws, k - 1);
    }
  }

  /** Main fairness theorem: after any whole number k of rounds of W = total weight packets, every WAN
      has been picked exactly k times its weight, and all credits are back to zero. */
  lemma ExactFairness(s: State, ws: seq<int>, k: nat, i: nat)
    requires Fresh(s, ws) && i < |ws|
    ensures Picks(s, ws, k * Total(ws), i) == k * Pos(ws[i])
    ensures forall j :: 0 <= j < |ws| ==> After(s, ws, k * Total(ws)).current[j] == 0
  {
    hide Sum, Best, Total, Choice, After, Picks, Next;
    var w := Total(ws);
    var r := After(s, ws, k * w);
    CreditLaw(s, ws, k * w, i);
    forall j: nat | j < |ws| ensures r.current[j] >= 0 {
      CreditLaw(s, ws, k * w, j);
      Whole(w, k, Pos(ws[j]), Picks(s, ws, k * w, j));
    }
    SumSign(r.current);
    Cancel(w, k, Pos(ws[i]), Picks(s, ws, k * w, i));
  }

  lemma Factor(w: int, k: int, p: int, c: int)
    ensures (k * w) * p - w * c == w * (k * p - c) == (k * p - c) * w
    ensures (-(k * p - c)) * w == -(w * (k * p - c))
  {
    assert (k * w) * p == w * (k * p);
  }

  lemma Whole(w: int, k: int, p: int, c: int)
    requires w > 0 && (k * w) * p - w * c > -w
    ensures (k * w) * p - w * c >= 0
  {
    var e := k * p - c;
    Factor(w, k, p, c);
    if e < 0 {
      MulAtLeast(-e, w);
    }
  }

  lemma Cancel(w: int, k: int, p: int, c: int)
    requires w > 0 && (k * w) * p - w * c == 0
    ensures c == k * p
  {
    var e := k * p - c;
    Factor(w, k, p, c);
    if e < 0 {
      MulAtLeast(-e, w);
    } else if e > 0 {
      MulAtLeast(e, w);
    }
  }

  /** At every moment: no WAN is ahead of its share by a whole pick, none is behind by more than the
      number of other WANs, and credits stay within the pool size times the total weight. */
  lemma AlwaysClose(s: State, ws: seq<int>, n: nat, i: nat)
    requires Fresh(s, ws) && i < |ws|
    ensures Total(ws) * Picks(s, ws, n, i) < n * Pos(ws[i]) + Total(ws)
    ensures n * Pos(ws[i]) - Total(ws) * Picks(s, ws, n, i) < Total(ws) * |ws|
    ensures -Total(ws) < After(s, ws, n).current[i] < Total(ws) * |ws|
  {
    hide Sum, Best, Total, Choice, After, Picks, Next;
    CreditLaw(s, ws, n, i);
    var c := After(s, ws, n).current;
    var w := Total(ws);
    SumUpdate(c, i, 0);
    SumAbove(c[i := 0], w);
  }
}
