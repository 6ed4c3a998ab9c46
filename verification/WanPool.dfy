/** Where the round-robin weights come from: blending, join ramps, redistribution of the weight of dead
    WANs, and the WAN finally picked for a packet. */
module WanPool {
  import opened Swrr

  const MAX_PORTS: nat := 16

  /** A drain in progress on a data-path slot. */
  datatype Drain = Drain(active: bool, cfg: int, seed: int, taper: int)

  /** What the scheduler reads about the data-path slots. */
  datatype View = View(cfgIdx: seq<int>, wanCount: int, pairCount: int, stopped: seq<bool>, held: seq<bool>,
                       excluded: seq<bool>, drains: seq<Drain>, activeCount: int)

  predicate ViewOk(v: View) {
    |v.cfgIdx| == MAX_PORTS && |v.stopped| == MAX_PORTS && |v.held| == MAX_PORTS && |v.excluded| == MAX_PORTS
    && |v.drains| == MAX_PORTS
  }

  /** `fwd_wan_dp_ok_for_new_traffic` */
  predicate Eligible(v: View, dp: int)
    requires ViewOk(v)
  {
    && 0 <= dp < MAX_PORTS && !v.stopped[dp] && !v.held[dp] && !v.drains[dp].active && !v.excluded[dp]
    && dp < v.activeCount
  }

  /** The slots `fwd_wan_live_dp_for_cfg` looks at. */
  function Span(v: View): int {
    var n := if v.pairCount > v.wanCount then v.pairCount else v.wanCount;
    if n > MAX_PORTS then MAX_PORTS else n
  }

  function LiveFrom(v: View, cfg: int, dp: nat): (r: int)
    requires ViewOk(v)
    ensures r == -1 || (dp <= r < MAX_PORTS && Eligible(v, r) && v.cfgIdx[r] == cfg)
    decreases MAX_PORTS - dp
  {
    if dp >= Span(v) then -1
    else if v.cfgIdx[dp] != cfg then LiveFrom(v, cfg, dp + 1)
    else if Eligible(v, dp) then dp else -1
  }

  /** The live slot of a configured WAN, or -1. */
  function LiveDp(v: View, cfg: int): (r: int)
    requires ViewOk(v)
    ensures r == -1 || (0 <= r < MAX_PORTS && Eligible(v, r) && v.cfgIdx[r] == cfg)
  {
    if cfg < 0 then -1 else LiveFrom(v, cfg, 0)
  }

  method FindLiveDp(v: View, cfg: int) returns (dp: int)
    requires ViewOk(v)
    ensures dp == LiveDp(v, cfg)
  {
    if cfg < 0 {
      return -1;
    }
    var i := 0;
    while i < Span(v)
      invariant 0 <= i <= MAX_PORTS && LiveFrom(v, cfg, i) == LiveFrom(v, cfg, 0)
      decreases MAX_PORTS - i
    {
      if v.cfgIdx[i] == cfg {
        return if Eligible(v, i) then i else -1;
      }
      i := i + 1;
    }
    dp := -1;
  }

  /** What the source calls a live slot of a configured WAN, spelled out: the first slot configured for it, among
      those either side of the forwarder counts, if it is not stopped, held, draining or excluded and below
      the number of active slots. */
  ghost predicate FirstAndOpen(v: View, cfg: int, dp: int)
    requires ViewOk(v)
  {
    && cfg >= 0 && 0 <= dp < 16 && (dp < v.wanCount || dp < v.pairCount)
    && v.cfgIdx[dp] == cfg && (forall k :: 0 <= k < dp ==> v.cfgIdx[k] != cfg)
    && !v.stopped[dp] && !v.held[dp] && !v.drains[dp].active && !v.excluded[dp] && dp < v.activeCount
  }

  lemma {:induction false} LiveFromIff(v: View, cfg: int, from: nat, dp: int)
    requires ViewOk(v) && cfg >= 0 && from <= 16 && forall k :: 0 <= k < from ==> v.cfgIdx[k] != cfg
    ensures LiveFrom(v, cfg, from) == dp && dp >= 0 <==> from <= dp && FirstAndOpen(v, cfg, dp)
    decreases 16 - from
  {
    if from < Span(v) && v.cfgIdx[from] != cfg {
      LiveFromIff(v, cfg, from + 1, dp);
    }
  }

  /** A live slot is found exactly when there is one, and it is that slot; -1 exactly when there is none. */
  lemma LiveDpIff(v: View, cfg: int)
    requires ViewOk(v)
    ensures forall dp :: dp >= 0 ==> (LiveDp(v, cfg) == dp <==> FirstAndOpen(v, cfg, dp))
    ensures LiveDp(v, cfg) == -1 <==> forall dp :: 0 <= dp < 16 ==> !FirstAndOpen(v, cfg, dp)
  {
    if cfg >= 0 {
      forall dp | dp >= 0 ensures LiveDp(v, cfg) == dp <==> FirstAndOpen(v, cfg, dp) {
        LiveFromIff(v, cfg, 0, dp);
      }
    }
    assert LiveDp(v, cfg) >= 0 ==> FirstAndOpen(v, cfg, LiveDp(v, cfg));
  }

  /* ---- percentages ---- */

  /** `w` is `x` hundredths, rounded down. */
  predicate Hundredths(w: int, x: int) {
    w * 100 <= x < (w + 1) * 100
  }

  /** A blended weight is the mixture of the two weights, rounded down, but at least one; more of a larger new
      weight means no less. */
  lemma BlendExact(a: int, b: int, pct: int, pct': int)
    requires a >= 0 && b >= 0 && 0 <= pct <= pct' <= 100
    ensures Blend(a, b, pct) == 1 || Hundredths(Blend(a, b, pct), a * (100 - pct) + b * pct)
    ensures Blend(a, b, pct) == 1 ==> a * (100 - pct) + b * pct < 200
    ensures a <= b ==> Blend(a, b, pct) <= Blend(a, b, pct')
    ensures a >= b ==> Blend(a, b, pct) >= Blend(a, b, pct')
  {
    var x, y := a * (100 - pct) + b * pct, a * (100 - pct') + b * pct';
    assert y - x == (b - a) * (pct' - pct);
    if a <= b {
      MulMonotone(0, b - a, pct' - pct);
    } else {
      MulMonotone(b - a, 0, pct' - pct);
    }
    BlendOf(a, b, pct, x);
    BlendOf(a, b, pct', y);
  }

  lemma BlendOf(a: int, b: int, pct: int, x: int)
    requires x == a * (100 - pct) + b * pct && a >= 0 && b >= 0 && 0 <= pct <= 100
    ensures x >= 0 && Blend(a, b, pct) == if x < 100 then 1 else x / 100
  {
    MulMonotone(0, a, 100 - pct);
    MulMonotone(0, b, pct);
  }

  /** Progress is the elapsed part of the time, in percent, rounded down. */
  lemma ProgressExact(now: nat, start: nat, until: nat)
    requires start <= now
    ensures now >= until ==> Progress(now, start, until) == 100
    ensures now < until ==>
              var q := Progress(now, start, until);
              q * (until - start) <= (now - start) * 100 < (q + 1) * (until - start)
  {
    if now < until {
      var e, d := (now - start) * 100, until - start;
      assert e == (e / d) * d + e % d;
      assert (e / d + 1) * d == (e / d) * d + d;
    }
  }

  /* ---- blending ---- */

  /** The weight of a WAN while a change of weights is blended in over `pct` percent. */
  function Blend(old_: int, new_: int, pct: int): int {
    var w := (old_ * (100 - pct) + new_ * pct) / 100;
    if w > 0 then w else 1
  }

  /** A blended weight is at least one, otherwise never leaves the span of the two weights, and goes from the
      old one to the new one. A weight of zero, of a WAN that carries only ARP, counts as one. */
  lemma BlendBetween(a: int, b: int, pct: int)
    requires a >= 0 && b >= 0 && 0 <= pct <= 100
    ensures Blend(a, b, pct) >= 1 && Blend(a, b, pct) >= (if a < b then a else b)
    ensures Blend(a, b, pct) == 1 || Blend(a, b, pct) <= (if a < b then b else a)
    ensures Blend(a, b, 0) == (if a > 0 then a else 1) && Blend(a, b, 100) == (if b > 0 then b else 1)
  {
    var lo, hi := if a < b then a else b, if a < b then b else a;
    MulMonotone(lo, a, 100 - pct);
    MulMonotone(lo, b, pct);
    MulMonotone(a, hi, 100 - pct);
    MulMonotone(b, hi, pct);
    var x := a * (100 - pct) + b * pct;
    assert lo * 100 <= x <= hi * 100 by {
      assert lo * (100 - pct) + lo * pct == lo * 100;
      assert hi * (100 - pct) + hi * pct == hi * 100;
    }
    HundredthsBetween(x, lo, hi);
  }

  lemma HundredthsBetween(x: int, lo: int, hi: int)
    requires lo * 100 <= x <= hi * 100
    ensures lo <= x / 100 <= hi
  {
  }

  /** Progress of a blend or ramp between two times, in percent. */
  function Progress(now: nat, start: nat, until: nat): int {
    if now >= until || until - start <= 0 then 100 else ((now - start) * 100) / (until - start)
  }

  lemma MulMonotone(a: int, b: int, d: int)
    requires a <= b && d >= 0
    ensures a * d <= b * d
  {
  }

  lemma ProgressRange(now: nat, start: nat, until: nat)
    requires start <= now
    ensures 0 <= Progress(now, start, until) <= 100
    ensures now < until ==> Progress(now, start, until) < 100
  {
    if now < until {
      var e, d := now - start, until - start;
      var q := (e * 100) / d;
      assert q * d <= e * 100 < 100 * d;
      if q >= 100 {
        MulMonotone(100, q, d);
      }
    }
  }

  /* ---- the pool ---- */

  /** A WAN of the profile with its blended weight and join ramp (-1: none). */
  datatype Member = Member(cfg: int, base: int, ramp: int)

  predicate Live(v: View, m: Member)
    requires ViewOk(v)
  {
    m.base > 0 && LiveDp(v, m.cfg) >= 0 && m.ramp != 0
  }

  function Ramped(m: Member): int {
    if 0 < m.ramp < 100 then (if (m.base * m.ramp) / 100 <= 0 then 1 else (m.base * m.ramp) / 100) else m.base
  }

  function LiveCfgs(v: View, ms: seq<Member>): (cs: seq<int>)
    requires ViewOk(v)
    ensures |cs| <= |ms|
  {
    if |ms| == 0 then []
    else LiveCfgs(v, ms[..|ms| - 1]) + (if Live(v, ms[|ms| - 1]) then [ms[|ms| - 1].cfg] else [])
  }

  function LiveWeights(v: View, ms: seq<Member>): (ws: seq<int>)
    requires ViewOk(v)
    ensures |ws| == |LiveCfgs(v, ms)| <= |ms|
  {
    if |ms| == 0 then []
    else LiveWeights(v, ms[..|ms| - 1]) + (if Live(v, ms[|ms| - 1]) then [Ramped(ms[|ms| - 1])] else [])
  }

  /** The weight of the WANs that cannot take traffic now. */
  function DeadWeight(v: View, ms: seq<Member>): (d: int)
    requires ViewOk(v)
    ensures d >= 0
  {
    if |ms| == 0 then 0
    else DeadWeight(v, ms[..|ms| - 1])
         + (if ms[|ms| - 1].base > 0 && !Live(v, ms[|ms| - 1]) then ms[|ms| - 1].base else 0)
  }

  /** What entry `i` of `n` gets of the dead weight. */
  function Share(dead: int, n: nat, i: nat): int
    requires n > 0
  {
    dead / n + (if i < dead % n then 1 else 0)
  }

  /** `fwd_wan_build_profile_pool`: live entries with their share of the dead weight, then drains. */
  method BuildPool(v: View, ms: seq<Member>) returns (cfgs: seq<int>, ws: seq<int>)
    requires ViewOk(v) && |ms| <= MAX_PORTS
    ensures |LiveCfgs(v, ms)| <= |cfgs| == |ws| <= MAX_PORTS && LiveCfgs(v, ms) <= cfgs
    ensures forall i :: 0 <= i < |LiveCfgs(v, ms)| ==>
              ws[i] == LiveWeights(v, ms)[i] + Share(DeadWeight(v, ms), |LiveCfgs(v, ms)|, i)
    ensures var n := |LiveCfgs(v, ms)|;
            Drained(v, cfgs[..n], ws[..n], cfgs, ws, Fitting(DrainSlots(v, Slots(v)), MAX_PORTS - n))
  {
    hide LiveDp, LiveFrom, Ramped, Share, DrainSlots, LiveWeights, LiveCfgs, DeadWeight, Drained;
    var live, weights, dead := CollectLive(v, ms);
    weights := Redistribute(weights, dead);
    cfgs, ws := AddDrains(v, live, weights);
    DrainedPrefix(v, live, weights, cfgs, ws, Fitting(DrainSlots(v, Slots(v)), MAX_PORTS - |live|));
  }

  lemma DrainedPrefix(v: View, cfgs0: seq<int>, ws0: seq<int>, cfgs: seq<int>, ws: seq<int>, slots: seq<nat>)
    requires ViewOk(v) && forall i :: 0 <= i < |slots| ==> slots[i] < MAX_PORTS
    requires Drained(v, cfgs0, ws0, cfgs, ws, slots)
    ensures |cfgs0| == |ws0| && cfgs0 <= cfgs && ws0 <= ws && |cfgs| == |ws| == |cfgs0| + |slots|
    ensures cfgs[..|cfgs0|] == cfgs0 && ws[..|ws0|] == ws0
  {
  }

  /** The first loop: live WANs with their ramped weight, and the weight of the dead ones. */
  method CollectLive(v: View, ms: seq<Member>) returns (cfgs: seq<int>, ws: seq<int>, dead: int)
    requires ViewOk(v)
    ensures cfgs == LiveCfgs(v, ms) && ws == LiveWeights(v, ms) && dead == DeadWeight(v, ms)
  {
    hide LiveDp, Ramped;
    cfgs, ws, dead := [], [], 0;
    for i := 0 to |ms|
      invariant cfgs == LiveCfgs(v, ms[..i]) && ws == LiveWeights(v, ms[..i]) && dead == DeadWeight(v, ms[..i])
    {
      assert ms[..i + 1][..i] == ms[..i];
      var m := ms[i];
      if m.base > 0 {
        var dp := FindLiveDp(v, m.cfg);
        if dp < 0 || m.ramp == 0 {
          dead := dead + m.base;
        } else {
          cfgs := cfgs + [m.cfg];
          ws := ws + [Ramped(m)];
        }
      }
    }
    assert ms[..|ms|] == ms;
  }

  /** The second loop: equal shares of the dead weight, the first ones taking the remainder. */
  method Redistribute(live: seq<int>, dead: int) returns (ws: seq<int>)
    requires dead >= 0
    ensures |ws| == |live| && forall i :: 0 <= i < |ws| ==> ws[i] == live[i] + Share(dead, |live|, i)
  {
    ws := live;
    var n := |live|;
    if n > 0 && dead > 0 {
      var share, rem := dead / n, dead % n;
      for i := 0 to n
        invariant |ws| == n
        invariant forall k :: 0 <= k < i ==> ws[k] == live[k] + Share(dead, n, k)
        invariant forall k :: i <= k < n ==> ws[k] == live[k]
      {
        ws := ws[i := ws[i] + share + (if i < rem then 1 else 0)];
      }
    } else if n > 0 {
      NoShare(n);
    }
  }

  lemma NoShare(n: nat)
    requires n > 0
    ensures forall i: nat :: Share(0, n, i) == 0
  {
  }

  /** A slot whose drain still carries traffic. */
  predicate Draining(v: View, dp: nat)
    requires ViewOk(v) && dp < MAX_PORTS
  {
    v.drains[dp].active && !v.stopped[dp] && v.drains[dp].taper > 0
  }

  /** The slots below `n` that are draining, in order. */
  function DrainSlots(v: View, n: nat): (slots: seq<nat>)
    requires ViewOk(v) && n <= MAX_PORTS
    ensures |slots| <= n && forall i :: 0 <= i < |slots| ==> slots[i] < n && Draining(v, slots[i])
  {
    if n == 0 then [] else DrainSlots(v, n - 1) + (if Draining(v, n - 1) then [n - 1] else [])
  }

  function Slots(v: View): (n: nat)
    ensures n <= MAX_PORTS
  {
    if v.wanCount < 0 then 0 else if v.wanCount > MAX_PORTS then MAX_PORTS else v.wanCount
  }

  /** A tapering weight of at least one. */
  function DrainWeight(d: Drain): (w: int)
    ensures w >= 1
  {
    if (d.seed * d.taper) / 100 <= 0 then 1 else (d.seed * d.taper) / 100
  }

  /** Is the pool extended from `cfgs0`, `ws0` by the first draining slots, as far as there is room? */
  ghost predicate Drained(v: View, cfgs0: seq<int>, ws0: seq<int>, cfgs: seq<int>, ws: seq<int>, slots: seq<nat>)
    requires ViewOk(v) && forall i :: 0 <= i < |slots| ==> slots[i] < MAX_PORTS
  {
    && |cfgs0| == |ws0| && cfgs0 <= cfgs && ws0 <= ws && |cfgs| == |ws| == |cfgs0| + |slots|
    && forall i :: 0 <= i < |slots| ==>
         cfgs[|cfgs0| + i] == v.drains[slots[i]].cfg && ws[|ws0| + i] == DrainWeight(v.drains[slots[i]])
  }

  function Fitting(slots: seq<nat>, room: nat): seq<nat> {
    if |slots| <= room then slots else slots[..room]
  }

  /** The draining WANs follow in slot order with a tapering weight of at least one. */
  method AddDrains(v: View, cfgs0: seq<int>, ws0: seq<int>) returns (cfgs: seq<int>, ws: seq<int>)
    requires ViewOk(v) && |cfgs0| == |ws0| <= MAX_PORTS
    ensures Drained(v, cfgs0, ws0, cfgs, ws, Fitting(DrainSlots(v, Slots(v)), MAX_PORTS - |cfgs0|))
  {
    hide Draining, DrainWeight;
    cfgs, ws := cfgs0, ws0;
    var dp: nat := 0;
    while dp < Slots(v) && |cfgs| < MAX_PORTS
      invariant dp <= Slots(v) && |cfgs| <= MAX_PORTS
      invariant Drained(v, cfgs0, ws0, cfgs, ws, DrainSlots(v, dp))
    {
      if Draining(v, dp) {
        var d := v.drains[dp];
        cfgs := cfgs + [d.cfg];
        ws := ws + [DrainWeight(d)];
      }
      dp := dp + 1;
    }
    DrainSlotsGrow(v, dp, Slots(v));
  }

  lemma {:induction false} DrainSlotsGrow(v: View, m: nat, n: nat)
    requires ViewOk(v) && m <= n <= MAX_PORTS
    ensures DrainSlots(v, m) <= DrainSlots(v, n)
  {
    if m < n {
      DrainSlotsGrow(v, m, n - 1);
    }
  }

  /** Which slots keep draining traffic, spelled out: active, not stopped, with some taper left; in slot order. */
  lemma {:induction false} DrainSlotsIff(v: View, n: nat, dp: nat)
    requires ViewOk(v) && n <= MAX_PORTS
    ensures dp in DrainSlots(v, n) <==> dp < n && v.drains[dp].active && !v.stopped[dp] && v.drains[dp].taper > 0
    ensures forall i, j :: 0 <= i < j < |DrainSlots(v, n)| ==> DrainSlots(v, n)[i] < DrainSlots(v, n)[j]
  {
    if n > 0 {
      DrainSlotsIff(v, n - 1, dp);
    }
  }

  lemma {:induction false} NoDrains(v: View, n: nat)
    requires ViewOk(v) && n <= MAX_PORTS && forall dp :: 0 <= dp < MAX_PORTS ==> !v.drains[dp].active
    ensures DrainSlots(v, n) == []
  {
    if n > 0 {
      NoDrains(v, n - 1);
    }
  }

  /** A join ramp of some percent leaves that part of the weight, rounded down, but at least one and no more
      than the whole; a higher ramp leaves no less; no ramp or a finished one leaves the whole. */
  lemma RampExact(m: Member, ramp: int)
    requires m.base > 0 && m.ramp != 0
    ensures 1 <= Ramped(m) <= m.base
    ensures 0 < m.ramp < 100 ==> Ramped(m) == 1 || Hundredths(Ramped(m), m.base * m.ramp)
    ensures 0 < m.ramp < 100 && Ramped(m) == 1 ==> m.base * m.ramp < 200
    ensures m.ramp < 0 || m.ramp >= 100 ==> Ramped(m) == m.base
    ensures 0 < m.ramp <= ramp ==> Ramped(m) <= Ramped(m.(ramp := ramp))
  {
    var x := m.base * m.ramp;
    if 0 < m.ramp < 100 {
      MulMonotone(1, m.base, m.ramp);
      MulMonotone(m.ramp, 100, m.base);
      RampWhole(x, m.base);
      if m.ramp <= ramp < 100 {
        MulMonotone(m.ramp, ramp, m.base);
      }
    }
  }

  lemma RampWhole(x: int, base: int)
    requires 0 < x <= 100 * base
    ensures x / 100 <= base && Hundredths(x / 100, x)
  {
  }

  /** A drain of some taper leaves that part of its seed weight, rounded down, but at least one and no more than
      the whole; a lower taper leaves no more. */
  lemma TaperExact(d: Drain, taper: int)
    requires d.seed > 0 && 0 < taper <= d.taper <= 100
    ensures 1 <= DrainWeight(d) <= d.seed
    ensures DrainWeight(d) == 1 || Hundredths(DrainWeight(d), d.seed * d.taper)
    ensures DrainWeight(d) == 1 ==> d.seed * d.taper < 200
    ensures DrainWeight(d.(taper := taper)) <= DrainWeight(d)
  {
    MulMonotone(1, d.seed, d.taper);
    MulMonotone(d.taper, 100, d.seed);
    MulMonotone(taper, d.taper, d.seed);
    MulMonotone(1, d.seed, taper);
    RampWhole(d.seed * d.taper, d.seed);
  }

  /** Which WANs are in the live part of the pool: those with a positive weight, a ramp that has begun or none,
      and a live slot; each with its own weight, in the order of the profile. */
  lemma {:induction false} PoolIff(v: View, ms: seq<Member>, c: int, w: int)
    requires ViewOk(v)
    ensures (exists i :: 0 <= i < |LiveCfgs(v, ms)| && LiveCfgs(v, ms)[i] == c && LiveWeights(v, ms)[i] == w)
            <==> (exists j, dp :: 0 <= j < |ms| && OnPool(v, ms[j], dp) && ms[j].cfg == c && Ramped(ms[j]) == w)
  {
    if |ms| > 0 {
      var n := |ms| - 1;
      var init, m := ms[..n], ms[n];
      PoolIff(v, init, c, w);
      LiveDpIff(v, m.cfg);
      if Live(v, m) && m.cfg == c && Ramped(m) == w {
        assert LiveCfgs(v, ms)[|LiveCfgs(v, init)|] == c && LiveWeights(v, ms)[|LiveCfgs(v, init)|] == w;
        assert OnPool(v, ms[n], LiveDp(v, m.cfg));
      }
      if i :| 0 <= i < |LiveCfgs(v, init)| && LiveCfgs(v, init)[i] == c && LiveWeights(v, init)[i] == w {
        assert LiveCfgs(v, ms)[i] == c && LiveWeights(v, ms)[i] == w;
        var j, dp :| 0 <= j < |init| && OnPool(v, init[j], dp) && init[j].cfg == c && Ramped(init[j]) == w;
        assert OnPool(v, ms[j], dp);
      }
      if j, dp :| 0 <= j < |ms| && OnPool(v, ms[j], dp) && ms[j].cfg == c && Ramped(ms[j]) == w {
        if j < n {
          assert OnPool(v, init[j], dp);
        }
      }
    }
  }

  ghost predicate OnPool(v: View, m: Member, dp: int)
    requires ViewOk(v)
  {
    m.base > 0 && m.ramp != 0 && FirstAndOpen(v, m.cfg, dp)
  }

  /** The remainder of the dead weight goes to the first entries. */
  lemma SharesFirst(dead: int, n: nat, i: nat, j: nat)
    requires dead >= 0 && i <= j < n
    ensures Share(dead, n, j) <= Share(dead, n, i)
  {
  }

  /* ---- conservation of weight ---- */

  /** The total of all positive blended weights. */
  function PositiveSum(ms: seq<Member>): int {
    if |ms| == 0 then 0 else PositiveSum(ms[..|ms| - 1]) + Pos(ms[|ms| - 1].base)
  }

  /** The shares of the first `k` entries. */
  function ShareSum(dead: int, n: nat, k: nat): int
    requires n > 0
  {
    if k == 0 then 0 else ShareSum(dead, n, k - 1) + Share(dead, n, k - 1)
  }

  lemma {:induction false} ShareSumIs(dead: int, n: nat, k: nat)
    requires n > 0 && k <= n && dead >= 0
    ensures ShareSum(dead, n, k) == k * (dead / n) + (if k < dead % n then k else dead % n)
  {
    if k > 0 {
      ShareSumIs(dead, n, k - 1);
      assert k * (dead / n) == (k - 1) * (dead / n) + dead / n;
    }
  }

  /** The shares add up to the dead weight, and differ by at most one. */
  lemma SharesExact(dead: int, n: nat)
    requires n > 0 && dead >= 0
    ensures ShareSum(dead, n, n) == dead
    ensures forall i: nat, j: nat :: i < n && j < n ==> Share(dead, n, i) <= Share(dead, n, j) + 1
  {
    ShareSumIs(dead, n, n);
    assert n * (dead / n) + dead % n == dead;
  }

  lemma {:induction false} TotalOfShares(live: seq<int>, ws: seq<int>, dead: int, n: nat)
    requires n > 0 && |live| == |ws| <= n && dead >= 0
    requires forall i :: 0 <= i < |ws| ==> live[i] >= 1 && ws[i] == live[i] + Share(dead, n, i)
    ensures Total(ws) == Total(live) + ShareSum(dead, n, |ws|)
    ensures forall i :: 0 <= i < |ws| ==> ws[i] >= 1
  {
    if |ws| > 0 {
      var k := |ws| - 1;
      assert ws[..k] == ws[..k] && live[..k] == live[..k];
      TotalOfShares(live[..k], ws[..k], dead, n);
      ShareNonNegative(dead, n, k);
    }
  }

  lemma ShareNonNegative(dead: int, n: nat, i: nat)
    requires n > 0 && dead >= 0
    ensures Share(dead, n, i) >= 0
  {
  }

  lemma {:induction false} LiveAndDead(v: View, ms: seq<Member>)
    requires ViewOk(v) && forall i :: 0 <= i < |ms| ==> !(0 < ms[i].ramp < 100)
    ensures Total(LiveWeights(v, ms)) + DeadWeight(v, ms) == PositiveSum(ms)
    ensures forall i :: 0 <= i < |LiveWeights(v, ms)| ==> LiveWeights(v, ms)[i] >= 1
  {
    hide LiveDp, Ramped, Total;
    if |ms| == 0 {
      TotalEmpty();
    } else {
      var init, m := ms[..|ms| - 1], ms[|ms| - 1];
      LiveAndDead(v, init);
      if Live(v, m) {
        RampedWhole(m);
        TotalAppend(LiveWeights(v, init), Ramped(m));
      } else {
        assert LiveWeights(v, init) + [] == LiveWeights(v, init);
      }
    }
  }

  lemma TotalEmpty()
    ensures Total([]) == 0
  {
  }

  lemma RampedWhole(m: Member)
    requires !(0 < m.ramp < 100)
    ensures Ramped(m) == m.base
  {
  }

  lemma TotalAppend(ws: seq<int>, w: int)
    ensures Total(ws + [w]) == Total(ws) + Pos(w)
  {
    assert (ws + [w])[..|ws|] == ws;
  }

  /** Main pool theorem: with a live WAN and no partial join ramp, the live weights are all at least one
      and sum to the total of all positive blended weights: the weight of dead WANs is spread over the
      live ones, in shares that differ by at most one, and nothing is lost. */
  lemma WeightConserved(v: View, ms: seq<Member>, ws: seq<int>)
    requires ViewOk(v) && |LiveCfgs(v, ms)| > 0 && |ws| == |LiveCfgs(v, ms)|
    requires forall i :: 0 <= i < |ms| ==> !(0 < ms[i].ramp < 100)
    requires forall i :: 0 <= i < |ws| ==> ws[i] == LiveWeights(v, ms)[i] + Share(DeadWeight(v, ms), |ws|, i)
    ensures Total(ws) == PositiveSum(ms)
    ensures forall i :: 0 <= i < |ws| ==> ws[i] >= 1
  {
    hide Total, LiveWeights, DeadWeight, LiveCfgs, PositiveSum, Share, ShareSum;
    LiveAndDead(v, ms);
    TotalOfShares(LiveWeights(v, ms), ws, DeadWeight(v, ms), |ws|);
    SharesExact(DeadWeight(v, ms), |ws|);
  }

  lemma {:induction false} LiveCfgsLive(v: View, ms: seq<Member>)
    requires ViewOk(v)
    ensures forall i :: 0 <= i < |LiveCfgs(v, ms)| ==> LiveDp(v, LiveCfgs(v, ms)[i]) >= 0
  {
    hide LiveDp;
    if |ms| > 0 {
      LiveCfgsLive(v, ms[..|ms| - 1]);
    }
  }

  /* ---- the pick ---- */

  /** The state of the TX rings: which slots have room and how deep each is. */
  datatype Rings = Rings(room: seq<bool>, depth: seq<nat>)

  predicate RingsOk(r: Rings) {
    |r.room| == MAX_PORTS && |r.depth| == MAX_PORTS
  }

  /** A slot `pick_least_loaded_wan` may divert to: the live slot of a listed WAN with a positive weight,
      or, for a profile that lists no WAN, any eligible slot. */
  predicate Candidate(v: View, ms: seq<Member>, dp: int)
    requires ViewOk(v)
  {
    && 0 <= dp < MAX_PORTS && Eligible(v, dp)
    && if |ms| > 0 then exists i :: 0 <= i < |ms| && ms[i].base > 0 && LiveDp(v, ms[i].cfg) == dp
       else dp < v.wanCount
  }

  /** `pick_least_loaded_wan`: the selected slot if it has room, otherwise the shallowest candidate with
      room, otherwise the selected one after all. */
  method LeastLoaded(v: View, ms: seq<Member>, r: Rings, selected: nat) returns (dp: nat)
    requires ViewOk(v) && RingsOk(r) && selected < MAX_PORTS
    ensures dp < MAX_PORTS
    ensures r.room[selected] ==> dp == selected
    ensures !r.room[selected] && dp != selected ==> Candidate(v, ms, dp) && r.room[dp]
    ensures !r.room[selected] ==> forall c :: 0 <= c < MAX_PORTS && Candidate(v, ms, c) && r.room[c] ==>
              Candidate(v, ms, dp) && r.room[dp] && r.depth[dp] <= r.depth[c]
  {
    hide LiveDp;
    if r.room[selected] {
      return selected;
    }
    var best := -1;
    if |ms| > 0 {
      best := BestListed(v, ms, r);
    } else {
      var wi := 0;
      while wi < v.wanCount && wi < MAX_PORTS
        invariant 0 <= wi <= MAX_PORTS && -1 <= best < MAX_PORTS
        invariant best >= 0 ==> Candidate(v, ms, best) && r.room[best]
        invariant forall c :: 0 <= c < wi && Candidate(v, ms, c) && r.room[c] ==>
                    best >= 0 && r.depth[best] <= r.depth[c]
        decreases MAX_PORTS - wi
      {
        if Eligible(v, wi) && r.room[wi] && (best < 0 || r.depth[wi] < r.depth[best]) {
          best := wi;
        }
        wi := wi + 1;
      }
    }
    dp := if best >= 0 then best else selected;
  }

  method BestListed(v: View, ms: seq<Member>, r: Rings) returns (best: int)
    requires ViewOk(v) && RingsOk(r) && |ms| > 0
    ensures -1 <= best < MAX_PORTS
    ensures best >= 0 ==> Candidate(v, ms, best) && r.room[best]
    ensures forall c :: 0 <= c < MAX_PORTS && Candidate(v, ms, c) && r.room[c] ==>
              best >= 0 && r.depth[best] <= r.depth[c]
  {
    hide LiveDp;
    best := -1;
    for i := 0 to |ms|
      invariant -1 <= best < MAX_PORTS
      invariant best >= 0 ==> Candidate(v, ms, best) && r.room[best]
      invariant forall k :: 0 <= k < i && ms[k].base > 0
                            && LiveDp(v, ms[k].cfg) >= 0 && r.room[LiveDp(v, ms[k].cfg)] ==>
                  best >= 0 && r.depth[best] <= r.depth[LiveDp(v, ms[k].cfg)]
    {
      if ms[i].base > 0 {
        var d := FindLiveDp(v, ms[i].cfg);
        if d >= 0 && r.room[d] && (best < 0 || r.depth[d] < r.depth[best]) {
          best := d;
        }
      }
    }
  }

  /** `fwd_wan_dp_for_legacy_cfg`: the first slot that is draining the configured WAN, or -1. */
  method LegacyDp(v: View, cfg: int) returns (dp: int)
    requires ViewOk(v)
    ensures -1 <= dp < Slots(v)
    ensures dp >= 0 ==> Draining(v, dp) && v.drains[dp].cfg == cfg
    ensures forall k :: 0 <= k < (if dp < 0 then Slots(v) else dp) ==> !(Draining(v, k) && v.drains[k].cfg == cfg)
  {
    for i := 0 to Slots(v)
      invariant forall k :: 0 <= k < i ==> !(Draining(v, k) && v.drains[k].cfg == cfg)
    {
      if Draining(v, i) && v.drains[i].cfg == cfg {
        return i;
      }
    }
    dp := -1;
  }

  /** The end of `fwd_wan_pick_for_local`: the scheduler chose the configured WAN `cfg` of the pool. The slot
      finally used is eligible for new traffic if and only if that WAN is live, or slot 0 is eligible, or
      slot 0 has no room and some candidate has. */
  method PickSlot(v: View, ms: seq<Member>, r: Rings, cfg: int) returns (dp: nat)
    requires ViewOk(v) && RingsOk(r) && v.activeCount <= v.wanCount
    ensures dp < MAX_PORTS
    ensures Eligible(v, dp) <==>
              || LiveDp(v, cfg) >= 0
              || Eligible(v, 0)
              || (!r.room[0] && exists c :: 0 <= c < MAX_PORTS && Candidate(v, ms, c) && r.room[c])
    ensures var sel := if LiveDp(v, cfg) >= 0 then LiveDp(v, cfg) else 0;
            && (r.room[sel] ==> dp == sel)
            && (!r.room[sel] && dp != sel ==> Candidate(v, ms, dp) && r.room[dp])
            && (!r.room[sel] ==> forall c :: 0 <= c < MAX_PORTS && Candidate(v, ms, c) && r.room[c] ==>
                  Candidate(v, ms, dp) && r.room[dp] && r.depth[dp] <= r.depth[c])
  {
    hide LiveDp, Candidate;
    var d := FindLiveDp(v, cfg);
    if d < 0 {
      d := LegacyDp(v, cfg);
    }
    if d < 0 || d >= v.wanCount || !Eligible(v, d) {
      d := 0;
    }
    dp := LeastLoaded(v, ms, r, d);
    CandidateEligible(v, ms, dp);
  }

  lemma CandidateEligible(v: View, ms: seq<Member>, dp: int)
    requires ViewOk(v)
    ensures Candidate(v, ms, dp) ==> Eligible(v, dp)
  {
  }

  /** The slots traffic may be diverted to, spelled out. */
  lemma CandidateIff(v: View, ms: seq<Member>, dp: int)
    requires ViewOk(v)
    ensures |ms| > 0 ==>
              (Candidate(v, ms, dp) <==> exists i :: 0 <= i < |ms| && ms[i].base > 0 && FirstAndOpen(v, ms[i].cfg, dp))
    ensures |ms| == 0 ==>
              (Candidate(v, ms, dp) <==>
                 0 <= dp < 16 && dp < v.wanCount && dp < v.activeCount
                 && !v.stopped[dp] && !v.held[dp] && !v.drains[dp].active && !v.excluded[dp])
  {
    forall i | 0 <= i < |ms| ensures LiveDp(v, ms[i].cfg) == dp && dp >= 0 <==> FirstAndOpen(v, ms[i].cfg, dp) {
      LiveDpIff(v, ms[i].cfg);
    }
  }

  function PoolSize(v: View, ms: seq<Member>): nat
    requires ViewOk(v) && |ms| <= MAX_PORTS
  {
    |LiveCfgs(v, ms)| + |Fitting(DrainSlots(v, Slots(v)), MAX_PORTS - |LiveCfgs(v, ms)|)|
  }

  /** `fwd_wan_pick_for_local`: the scheduler's choice is an index of the pool. A live choice is always turned
      into an eligible slot, its own if that has room, whatever the rings look like; with no drain in
      progress every choice is live. */
  method PickForLocal(v: View, ms: seq<Member>, r: Rings, choice: nat) returns (dp: nat)
    requires ViewOk(v) && RingsOk(r) && |ms| <= MAX_PORTS && choice < PoolSize(v, ms)
    requires v.activeCount <= v.wanCount
    ensures choice < |LiveCfgs(v, ms)| ==>
              var d := LiveDp(v, LiveCfgs(v, ms)[choice]); d >= 0 && Eligible(v, dp) && (r.room[d] ==> dp == d)
    ensures (forall k :: 0 <= k < MAX_PORTS ==> !v.drains[k].active) ==> Eligible(v, dp)
  {
    hide LiveDp, LiveFrom, Share, Candidate, DrainSlots;
    var cfgs, ws := BuildPool(v, ms);
    LiveCfgsLive(v, ms);
    if forall k :: 0 <= k < MAX_PORTS ==> !v.drains[k].active {
      NoDrains(v, Slots(v));
    }
    dp := PickSlot(v, ms, r, cfgs[choice]);
  }

  /* ---- an active drain ---- */

  /** Slot 0 is stopped, slot 1 is configured for WAN 7 and draining it, and no WAN is live. */
  function DrainView(): View {
    View(seq(MAX_PORTS, i => if i == 1 then 7 else i), 2, 2, seq(MAX_PORTS, i => i == 0), seq(MAX_PORTS, i => false),
         seq(MAX_PORTS, i => false), seq(MAX_PORTS, i => Drain(i == 1, 7, 10, 50)), 2)
  }

  /** While a drain is in progress the slot finally used need not be eligible: here the pool consists of the
      draining WAN 7, so 7 is chosen, and the condition of `PickSlot` is false. */
  lemma DrainingPick(r: Rings)
    requires RingsOk(r)
    ensures var v, ms := DrainView(), [Member(7, 10, -1)];
            && ViewOk(v) && v.activeCount <= v.wanCount && LiveCfgs(v, ms) == []
            && DrainSlots(v, Slots(v)) == [1] && v.drains[1].cfg == 7
            && LiveDp(v, 7) < 0 && !Eligible(v, 0)
            && !exists c :: 0 <= c < MAX_PORTS && Candidate(v, ms, c) && r.room[c]
  {
    var v := DrainView();
    var ms := [Member(7, 10, -1)];
    assert LiveFrom(v, 7, 1) == -1;
    assert ms[..0] == [];
    assert DrainSlots(v, 0) == [] && DrainSlots(v, 1) == [];
  }
}
