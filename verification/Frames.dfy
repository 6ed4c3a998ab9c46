/** Ownership of packet frames: every frame is in exactly one place, and every call of the IPv4 egress
    and ingress paths disposes of the frame it was given exactly once. */
module Frames {
  import opened Helpers
  import opened ReorderModel
  import opened ReorderEntry
  import opened ReorderTable
  import opened ReorderRuns

  const WORKERS: nat := 6
  const MAX_PORTS: nat := 16
  const RINGS: nat := 192
  const TX_RESERVE: nat := 64
  const SPLIT_REFILL: nat := 32

  datatype Packet = Packet(addr: nat, len: nat, toWan: bool, wan: nat, port: nat)
  datatype Sizes = Sizes(poolCap: nat, ringCap: nat, frameSize: nat, wanCount: nat)

  /** The frames inside the process: idle in the pool, set aside per worker for split tails, queued in
      the rings towards WANs and local ports; and those with the kernel. */
  datatype World = World(pool: seq<nat>, tails: seq<seq<nat>>, rings: seq<seq<Packet>>, outside: seq<nat>)

  predicate WorldOk(w: World) {
    |w.tails| == WORKERS && |w.rings| == RINGS
  }

  function WanRing(wan: nat, slot: nat): (k: nat)
    requires wan < MAX_PORTS && slot < WORKERS
    ensures k < RINGS
  {
    wan * WORKERS + slot
  }

  /* ---- counting ---- */

  /** A class of frames to keep count of: one frame, or all of them. */
  type Frame = nat -> bool

  function Occ(s: seq<nat>, f: Frame): nat {
    if |s| == 0 then 0 else Occ(s[..|s| - 1], f) + (if f(s[|s| - 1]) then 1 else 0)
  }

  function OccPk(s: seq<Packet>, f: Frame): nat {
    if |s| == 0 then 0 else OccPk(s[..|s| - 1], f) + (if f(s[|s| - 1].addr) then 1 else 0)
  }

  function OccAll(ss: seq<seq<nat>>, f: Frame): nat {
    if |ss| == 0 then 0 else OccAll(ss[..|ss| - 1], f) + Occ(ss[|ss| - 1], f)
  }

  function OccRings(rs: seq<seq<Packet>>, f: Frame): nat {
    if |rs| == 0 then 0 else OccRings(rs[..|rs| - 1], f) + OccPk(rs[|rs| - 1], f)
  }

  function One1(a: nat, f: Frame): nat {
    if f(a) then 1 else 0
  }

  const ALL: Frame := (a: nat) => true

  /** Where the frames of class `f` are. */
  function Tally(w: World, f: Frame): nat {
    Occ(w.pool, f) + OccAll(w.tails, f) + OccRings(w.rings, f) + Occ(w.outside, f)
  }

  lemma {:induction false} OccConcat(s: seq<nat>, t: seq<nat>, f: Frame)
    ensures Occ(s + t, f) == Occ(s, f) + Occ(t, f)
  {
    if |t| == 0 {
      assert s + t == s;
    } else {
      assert (s + t)[..|s + t| - 1] == s + t[..|t| - 1];
      OccConcat(s, t[..|t| - 1], f);
    }
  }

  lemma OccAppend(s: seq<nat>, a: nat, f: Frame)
    ensures Occ(s + [a], f) == Occ(s, f) + One1(a, f)
  {
    assert (s + [a])[..|s|] == s;
  }

  lemma OccPkAppend(s: seq<Packet>, p: Packet, f: Frame)
    ensures OccPk(s + [p], f) == OccPk(s, f) + One1(p.addr, f)
  {
    assert (s + [p])[..|s|] == s;
  }

  lemma {:induction false} OccPkPop(s: seq<Packet>, f: Frame)
    requires |s| > 0
    ensures OccPk(s, f) == One1(s[0].addr, f) + OccPk(s[1..], f)
  {
    if |s| == 1 {
      assert s[1..] == [] && s[..0] == [];
    } else {
      assert s[1..][..|s| - 2] == s[..|s| - 1][1..];
      OccPkPop(s[..|s| - 1], f);
    }
  }

  lemma OccRemove(s: seq<nat>, i: nat, f: Frame)
    requires i < |s|
    ensures Occ(s, f) == Occ(s[..i] + s[i + 1..], f) + One1(s[i], f)
  {
    assert s == s[..i] + [s[i]] + s[i + 1..];
    OccConcat(s[..i] + [s[i]], s[i + 1..], f);
    OccAppend(s[..i], s[i], f);
    OccConcat(s[..i], s[i + 1..], f);
  }

  lemma OccSplit(s: seq<nat>, k: nat, f: Frame)
    requires k <= |s|
    ensures Occ(s, f) == Occ(s[..k], f) + Occ(s[k..], f)
  {
    assert s == s[..k] + s[k..];
    OccConcat(s[..k], s[k..], f);
  }

  lemma {:induction false} OccLength(s: seq<nat>)
    ensures Occ(s, ALL) == |s|
  {
    if |s| > 0 {
      OccLength(s[..|s| - 1]);
    }
  }

  lemma {:induction false} OccAllUpdate(ss: seq<seq<nat>>, i: nat, s: seq<nat>, f: Frame)
    requires i < |ss|
    ensures OccAll(ss[i := s], f) + Occ(ss[i], f) == OccAll(ss, f) + Occ(s, f)
  {
    hide Occ;
    var n := |ss| - 1;
    if i == n {
      assert ss[i := s][..n] == ss[..n];
    } else {
      assert ss[i := s][..n] == ss[..n][i := s];
      OccAllUpdate(ss[..n], i, s, f);
    }
  }

  lemma {:induction false} OccRingsUpdate(rs: seq<seq<Packet>>, i: nat, r: seq<Packet>, f: Frame)
    requires i < |rs|
    ensures OccRings(rs[i := r], f) + OccPk(rs[i], f) == OccRings(rs, f) + OccPk(r, f)
  {
    hide OccPk;
    var n := |rs| - 1;
    if i == n {
      assert rs[i := r][..n] == rs[..n];
    } else {
      assert rs[i := r][..n] == rs[..n][i := r];
      OccRingsUpdate(rs[..n], i, r, f);
    }
  }

  /* ---- the operations ---- */

  /** `ne_frame_free`: a full pool silently loses the frame. */
  function Free(sz: Sizes, w: World, a: nat): World {
    if |w.pool| < sz.poolCap then w.(pool := w.pool + [a]) else w
  }

  /** `dp_ring_push`: queue the packet, or give its frame back. */
  function RingPush(sz: Sizes, w: World, k: nat, p: Packet): World
    requires k < |w.rings|
  {
    if p.len > sz.frameSize || |w.rings[k]| >= sz.ringCap then Free(sz, w, p.addr)
    else w.(rings := w.rings[k := w.rings[k] + [p]])
  }

  predicate HasTxRoom(sz: Sizes, w: World, wan: int, slot: nat)
    requires WorldOk(w) && slot < WORKERS && sz.wanCount <= MAX_PORTS
  {
    0 <= wan < sz.wanCount && |w.rings[WanRing(wan, slot)]| + TX_RESERVE < sz.ringCap
  }

  /** `split_tail_take`: take a frame from the worker's cache, refilling it from the pool when empty. */
  function TakeTail(w: World, worker: nat): (r: (World, Option<nat>))
    requires WorldOk(w) && worker < WORKERS
    ensures WorldOk(r.0) && r.0.rings == w.rings
  {
    var got := if SPLIT_REFILL <= |w.pool| then SPLIT_REFILL else |w.pool|;
    var v := if |w.tails[worker]| == 0
             then w.(pool := w.pool[got..], tails := w.tails[worker := w.pool[..got]]) else w;
    var c := v.tails[worker];
    if |c| == 0 then (w, None)
    else (v.(tails := v.tails[worker := c[..|c| - 1]]), Some(c[|c| - 1]))
  }

  /** `push_split_to_wan`: queue head and tail together, or give the tail back. */
  function PushSplit(sz: Sizes, w: World, wan: nat, slot: nat, job: Packet, l1: nat, tail: nat,
                     l2: nat): (r: (World, bool))
    requires WorldOk(w) && wan < MAX_PORTS && slot < WORKERS
    ensures WorldOk(r.0)
  {
    var k := WanRing(wan, slot);
    if wan >= sz.wanCount || |w.rings[k]| + 2 > sz.ringCap
       || l1 == 0 || l2 == 0 || l1 > sz.frameSize || l2 > sz.frameSize
    then (Free(sz, w, tail), false)
    else
      var head := job.(len := l1, toWan := true, wan := wan);
      var rest := Packet(tail, l2, true, wan, 0);
      (w.(rings := w.rings[k := w.rings[k] + [head] + [rest]]), true)
  }

  /** What the parser, policy lookup, scheduler and cipher decide about one outgoing packet. */
  datatype Egress = Egress(policyOk: bool, wan: int, bypass: bool, cryptoOn: bool, keyReady: bool, udp: bool,
                           seqOk: bool, needSplit: bool, splitOk: bool, l1: nat, l2: nat, cipherOk: bool,
                           newLen: nat, slot: nat, worker: nat)

  /** What `encrypt_to_wan` reports: failure, packet still to be queued, or both halves queued. */
  datatype Encrypted = Failed | Whole(job: Packet) | Queued

  function EncryptToWan(sz: Sizes, w: World, job: Packet, v: Egress): (r: (World, Encrypted))
    requires WorldOk(w) && v.slot < WORKERS && v.worker < WORKERS && 0 <= v.wan < MAX_PORTS
    ensures WorldOk(r.0)
  {
    if v.udp && !v.seqOk then (w, Failed)
    else if v.needSplit then
      var (w1, tail) := TakeTail(w, v.worker);
      if tail.None? then (w1, Failed)
      else if !v.splitOk then (Free(sz, w1, tail.value), Failed)
      else
        var (w2, ok) := PushSplit(sz, w1, v.wan, v.slot, job, v.l1, tail.value, v.l2);
        (w2, if ok then Queued else Failed)
    else if !v.cipherOk then (w, Failed)
    else (w, Whole(job.(len := v.newLen)))
  }

  /** The IPv4 branches of `dataplane_process_local`. */
  function ProcessLocal(sz: Sizes, w: World, job: Packet, v: Egress): (r: World)
    requires WorldOk(w) && v.slot < WORKERS && v.worker < WORKERS && sz.wanCount <= MAX_PORTS
    ensures WorldOk(r)
  {
    if !v.policyOk || v.wan < 0 || !HasTxRoom(sz, w, v.wan, v.slot) then Free(sz, w, job.addr)
    else
      var k := WanRing(v.wan, v.slot);
      if v.bypass then RingPush(sz, w, k, job.(toWan := true, wan := v.wan))
      else if !v.cryptoOn || !v.keyReady then Free(sz, w, job.addr)
      else
        var (w1, e) := EncryptToWan(sz, w, job, v);
        match e
        case Failed => Free(sz, w1, job.addr)
        case Queued => w1
        case Whole(j) => RingPush(sz, w1, k, j.(toWan := true, wan := v.wan))
  }

  /* ---- conservation of single operations ---- */

  /** There is room in the pool for every frame inside and outside plus `n` more. */
  ghost predicate Fits(sz: Sizes, w: World, n: nat) {
    Tally(w, ALL) + n <= sz.poolCap
  }

  lemma PoolRoom(sz: Sizes, w: World)
    requires Fits(sz, w, 1)
    ensures |w.pool| < sz.poolCap
  {
    hide Occ, OccAll, OccRings;
    OccLength(w.pool);
  }

  lemma FreeKeeps(sz: Sizes, w: World, a: nat, f: Frame)
    requires Fits(sz, w, 1)
    ensures Tally(Free(sz, w, a), f) == Tally(w, f) + One1(a, f)
    ensures Free(sz, w, a).pool == w.pool + [a]
  {
    hide Occ, OccAll, OccRings;
    PoolRoom(sz, w);
    OccAppend(w.pool, a, f);
  }

  lemma RingPushKeeps(sz: Sizes, w: World, k: nat, p: Packet, f: Frame)
    requires Fits(sz, w, 1) && k < |w.rings|
    ensures Tally(RingPush(sz, w, k, p), f) == Tally(w, f) + One1(p.addr, f)
  {
    hide Occ, OccAll, OccRings, OccPk, Fits;
    if p.len > sz.frameSize || |w.rings[k]| >= sz.ringCap {
      FreeKeeps(sz, w, p.addr, f);
    } else {
      OccPkAppend(w.rings[k], p, f);
      OccRingsUpdate(w.rings, k, w.rings[k] + [p], f);
    }
  }

  lemma TakeTailKeeps(w: World, worker: nat, f: Frame)
    requires WorldOk(w) && worker < WORKERS
    ensures var (v, tail) := TakeTail(w, worker);
            Tally(v, f) + (if tail.Some? then One1(tail.value, f) else 0) == Tally(w, f)
  {
    hide Occ, OccAll, OccRings;
    var got := if SPLIT_REFILL <= |w.pool| then SPLIT_REFILL else |w.pool|;
    var v := if |w.tails[worker]| == 0
             then w.(pool := w.pool[got..], tails := w.tails[worker := w.pool[..got]]) else w;
    OccSplit(w.pool, got, f);
    OccEmpty(f);
    OccAllUpdate(w.tails, worker, w.pool[..got], f);
    assert Tally(v, f) == Tally(w, f);
    var c := v.tails[worker];
    if |c| > 0 {
      assert c == c[..|c| - 1] + [c[|c| - 1]];
      OccAppend(c[..|c| - 1], c[|c| - 1], f);
      OccAllUpdate(v.tails, worker, c[..|c| - 1], f);
    }
  }

  lemma OccEmpty(f: Frame)
    ensures Occ([], f) == 0
  {
  }

  lemma PushSplitKeeps(sz: Sizes, w: World, wan: nat, slot: nat, job: Packet, l1: nat, tail: nat, l2: nat, f: Frame)
    requires WorldOk(w) && wan < MAX_PORTS && slot < WORKERS && Fits(sz, w, 1)
    ensures var (v, ok) := PushSplit(sz, w, wan, slot, job, l1, tail, l2);
            Tally(v, f) == Tally(w, f) + One1(tail, f) + (if ok then One1(job.addr, f) else 0)
  {
    hide Occ, OccAll, OccRings, OccPk, Fits;
    var k := WanRing(wan, slot);
    var head := job.(len := l1, toWan := true, wan := wan);
    var rest := Packet(tail, l2, true, wan, 0);
    if PushSplit(sz, w, wan, slot, job, l1, tail, l2).1 {
      OccPkAppend(w.rings[k], head, f);
      OccPkAppend(w.rings[k] + [head], rest, f);
      OccRingsUpdate(w.rings, k, w.rings[k] + [head] + [rest], f);
    } else {
      FreeKeeps(sz, w, tail, f);
    }
  }

  lemma EncryptKeeps(sz: Sizes, w: World, job: Packet, v: Egress, f: Frame)
    requires WorldOk(w) && v.slot < WORKERS && v.worker < WORKERS && 0 <= v.wan < MAX_PORTS && Fits(sz, w, 1)
    ensures var (w1, e) := EncryptToWan(sz, w, job, v);
            && Tally(w1, f) == Tally(w, f) + (if e.Queued? then One1(job.addr, f) else 0)
            && (!e.Queued? ==> Tally(w1, ALL) == Tally(w, ALL))
            && (e.Whole? ==> w1 == w && e.job.addr == job.addr)
  {
    hide Tally, TakeTail, PushSplit;
    if !(v.udp && !v.seqOk) && v.needSplit {
      var (w1, tail) := TakeTail(w, v.worker);
      TakeTailKeeps(w, v.worker, f);
      TakeTailKeeps(w, v.worker, ALL);
      if tail.Some? {
        if !v.splitOk {
          FreeKeeps(sz, w1, tail.value, f);
          FreeKeeps(sz, w1, tail.value, ALL);
        } else {
          PushSplitKeeps(sz, w1, v.wan, v.slot, job, v.l1, tail.value, v.l2, f);
          PushSplitKeeps(sz, w1, v.wan, v.slot, job, v.l1, tail.value, v.l2, ALL);
        }
      }
    }
  }

  /** Main egress theorem: whatever the policy, scheduler and cipher decide, one call puts the frame it
      was given into exactly one place and loses or doubles no other frame. */
  lemma ProcessLocalKeeps(sz: Sizes, w: World, job: Packet, v: Egress, f: Frame)
    requires WorldOk(w) && v.slot < WORKERS && v.worker < WORKERS && sz.wanCount <= MAX_PORTS && Fits(sz, w, 1)
    ensures Tally(ProcessLocal(sz, w, job, v), f) == Tally(w, f) + One1(job.addr, f)
  {
    hide Tally, EncryptToWan, RingPush, Free;
    FreeKeeps(sz, w, job.addr, f);
    if v.policyOk && v.wan >= 0 && HasTxRoom(sz, w, v.wan, v.slot) {
      var k := WanRing(v.wan, v.slot);
      RingPushKeeps(sz, w, k, job.(toWan := true, wan := v.wan), f);
      EncryptKeeps(sz, w, job, v, f);
      var (w1, e) := EncryptToWan(sz, w, job, v);
      if e.Failed? {
        FreeKeeps(sz, w1, job.addr, f);
      } else if e.Whole? {
        RingPushKeeps(sz, w, k, e.job.(toWan := true, wan := v.wan), f);
      }
    }
  }

  /* ---- what an egress call sends ---- */

  /** The packet has a policy and a WAN, and that WAN's ring for this slot has more than a batch of room. */
  predicate MaySend(sz: Sizes, w: World, v: Egress)
    requires WorldOk(w) && v.slot < WORKERS && sz.wanCount <= MAX_PORTS
  {
    v.policyOk && 0 <= v.wan < sz.wanCount && |w.rings[WanRing(v.wan, v.slot)]| + 64 < sz.ringCap
  }

  /** Crypto is on, the key is there, and a UDP packet has its number. */
  predicate MayEncrypt(v: Egress) {
    !v.bypass && v.cryptoOn && v.keyReady && (v.udp ==> v.seqOk)
  }

  /** What may leave in clear text: a packet whose policy is a bypass. */
  predicate SendsClear(sz: Sizes, w: World, job: Packet, v: Egress)
    requires WorldOk(w) && v.slot < WORKERS && sz.wanCount <= MAX_PORTS
  {
    MaySend(sz, w, v) && v.bypass && job.len <= sz.frameSize
  }

  /** What leaves encrypted in one piece. */
  predicate SendsWhole(sz: Sizes, w: World, v: Egress)
    requires WorldOk(w) && v.slot < WORKERS && sz.wanCount <= MAX_PORTS
  {
    MaySend(sz, w, v) && MayEncrypt(v) && !v.needSplit && v.cipherOk && v.newLen <= sz.frameSize
  }

  /** What leaves encrypted in two pieces: a frame for the tail is there, and both pieces fit. */
  predicate SendsSplit(sz: Sizes, w: World, v: Egress)
    requires WorldOk(w) && v.slot < WORKERS && v.worker < WORKERS && sz.wanCount <= MAX_PORTS
  {
    && MaySend(sz, w, v) && MayEncrypt(v) && v.needSplit && v.splitOk
    && (|w.tails[v.worker]| > 0 || |w.pool| > 0)
    && 0 < v.l1 <= sz.frameSize && 0 < v.l2 <= sz.frameSize
  }

  /** The frame a split takes for its tail: the last of the worker's cache, which when empty is refilled with
      the first 32 idle frames, or as many as there are. */
  function TailFrame(w: World, worker: nat): nat
    requires WorldOk(w) && worker < WORKERS && (|w.tails[worker]| > 0 || |w.pool| > 0)
  {
    if |w.tails[worker]| > 0 then w.tails[worker][|w.tails[worker]| - 1]
    else if |w.pool| < 32 then w.pool[|w.pool| - 1]
    else w.pool[31]
  }

  lemma TakeTailIff(w: World, worker: nat)
    requires WorldOk(w) && worker < WORKERS
    ensures var (v, tail) := TakeTail(w, worker);
            && v.rings == w.rings
            && (tail.Some? <==> |w.tails[worker]| > 0 || |w.pool| > 0)
            && (tail.Some? ==> tail.value == TailFrame(w, worker))
  {
  }

  /** Main egress theorem on the wire side, both directions: what a call appends to which ring. A bypass packet
      goes out as it is; a packet that may be encrypted goes out encrypted, in one piece or as head and then
      tail; anything else sends nothing. No other ring changes. */
  lemma ProcessLocalSends(sz: Sizes, w: World, job: Packet, v: Egress)
    requires WorldOk(w) && v.slot < WORKERS && v.worker < WORKERS && sz.wanCount <= MAX_PORTS
    ensures var r := ProcessLocal(sz, w, job, v);
            && (SendsClear(sz, w, job, v) ==>
                  r.rings == Appended(w, v, [Packet(job.addr, job.len, true, v.wan, job.port)]))
            && (SendsWhole(sz, w, v) ==>
                  r.rings == Appended(w, v, [Packet(job.addr, v.newLen, true, v.wan, job.port)]))
            && (SendsSplit(sz, w, v) ==>
                  r.rings == Appended(w, v, [Packet(job.addr, v.l1, true, v.wan, job.port),
                                             Packet(TailFrame(w, v.worker), v.l2, true, v.wan, 0)]))
            && (!SendsClear(sz, w, job, v) && !SendsWhole(sz, w, v) && !SendsSplit(sz, w, v) ==> r.rings == w.rings)
  {
    hide TakeTail;
    TakeTailIff(w, v.worker);
    if SendsSplit(sz, w, v) {
      var q := w.rings[WanRing(v.wan, v.slot)];
      var head := Packet(job.addr, v.l1, true, v.wan, job.port);
      var rest := Packet(TailFrame(w, v.worker), v.l2, true, v.wan, 0);
      assert q + [head] + [rest] == q + [head, rest];
    }
  }

  /** The rings with the packets appended to the one of this WAN and slot. */
  function Appended(w: World, v: Egress, ps: seq<Packet>): (rings: seq<seq<Packet>>)
    requires WorldOk(w) && v.slot < WORKERS && 0 <= v.wan < MAX_PORTS
  {
    var k := v.wan * WORKERS + v.slot;
    assert k == WanRing(v.wan, v.slot);
    w.rings[k := w.rings[k] + ps]
  }

  /* ---- the receive side, through the reorder buffer ---- */

  /** The frames of the process and the reorder buffer of every crypto worker; they share the pool. */
  datatype Node = Node(w: World, rs: seq<Worker>)

  function OnFrame(f: Frame): Mark {
    (d: Datagram) => f(d.item.addr)
  }

  /** Frames held in the reorder buffers. */
  function HeldTally(rs: seq<Worker>, f: Frame): nat {
    if |rs| == 0 then 0 else HeldTally(rs[..|rs| - 1], f) + SumCopies(rs[|rs| - 1].entries, OnFrame(f))
  }

  lemma {:induction false} HeldTallyUpdate(rs: seq<Worker>, k: nat, r: Worker, f: Frame)
    requires k < |rs|
    ensures HeldTally(rs[k := r], f) + SumCopies(rs[k].entries, OnFrame(f))
         == HeldTally(rs, f) + SumCopies(r.entries, OnFrame(f))
  {
    hide SumCopies;
    var n := |rs| - 1;
    if k == n {
      assert rs[k := r][..n] == rs[..n];
    } else {
      assert rs[k := r][..n] == rs[..n][k := r];
      HeldTallyUpdate(rs[..n], k, r, f);
    }
  }

  /** Frames in the process, with the kernel, and held by the reorder buffers. */
  function NodeTally(n: Node, f: Frame): nat {
    Tally(n.w, f) + HeldTally(n.rs, f)
  }

  /** The callbacks' work for one event: an accepted datagram is queued to a local port (or freed when
      that ring is full), any other is freed. `route` gives the ring. */
  function Dispose(sz: Sizes, w: World, ev: Event, route: Event -> nat): (v: World)
    requires WorldOk(w) && forall e :: route(e) < RINGS
    ensures WorldOk(v)
  {
    if ev.Reset? then w
    else if Accepted(ev) then
      RingPush(sz, w, route(ev), Packet(ev.d.item.addr, ev.d.item.len, false, 0, 0))
    else Free(sz, w, ev.d.item.addr)
  }

  function DisposeAll(sz: Sizes, w: World, evs: seq<Event>, route: Event -> nat): (v: World)
    requires WorldOk(w) && forall e :: route(e) < RINGS
    ensures WorldOk(v)
  {
    if |evs| == 0 then w
    else Dispose(sz, DisposeAll(sz, w, evs[..|evs| - 1], route), evs[|evs| - 1], route)
  }

  lemma {:induction false} DisposeAllKeeps(sz: Sizes, w: World, evs: seq<Event>, route: Event -> nat, f: Frame)
    requires WorldOk(w) && forall e :: route(e) < RINGS
    requires Fits(sz, w, Disposed(evs, OnFrame(ALL)))
    ensures Tally(DisposeAll(sz, w, evs, route), f) == Tally(w, f) + Disposed(evs, OnFrame(f))
  {
    hide Tally, RingPush, Free;
    if |evs| > 0 {
      var init, ev := evs[..|evs| - 1], evs[|evs| - 1];
      DisposeAllKeeps(sz, w, init, route, f);
      DisposeAllKeeps(sz, w, init, route, ALL);
      var v := DisposeAll(sz, w, init, route);
      if !ev.Reset? {
        if Accepted(ev) {
          RingPushKeeps(sz, v, route(ev), Packet(ev.d.item.addr, ev.d.item.len, false, 0, 0), f);
        } else {
          FreeKeeps(sz, v, ev.d.item.addr, f);
        }
      }
    }
  }

  lemma {:induction false} DisposedConcat(t: seq<Event>, evs: seq<Event>, x: Mark)
    ensures Disposed(t + evs, x) == Disposed(t, x) + Disposed(evs, x)
  {
    if |evs| == 0 {
      assert t + evs == t;
    } else {
      assert (t + evs)[..|t + evs| - 1] == t + evs[..|evs| - 1];
      DisposedConcat(t, evs[..|evs| - 1], x);
    }
  }

  predicate NodeShape(n: Node) {
    WorldOk(n.w) && |n.rs| == WORKERS && forall k :: 0 <= k < WORKERS ==> TableShape(n.rs[k])
  }

  /** One environment per worker: they share the configuration, but not the answers of the callbacks. */
  ghost predicate NodeOk(envs: seq<Env>, n: Node) {
    && NodeShape(n) && |envs| == WORKERS
    && forall k :: 0 <= k < WORKERS ==> WorkerOk(n.rs[k]) && n.rs[k].total <= envs[k].cap
  }

  /** A reorder call of worker `k` with the callbacks it makes. */
  function NodeStep(sz: Sizes, env: Env, n: Node, k: nat, op: Op, route: Event -> nat): Outcome<Node>
    requires NodeShape(n) && k < WORKERS && OpOk(op) && forall e :: route(e) < RINGS
  {
    match Step(env, n.rs[k], op)
    case Hangs => Hangs
    case Returns(r) =>
      var evs := if |n.rs[k].trace| <= |r.trace| then r.trace[|n.rs[k].trace|..] else [];
      Returns(Node(DisposeAll(sz, n.w, evs, route), n.rs[k := r]))
  }

  function OpFrame(op: Op, f: Frame): nat {
    if op.OpSubmit? then One1(op.d.item.addr, f) else 0
  }

  /** Main ingress theorem: submit, collection and reset of any worker's reorder buffer, with all the
      callbacks they make, dispose of the submitted frame exactly once and lose or double no held frame. */
  lemma NodeStepKeeps(sz: Sizes, envs: seq<Env>, n: Node, k: nat, op: Op, route: Event -> nat, f: Frame)
    requires NodeOk(envs, n) && k < WORKERS && OpOk(op) && forall e :: route(e) < RINGS
    requires NodeTally(n, ALL) + OpFrame(op, ALL) <= sz.poolCap
    ensures var m := NodeStep(sz, envs[k], n, k, op, route);
            && (m.Returns? <==> Step(envs[k], n.rs[k], op).Returns?)
            && (m.Returns? ==> NodeOk(envs, m.v) && NodeTally(m.v, f) == NodeTally(n, f) + OpFrame(op, f))
  {
    hide Tally, Step, SumCopies, Disposed, WorkerOk, TableShape, DisposeAll, HeldTally;
    var s := Step(envs[k], n.rs[k], op);
    if s.Returns? {
      StepKeeps(envs[k], n.rs[k], op, OnFrame(f));
      StepKeeps(envs[k], n.rs[k], op, OnFrame(ALL));
      var evs := s.v.trace[|n.rs[k].trace|..];
      assert s.v.trace == n.rs[k].trace + evs;
      DisposedConcat(n.rs[k].trace, evs, OnFrame(f));
      DisposedConcat(n.rs[k].trace, evs, OnFrame(ALL));
      HeldTallyUpdate(n.rs, k, s.v, f);
      HeldTallyUpdate(n.rs, k, s.v, ALL);
      DisposeAllKeeps(sz, n.w, evs, route, f);
    }
  }

  /** What the gates decide about one decrypted packet that carries no sequence number. */
  function ForwardPlain(sz: Sizes, w: World, job: Packet, gateOk: bool, portFound: bool, ring: nat): (r: World)
    requires WorldOk(w) && ring < RINGS
    ensures WorldOk(r)
  {
    if gateOk && portFound then RingPush(sz, w, ring, job.(toWan := false)) else Free(sz, w, job.addr)
  }

  lemma ForwardPlainKeeps(sz: Sizes, w: World, job: Packet, gateOk: bool, portFound: bool, ring: nat, f: Frame)
    requires WorldOk(w) && ring < RINGS && Fits(sz, w, 1)
    ensures Tally(ForwardPlain(sz, w, job, gateOk, portFound, ring), f) == Tally(w, f) + One1(job.addr, f)
  {
    hide Tally, RingPush, Free;
    RingPushKeeps(sz, w, ring, job.(toWan := false), f);
    FreeKeeps(sz, w, job.addr, f);
  }

  /** On the receive side a packet reaches a local port exactly when the gates let it in, a port is found, and it
      fits; no other ring changes. */
  lemma ForwardPlainSends(sz: Sizes, w: World, job: Packet, gateOk: bool, portFound: bool, ring: nat)
    requires WorldOk(w) && ring < RINGS
    ensures ForwardPlain(sz, w, job, gateOk, portFound, ring).rings
         == if gateOk && portFound && job.len <= sz.frameSize && |w.rings[ring]| < sz.ringCap
            then w.rings[ring := w.rings[ring] + [Packet(job.addr, job.len, false, job.wan, job.port)]]
            else w.rings
  {
  }

  /** An event of the reorder buffer reaches a local port exactly when it hands over a datagram, the port takes it
      and it fits. */
  lemma DisposeSends(sz: Sizes, w: World, ev: Event, route: Event -> nat)
    requires WorldOk(w) && forall e :: route(e) < RINGS
    ensures Dispose(sz, w, ev, route).rings
         == if (ev.Emit? || ev.Pass?) && ev.ok && ev.d.item.len <= sz.frameSize && |w.rings[route(ev)]| < sz.ringCap
            then w.rings[route(ev) := w.rings[route(ev)] + [Packet(ev.d.item.addr, ev.d.item.len, false, 0, 0)]]
            else w.rings
  {
  }

  /* ---- whole runs ---- */

  /** Everything that moves frames: the kernel takes idle frames, hands over a received one to egress, to
      the plain ingress path or to the reorder buffer of worker `k`, drains a ring, and returns sent frames. */
  datatype Move =
    | Refill(n: nat)
    | ReceiveLan(i: nat, job: Packet, v: Egress)
    | ReceiveWan(i: nat, job: Packet, gateOk: bool, portFound: bool, ring: nat)
    | ReceiveUdp(i: nat, k: nat, d: Datagram, now: nat)
    | Collect(k: nat, now: nat)
    | ResetReorder(k: nat)
    | Transmit(ring: nat)
    | Complete(i: nat)

  predicate MoveOk(sz: Sizes, n: Node, m: Move) {
    match m
    case Refill(_) => true
    case ReceiveLan(i, job, v) =>
      && i < |n.w.outside| && n.w.outside[i] == job.addr
      && v.slot < WORKERS && v.worker < WORKERS && sz.wanCount <= MAX_PORTS
    case ReceiveWan(i, job, _, _, ring) => i < |n.w.outside| && n.w.outside[i] == job.addr && ring < RINGS
    case ReceiveUdp(i, k, d, _) =>
      i < |n.w.outside| && n.w.outside[i] == d.item.addr && d.sn < Serial.M32 && k < WORKERS
    case Collect(k, _) => k < WORKERS
    case ResetReorder(k) => k < WORKERS
    case Transmit(ring) => ring < RINGS && ring < |n.w.rings| && |n.w.rings[ring]| > 0
    case Complete(i) => i < |n.w.outside|
  }

  function TakeOutside(w: World, i: nat): World
    requires i < |w.outside|
  {
    w.(outside := w.outside[..i] + w.outside[i + 1..])
  }

  function DoMove(sz: Sizes, envs: seq<Env>, n: Node, m: Move, route: Event -> nat): Outcome<Node>
    requires NodeShape(n) && |envs| == WORKERS && MoveOk(sz, n, m) && forall e :: route(e) < RINGS
  {
    match m
    case Refill(k) =>
      var got := if k <= |n.w.pool| then k else |n.w.pool|;
      Returns(n.(w := n.w.(pool := n.w.pool[got..], outside := n.w.outside + n.w.pool[..got])))
    case ReceiveLan(i, job, v) => Returns(n.(w := ProcessLocal(sz, TakeOutside(n.w, i), job, v)))
    case ReceiveWan(i, job, gateOk, portFound, ring) =>
      Returns(n.(w := ForwardPlain(sz, TakeOutside(n.w, i), job, gateOk, portFound, ring)))
    case ReceiveUdp(i, k, d, now) =>
      NodeStep(sz, envs[k], n.(w := TakeOutside(n.w, i)), k, OpSubmit(d, now), route)
    case Collect(k, now) => NodeStep(sz, envs[k], n, k, OpGc(now), route)
    case ResetReorder(k) => NodeStep(sz, envs[k], n, k, OpReset, route)
    case Transmit(ring) =>
      Returns(n.(w := n.w.(rings := n.w.rings[ring := n.w.rings[ring][1..]],
                           outside := n.w.outside + [n.w.rings[ring][0].addr])))
    case Complete(i) => Returns(n.(w := Free(sz, TakeOutside(n.w, i), n.w.outside[i])))
  }

  /** Main conservation theorem for one move: the number of frames of any class stays the same, so no
      frame is ever lost, doubled or truncated away by a full pool. */
  lemma MoveKeeps(sz: Sizes, envs: seq<Env>, n: Node, m: Move, route: Event -> nat, f: Frame)
    requires NodeOk(envs, n) && MoveOk(sz, n, m) && forall e :: route(e) < RINGS
    requires NodeTally(n, ALL) <= sz.poolCap
    ensures var r := DoMove(sz, envs, n, m, route);
            r.Returns? ==> NodeOk(envs, r.v) && NodeTally(r.v, f) == NodeTally(n, f)
  {
    hide Occ, OccAll, OccRings, OccPk, HeldTally, ProcessLocal, ForwardPlain, NodeStep, WorkerOk, TableShape;
    match m {
      case Refill(k) =>
        var got := if k <= |n.w.pool| then k else |n.w.pool|;
        OccSplit(n.w.pool, got, f);
        OccConcat(n.w.outside, n.w.pool[..got], f);
      case ReceiveLan(i, job, v) =>
        OccRemove(n.w.outside, i, f);
        OccRemove(n.w.outside, i, ALL);
        ProcessLocalKeeps(sz, TakeOutside(n.w, i), job, v, f);
      case ReceiveWan(i, job, gateOk, portFound, ring) =>
        OccRemove(n.w.outside, i, f);
        OccRemove(n.w.outside, i, ALL);
        ForwardPlainKeeps(sz, TakeOutside(n.w, i), job, gateOk, portFound, ring, f);
      case ReceiveUdp(i, k, d, now) =>
        OccRemove(n.w.outside, i, f);
        OccRemove(n.w.outside, i, ALL);
        NodeStepKeeps(sz, envs, n.(w := TakeOutside(n.w, i)), k, OpSubmit(d, now), route, f);
      case Collect(k, now) => NodeStepKeeps(sz, envs, n, k, OpGc(now), route, f);
      case ResetReorder(k) => NodeStepKeeps(sz, envs, n, k, OpReset, route, f);
      case Transmit(ring) =>
        OccPkPop(n.w.rings[ring], f);
        OccRingsUpdate(n.w.rings, ring, n.w.rings[ring][1..], f);
        OccAppend(n.w.outside, n.w.rings[ring][0].addr, f);
      case Complete(i) =>
        OccRemove(n.w.outside, i, f);
        OccRemove(n.w.outside, i, ALL);
        FreeKeeps(sz, TakeOutside(n.w, i), n.w.outside[i], f);
    }
  }

  /** A run: each state follows from the one before by some move that returned. */
  ghost predicate Moved(sz: Sizes, envs: seq<Env>, route: Event -> nat, a: Node, b: Node) {
    && NodeShape(a) && |envs| == WORKERS && (forall e :: route(e) < RINGS)
    && exists m :: MoveOk(sz, a, m) && DoMove(sz, envs, a, m, route) == Returns(b)
  }

  ghost predicate FrameRun(sz: Sizes, envs: seq<Env>, route: Event -> nat, ns: seq<Node>) {
    forall i :: 0 <= i < |ns| - 1 ==> Moved(sz, envs, route, ns[i], ns[i + 1])
  }

  /** Main run theorem: from a state in which every frame of class `f` is accounted for, every later state
      of every run accounts for exactly the same number; for a single frame that number is one, so it
      is always in exactly one place. */
  lemma {:induction false} FramesConserved(sz: Sizes, envs: seq<Env>, route: Event -> nat, ns: seq<Node>, i: nat,
                                           f: Frame)
    requires i < |ns| && NodeOk(envs, ns[0]) && NodeTally(ns[0], ALL) <= sz.poolCap
    requires FrameRun(sz, envs, route, ns)
    ensures NodeOk(envs, ns[i]) && NodeTally(ns[i], f) == NodeTally(ns[0], f)
    ensures |ns[i].w.pool| <= NodeTally(ns[0], ALL)
  {
    hide NodeOk, NodeTally, DoMove, MoveOk;
    if i > 0 {
      FramesConserved(sz, envs, route, ns, i - 1, f);
      FramesConserved(sz, envs, route, ns, i - 1, ALL);
      assert Moved(sz, envs, route, ns[i - 1], ns[i - 1 + 1]);
      var m :| MoveOk(sz, ns[i - 1], m) && DoMove(sz, envs, ns[i - 1], m, route) == Returns(ns[i]);
      MoveKeeps(sz, envs, ns[i - 1], m, route, f);
      MoveKeeps(sz, envs, ns[i - 1], m, route, ALL);
    }
    PoolBound(ns[i]);
  }

  lemma PoolBound(n: Node)
    ensures |n.w.pool| <= NodeTally(n, ALL)
  {
    hide Occ, OccAll, OccRings, HeldTally;
    OccLength(n.w.pool);
  }
}
