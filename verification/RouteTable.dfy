/** The sticky route table: a flow's worker and TX slot, chosen once by load, and its per-direction
    sequence counters. Entries are never evicted. */
module RouteTable {
  import opened Helpers
  import opened Serial

  const SETS: nat := 8192
  const WAYS: nat := 8
  const SIZE: nat := 65536
  const WORKERS: nat := 6
  const TX_SLOTS: nat := 4

  const TCP: nat := 6
  const UDP: nat := 17

  datatype Key = Key(ipA: nat, ipB: nat, portA: nat, portB: nat, proto: nat)

  /** A packet's addresses in host order, its ports and its protocol. */
  datatype Packet = Packet(srcIp: nat, dstIp: nat, srcPort: nat, dstPort: nat, proto: nat)

  function Reply(p: Packet): Packet {
    Packet(p.dstIp, p.srcIp, p.dstPort, p.srcPort, p.proto)
  }

  predicate Swapped(p: Packet) {
    p.srcIp > p.dstIp || (p.srcIp == p.dstIp && p.srcPort > p.dstPort)
  }

  function KeyOf(p: Packet): Key {
    if Swapped(p) then Key(p.dstIp, p.srcIp, p.dstPort, p.srcPort, p.proto)
    else Key(p.srcIp, p.dstIp, p.srcPort, p.dstPort, p.proto)
  }

  function DirOf(p: Packet): (d: nat)
    ensures d <= 1
  {
    if Swapped(p) then 1 else 0
  }

  /** Two packets share a key exactly when they are of the same conversation; within it the direction
      tells them apart. */
  lemma CanonicalKey(p: Packet, q: Packet)
    ensures KeyOf(p) == KeyOf(q) <==> q == p || q == Reply(p)
    ensures KeyOf(p) == KeyOf(q) && DirOf(p) == DirOf(q) ==> p == q
    ensures p != Reply(p) ==> DirOf(Reply(p)) == 1 - DirOf(p)
  {
  }

  /** An entry with the number of UDP packets sent so far in each direction. */
  datatype Slot = Vacant | Entry(key: Key, worker: nat, tx: nat, sent0: nat, sent1: nat)

  datatype Table = Table(slots: seq<Slot>, workerLoad: seq<nat>, txLoad: seq<nat>, workerRr: nat, txRr: nat)

  datatype Route = Route(worker: nat, tx: nat)

  /* ---- choosing by load ---- */

  /** The index `off` steps after the cursor; the addition wraps at 32 bits. */
  function Turn(start: nat, off: nat, n: nat): (i: nat)
    requires n > 0
    ensures i < n
  {
    Wire(start + off) % n
  }

  function LeastFrom(load: seq<nat>, n: nat, start: nat, off: nat, best: int): (b: int)
    requires 0 < n <= |load| && off <= n && -1 <= best < n
    ensures -1 <= b < n
    decreases n - off
  {
    if off == n then best
    else
      var i := Turn(start, off, n);
      LeastFrom(load, n, start, off + 1, if best < 0 || load[i] < load[best] then i else best)
  }

  /** `dp_route_least_loaded` over the first `n` counters. */
  function LeastLoaded(load: seq<nat>, n: nat, start: nat): (b: nat)
    requires 0 < n <= |load|
    ensures b < n
  {
    var b := LeastFrom(load, n, start, 0, -1);
    if b < 0 then 0 else b
  }

  method PickLeastLoaded(load: seq<nat>, n: nat, start: nat) returns (best: nat)
    requires 0 < n <= |load|
    ensures best == LeastLoaded(load, n, start)
  {
    hide Turn;
    var b := -1;
    for off := 0 to n
      invariant -1 <= b < n
      invariant LeastFrom(load, n, start, off, b) == LeastFrom(load, n, start, 0, -1)
    {
      var i := Turn(start, off, n);
      if b < 0 || load[i] < load[b] {
        b := i;
      }
    }
    best := if b < 0 then 0 else b;
  }

  lemma {:induction false} LeastFromMin(load: seq<nat>, n: nat, start: nat, off: nat, best: int)
    requires 0 < n <= |load| && off <= n && -1 <= best < n
    requires off > 0 ==> best >= 0
    requires forall k :: 0 <= k < off ==> load[best] <= load[Turn(start, k, n)]
    ensures LeastFrom(load, n, start, off, best) >= 0
    ensures forall k :: 0 <= k < n ==> load[LeastFrom(load, n, start, off, best)] <= load[Turn(start, k, n)]
    decreases n - off
  {
    hide Turn;
    if off < n {
      var i := Turn(start, off, n);
      LeastFromMin(load, n, start, off + 1, if best < 0 || load[i] < load[best] then i else best);
    }
  }

  /** The scan visits every counter as long as the cursor does not wrap during it. */
  lemma TurnCovers(start: nat, n: nat, j: nat) returns (k: nat)
    requires j < n && start + n <= M32
    ensures k < n && Turn(start, k, n) == j
  {
    var q, t := start / n, start % n;
    assert start == q * n + t;
    k := if j >= t then j - t else j - t + n;
    assert start + k == (if j >= t then q else q + 1) * n + j;
    ModUnique(start + k, n, if j >= t then q else q + 1, j);
    WireSmall(start + k);
  }

  lemma LeastLoadedMin(load: seq<nat>, n: nat, start: nat, j: nat)
    requires 0 < n <= |load| && j < n && start + n <= M32
    ensures load[LeastLoaded(load, n, start)] <= load[j]
  {
    hide Turn, LeastFrom;
    LeastFromMin(load, n, start, 0, -1);
    var k := TurnCovers(start, n, j);
    assert load[LeastLoaded(load, n, start)] <= load[Turn(start, k, n)];
  }

  /** Loads of the slots in use differ by at most one. */
  predicate Even(load: seq<nat>, n: nat)
    requires n <= |load|
  {
    forall i, j :: 0 <= i < n && 0 <= j < n ==> load[i] <= load[j] + 1
  }

  lemma AddKeepsEven(load: seq<nat>, n: nat, start: nat)
    requires 0 < n <= |load| && start + n <= M32 && Even(load, n)
    ensures var b := LeastLoaded(load, n, start); Even(load[b := load[b] + 1], n)
  {
    hide LeastLoaded;
    forall j | 0 <= j < n ensures load[LeastLoaded(load, n, start)] <= load[j] {
      LeastLoadedMin(load, n, start, j);
    }
  }

  /* ---- lookup and insertion ---- */

  function Base(hash: Key -> nat, key: Key): (b: nat)
    ensures b + WAYS <= SIZE
  {
    (hash(key) % SETS) * WAYS
  }

  predicate Has(s: Slot, key: Key) {
    s.Entry? && s.key == key
  }

  /** The first way from `way` on that holds the key, or -1. */
  function FindKey(slots: seq<Slot>, base: nat, way: nat, key: Key): (i: int)
    requires base + WAYS <= |slots| && way <= WAYS
    ensures i == -1 || (base + way <= i < base + WAYS && Has(slots[i], key))
    ensures i == -1 ==> forall j :: base + way <= j < base + WAYS ==> !Has(slots[j], key)
    decreases WAYS - way
  {
    if way == WAYS then -1
    else if Has(slots[base + way], key) then base + way
    else FindKey(slots, base, way + 1, key)
  }

  /** The first vacant way, or -1. */
  function FindVacant(slots: seq<Slot>, base: nat, way: nat): (i: int)
    requires base + WAYS <= |slots| && way <= WAYS
    ensures i == -1 || (base + way <= i < base + WAYS && slots[i].Vacant?)
    ensures i == -1 ==> forall j :: base + way <= j < base + WAYS ==> slots[j].Entry?
    decreases WAYS - way
  {
    if way == WAYS then -1
    else if slots[base + way].Vacant? then base + way
    else FindVacant(slots, base, way + 1)
  }

  predicate Shape(t: Table) {
    |t.slots| == SIZE && |t.workerLoad| == WORKERS && |t.txLoad| == TX_SLOTS
  }

  function Fallback(hash: Key -> nat, key: Key, active: nat): Route
    requires 0 < active
  {
    Route(hash(key) % WORKERS, hash(key) % active)
  }

  /** The route of a flow: its entry's if it has one, a new entry's, or the hash when the set is full. */
  function Get(hash: Key -> nat, t: Table, key: Key, hint: int, active: nat): (r: (Table, Route))
    requires Shape(t) && 0 < active <= TX_SLOTS
    ensures Shape(r.0)
  {
    var base := Base(hash, key);
    var hit := FindKey(t.slots, base, 0, key);
    if hit >= 0 then (t, Route(t.slots[hit].worker, t.slots[hit].tx))
    else
      var empty := FindVacant(t.slots, base, 0);
      if empty < 0 then (t, Fallback(hash, key, active))
      else
        var hinted := 0 <= hint < WORKERS;
        var w := if hinted then hint else LeastLoaded(t.workerLoad, WORKERS, t.workerRr);
        var x := LeastLoaded(t.txLoad, active, t.txRr);
        (Table(t.slots[empty := Entry(key, w, x, 0, 0)],
               t.workerLoad[w := t.workerLoad[w] + 1], t.txLoad[x := t.txLoad[x] + 1],
               if hinted then t.workerRr else Wire(t.workerRr + 1), Wire(t.txRr + 1)),
         Route(w, x))
  }

  function OnWorker(w: nat): Slot -> bool { (s: Slot) => s.Entry? && s.worker == w }
  function OnTx(x: nat): Slot -> bool { (s: Slot) => s.Entry? && s.tx == x }
  function InUse(): Slot -> bool { (s: Slot) => s.Entry? }

  /** One entry per key, in the key's set; the load counters count the entries; the TX cursor counts the
      insertions and the worker cursor at most those, so neither wraps; loads are even over the `active` slots. */
  ghost predicate TableOk(hash: Key -> nat, t: Table, active: nat) {
    && Shape(t) && 0 < active <= TX_SLOTS
    && (forall i :: 0 <= i < SIZE && t.slots[i].Entry? ==>
          Base(hash, t.slots[i].key) <= i < Base(hash, t.slots[i].key) + WAYS
          && t.slots[i].worker < WORKERS && t.slots[i].tx < TX_SLOTS)
    && (forall i, j :: 0 <= i < j < SIZE && t.slots[i].Entry? && t.slots[j].Entry? ==> t.slots[i].key != t.slots[j].key)
    && (forall w :: 0 <= w < WORKERS ==> t.workerLoad[w] == CountIf(t.slots, OnWorker(w)))
    && (forall x :: 0 <= x < TX_SLOTS ==> t.txLoad[x] == CountIf(t.slots, OnTx(x)))
    && t.txRr == CountIf(t.slots, InUse()) && t.workerRr <= t.txRr
    && Even(t.txLoad, active)
  }

  lemma TableShape(hash: Key -> nat, t: Table, active: nat)
    requires TableOk(hash, t, active)
    ensures Shape(t) && 0 < active <= TX_SLOTS
  {
  }

  /** An entry is found by its key, and only there. */
  lemma FindUnique(hash: Key -> nat, t: Table, active: nat, i: nat)
    requires TableOk(hash, t, active) && i < SIZE && t.slots[i].Entry?
    ensures FindKey(t.slots, Base(hash, t.slots[i].key), 0, t.slots[i].key) == i
  {
    hide Base, CountIf, Even;
  }

  /** A lookup keeps the table's invariants, whatever the hint. */
  lemma GetKeeps(hash: Key -> nat, t: Table, key: Key, hint: int, active: nat)
    requires TableOk(hash, t, active)
    ensures TableOk(hash, Get(hash, t, key, hint, active).0, active)
  {
    hide Base, CountIf, LeastLoaded, Even;
    var base := Base(hash, key);
    var empty := FindVacant(t.slots, base, 0);
    if FindKey(t.slots, base, 0, key) < 0 && empty >= 0 {
      var r := Get(hash, t, key, hint, active).0;
      var e := r.slots[empty];
      CountUpdate(t.slots, empty, e, InUse());
      WireSmall(t.txRr + 1);
      AddKeepsEven(t.txLoad, active, t.txRr);
      forall w: nat | w < WORKERS ensures r.workerLoad[w] == CountIf(r.slots, OnWorker(w)) {
        CountUpdate(t.slots, empty, e, OnWorker(w));
      }
      forall x: nat | x < TX_SLOTS ensures r.txLoad[x] == CountIf(r.slots, OnTx(x)) {
        CountUpdate(t.slots, empty, e, OnTx(x));
      }
      GetKeys(hash, t, key, hint, active);
    }
  }

  lemma GetKeys(hash: Key -> nat, t: Table, key: Key, hint: int, active: nat)
    requires TableOk(hash, t, active)
    ensures var r := Get(hash, t, key, hint, active).0;
            forall i, j :: 0 <= i < j < SIZE && r.slots[i].Entry? && r.slots[j].Entry? ==>
              r.slots[i].key != r.slots[j].key
  {
    hide Base, CountIf, LeastLoaded, Even;
    var base := Base(hash, key);
    if FindKey(t.slots, base, 0, key) < 0 {
      forall i | 0 <= i < SIZE && t.slots[i].Entry? ensures t.slots[i].key != key {
        assert Base(hash, t.slots[i].key) <= i < Base(hash, t.slots[i].key) + WAYS;
        assert base <= i < base + WAYS ==> !Has(t.slots[i], key);
      }
    }
  }

  /** Where a flow that is not in the table goes. If its set has a vacant way, it gets an entry there with no
      number sent, on the worker the caller hints at if there is one and otherwise on one of the least loaded
      workers, and on one of the least loaded active TX slots, both counted once more; everything else stays. If
      its set is full it goes by its hash, and nothing changes. */
  lemma NewFlowChoice(hash: Key -> nat, t: Table, key: Key, hint: int, active: nat)
    requires TableOk(hash, t, active) && FindKey(t.slots, Base(hash, key), 0, key) < 0
    ensures var (r, route) := Get(hash, t, key, hint, active);
            if forall j :: Base(hash, key) <= j < Base(hash, key) + WAYS ==> t.slots[j].Entry? then
              r == t && route == Route(hash(key) % WORKERS, hash(key) % active)
            else
              && route.worker < WORKERS && route.tx < active
              && (if 0 <= hint < WORKERS then route.worker == hint
                  else forall w :: 0 <= w < WORKERS ==> t.workerLoad[route.worker] <= t.workerLoad[w])
              && (forall x :: 0 <= x < active ==> t.txLoad[route.tx] <= t.txLoad[x])
              && r.workerLoad == t.workerLoad[route.worker := t.workerLoad[route.worker] + 1]
              && r.txLoad == t.txLoad[route.tx := t.txLoad[route.tx] + 1]
              && exists i :: Base(hash, key) <= i < Base(hash, key) + WAYS && t.slots[i].Vacant?
                             && r.slots == t.slots[i := Entry(key, route.worker, route.tx, 0, 0)]
  {
    hide Base, LeastLoaded, TableOk;
    TableShape(hash, t, active);
    LeastOnes(hash, t, active);
  }

  lemma LeastOnes(hash: Key -> nat, t: Table, active: nat)
    requires TableOk(hash, t, active)
    ensures forall w :: 0 <= w < WORKERS ==>
              t.workerLoad[LeastLoaded(t.workerLoad, WORKERS, t.workerRr)] <= t.workerLoad[w]
    ensures forall x :: 0 <= x < active ==> t.txLoad[LeastLoaded(t.txLoad, active, t.txRr)] <= t.txLoad[x]
  {
    hide Base, LeastLoaded, CountIf, Even;
    CountBound(t.slots, InUse());
    SizeBound();
    forall w | 0 <= w < WORKERS
      ensures t.workerLoad[LeastLoaded(t.workerLoad, WORKERS, t.workerRr)] <= t.workerLoad[w]
    {
      LeastLoadedMin(t.workerLoad, WORKERS, t.workerRr, w);
    }
    forall x | 0 <= x < active ensures t.txLoad[LeastLoaded(t.txLoad, active, t.txRr)] <= t.txLoad[x] {
      LeastLoadedMin(t.txLoad, active, t.txRr, x);
    }
  }

  lemma SizeBound()
    ensures SIZE + WORKERS <= M32 && SIZE + TX_SLOTS <= M32
  {
  }

  /** Nothing is ever moved: an entry stays where it is, with its worker and slot. */
  lemma GetMonotone(hash: Key -> nat, t: Table, key: Key, hint: int, active: nat, i: nat)
    requires Shape(t) && 0 < active <= TX_SLOTS && i < SIZE && t.slots[i].Entry?
    ensures Get(hash, t, key, hint, active).0.slots[i] == t.slots[i]
  {
  }

  /** Looking a flow up twice, in either direction and with any hint, gives the same route; in between
      it has its own entry unless its set is full. */
  lemma GetSticky(hash: Key -> nat, t: Table, p: Packet, q: Packet, hint: int, hint': int, active: nat)
    requires Shape(t) && 0 < active <= TX_SLOTS && (q == p || q == Reply(p))
    ensures var (t1, r) := Get(hash, t, KeyOf(p), hint, active);
            Get(hash, t1, KeyOf(q), hint', active) == (t1, r)
  {
    hide Base, LeastLoaded;
    CanonicalKey(p, q);
  }

  /* ---- sequence numbers ---- */

  function Sent(s: Slot, dir: nat): nat
    requires s.Entry?
  {
    if dir == 0 then s.sent0 else s.sent1
  }

  function Bump(s: Slot, dir: nat): Slot
    requires s.Entry?
  {
    if dir == 0 then s.(sent0 := s.sent0 + 1) else s.(sent1 := s.sent1 + 1)
  }

  /** Per-thread counters for flows whose set is full: key and the two next numbers. */
  datatype Spill = Spill(valid: bool, key: Key, next0: nat, next1: nat, stamp: nat)

  datatype Number = FromTable(sn: nat) | FromSpill | Refused

  /** `dp_udp_next_tx_seq` up to the fallback: the next number of the packet's direction, entering the
      flow first if need be; `FromSpill` when the set is full. Only UDP packets are numbered. */
  function NextSeq(hash: Key -> nat, t: Table, p: Packet, worker: int, active: nat): (r: (Table, Number))
    requires Shape(t) && 0 < active <= TX_SLOTS
    ensures Shape(r.0)
  {
    var key := KeyOf(p);
    var t1 := Get(hash, t, key, worker, active).0;
    var i := FindKey(t1.slots, Base(hash, key), 0, key);
    if p.proto != UDP then (t, Refused)
    else if i >= 0 then
      (t1.(slots := t1.slots[i := Bump(t1.slots[i], DirOf(p))]), FromTable(Wire(Sent(t1.slots[i], DirOf(p)))))
    else (t1, FromSpill)
  }

  /** Only UDP packets draw numbers: any other is refused and changes nothing. */
  lemma OnlyUdpNumbered(hash: Key -> nat, t: Table, p: Packet, worker: int, active: nat)
    requires Shape(t) && 0 < active <= TX_SLOTS
    ensures NextSeq(hash, t, p, worker, active).1.Refused? <==> p.proto != 17
    ensures p.proto != 17 ==> NextSeq(hash, t, p, worker, active).0 == t
  {
    hide Get, FindKey, Base;
  }

  /** Calls of any thread, in any order. A packet that is neither TCP nor UDP has no key and leaves the
      table alone. */
  datatype Call = Lookup(p: Packet, hint: int) | Number(p: Packet, worker: int)

  function Do(hash: Key -> nat, t: Table, c: Call, active: nat): (r: Table)
    requires Shape(t) && 0 < active <= TX_SLOTS
    ensures Shape(r)
  {
    match c
    case Lookup(p, hint) => if p.proto == TCP || p.proto == UDP then Get(hash, t, KeyOf(p), hint, active).0 else t
    case Number(p, worker) => NextSeq(hash, t, p, worker, active).0
  }

  lemma NextSeqKeeps(hash: Key -> nat, t: Table, p: Packet, worker: int, active: nat)
    requires TableOk(hash, t, active)
    ensures TableOk(hash, NextSeq(hash, t, p, worker, active).0, active)
  {
    hide Base, CountIf, Get, Even;
    var key := KeyOf(p);
    GetKeeps(hash, t, key, worker, active);
    var t1 := Get(hash, t, key, worker, active).0;
    var i := FindKey(t1.slots, Base(hash, key), 0, key);
    if i >= 0 {
      var r := t1.slots[i := Bump(t1.slots[i], DirOf(p))];
      CountSame(t1.slots, r, InUse());
      forall w: nat | w < WORKERS ensures CountIf(r, OnWorker(w)) == CountIf(t1.slots, OnWorker(w)) {
        CountSame(t1.slots, r, OnWorker(w));
      }
      forall x: nat | x < TX_SLOTS ensures CountIf(r, OnTx(x)) == CountIf(t1.slots, OnTx(x)) {
        CountSame(t1.slots, r, OnTx(x));
      }
    }
  }

  function After(hash: Key -> nat, t: Table, cs: seq<Call>, active: nat): (r: Table)
    requires Shape(t) && 0 < active <= TX_SLOTS
    ensures Shape(r)
  {
    if |cs| == 0 then t else Do(hash, After(hash, t, cs[..|cs| - 1], active), cs[|cs| - 1], active)
  }

  /** How many numbers the packets of `p`'s direction have asked for. */
  function Asked(cs: seq<Call>, p: Packet): nat {
    if |cs| == 0 then 0
    else Asked(cs[..|cs| - 1], p)
         + (var c := cs[|cs| - 1]; if c.Number? && KeyOf(c.p) == KeyOf(p) && DirOf(c.p) == DirOf(p) then 1 else 0)
  }

  lemma {:induction false} AfterOk(hash: Key -> nat, t: Table, cs: seq<Call>, active: nat)
    requires TableOk(hash, t, active)
    ensures TableOk(hash, After(hash, t, cs, active), active)
  {
    hide Base, CountIf, Even, Get, NextSeq;
    if |cs| > 0 {
      AfterOk(hash, t, cs[..|cs| - 1], active);
      var m := After(hash, t, cs[..|cs| - 1], active);
      match cs[|cs| - 1]
      case Lookup(p, hint) => GetKeeps(hash, m, KeyOf(p), hint, active);
      case Number(p, worker) => NextSeqKeeps(hash, m, p, worker, active);
    }
  }

  /** One call: an entry keeps its place, key, worker and slot, and its counters move only by the
      numbers it hands out. */
  lemma DoEntry(hash: Key -> nat, t: Table, c: Call, active: nat, p: Packet, i: nat)
    requires TableOk(hash, t, active) && i < SIZE && Has(t.slots[i], KeyOf(p))
    ensures var s, r := t.slots[i], Do(hash, t, c, active).slots[i];
            && r.Entry? && r.key == s.key && r.worker == s.worker && r.tx == s.tx
            && (p.proto == UDP ==>
                  Sent(r, DirOf(p)) == Sent(s, DirOf(p))
                    + (if c.Number? && KeyOf(c.p) == KeyOf(p) && DirOf(c.p) == DirOf(p) then 1 else 0))
  {
    hide Base, CountIf, Get, Even;
    var key := KeyOf(c.p);
    var hint := if c.Lookup? then c.hint else c.worker;
    GetMonotone(hash, t, key, hint, active, i);
    GetKeeps(hash, t, key, hint, active);
    var t1 := Get(hash, t, key, hint, active).0;
    FindUnique(hash, t1, active, i);
  }

  /** Main sequencing theorem: for a flow in the table, over every interleaving of calls by any threads,
      the n-th number asked for by one direction is n modulo 2^32: no gap, no repeat, and independent of
      the other direction and of every other flow. The entry's worker and slot never change. */
  lemma {:induction false} NumbersCount(hash: Key -> nat, t: Table, cs: seq<Call>, active: nat, p: Packet, i: nat)
    requires TableOk(hash, t, active) && i < SIZE && Has(t.slots[i], KeyOf(p)) && p.proto == UDP
    ensures var s, r := t.slots[i], After(hash, t, cs, active).slots[i];
            && Has(r, KeyOf(p)) && r.worker == s.worker && r.tx == s.tx
            && Sent(r, DirOf(p)) == Sent(s, DirOf(p)) + Asked(cs, p)
    ensures forall worker :: NextSeq(hash, After(hash, t, cs, active), p, worker, active).1
                             == FromTable(Wire(Sent(t.slots[i], DirOf(p)) + Asked(cs, p)))
  {
    hide Base, CountIf, Get, Even, Do;
    if |cs| > 0 {
      var init, c := cs[..|cs| - 1], cs[|cs| - 1];
      NumbersCount(hash, t, init, active, p, i);
      AfterOk(hash, t, init, active);
      DoEntry(hash, After(hash, t, init, active), c, active, p, i);
    }
    AfterOk(hash, t, cs, active);
    var r := After(hash, t, cs, active);
    forall worker ensures NextSeq(hash, r, p, worker, active).1 == FromTable(Wire(Sent(r.slots[i], DirOf(p)))) {
      GetKeeps(hash, r, KeyOf(p), worker, active);
      GetMonotone(hash, r, KeyOf(p), worker, active, i);
      FindUnique(hash, Get(hash, r, KeyOf(p), worker, active).0, active, i);
    }
  }

  /** A flow whose set is full without it stays out of the table forever, so it keeps using the per-thread
      counters; a flow in the table never uses them. */
  lemma {:induction false} FullStaysFull(hash: Key -> nat, t: Table, cs: seq<Call>, active: nat, key: Key)
    requires TableOk(hash, t, active)
    requires FindKey(t.slots, Base(hash, key), 0, key) < 0 && FindVacant(t.slots, Base(hash, key), 0) < 0
    ensures var r := After(hash, t, cs, active);
            FindKey(r.slots, Base(hash, key), 0, key) < 0 && FindVacant(r.slots, Base(hash, key), 0) < 0
    ensures forall p, worker :: KeyOf(p) == key && p.proto == UDP ==>
              NextSeq(hash, After(hash, t, cs, active), p, worker, active).1 == FromSpill
  {
    hide Base, CountIf, Get, Even, Do;
    if |cs| > 0 {
      var init, c := cs[..|cs| - 1], cs[|cs| - 1];
      FullStaysFull(hash, t, init, active, key);
      AfterOk(hash, t, init, active);
      FullStep(hash, After(hash, t, init, active), c, active, key);
    }
    var r := After(hash, t, cs, active);
    forall p: Packet, worker | KeyOf(p) == key && p.proto == UDP
      ensures NextSeq(hash, r, p, worker, active).1 == FromSpill
    {
      FullGet(hash, r, key, worker, active);
    }
  }

  lemma FullGet(hash: Key -> nat, t: Table, key: Key, hint: int, active: nat)
    requires Shape(t) && 0 < active <= TX_SLOTS
    requires FindKey(t.slots, Base(hash, key), 0, key) < 0 && FindVacant(t.slots, Base(hash, key), 0) < 0
    ensures Get(hash, t, key, hint, active) == (t, Fallback(hash, key, active))
  {
    hide Base, LeastLoaded;
  }

  /** No call empties a way or changes the key in it. */
  lemma DoKeepsKey(hash: Key -> nat, t: Table, c: Call, active: nat, j: nat)
    requires Shape(t) && 0 < active <= TX_SLOTS && j < SIZE && t.slots[j].Entry?
    ensures var r := Do(hash, t, c, active); r.slots[j].Entry? && r.slots[j].key == t.slots[j].key
  {
    hide Base, Get;
    GetMonotone(hash, t, KeyOf(c.p), if c.Lookup? then c.hint else c.worker, active, j);
  }

  lemma FullStep(hash: Key -> nat, t: Table, c: Call, active: nat, key: Key)
    requires Shape(t) && 0 < active <= TX_SLOTS
    requires FindKey(t.slots, Base(hash, key), 0, key) < 0 && FindVacant(t.slots, Base(hash, key), 0) < 0
    ensures var r := Do(hash, t, c, active);
            FindKey(r.slots, Base(hash, key), 0, key) < 0 && FindVacant(r.slots, Base(hash, key), 0) < 0
  {
    hide Base, Do, FindKey, FindVacant;
    var base := Base(hash, key);
    var r := Do(hash, t, c, active);
    forall j: nat | base <= j < base + WAYS ensures r.slots[j].Entry? && !Has(r.slots[j], key) {
      assert t.slots[j].Entry? && !Has(t.slots[j], key);
      DoKeepsKey(hash, t, c, active, j);
    }
  }

  /** The empty table. */
  function Empty(): (t: Table)
    ensures Shape(t)
  {
    Table(seq(SIZE, i => Vacant), seq(WORKERS, i => 0), seq(TX_SLOTS, i => 0), 0, 0)
  }

  lemma EmptyOk(hash: Key -> nat, active: nat)
    requires 0 < active <= TX_SLOTS
    ensures TableOk(hash, Empty(), active)
  {
    hide CountIf, Base;
    var t := Empty();
    CountNone(t.slots, InUse());
    forall w: nat | w < WORKERS ensures CountIf(t.slots, OnWorker(w)) == 0 {
      CountNone(t.slots, OnWorker(w));
    }
    forall x: nat | x < TX_SLOTS ensures CountIf(t.slots, OnTx(x)) == 0 {
      CountNone(t.slots, OnTx(x));
    }
  }
}
