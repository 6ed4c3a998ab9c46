/** The route table and the per-thread number fallback as the program keeps them. */
module Routes {
  import opened Serial
  import opened RouteTable

  const SPILL_SETS: nat := 256
  const SPILL_WAYS: nat := 4
  const SPILL_SIZE: nat := 1024
  const NO_SPILL := Spill(false, Key(0, 0, 0, 0, 0), 0, 0, 0)

  function SpillBase(hash: Key -> nat, key: Key): (b: nat)
    ensures b + SPILL_WAYS <= SPILL_SIZE
  {
    (hash(key) % SPILL_SETS) * SPILL_WAYS
  }

  /** The way of the flow's own counters, or the way to take over. */
  datatype Place = Own(idx: nat) | Take(idx: nat)

  function SpillFind(sp: seq<Spill>, base: nat, way: nat, victim: nat, key: Key): (r: Place)
    requires base + SPILL_WAYS <= |sp| && way <= SPILL_WAYS && base <= victim < base + SPILL_WAYS
    ensures base <= r.idx < base + SPILL_WAYS
    ensures r.Own? ==> sp[r.idx].valid && sp[r.idx].key == key
    ensures r.Take? ==> forall j :: base + way <= j < base + SPILL_WAYS ==> !(sp[j].valid && sp[j].key == key)
    decreases SPILL_WAYS - way
  {
    if way == SPILL_WAYS then Take(victim)
    else
      var e := sp[base + way];
      if e.valid && e.key == key then Own(base + way)
      else if !e.valid then SpillFind(sp, base, way + 1, base + way, key)
      else SpillFind(sp, base, way + 1, if e.stamp < sp[victim].stamp then base + way else victim, key)
  }

  /** One request for a number at the fallback. */
  datatype Draw = Draw(key: Key, dir: nat)

  function SpillAt(hash: Key -> nat, sp: seq<Spill>, key: Key): (at: Place)
    requires |sp| == SPILL_SIZE
    ensures at.idx < SPILL_SIZE
  {
    SpillFind(sp, SpillBase(hash, key), 0, SpillBase(hash, key), key)
  }

  function Next(e: Spill, dir: nat): nat {
    if dir == 0 then e.next0 else e.next1
  }

  /** The number a request gets: the flow's own next number, or zero if it has to take over a way. */
  function SpillNumber(hash: Key -> nat, sp: seq<Spill>, d: Draw): nat
    requires |sp| == SPILL_SIZE
  {
    var at := SpillAt(hash, sp, d.key);
    if at.Take? then 0 else Next(sp[at.idx], d.dir)
  }

  /** The counters after a request. */
  function SpillNext(hash: Key -> nat, sp: seq<Spill>, d: Draw, stamp: nat): (r: seq<Spill>)
    requires |sp| == SPILL_SIZE
    ensures |r| == SPILL_SIZE
  {
    var at := SpillAt(hash, sp, d.key);
    var e := if at.Own? then sp[at.idx] else Spill(true, d.key, 0, 0, 0);
    var n := if d.dir == 0 then e.(next0 := Wire(e.next0 + 1)) else e.(next1 := Wire(e.next1 + 1));
    sp[at.idx := n.(stamp := stamp)]
  }

  /** One way per flow, in the flow's set, with 32-bit counters. */
  ghost predicate SpillOk(hash: Key -> nat, sp: seq<Spill>) {
    && |sp| == SPILL_SIZE
    && (forall i :: 0 <= i < SPILL_SIZE && sp[i].valid ==>
          && sp[i].next0 < M32 && sp[i].next1 < M32
          && SpillBase(hash, sp[i].key) <= i < SpillBase(hash, sp[i].key) + SPILL_WAYS)
    && (forall i, j :: 0 <= i < j < SPILL_SIZE && sp[i].valid && sp[j].valid ==> sp[i].key != sp[j].key)
  }

  lemma SpillKeeps(hash: Key -> nat, sp: seq<Spill>, d: Draw, stamp: nat)
    requires SpillOk(hash, sp)
    ensures SpillOk(hash, SpillNext(hash, sp, d, stamp))
  {
    hide SpillBase, Wire;
    SpillAtIff(hash, sp, d.key);
  }

  /** Lookup finds a flow's way exactly when it has one. */
  lemma SpillAtIff(hash: Key -> nat, sp: seq<Spill>, key: Key)
    requires SpillOk(hash, sp)
    ensures forall i :: 0 <= i < SPILL_SIZE ==> (sp[i].valid && sp[i].key == key <==> SpillAt(hash, sp, key) == Own(i))
  {
    hide SpillBase;
    forall i | 0 <= i < SPILL_SIZE && sp[i].valid && sp[i].key == key ensures SpillAt(hash, sp, key) == Own(i) {
      SpillFindsFirst(sp, SpillBase(hash, key), 0, SpillBase(hash, key), key, i);
    }
  }

  /** The request takes over the way of flow `key`. */
  ghost predicate SpillEvicts(hash: Key -> nat, sp: seq<Spill>, d: Draw, key: Key)
    requires |sp| == SPILL_SIZE
  {
    var at := SpillAt(hash, sp, d.key);
    at.Take? && sp[at.idx].valid && sp[at.idx].key == key
  }

  lemma SpillStep(hash: Key -> nat, sp: seq<Spill>, c: Draw, stamp: nat, d: Draw)
    requires SpillOk(hash, sp) && !SpillEvicts(hash, sp, c, d.key) && c.dir <= 1 && d.dir <= 1
    ensures SpillNumber(hash, SpillNext(hash, sp, c, stamp), d)
         == if c == d then Wire(SpillNumber(hash, sp, d) + 1) else SpillNumber(hash, sp, d)
  {
    hide SpillBase, SpillFind, Wire;
    var r := SpillNext(hash, sp, c, stamp);
    SpillKeeps(hash, sp, c, stamp);
    SpillAtIff(hash, sp, c.key);
    SpillAtIff(hash, sp, d.key);
    SpillAtIff(hash, r, d.key);
    WireSmall(0);
    WireSmall(1);
  }

  /** The counters after a run of requests, the n-th of them stamped `stamp` + n. */
  function SpillAfter(hash: Key -> nat, sp: seq<Spill>, ds: seq<Draw>, stamp: nat): (r: seq<Spill>)
    requires |sp| == SPILL_SIZE
    ensures |r| == SPILL_SIZE
  {
    if |ds| == 0 then sp
    else SpillNext(hash, SpillAfter(hash, sp, ds[..|ds| - 1], stamp), ds[|ds| - 1], stamp + |ds|)
  }

  ghost predicate NeverTaken(hash: Key -> nat, sp: seq<Spill>, ds: seq<Draw>, stamp: nat, key: Key)
    requires |sp| == SPILL_SIZE
  {
    |ds| == 0 ||
    var init := ds[..|ds| - 1];
    NeverTaken(hash, sp, init, stamp, key) && !SpillEvicts(hash, SpillAfter(hash, sp, init, stamp), ds[|ds| - 1], key)
  }

  function Times(ds: seq<Draw>, d: Draw): nat {
    if |ds| == 0 then 0 else Times(ds[..|ds| - 1], d) + (if ds[|ds| - 1] == d then 1 else 0)
  }

  /** Numbers of a flow at the fallback: as long as its way is not taken over, whatever other flows and the
      other direction draw, the n-th number of a direction is n further on, modulo 2^32. */
  lemma {:induction false} SpillNumbersCount(hash: Key -> nat, sp: seq<Spill>, ds: seq<Draw>, stamp: nat, d: Draw)
    requires |sp| == SPILL_SIZE && SpillOk(hash, sp) && d.dir <= 1 && (forall i :: 0 <= i < |ds| ==> ds[i].dir <= 1)
    requires NeverTaken(hash, sp, ds, stamp, d.key)
    ensures SpillOk(hash, SpillAfter(hash, sp, ds, stamp))
    ensures SpillNumber(hash, SpillAfter(hash, sp, ds, stamp), d) == Wire(SpillNumber(hash, sp, d) + Times(ds, d))
  {
    hide SpillBase, SpillFind, SpillNext, SpillOk, Wire, SpillEvicts;
    if |ds| == 0 {
      SpillSmall(hash, sp, d);
    } else {
      var init, c := ds[..|ds| - 1], ds[|ds| - 1];
      SpillNumbersCount(hash, sp, init, stamp, d);
      var m := SpillAfter(hash, sp, init, stamp);
      SpillKeeps(hash, m, c, stamp + |ds|);
      SpillStep(hash, m, c, stamp + |ds|, d);
      WrapAdd(SpillNumber(hash, sp, d) + Times(init, d), 1);
    }
  }

  lemma SpillSmall(hash: Key -> nat, sp: seq<Spill>, d: Draw)
    requires SpillOk(hash, sp)
    ensures Wire(SpillNumber(hash, sp, d)) == SpillNumber(hash, sp, d)
  {
    hide SpillBase, SpillFind;
  }

  lemma {:induction false} SpillFindsFirst(sp: seq<Spill>, base: nat, way: nat, victim: nat, key: Key, i: nat)
    requires base + SPILL_WAYS <= |sp| && way <= SPILL_WAYS && base <= victim < base + SPILL_WAYS
    requires base + way <= i < base + SPILL_WAYS && sp[i].valid && sp[i].key == key
    requires forall j :: base + way <= j < base + SPILL_WAYS && j != i && sp[j].valid ==> sp[j].key != key
    ensures SpillFind(sp, base, way, victim, key) == Own(i)
    decreases SPILL_WAYS - way
  {
    if base + way < i {
      var e := sp[base + way];
      SpillFindsFirst(sp, base, way + 1, if !e.valid || e.stamp < sp[victim].stamp then base + way else victim, key, i);
    }
  }

  /* ---- whom the fallback evicts ---- */

  /** The number of the last request of a flow; 0 if it made none. */
  function LastDraw(ds: seq<Draw>, key: Key): (k: nat)
    ensures k <= |ds|
  {
    if |ds| == 0 then 0
    else if ds[|ds| - 1].key == key then |ds|
    else LastDraw(ds[..|ds| - 1], key)
  }

  lemma {:induction false} LastDrawOf(ds: seq<Draw>, key: Key)
    ensures LastDraw(ds, key) > 0 ==> ds[LastDraw(ds, key) - 1].key == key
  {
    if |ds| > 0 {
      LastDrawOf(ds[..|ds| - 1], key);
    }
  }

  /** From unused counters on, the stamp of a way in use is the moment of its flow's last request. */
  lemma {:induction false} SpillStamps(hash: Key -> nat, sp: seq<Spill>, ds: seq<Draw>)
    requires |sp| == SPILL_SIZE && forall i :: 0 <= i < SPILL_SIZE ==> sp[i] == NO_SPILL
    ensures var r := SpillAfter(hash, sp, ds, 0);
            && SpillOk(hash, r)
            && forall i :: 0 <= i < SPILL_SIZE ==>
                 (r[i].valid <==> r[i].stamp > 0) && (r[i].valid ==> r[i].stamp == LastDraw(ds, r[i].key))
  {
    hide SpillBase, SpillFind, Wire;
    if |ds| > 0 {
      var init, d := ds[..|ds| - 1], ds[|ds| - 1];
      SpillStamps(hash, sp, init);
      var m := SpillAfter(hash, sp, init, 0);
      SpillKeeps(hash, m, d, |ds|);
      SpillAtIff(hash, m, d.key);
    }
  }

  lemma {:induction false} SpillVictim(sp: seq<Spill>, base: nat, way: nat, victim: nat, key: Key)
    requires base + SPILL_WAYS <= |sp| && way <= SPILL_WAYS && base <= victim < base + SPILL_WAYS
    requires forall j :: 0 <= j < |sp| ==> (sp[j].valid <==> sp[j].stamp > 0)
    requires forall j :: base <= j < base + way ==> sp[victim].stamp <= sp[j].stamp
    ensures var f := SpillFind(sp, base, way, victim, key);
            f.Take? ==> forall j :: base <= j < base + SPILL_WAYS ==> sp[f.idx].stamp <= sp[j].stamp
    decreases SPILL_WAYS - way
  {
    if way < SPILL_WAYS {
      var e := sp[base + way];
      if !(e.valid && e.key == key) {
        SpillVictim(sp, base, way + 1, if !e.valid || e.stamp < sp[victim].stamp then base + way else victim, key);
      }
    }
  }

  /** In every run of requests, one that takes over a way in use meets a full set, and evicts of its flows the one
      whose last request is longest ago. */
  lemma SpillEvictsOldest(hash: Key -> nat, sp: seq<Spill>, ds: seq<Draw>, key: Key, i: nat)
    requires |sp| == SPILL_SIZE && forall j :: 0 <= j < SPILL_SIZE ==> sp[j] == NO_SPILL
    requires SpillBase(hash, key) <= i < SpillBase(hash, key) + SPILL_WAYS
    requires var r := SpillAfter(hash, sp, ds, 0);
             SpillAt(hash, r, key).Take? && r[SpillAt(hash, r, key).idx].valid && i != SpillAt(hash, r, key).idx
    ensures var r := SpillAfter(hash, sp, ds, 0);
            r[i].valid && LastDraw(ds, r[SpillAt(hash, r, key).idx].key) < LastDraw(ds, r[i].key)
  {
    hide SpillBase, SpillFind, SpillAfter, LastDraw;
    var r := SpillAfter(hash, sp, ds, 0);
    var v := SpillAt(hash, r, key).idx;
    SpillStamps(hash, sp, ds);
    SpillVictim(r, SpillBase(hash, key), 0, SpillBase(hash, key), key);
    LastDrawOf(ds, r[v].key);
    LastDrawOf(ds, r[i].key);
  }

  class Router {
    const hash: Key -> nat
    const slots: array<Slot>
    var workerLoad: seq<nat>
    var txLoad: seq<nat>
    var workerRr: nat
    var txRr: nat
    const spill: array<Spill>
    var spillStamp: nat

    ghost predicate Valid()
      reads this, slots, spill
    {
      Shape(Abs()) && spill.Length == SPILL_SIZE && slots as object != spill as object
    }

    ghost function Abs(): Table
      reads this, slots
    {
      Table(slots[..], workerLoad, txLoad, workerRr, txRr)
    }

    constructor (h: Key -> nat)
      ensures Valid() && hash == h && Abs() == Empty() && fresh(slots) && fresh(spill)
    {
      hash := h;
      slots := new Slot[SIZE](i => Vacant);
      spill := new Spill[SPILL_SIZE](i => NO_SPILL);
      workerLoad := seq(WORKERS, i => 0);
      txLoad := seq(TX_SLOTS, i => 0);
      workerRr, txRr, spillStamp := 0, 0, 0;
      new;
      assert slots[..] == Empty().slots;
    }

    /** The way of the key in its set, or -1. */
    method Find(key: Key) returns (i: int)
      requires Valid()
      ensures i == FindKey(slots[..], Base(hash, key), 0, key)
    {
      hide Base;
      var base := Base(hash, key);
      for way := 0 to WAYS
        invariant FindKey(slots[..], base, way, key) == FindKey(slots[..], base, 0, key)
      {
        if slots[base + way].Entry? && slots[base + way].key == key {
          return base + way;
        }
      }
      i := -1;
    }

    method Vacancy(key: Key) returns (i: int)
      requires Valid()
      ensures i == FindVacant(slots[..], Base(hash, key), 0)
    {
      hide Base;
      var base := Base(hash, key);
      for way := 0 to WAYS
        invariant FindVacant(slots[..], base, way) == FindVacant(slots[..], base, 0)
      {
        if slots[base + way].Vacant? {
          return base + way;
        }
      }
      i := -1;
    }

    /** `dp_flow_route_get` */
    method RouteGet(key: Key, hint: int, active: nat) returns (r: Route)
      requires Valid() && 0 < active <= TX_SLOTS
      modifies this`workerLoad, this`txLoad, this`workerRr, this`txRr, slots
      ensures Valid() && (Abs(), r) == Get(hash, old(Abs()), key, hint, active)
    {
      hide Base, LeastLoaded, FindKey, FindVacant;
      var hit := Find(key);
      if hit >= 0 {
        return Route(slots[hit].worker, slots[hit].tx);
      }
      var empty := Vacancy(key);
      if empty < 0 {
        return Fallback(hash, key, active);
      }
      var w: nat;
      if 0 <= hint < WORKERS {
        w := hint;
      } else {
        w := PickLeastLoaded(workerLoad, WORKERS, workerRr);
        workerRr := Wire(workerRr + 1);
      }
      var x := PickLeastLoaded(txLoad, active, txRr);
      txRr := Wire(txRr + 1);
      slots[empty] := Entry(key, w, x, 0, 0);
      workerLoad := workerLoad[w := workerLoad[w] + 1];
      txLoad := txLoad[x := txLoad[x] + 1];
      r := Route(w, x);
      assert slots[..] == old(slots[..])[empty := Entry(key, w, x, 0, 0)];
    }

    /** `dp_udp_next_tx_seq`: refused for anything but UDP; from the table, which the flow enters first if
        need be; or from this thread's own counters when the set is full. */
    method NextTxSeq(p: Packet, worker: int, active: nat) returns (ok: bool, sn: nat)
      requires Valid() && 0 < active <= TX_SLOTS
      modifies this`workerLoad, this`txLoad, this`workerRr, this`txRr, this`spillStamp, slots, spill
      ensures Valid()
      ensures var (t, n) := NextSeq(hash, old(Abs()), p, worker, active);
              && Abs() == t && ok == !n.Refused?
              && (n.FromTable? ==> sn == n.sn)
              && (!n.FromSpill? ==> spill[..] == old(spill[..]))
              && (n.FromSpill? ==> sn == SpillNumber(hash, old(spill[..]), Draw(KeyOf(p), DirOf(p)))
                                   && spill[..]
                                      == SpillNext(hash, old(spill[..]), Draw(KeyOf(p), DirOf(p)), old(spillStamp) + 1))
    {
      hide Base, Get, FindKey, SpillFind, SpillBase;
      if p.proto != UDP {
        return false, 0;
      }
      ok := true;
      var key := KeyOf(p);
      var i := Find(key);
      FoundGet(hash, Abs(), key, worker, active);
      if i < 0 {
        var _ := RouteGet(key, worker, active);
        i := Find(key);
      }
      if i >= 0 {
        FoundIsEntry(slots[..], hash, key);
        sn := Wire(Sent(slots[i], DirOf(p)));
        slots[i] := Bump(slots[i], DirOf(p));
        return;
      }
      sn := DrawSpill(key, DirOf(p));
    }

    /** The per-thread fallback of `dp_udp_next_tx_seq`. */
    method DrawSpill(key: Key, dir: nat) returns (sn: nat)
      requires Valid()
      modifies this`spillStamp, spill
      ensures Valid() && Abs() == old(Abs())
      ensures sn == SpillNumber(hash, old(spill[..]), Draw(key, dir))
      ensures spill[..] == SpillNext(hash, old(spill[..]), Draw(key, dir), old(spillStamp) + 1)
    {
      hide SpillFind, SpillBase;
      var at := SpillPlace(key);
      spillStamp := spillStamp + 1;
      var e := spill[at.idx];
      if at.Take? {
        e := Spill(true, key, 0, 0, 0);
        sn := 0;
      } else {
        sn := if dir == 0 then e.next0 else e.next1;
      }
      e := if dir == 0 then e.(next0 := Wire(e.next0 + 1)) else e.(next1 := Wire(e.next1 + 1));
      spill[at.idx] := e.(stamp := spillStamp);
    }

    method SpillPlace(key: Key) returns (at: Place)
      requires Valid()
      ensures at == SpillFind(spill[..], SpillBase(hash, key), 0, SpillBase(hash, key), key)
      ensures at.idx < SPILL_SIZE
    {
      hide SpillBase;
      var base := SpillBase(hash, key);
      ghost var sp := spill[..];
      var victim := base;
      for way := 0 to SPILL_WAYS
        invariant base <= victim < base + SPILL_WAYS
        invariant SpillFind(sp, base, way, victim, key) == SpillFind(sp, base, 0, base, key)
      {
        var e := spill[base + way];
        assert e == sp[base + way] && spill[victim] == sp[victim];
        if e.valid && e.key == key {
          return Own(base + way);
        }
        if !e.valid {
          victim := base + way;
        } else if e.stamp < spill[victim].stamp {
          victim := base + way;
        }
      }
      at := Take(victim);
    }
  }

  /** A flow that is in the table finds it unchanged after a lookup. */
  lemma FoundGet(hash: Key -> nat, t: Table, key: Key, hint: int, active: nat)
    requires Shape(t) && 0 < active <= TX_SLOTS
    ensures FindKey(t.slots, Base(hash, key), 0, key) >= 0 ==> Get(hash, t, key, hint, active).0 == t
  {
  }

  lemma FoundIsEntry(slots: seq<Slot>, hash: Key -> nat, key: Key)
    requires |slots| == SIZE
    ensures var i := FindKey(slots, Base(hash, key), 0, key); i >= 0 ==> i < SIZE && slots[i].Entry?
  {
  }
}
