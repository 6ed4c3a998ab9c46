/** From the sender's route table to the receiver's reorder buffer: the numbers drawn on one side are the
    positions restored on the other. */
module UdpPath {
  import opened Serial
  import R = RouteTable
  import M = ReorderModel
  import T = ReorderTable
  import E = ReorderEntry
  import W = ReorderRuns
  import opened ReorderEndToEnd

  /** The k-th UDP packet from now on of one direction of a flow in the route table leaves with the number of
      the k-th position of the receiver's stream, over every interleaving of calls. */
  lemma SenderNumbersStream(hash: R.Key -> nat, t: R.Table, cs: seq<R.Call>, active: nat, p: R.Packet, i: nat,
                            worker: int, st: Stream)
    requires R.TableOk(hash, t, active) && i < R.SIZE && R.Has(t.slots[i], R.KeyOf(p)) && p.proto == R.UDP
    requires R.Sent(t.slots[i], R.DirOf(p)) == st.start && R.Asked(cs, p) < |st.items|
    ensures R.NextSeq(hash, R.After(hash, t, cs, active), p, worker, active).1
         == R.FromTable(st.At(st.start + R.Asked(cs, p)).sn)
  {
    hide R.After, R.NextSeq, R.Asked, Wire;
    R.NumbersCount(hash, t, cs, active, p, i);
  }

  /** The number a call draws; calls at the fallback draw from elsewhere. */
  function Drawn(n: R.Number): nat {
    if n.FromTable? then n.sn else 0
  }

  predicate Draws(c: R.Call, p: R.Packet) {
    c.Number? && R.KeyOf(c.p) == R.KeyOf(p) && R.DirOf(c.p) == R.DirOf(p)
  }

  /** What the sender puts on the wire: each call for the direction of `p` labels the next item with the
      number it drew. */
  function OnWire(hash: R.Key -> nat, t: R.Table, cs: seq<R.Call>, active: nat, p: R.Packet,
                  st: Stream): (ds: seq<M.Datagram>)
    requires R.Shape(t) && 0 < active <= R.TX_SLOTS && R.Asked(cs, p) <= |st.items|
  {
    if |cs| == 0 then []
    else
      var init, c := cs[..|cs| - 1], cs[|cs| - 1];
      var ds := OnWire(hash, t, init, active, p, st);
      if Draws(c, p) then
        var n := Drawn(R.NextSeq(hash, R.After(hash, t, init, active), c.p, c.worker, active).1);
        ds + [M.Datagram(st.key, st.epoch, n, st.items[R.Asked(init, p)])]
      else ds
  }

  /** Whatever other flows, directions and threads do in between, the wire carries the stream. */
  lemma {:induction false} WireIsStream(hash: R.Key -> nat, t: R.Table, cs: seq<R.Call>, active: nat, p: R.Packet,
                                        i: nat, st: Stream)
    requires R.TableOk(hash, t, active) && i < R.SIZE && R.Has(t.slots[i], R.KeyOf(p)) && p.proto == R.UDP
    requires R.Sent(t.slots[i], R.DirOf(p)) == st.start && R.Asked(cs, p) <= |st.items|
    ensures var ds := OnWire(hash, t, cs, active, p, st);
            |ds| == R.Asked(cs, p) && forall k :: 0 <= k < |ds| ==> ds[k] == st.At(st.start + k)
  {
    hide R.After, R.NextSeq, Wire, R.TableOk;
    R.TableShape(hash, t, active);
    if |cs| > 0 {
      var init, c := cs[..|cs| - 1], cs[|cs| - 1];
      WireIsStream(hash, t, init, active, p, i, st);
      if Draws(c, p) {
        R.CanonicalKey(c.p, p);
        SenderNumbersStream(hash, t, init, active, p, i, c.worker, st);
      }
    }
  }

  /** Sender to receiver. A flow in the sender's route table numbers the items of one direction amid any
      other calls; the datagrams arrive at the receiver in any order that stays inside the window, amid
      any other calls that do not disturb the entry. Then the entry's emits are exactly the datagrams the
      sender put on the wire, in the order in which it did. */
  lemma SentOrderRestored(hash: R.Key -> nat, t: R.Table, cs: seq<R.Call>, active: nat, pk: R.Packet, i: nat,
                          env: M.Env, st: Stream, idx: nat, w: M.Worker, p: nat, now: nat, calls: seq<Call>)
    requires R.TableOk(hash, t, active) && i < R.SIZE && R.Has(t.slots[i], R.KeyOf(pk)) && pk.proto == R.UDP
    requires R.Sent(t.slots[i], R.DirOf(pk)) == st.start && R.Asked(cs, pk) == |st.items|
    requires W.WorkerOk(w) && T.TableShape(w) && env.enabled && Opens(env, st, idx, w, p)
    requires forall j :: 0 <= j < |calls| ==>
               (calls[j].Mine? ==> st.Has(calls[j].p)) && T.OpOk(AsOp(st, calls[j]))
    requires var r := T.Submit(env, w, st.At(p), now); r.Returns? ==> CalmRun(env, st, idx, r.v, {p}, calls)
    requires forall q :: st.Has(q) ==> q == p || q in Arrivals(calls)
    ensures var first := T.Submit(env, w, st.At(p), now);
            first.Returns? &&
            var r := Play(env, st, first.v, calls);
            r.Returns? &&
            var o, ds := E.Outs(r.v.trace, idx), OnWire(hash, t, cs, active, pk, st);
            |o| == |ds| == |st.items| && forall k :: 0 <= k < |o| ==> o[k].Emit? && o[k].d == ds[k]
  {
    hide R.TableOk, OnWire, R.Asked, R.Has, R.Sent, W.WorkerOk, E.Outs, T.Submit, T.Find, CalmRun, Play;
    R.TableShape(hash, t, active);
    WireIsStream(hash, t, cs, active, pk, i, st);
    EndToEnd(env, st, idx, w, p, now, calls);
  }

  /* ---- a run from the beginning ---- */

  /** The sender's first lookup of a flow in the empty table gives it an entry with no number sent. */
  lemma FlowEntered(hash: R.Key -> nat, e: R.Table, pk: R.Packet, active: nat) returns (t: R.Table, i: nat)
    requires 0 < active <= R.TX_SLOTS && e == R.Empty()
    ensures t == R.Get(hash, e, R.KeyOf(pk), -1, active).0 && R.TableOk(hash, t, active)
    ensures i < R.SIZE && R.Has(t.slots[i], R.KeyOf(pk)) && R.Sent(t.slots[i], R.DirOf(pk)) == 0
  {
    hide R.Empty, R.Even, R.LeastLoaded, R.Base;
    var key := R.KeyOf(pk);
    R.EmptyOk(hash, active);
    R.GetKeeps(hash, e, key, -1, active);
    t := R.Get(hash, e, key, -1, active).0;
    EmptyFinds(hash, e, key);
    i := R.FindVacant(e.slots, R.Base(hash, key), 0);
  }

  lemma EmptyFinds(hash: R.Key -> nat, e: R.Table, key: R.Key)
    requires e == R.Empty()
    ensures R.FindKey(e.slots, R.Base(hash, key), 0, key) < 0 && R.FindVacant(e.slots, R.Base(hash, key), 0) >= 0
  {
    hide R.Base;
  }

  /** The conditions of `SentOrderRestored` can be met: a new flow numbers two packets, they overtake each other
      on the way to a receiver that has seen nothing yet, and are emitted as they were sent. */
  lemma SwappedOnWire(hash: R.Key -> nat, e: R.Table, active: nat, pk: R.Packet, worker: int, env: M.Env, st: Stream,
                      w: M.Worker, now: nat)
    requires 0 < active <= R.TX_SLOTS && pk.proto == R.UDP && e == R.Empty() && w == T.Start()
    requires env.enabled && env.cap >= 2 && env.hold > 0 && st.start == 0 && |st.items| == 2
    ensures var t := R.Get(hash, e, R.KeyOf(pk), -1, active).0;
            var cs := [R.Number(pk, worker), R.Number(pk, worker)];
            && R.Asked(cs, pk) == 2
            && var first := T.Submit(env, w, st.At(1), now);
               first.Returns? &&
               var r := Play(env, st, first.v, [Mine(0, now)]);
               r.Returns? &&
               var o, ds := E.Outs(r.v.trace, T.SetBase(env, st.key)), OnWire(hash, t, cs, active, pk, st);
               |o| == |ds| == 2 && o[0].Emit? && o[0].d == ds[0] && o[1].Emit? && o[1].d == ds[1]
  {
    hide R.TableOk, OnWire, R.Asked, R.Has, R.Sent, W.WorkerOk, W.AllCopies, E.Outs, T.Submit, T.Find, Play, T.Start,
         T.SetBase, R.Get, R.Empty;
    TwoAsked(pk, worker);
    var t, i := FlowEntered(hash, e, pk, active);
    W.StartOk(M.ANY);
    StartHasRoom(env, st.key);
    PairOnWire(hash, t, i, [R.Number(pk, worker), R.Number(pk, worker)], active, pk, env, st, w, now);
  }

  lemma PairOnWire(hash: R.Key -> nat, t: R.Table, i: nat, cs: seq<R.Call>, active: nat, pk: R.Packet, env: M.Env,
                   st: Stream, w: M.Worker, now: nat)
    requires R.TableOk(hash, t, active) && i < R.SIZE && R.Has(t.slots[i], R.KeyOf(pk)) && pk.proto == R.UDP
    requires R.Shape(t) && 0 < active <= R.TX_SLOTS && R.Sent(t.slots[i], R.DirOf(pk)) == 0 && R.Asked(cs, pk) == 2
    requires env.enabled && env.cap >= 2 && env.hold > 0 && st.start == 0 && |st.items| == 2
    requires W.WorkerOk(w) && T.TableShape(w) && W.AllCopies(w, M.ANY) == 0 && w.total == 0
    requires T.Find(env, w, st.key) == T.Victim(T.SetBase(env, st.key))
    ensures var first := T.Submit(env, w, st.At(1), now);
            first.Returns? &&
            var r := Play(env, st, first.v, [Mine(0, now)]);
            r.Returns? &&
            var o, ds := E.Outs(r.v.trace, T.SetBase(env, st.key)), OnWire(hash, t, cs, active, pk, st);
            |o| == |ds| == 2 && o[0].Emit? && o[0].d == ds[0] && o[1].Emit? && o[1].d == ds[1]
  {
    hide R.TableOk, OnWire, R.Asked, R.Has, R.Sent, W.WorkerOk, W.AllCopies, E.Outs, T.Submit, T.Find, CalmRun, Play,
         T.SetBase;
    PairFirst(env, st, w, now);
    PairArrivals(now);
    PairOpens(env, st, w);
    SentOrderRestored(hash, t, cs, active, pk, i, env, st, T.SetBase(env, st.key), w, 1, now, [Mine(0, now)]);
  }

  lemma TwoAsked(pk: R.Packet, worker: int)
    ensures R.Asked([R.Number(pk, worker), R.Number(pk, worker)], pk) == 2
  {
    var cs := [R.Number(pk, worker), R.Number(pk, worker)];
    assert cs[..1][..0] == [];
    assert R.Asked(cs[..1], pk) == 1;
  }
}
