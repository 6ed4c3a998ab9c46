/** The packet ring under interleaving: every load, slot write and store of producers and consumer is
    one step, in any order the push lock and a single consumer allow. */
module RingSteps {
  import opened Serial
  import opened Ring

  /** The producer that holds the push lock; others wait outside. `seen` records the position the
      loaded tail stood for. */
  datatype Producer<T> =
    | Free
    | Locked(tid: nat, xs: seq<T>)
    | GotHead(tid: nat, xs: seq<T>, head: nat)
    | GotTail(tid: nat, xs: seq<T>, head: nat, tail: nat, seen: nat)
    | Wrote(tid: nat, xs: seq<T>, head: nat, n: nat)
    | Published(tid: nat)

  /** The consumer; `upto` records how many batches the loaded head covered. */
  datatype Consumer<T> =
    | Resting
    | TookTail(tail: nat)
    | TookHead(tail: nat, head: nat, upto: nat)
    | Holding(tail: nat, x: T)

  /** Shared memory, the two threads' registers, and the history: what was published, batch by batch,
      and what was popped. */
  datatype State<T> = State(buf: seq<T>, head: nat, tail: nat, prod: Producer<T>, cons: Consumer<T>,
                            batches: seq<seq<T>>, popped: seq<T>)

  datatype Action<T> =
    | Lock(tid: nat, xs: seq<T>) | LoadHead | LoadTail | Refuse | Write | Publish | Unlock
    | ConsTail | ConsHead | ConsEmpty | ConsRead | ConsPop

  function Flat<T>(bs: seq<seq<T>>): seq<T> {
    if |bs| == 0 then [] else Flat(bs[..|bs| - 1]) + bs[|bs| - 1]
  }

  /** The producer's fullness test on the registers it loaded. */
  predicate Refuses(head: nat, tail: nat, n: nat, cap: nat) {
    if n == 1 then Diff(head, tail) >= cap else PairRefused(Diff(head, tail), cap)
  }

  predicate Enabled<T(==)>(cap: nat, s: State<T>, a: Action<T>)
    requires cap > 0
  {
    match a
    case Lock(tid, xs) => s.prod.Free? && 1 <= |xs| <= 2
    case LoadHead => s.prod.Locked?
    case LoadTail => s.prod.GotHead?
    case Refuse => s.prod.GotTail? && Refuses(s.prod.head, s.prod.tail, |s.prod.xs|, cap)
    case Write =>
      || (s.prod.GotTail? && !Refuses(s.prod.head, s.prod.tail, |s.prod.xs|, cap) && |s.prod.xs| > 0 && |s.buf| == cap)
      || (s.prod.Wrote? && s.prod.n < |s.prod.xs| && |s.buf| == cap)
    case Publish => s.prod.Wrote? && s.prod.n == |s.prod.xs|
    case Unlock => s.prod.Published?
    case ConsTail => s.cons.Resting?
    case ConsHead => s.cons.TookTail?
    case ConsEmpty => s.cons.TookHead? && s.cons.tail == s.cons.head
    case ConsRead => s.cons.TookHead? && s.cons.tail != s.cons.head && |s.buf| == cap
    case ConsPop => s.cons.Holding?
  }

  function Do<T(==)>(cap: nat, s: State<T>, a: Action<T>): State<T>
    requires cap > 0 && Enabled(cap, s, a)
  {
    match a
    case Lock(tid, xs) => s.(prod := Locked(tid, xs))
    case LoadHead => s.(prod := GotHead(s.prod.tid, s.prod.xs, s.head))
    case LoadTail => s.(prod := GotTail(s.prod.tid, s.prod.xs, s.prod.head, s.tail, |s.popped|))
    case Refuse => s.(prod := Free)
    case Write =>
      var n := if s.prod.GotTail? then 0 else s.prod.n;
      s.(buf := s.buf[Slot(Wire(s.prod.head + n), cap) := s.prod.xs[n]],
         prod := Wrote(s.prod.tid, s.prod.xs, s.prod.head, n + 1))
    case Publish =>
      s.(head := Wire(s.prod.head + |s.prod.xs|), batches := s.batches + [s.prod.xs], prod := Published(s.prod.tid))
    case Unlock => s.(prod := Free)
    case ConsTail => s.(cons := TookTail(s.tail))
    case ConsHead => s.(cons := TookHead(s.cons.tail, s.head, |s.batches|))
    case ConsEmpty => s.(cons := Resting)
    case ConsRead => s.(cons := Holding(s.cons.tail, s.buf[Slot(s.cons.tail, cap)]))
    case ConsPop => s.(tail := Wire(s.cons.tail + 1), popped := s.popped + [s.cons.x], cons := Resting)
  }

  /* ---- the invariant ---- */

  /** The queue itself: the popped packets are a prefix of the published ones, the counters are the
      positions modulo 2^32, and every published packet not yet popped is intact in its slot. */
  ghost predicate QueueOk<T>(cap: nat, s: State<T>) {
    var all := Flat(s.batches);
    && CapOk(cap) && cap >= 2 && |s.buf| == cap
    && |s.popped| <= |all| <= |s.popped| + cap
    && s.head == Wire(|all|) && s.tail == Wire(|s.popped|)
    && s.popped == all[..|s.popped|]
    && forall p :: |s.popped| <= p < |all| ==> s.buf[Slot(p, cap)] == all[p]
  }

  ghost predicate ProducerOk<T>(cap: nat, s: State<T>)
    requires cap > 0 && |s.buf| == cap
  {
    var h, t := |Flat(s.batches)|, |s.popped|;
    match s.prod
    case Free => true
    case Locked(_, xs) => 1 <= |xs| <= 2
    case GotHead(_, xs, head) => 1 <= |xs| <= 2 && head == Wire(h)
    case GotTail(_, xs, head, tail, seen) =>
      1 <= |xs| <= 2 && head == Wire(h) && tail == Wire(seen) && seen <= t && h <= seen + cap
    case Wrote(_, xs, head, n) =>
      && 1 <= |xs| <= 2 && head == Wire(h) && n <= |xs| && h - t + |xs| <= cap
      && forall j :: h <= j < h + n ==> s.buf[Slot(j, cap)] == xs[j - h]
    case Published(_) => true
  }

  ghost predicate ConsumerOk<T>(s: State<T>) {
    var all, t := Flat(s.batches), |s.popped|;
    match s.cons
    case Resting => true
    case TookTail(tail) => tail == Wire(t)
    case TookHead(tail, head, upto) =>
      && tail == Wire(t) && upto <= |s.batches|
      && head == Wire(|Flat(s.batches[..upto])|) && t <= |Flat(s.batches[..upto])| <= |all|
    case Holding(tail, x) => tail == Wire(t) && t < |all| && x == all[t]
  }

  ghost predicate RingOk<T>(cap: nat, s: State<T>) {
    QueueOk(cap, s) && ProducerOk(cap, s) && ConsumerOk(s)
  }

  lemma FlatAppend<T>(bs: seq<seq<T>>, b: seq<T>)
    ensures Flat(bs + [b]) == Flat(bs) + b
  {
    assert (bs + [b])[..|bs|] == bs;
  }

  /** The test on a stale tail is safe: it can only overestimate how full the ring is. */
  lemma GuardSafe<T>(cap: nat, s: State<T>)
    requires QueueOk(cap, s) && ProducerOk(cap, s) && s.prod.GotTail?
    requires !Refuses(s.prod.head, s.prod.tail, |s.prod.xs|, cap)
    ensures |Flat(s.batches)| - |s.popped| + |s.prod.xs| <= cap
  {
    hide Wire, Diff, Slot, Flat, PairRefused;
    var h := |Flat(s.batches)|;
    DiffExact(h, s.prod.seen);
    PairGuardIff(cap);
  }

  /** A slot write of the producer: it lands on no unread slot. */
  lemma WriteOk<T>(cap: nat, s: State<T>)
    requires RingOk(cap, s) && Enabled(cap, s, Write)
    ensures RingOk(cap, Do(cap, s, Write))
  {
    hide Wire, Diff, Slot, Flat, PairRefused;
    if s.prod.GotTail? {
      GuardSafe(cap, s);
    }
    var h, t := |Flat(s.batches)|, |s.popped|;
    var n := if s.prod.GotTail? then 0 else s.prod.n;
    WrapAdd(h, n);
    SlotOfWire(h + n, cap);
    forall p | t <= p < h + n ensures Slot(p, cap) != Slot(h + n, cap) {
      SlotsApart(p, h + n, cap);
    }
  }

  lemma PublishOk<T>(cap: nat, s: State<T>)
    requires RingOk(cap, s) && Enabled(cap, s, Publish)
    ensures RingOk(cap, Do(cap, s, Publish))
  {
    hide Wire, Diff, Slot, Flat, PairRefused;
    var all := Flat(s.batches);
    FlatAppend(s.batches, s.prod.xs);
    WrapAdd(|all|, |s.prod.xs|);
    if s.cons.TookHead? {
      assert (s.batches + [s.prod.xs])[..s.cons.upto] == s.batches[..s.cons.upto];
    }
    assert (all + s.prod.xs)[..|s.popped|] == all[..|s.popped|];
  }

  lemma ConsumeOk<T>(cap: nat, s: State<T>, a: Action<T>)
    requires RingOk(cap, s) && Enabled(cap, s, a) && (a.ConsHead? || a.ConsRead? || a.ConsPop?)
    ensures RingOk(cap, Do(cap, s, a))
  {
    hide Wire, Diff, Slot, Flat, PairRefused;
    var all, t := Flat(s.batches), |s.popped|;
    assert s.batches[..|s.batches|] == s.batches;
    SlotOfWire(t, cap);
    if a.ConsPop? {
      WrapAdd(t, 1);
      assert all[..t + 1] == all[..t] + [all[t]];
    }
  }

  lemma StepOk<T>(cap: nat, s: State<T>, a: Action<T>)
    requires RingOk(cap, s) && Enabled(cap, s, a)
    ensures RingOk(cap, Do(cap, s, a))
  {
    hide Wire, Diff, Slot, Flat, PairRefused;
    if a.Write? {
      WriteOk(cap, s);
    } else if a.Publish? {
      PublishOk(cap, s);
    } else if a.ConsHead? || a.ConsRead? || a.ConsPop? {
      ConsumeOk(cap, s, a);
    }
  }

  /* ---- whole runs ---- */

  predicate Step<T(==)>(cap: nat, s: State<T>, s': State<T>, a: Action<T>) {
    cap > 0 && Enabled(cap, s, a) && s' == Do(cap, s, a)
  }

  ghost predicate Follows<T(!new)>(cap: nat, s: State<T>, s': State<T>) {
    exists a :: Step(cap, s, s', a)
  }

  ghost predicate Runs<T(!new)>(cap: nat, trace: seq<State<T>>) {
    && CapOk(cap) && |trace| > 0
    && |trace[0].buf| == cap && trace[0] == State(trace[0].buf, 0, 0, Free, Resting, [], [])
    && forall i :: 0 <= i < |trace| - 1 ==> Follows(cap, trace[i], trace[i + 1])
  }

  lemma {:induction false} RunOk<T(!new)>(cap: nat, trace: seq<State<T>>, i: nat)
    requires Runs(cap, trace) && cap >= 2 && i < |trace|
    ensures RingOk(cap, trace[i])
  {
    hide Enabled, Do, Slot, Diff;
    if i > 0 {
      RunOk(cap, trace, i - 1);
      assert Follows(cap, trace[i - 1], trace[i - 1 + 1]);
      var a :| Step(cap, trace[i - 1], trace[i], a);
      StepOk(cap, trace[i - 1], a);
    }
  }

  /** Main ring theorem, for every interleaving and any number of counter wrap-arounds: what the consumer
      has popped is exactly a prefix of what was published, in order; published packets that are not
      yet popped are intact; the 32-bit counters differ by exactly the number of queued packets, which
      never exceeds the capacity. */
  lemma RingIsFifo<T(!new)>(cap: nat, trace: seq<State<T>>, i: nat)
    requires Runs(cap, trace) && cap >= 2 && i < |trace|
    ensures var s := trace[i];
            var all := Flat(s.batches);
            && s.popped <= all
            && Diff(s.head, s.tail) == |all| - |s.popped| <= cap == |s.buf|
            && forall p :: |s.popped| <= p < |all| ==> s.buf[Slot(p, cap)] == all[p]
  {
    hide Slot, Diff, Wire, Flat, ProducerOk, ConsumerOk;
    RunOk(cap, trace, i);
    DiffExact(|Flat(trace[i].batches)|, |trace[i].popped|);
  }

  /** The two packets of a pair become visible together: whatever head the consumer has loaded, the
      packets it may read are whole batches. */
  lemma PairsVisibleTogether<T(!new)>(cap: nat, trace: seq<State<T>>, i: nat)
    requires Runs(cap, trace) && cap >= 2 && i < |trace| && trace[i].cons.TookHead?
    ensures exists k :: 0 <= k <= |trace[i].batches|
                        && Diff(trace[i].cons.head, trace[i].cons.tail)
                           == |Flat(trace[i].batches[..k])| - |trace[i].popped|
  {
    hide Slot, Diff, Wire, Flat, ProducerOk;
    RunOk(cap, trace, i);
    var k := trace[i].cons.upto;
    DiffExact(|Flat(trace[i].batches[..k])|, |trace[i].popped|);
  }
}
