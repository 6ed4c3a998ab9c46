/** The egress path as the program runs it: fields updated step by step, with early exits. */
module LocalEgress {
  import opened Helpers
  import opened Frames

  class Forwarder {
    const sz: Sizes
    var pool: seq<nat>
    var splitTails: array<seq<nat>>
    var rings: array<seq<Packet>>
    ghost const outside: seq<nat>

    ghost predicate Valid()
      reads this
    {
      splitTails.Length == WORKERS && rings.Length == RINGS && splitTails as object != rings as object
      && sz.wanCount <= MAX_PORTS
    }

    ghost function Abs(): (w: World)
      requires Valid()
      reads this, splitTails, rings
      ensures WorldOk(w)
    {
      World(pool, splitTails[..], rings[..], outside)
    }

    method FrameFree(a: nat)
      requires Valid()
      modifies this`pool
      ensures Valid() && Abs() == Free(sz, old(Abs()), a)
    {
      if |pool| < sz.poolCap {
        pool := pool + [a];
      }
    }

    /** `dp_ring_push` */
    method QueueOrFree(k: nat, p: Packet) returns (ok: bool)
      requires Valid() && k < RINGS
      modifies this`pool, rings
      ensures Valid() && Abs() == RingPush(sz, old(Abs()), k, p)
      ensures ok == (p.len <= sz.frameSize && |old(rings[k])| < sz.ringCap)
    {
      if p.len > sz.frameSize || |rings[k]| >= sz.ringCap {
        FrameFree(p.addr);
        return false;
      }
      rings[k] := rings[k] + [p];
      ok := true;
    }

    /** `split_tail_take` */
    method SplitTailTake(worker: nat) returns (tail: Option<nat>)
      requires Valid() && worker < WORKERS
      modifies this`pool, splitTails
      ensures Valid() && (Abs(), tail) == TakeTail(old(Abs()), worker)
    {
      if |splitTails[worker]| == 0 {
        var got := if SPLIT_REFILL <= |pool| then SPLIT_REFILL else |pool|;
        if got == 0 {
          return None;
        }
        splitTails[worker] := pool[..got];
        pool := pool[got..];
      }
      var c := splitTails[worker];
      tail := Some(c[|c| - 1]);
      splitTails[worker] := c[..|c| - 1];
      assert Abs().tails == TakeTail(old(Abs()), worker).0.tails;
    }

    /** `push_split_to_wan` */
    method PushSplitToWan(job: Packet, l1: nat, tail: nat, l2: nat, wan: nat, slot: nat) returns (ok: bool)
      requires Valid() && wan < MAX_PORTS && slot < WORKERS
      modifies this`pool, rings
      ensures Valid() && (Abs(), ok) == PushSplit(sz, old(Abs()), wan, slot, job, l1, tail, l2)
    {
      var k := WanRing(wan, slot);
      if wan >= sz.wanCount || |rings[k]| + 2 > sz.ringCap {
        FrameFree(tail);
        return false;
      }
      if l1 == 0 || l2 == 0 || l1 > sz.frameSize || l2 > sz.frameSize {
        FrameFree(tail);
        return false;
      }
      rings[k] := rings[k] + [job.(len := l1, toWan := true, wan := wan)] + [Packet(tail, l2, true, wan, 0)];
      ok := true;
    }

    /** `encrypt_to_wan` */
    method Encrypt(job: Packet, v: Egress) returns (e: Encrypted)
      requires Valid() && v.slot < WORKERS && v.worker < WORKERS && 0 <= v.wan < MAX_PORTS
      modifies this`pool, splitTails, rings
      ensures Valid() && (Abs(), e) == EncryptToWan(sz, old(Abs()), job, v)
    {
      hide PushSplit, TakeTail;
      if v.udp && !v.seqOk {
        return Failed;
      }
      if v.needSplit {
        var tail := SplitTailTake(v.worker);
        if tail.None? {
          return Failed;
        }
        if !v.splitOk {
          FrameFree(tail.value);
          return Failed;
        }
        var ok := PushSplitToWan(job, v.l1, tail.value, v.l2, v.wan, v.slot);
        return if ok then Queued else Failed;
      }
      if !v.cipherOk {
        return Failed;
      }
      e := Whole(job.(len := v.newLen));
    }

    /** The IPv4 branches of `dataplane_process_local`. For every decision of the parser, the policy
        table, the scheduler and the cipher, the frame of the job is disposed of exactly once. */
    method Process(job: Packet, v: Egress)
      requires Valid() && v.slot < WORKERS && v.worker < WORKERS
      modifies this`pool, splitTails, rings
      ensures Valid() && Abs() == ProcessLocal(sz, old(Abs()), job, v)
      ensures Fits(sz, old(Abs()), 1) ==>
                forall f: Frame :: Tally(Abs(), f) == Tally(old(Abs()), f) + One1(job.addr, f)
      ensures !SendsClear(sz, old(Abs()), job, v) && !SendsWhole(sz, old(Abs()), v) && !SendsSplit(sz, old(Abs()), v)
              ==> rings[..] == old(rings[..])
    {
      hide EncryptToWan, RingPush, Tally;
      ghost var w := Abs();
      ProcessLocalSends(sz, w, job, v);
      forall f: Frame | Fits(sz, w, 1)
        ensures Tally(ProcessLocal(sz, w, job, v), f) == Tally(w, f) + One1(job.addr, f)
      {
        ProcessLocalKeeps(sz, w, job, v, f);
      }
      if !v.policyOk {
        FrameFree(job.addr);
        return;
      }
      if v.wan < 0 || v.wan >= sz.wanCount || |rings[WanRing(v.wan, v.slot)]| + TX_RESERVE >= sz.ringCap {
        FrameFree(job.addr);
        return;
      }
      var k := WanRing(v.wan, v.slot);
      if v.bypass {
        var _ := QueueOrFree(k, job.(toWan := true, wan := v.wan));
        return;
      }
      if !v.cryptoOn || !v.keyReady {
        FrameFree(job.addr);
        return;
      }
      var e := Encrypt(job, v);
      match e {
        case Failed => FrameFree(job.addr);
        case Queued =>
        case Whole(j) => var _ := QueueOrFree(k, j.(toWan := true, wan := v.wan));
      }
    }
  }
}
