/** Link state from continuity-check messages: two missed evaluations to go down, three good signs to
    come back up. */
module LinkDebounce {
  import opened Serial

  const TIMEOUT_MS: nat := 350
  const STARTUP_MS: nat := 1000
  const DOWN_CONFIRM: nat := 2
  const UP_CONFIRM: nat := 3

  datatype Link = Link(learned: bool, isUp: bool, lastRecv: nat, fails: nat, successes: nat, peer: nat, mep: nat)

  /** A continuity-check message from a foreign MAC, or a periodic evaluation. */
  datatype Event = Ccm(mac: nat, mep: nat, now: nat) | Eval(now: nat)

  predicate Expired(l: Link, now: nat, limit: nat) {
    Elapsed(now, l.lastRecv) > limit
  }

  /** One more good sign, confirmed at three. */
  function Good(l: Link): Link {
    var n := if l.successes < UP_CONFIRM then l.successes + 1 else l.successes;
    l.(fails := 0, successes := n, isUp := l.isUp || n >= UP_CONFIRM)
  }

  function Step(l: Link, e: Event): Link {
    match e
    case Ccm(mac, mep, now) =>
      if !l.learned || mac != l.peer then
        Link(true, true, now, 0, UP_CONFIRM, mac, mep)
      else if mep == l.mep then Good(l.(lastRecv := now))
      else l
    case Eval(now) =>
      if l.learned then
        if Expired(l, now, TIMEOUT_MS) then
          l.(fails := l.fails + 1, successes := 0, isUp := l.isUp && l.fails + 1 < DOWN_CONFIRM)
        else Good(l)
      else l.(isUp := !Expired(l, now, STARTUP_MS))
  }

  /** The link as the monitor thread keeps it. */
  class Monitor {
    var learned: bool
    var isUp: bool
    var lastRecv: nat
    var fails: nat
    var successes: nat
    var peer: nat
    var mep: nat

    ghost function Abs(): Link
      reads this
    {
      Link(learned, isUp, lastRecv, fails, successes, peer, mep)
    }

    constructor (now: nat)
      ensures Abs() == Link(false, true, now, 0, 0, 0, 0)
    {
      learned, isUp, lastRecv, fails, successes, peer, mep := false, true, now, 0, 0, 0, 0;
    }

    /** A continuity-check message of the right level and opcode, not our own. */
    method Receive(mac: nat, id: nat, now: nat)
      modifies this
      ensures Abs() == Step(old(Abs()), Ccm(mac, id, now))
    {
      if !learned {
        peer, mep, learned, isUp, lastRecv := mac, id, true, true, now;
        fails, successes := 0, UP_CONFIRM;
      } else if mac != peer {
        peer, mep, lastRecv := mac, id, now;
        fails, successes, isUp := 0, UP_CONFIRM, true;
      } else if id == mep {
        lastRecv := now;
        fails := 0;
        if successes < UP_CONFIRM {
          successes := successes + 1;
        }
        if successes >= UP_CONFIRM {
          isUp := true;
        }
      }
    }

    /** The periodic evaluation. */
    method Evaluate(now: nat)
      modifies this
      ensures Abs() == Step(old(Abs()), Eval(now))
    {
      if learned {
        if Elapsed(now, lastRecv) > TIMEOUT_MS {
          fails := fails + 1;
          successes := 0;
          if fails >= DOWN_CONFIRM {
            isUp := false;
          }
        } else {
          fails := 0;
          if successes < UP_CONFIRM {
            successes := successes + 1;
          }
          if successes >= UP_CONFIRM {
            isUp := true;
          }
        }
      } else {
        isUp := !(Elapsed(now, lastRecv) > STARTUP_MS);
      }
    }
  }

  /* ---- histories ---- */

  /** What an event means to a link in a given state. */
  datatype Sign = NewPeer | Fine | Missed | Nothing

  function SignOf(l: Link, e: Event): Sign {
    match e
    case Ccm(mac, mep, _) =>
      if !l.learned || mac != l.peer then NewPeer else if mep == l.mep then Fine else Nothing
    case Eval(now) =>
      if !l.learned then Nothing else if Expired(l, now, TIMEOUT_MS) then Missed else Fine
  }

  function After(l: Link, es: seq<Event>): Link {
    if |es| == 0 then l else Step(After(l, es[..|es| - 1]), es[|es| - 1])
  }

  function SignAt(l: Link, es: seq<Event>, i: nat): Sign
    requires i < |es|
  {
    SignOf(After(l, es[..i]), es[i])
  }

  /** How many misses in a row end the history, not counting events that mean nothing. */
  function Misses(l: Link, es: seq<Event>): nat {
    if |es| == 0 then 0
    else
      match SignAt(l, es, |es| - 1)
      case Missed => Misses(l, es[..|es| - 1]) + 1
      case Nothing => Misses(l, es[..|es| - 1])
      case _ => 0
  }

  /** How many good signs came since the last miss; a new peer counts as three. */
  function Signs(l: Link, es: seq<Event>): nat {
    if |es| == 0 then 0
    else
      match SignAt(l, es, |es| - 1)
      case Missed => 0
      case Nothing => Signs(l, es[..|es| - 1])
      case Fine => Signs(l, es[..|es| - 1]) + 1
      case NewPeer => UP_CONFIRM
  }

  /** The counters are those of the history. */
  lemma {:induction false} CountersAreHistory(l: Link, es: seq<Event>)
    requires !l.learned && l.fails == 0 && l.successes == 0
    ensures var r := After(l, es);
            && (r.learned ==> r.fails == Misses(l, es))
            && (r.learned ==> r.successes == if Signs(l, es) < UP_CONFIRM then Signs(l, es) else UP_CONFIRM)
            && (!r.learned ==> r.fails == 0 && r.successes == 0 && Signs(l, es) == 0 && Misses(l, es) == 0)
  {
    if |es| > 0 {
      CountersAreHistory(l, es[..|es| - 1]);
      assert es[..|es|][..|es| - 1] == es[..|es| - 1];
    }
  }

  /** Main debounce theorem: in every history, a learned link goes down only at a second evaluation in a
      row that found the last message older than the timeout, with no accepted message in between; it
      comes back up only on a new peer or on the third good sign since the last miss. */
  lemma Debounced(l: Link, es: seq<Event>, e: Event)
    requires !l.learned && l.fails == 0 && l.successes == 0
    requires After(l, es).learned
    ensures var r, r' := After(l, es), After(l, es + [e]);
            && (r.isUp && !r'.isUp ==> e.Eval? && Expired(r, e.now, TIMEOUT_MS) && Misses(l, es) >= 1)
            && (!r.isUp && r'.isUp ==> SignOf(r, e).NewPeer? || (SignOf(r, e).Fine? && Signs(l, es) >= 2))
            && (SignOf(r, e).Missed? && Misses(l, es) >= 1 ==> !r'.isUp)
            && (SignOf(r, e).Fine? && Signs(l, es) >= 2 ==> r'.isUp)
            && (SignOf(r, e).NewPeer? ==> r'.isUp)
  {
    CountersAreHistory(l, es);
    assert (es + [e])[..|es|] == es;
  }

  /** The last of a row of misses and the one before it are evaluations with nothing accepted between. */
  lemma {:induction false} MissesAreConsecutive(l: Link, es: seq<Event>) returns (i: nat)
    requires Misses(l, es) >= 1
    ensures i < |es| && SignAt(l, es, i).Missed? && es[i].Eval?
    ensures forall k :: i < k < |es| ==> SignAt(l, es, k).Nothing?
  {
    var n := |es| - 1;
    if SignAt(l, es, n).Missed? {
      i := n;
    } else {
      i := MissesAreConsecutive(l, es[..n]);
      assert es[..n][..i] == es[..i];
      forall k | i < k < |es| ensures SignAt(l, es, k).Nothing? {
        if k < n {
          assert es[..n][..k] == es[..k];
          assert SignAt(l, es[..n], k).Nothing?;
        }
      }
    }
  }

  /* ---- what was heard, on the events alone ---- */

  datatype Heard = Silent | From(mac: nat, mep: nat, at: nat)

  /** Is the message one of a new peer, or of the known peer with its MEP? */
  predicate Counts(h: Heard, e: Event) {
    e.Ccm? && (h.Silent? || e.mac != h.mac || e.mep == h.mep)
  }

  /** The peer last changed to, its MEP, and the time of the last message that counted. */
  function LastHeard(es: seq<Event>): Heard {
    if |es| == 0 then Silent
    else
      var h, e := LastHeard(es[..|es| - 1]), es[|es| - 1];
      if Counts(h, e) then From(e.mac, e.mep, e.now) else h
  }

  /** In every history a link has a peer exactly when a message counted, and then knows that peer, its MEP, and
      the time of the last message that counted. */
  lemma {:induction false} HeardIsHistory(l: Link, es: seq<Event>)
    requires !l.learned
    ensures var r, h := After(l, es), LastHeard(es);
            && (r.learned <==> h.From?)
            && (h.From? ==> r.peer == h.mac && r.mep == h.mep && r.lastRecv == h.at)
            && (h.Silent? ==> r.lastRecv == l.lastRecv)
  {
    if |es| > 0 {
      HeardIsHistory(l, es[..|es| - 1]);
    }
  }

  /** The event counts as an accepted message in the history before it. */
  predicate Accepted(es: seq<Event>, i: nat)
    requires i < |es|
  {
    Counts(LastHeard(es[..i]), es[i])
  }

  /** Times do not run backwards. */
  predicate InTime(es: seq<Event>) {
    (forall i :: 0 <= i < |es| ==> es[i].now < M64) && forall i, j :: 0 <= i < j < |es| ==> es[i].now <= es[j].now
  }

  /** The last message that counted is the latest of all that did. */
  lemma {:induction false} HeardIsLatest(es: seq<Event>, i: nat)
    requires InTime(es) && i < |es| && Accepted(es, i)
    ensures LastHeard(es).From? && es[i].now <= LastHeard(es).at < M64
  {
    var n := |es| - 1;
    if i < n {
      assert es[..n][..i] == es[..i];
      HeardIsLatest(es[..n], i);
    }
  }

  /** Events that mean nothing to the link, or evaluations, leave what was heard as it is. */
  lemma {:induction false} HeardSince(l: Link, es: seq<Event>, j: nat)
    requires !l.learned && j < |es| && es[j].Eval? && forall k :: j < k < |es| ==> SignAt(l, es, k).Nothing?
    ensures LastHeard(es) == LastHeard(es[..j]) && forall k :: j <= k < |es| ==> !Accepted(es, k)
  {
    var n := |es| - 1;
    if j < n {
      var init := es[..n];
      assert forall k :: 0 <= k <= n ==> init[..k] == es[..k];
      forall k | j < k < n ensures SignAt(l, init, k).Nothing? {
        assert SignAt(l, es, k).Nothing?;
      }
      HeardSince(l, init, j);
      HeardIsHistory(l, init);
      assert SignAt(l, es, n).Nothing?;
      forall k | j <= k < |es| ensures !Accepted(es, k) {
        if k < n {
          assert !Accepted(init, k);
        }
      }
    }
  }

  /** The down half on events: a learned link goes down only at an evaluation `now` such that at some earlier
      evaluation `es[j]` and at `now` every message ever accepted was more than 350 ms old, and none was
      accepted in between. */
  lemma GoesDownOnSilence(l: Link, es: seq<Event>, e: Event) returns (j: nat)
    requires !l.learned && l.fails == 0 && l.successes == 0 && InTime(es + [e])
    requires After(l, es).learned && After(l, es).isUp && !After(l, es + [e]).isUp
    ensures e.Eval? && j < |es| && es[j].Eval?
    ensures forall i :: 0 <= i < |es| && Accepted(es, i) ==>
              i < j && es[i].now + 350 < es[j].now && es[i].now + 350 < e.now
  {
    Debounced(l, es, e);
    j := MissesAreConsecutive(l, es);
    HeardSince(l, es, j);
    HeardIsHistory(l, es);
    HeardIsHistory(l, es[..j]);
    assert forall i :: 0 <= i < |es| ==> (es + [e])[i] == es[i];
    assert (es + [e])[|es|] == e;
    assert InTime(es);
    forall i | 0 <= i < |es| && Accepted(es, i)
      ensures i < j && es[i].now + 350 < es[j].now && es[i].now + 350 < e.now
    {
      HeardIsLatest(es, i);
      HeardEarlier(es, j, i);
    }
  }

  /** What was heard before a moment is not later than it. */
  lemma HeardEarlier(es: seq<Event>, j: nat, i: nat)
    requires InTime(es) && j < |es| && i < |es| && Accepted(es, i) && LastHeard(es) == LastHeard(es[..j])
    ensures LastHeard(es).From? ==> LastHeard(es).at <= es[j].now
  {
    HeardTime(es[..j]);
    if LastHeard(es[..j]).From? {
      var k :| 0 <= k < j && es[..j][k].now == LastHeard(es[..j]).at;
    }
  }

  lemma {:induction false} HeardTime(es: seq<Event>)
    ensures LastHeard(es).From? ==> exists k :: 0 <= k < |es| && es[k].now == LastHeard(es).at
  {
    if |es| > 0 {
      HeardTime(es[..|es| - 1]);
    }
  }

  /** Before any message counted, the last evaluation decides: the link is up for a second after it was set
      up, and down from then on. */
  lemma StartupWindow(l: Link, es: seq<Event>, now: nat)
    requires !l.learned && LastHeard(es).Silent? && l.lastRecv <= now < M64
    ensures After(l, es + [Eval(now)]).isUp <==> now - l.lastRecv <= 1000
  {
    HeardIsHistory(l, es);
    assert (es + [Eval(now)])[..|es|] == es;
  }
}
