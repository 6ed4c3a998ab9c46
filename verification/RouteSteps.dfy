/** The route table under concurrency: lock-free scans and locked insertions by any number of threads,
    interleaved way by way and store by store. */
module RouteSteps {
  import opened Helpers
  import opened Serial
  import opened RouteTable

  /** An entry in shared memory; readers look at the other fields only after `valid`. */
  datatype Cell = Cell(valid: bool, key: Key, worker: nat, tx: nat)

  /** Where a thread is. `known` records the index of the key's entry if it was there when the lookup
      began, `at` the index a result was read from; both are -1 otherwise. */
  datatype Pc =
    | Idle
    | Scan(key: Key, hint: int, way: nat, known: int)
    | Waiting(key: Key, hint: int)
    | Rescan(key: Key, hint: int, way: nat, empty: int)
    | Chosen(key: Key, i: nat, worker: nat, tx: nat)
    | Filled(key: Key, i: nat, worker: nat, tx: nat)
    | Counted(key: Key, i: nat, worker: nat, tx: nat)
    | Leaving(key: Key, worker: nat, tx: nat, at: int)
    | Done(key: Key, worker: nat, tx: nat, at: int)
    | Seek(key: Key, dir: nat, way: nat)
    | Found(key: Key, dir: nat, i: nat)
    | Reseek(key: Key, dir: nat, way: nat, at: int)

  /** The two sequence counters of an entry, counted without wrap-around. */
  datatype Sent = Sent(sent0: nat, sent1: nat) {
    function At(dir: nat): nat { if dir == 0 then sent0 else sent1 }
    function Next(dir: nat): Sent { if dir == 0 then Sent(sent0 + 1, sent1) else Sent(sent0, sent1 + 1) }
  }

  /** A number that was handed out: the packet carries `n` modulo 2^32. */
  datatype Draw = Draw(key: Key, dir: nat, n: nat)

  /** Shared memory, the threads, and the history: numbers handed out, and flows sent to the fallback. */
  datatype State = State(cells: seq<Cell>, sent: seq<Sent>, workerLoad: seq<nat>, txLoad: seq<nat>,
                         workerRr: nat, txRr: nat, lock: Option<nat>, pcs: map<nat, Pc>, draws: seq<Draw>,
                         spills: seq<Key>)

  /** `Ask` begins the scan of `dp_udp_next_tx_seq`, `Take` is its fetch-and-add. After a scan that misses, the
      thread looks the flow up and scans `Again`; a second miss sends the flow to the thread's fallback. */
  datatype Action =
    | Begin(key: Key, hint: int) | Look | Acquire | Relook | Choose | Fill | Count | Publish | Release | Finish
    | Ask(key: Key, dir: nat) | SeekLook | Take | Again(dir: nat) | ReseekLook

  predicate Critical(pc: Pc) {
    pc.Rescan? || pc.Chosen? || pc.Filled? || pc.Counted? || pc.Leaving?
  }

  predicate Matches(c: Cell, key: Key) {
    c.valid && c.key == key
  }

  function PcOf(s: State, t: nat): Pc {
    if t in s.pcs then s.pcs[t] else Idle
  }

  /** History only: the index of the key's entry, or -1. */
  function Present(cells: seq<Cell>, base: nat, way: nat, key: Key): (i: int)
    requires base + WAYS <= |cells| && way <= WAYS
    ensures i == -1 || (base + way <= i < base + WAYS && Matches(cells[i], key))
    ensures i == -1 ==> forall j :: base + way <= j < base + WAYS ==> !Matches(cells[j], key)
    decreases WAYS - way
  {
    if way == WAYS then -1
    else if Matches(cells[base + way], key) then base + way
    else Present(cells, base, way + 1, key)
  }

  predicate Sized(s: State) {
    |s.cells| == SIZE && |s.sent| == SIZE && |s.workerLoad| == WORKERS && |s.txLoad| == TX_SLOTS
  }

  predicate Enabled(s: State, t: nat, a: Action)
    requires Sized(s)
  {
    var pc := PcOf(s, t);
    match a
    case Begin(_, _) => pc.Idle?
    case Look => pc.Scan? && pc.way <= WAYS
    case Acquire => pc.Waiting? && s.lock.None?
    case Relook => pc.Rescan? && (pc.way < WAYS || (pc.way == WAYS && pc.empty < 0))
    case Choose => pc.Rescan? && pc.way == WAYS && pc.empty >= 0
    case Fill => pc.Chosen? && pc.i < SIZE
    case Count => pc.Filled? && pc.worker < WORKERS && pc.tx < TX_SLOTS
    case Publish => pc.Counted? && pc.i < SIZE
    case Release => pc.Leaving?
    case Finish => pc.Done?
    case Ask(_, dir) => pc.Idle? && dir <= 1
    case SeekLook => pc.Seek? && pc.way <= WAYS
    case Take => pc.Found? && pc.i < SIZE
    case Again(dir) => pc.Done? && dir <= 1
    case ReseekLook => pc.Reseek? && pc.way <= WAYS
  }

  function Goto(s: State, t: nat, pc: Pc): State {
    s.(pcs := s.pcs[t := pc])
  }

  function Do(hash: Key -> nat, active: nat, s: State, t: nat, a: Action): State
    requires Sized(s) && 0 < active <= TX_SLOTS && Enabled(s, t, a)
  {
    var pc := PcOf(s, t);
    match a
    case Begin(key, hint) => Goto(s, t, Scan(key, hint, 0, Present(s.cells, Base(hash, key), 0, key)))
    case Look =>
      if pc.way == WAYS then Goto(s, t, Waiting(pc.key, pc.hint))
      else
        var i := Base(hash, pc.key) + pc.way;
        if Matches(s.cells[i], pc.key) then Goto(s, t, Done(pc.key, s.cells[i].worker, s.cells[i].tx, i))
        else Goto(s, t, Scan(pc.key, pc.hint, pc.way + 1, pc.known))
    case Acquire => Goto(s.(lock := Some(t)), t, Rescan(pc.key, pc.hint, 0, -1))
    case Relook =>
      if pc.way == WAYS then
        var f := Fallback(hash, pc.key, active);
        Goto(s, t, Leaving(pc.key, f.worker, f.tx, -1))
      else
        var i := Base(hash, pc.key) + pc.way;
        if !s.cells[i].valid then
          Goto(s, t, Rescan(pc.key, pc.hint, pc.way + 1, if pc.empty < 0 then pc.way else pc.empty))
        else if s.cells[i].key == pc.key then Goto(s, t, Leaving(pc.key, s.cells[i].worker, s.cells[i].tx, i))
        else Goto(s, t, Rescan(pc.key, pc.hint, pc.way + 1, pc.empty))
    case Choose =>
      var hinted := 0 <= pc.hint < WORKERS;
      var w := if hinted then pc.hint else LeastLoaded(s.workerLoad, WORKERS, s.workerRr);
      var x := LeastLoaded(s.txLoad, active, s.txRr);
      Goto(s.(workerRr := if hinted then s.workerRr else Wire(s.workerRr + 1), txRr := Wire(s.txRr + 1)),
           t, Chosen(pc.key, Base(hash, pc.key) + pc.empty, w, x))
    case Fill =>
      Goto(s.(cells := s.cells[pc.i := Cell(s.cells[pc.i].valid, pc.key, pc.worker, pc.tx)],
              sent := s.sent[pc.i := Sent(0, 0)]), t, Filled(pc.key, pc.i, pc.worker, pc.tx))
    case Count =>
      Goto(s.(workerLoad := s.workerLoad[pc.worker := s.workerLoad[pc.worker] + 1],
              txLoad := s.txLoad[pc.tx := s.txLoad[pc.tx] + 1]), t, Counted(pc.key, pc.i, pc.worker, pc.tx))
    case Publish =>
      Goto(s.(cells := s.cells[pc.i := s.cells[pc.i].(valid := true)]), t, Leaving(pc.key, pc.worker, pc.tx, pc.i))
    case Release => Goto(s.(lock := None), t, Done(pc.key, pc.worker, pc.tx, pc.at))
    case Finish => Goto(s, t, Idle)
    case Ask(key, dir) => Goto(s, t, Seek(key, dir, 0))
    case SeekLook =>
      if pc.way == WAYS then Goto(s, t, Idle)
      else
        var i := Base(hash, pc.key) + pc.way;
        if Matches(s.cells[i], pc.key) then Goto(s, t, Found(pc.key, pc.dir, i))
        else Goto(s, t, Seek(pc.key, pc.dir, pc.way + 1))
    case Again(dir) => Goto(s, t, Reseek(pc.key, dir, 0, pc.at))
    case ReseekLook =>
      if pc.way == WAYS then Goto(s.(spills := s.spills + [pc.key]), t, Idle)
      else
        var i := Base(hash, pc.key) + pc.way;
        if Matches(s.cells[i], pc.key) then Goto(s, t, Found(pc.key, pc.dir, i))
        else Goto(s, t, Reseek(pc.key, pc.dir, pc.way + 1, pc.at))
    case Take =>
      Goto(s.(sent := s.sent[pc.i := s.sent[pc.i].Next(pc.dir)],
              draws := s.draws + [Draw(pc.key, pc.dir, s.sent[pc.i].At(pc.dir))]), t, Idle)
  }

  /* ---- counting ---- */

  function OnWorker(w: nat): Cell -> bool { (c: Cell) => c.valid && c.worker == w }
  function OnTx(x: nat): Cell -> bool { (c: Cell) => c.valid && c.tx == x }
  function InUse(): Cell -> bool { (c: Cell) => c.valid }

  /** The pc of the lock holder. */
  function Holder(s: State): Pc {
    if s.lock.Some? then PcOf(s, s.lock.value) else Idle
  }

  function Bit(b: bool): nat {
    if b then 1 else 0
  }

  /* ---- the invariant ---- */

  ghost predicate CellsOk(hash: Key -> nat, s: State) {
    && Sized(s)
    && (forall i :: 0 <= i < SIZE && s.cells[i].valid ==>
          Base(hash, s.cells[i].key) <= i < Base(hash, s.cells[i].key) + WAYS)
    && (forall i, j :: 0 <= i < j < SIZE && s.cells[i].valid && s.cells[j].valid ==> s.cells[i].key != s.cells[j].key)
  }

  /** Load counters and the TX cursor, up to an insertion in progress; even loads. */
  ghost predicate LoadsOk(active: nat, s: State) {
    var h := Holder(s);
    && Sized(s) && 0 < active <= TX_SLOTS
    && (forall w :: 0 <= w < WORKERS ==>
          s.workerLoad[w] == CountIf(s.cells, OnWorker(w)) + Bit(h.Counted? && h.worker == w))
    && (forall x :: 0 <= x < TX_SLOTS ==> s.txLoad[x] == CountIf(s.cells, OnTx(x)) + Bit(h.Counted? && h.tx == x))
    && s.txRr == CountIf(s.cells, InUse()) + Bit(h.Chosen? || h.Filled? || h.Counted?)
    && s.workerRr <= s.txRr
    && Even(s.txLoad, active)
    && (h.Chosen? || h.Filled? ==> h.tx < TX_SLOTS && Even(s.txLoad[h.tx := s.txLoad[h.tx] + 1], active))
  }

  ghost predicate PcOk(hash: Key -> nat, active: nat, s: State, pc: Pc)
    requires Sized(s) && 0 < active <= TX_SLOTS
  {
    match pc
    case Idle => true
    case Scan(key, _, way, known) =>
      && way <= WAYS
      && (known >= 0 ==> Base(hash, key) + way <= known < Base(hash, key) + WAYS && Matches(s.cells[known], key))
    case Waiting(_, _) => true
    case Rescan(key, _, way, empty) =>
      var base := Base(hash, key);
      && way <= WAYS && -1 <= empty < way
      && (forall j :: base <= j < base + way ==> !Matches(s.cells[j], key))
      && (empty >= 0 ==> !s.cells[base + empty].valid)
      && (empty < 0 ==> forall j :: base <= j < base + way ==> s.cells[j].valid)
    case Chosen(key, i, w, x) => Inserting(hash, active, s, key, i, w, x)
    case Filled(key, i, w, x) => Inserting(hash, active, s, key, i, w, x) && s.cells[i] == Cell(false, key, w, x)
    case Counted(key, i, w, x) => Inserting(hash, active, s, key, i, w, x) && s.cells[i] == Cell(false, key, w, x)
    case Leaving(key, w, x, at) => Result(hash, active, s, key, w, x, at)
    case Done(key, w, x, at) => Result(hash, active, s, key, w, x, at)
    case Seek(_, dir, way) => dir <= 1 && way <= WAYS
    case Found(key, dir, i) => dir <= 1 && i < SIZE && Matches(s.cells[i], key)
    case Reseek(key, dir, way, at) =>
      && dir <= 1 && way <= WAYS
      && (if at >= 0 then Base(hash, key) + way <= at < Base(hash, key) + WAYS && Matches(s.cells[at], key)
          else Full(hash, s, key))
  }

  ghost predicate Inserting(hash: Key -> nat, active: nat, s: State, key: Key, i: nat, w: nat, x: nat)
    requires Sized(s)
  {
    var base := Base(hash, key);
    && base <= i < base + WAYS && !s.cells[i].valid && w < WORKERS && x < active <= TX_SLOTS
    && forall j :: base <= j < base + WAYS ==> !Matches(s.cells[j], key)
  }

  ghost predicate Result(hash: Key -> nat, active: nat, s: State, key: Key, w: nat, x: nat, at: int)
    requires Sized(s) && 0 < active
  {
    if at >= 0 then at < SIZE && s.cells[at] == Cell(true, key, w, x)
    else Route(w, x) == Fallback(hash, key, active) && Full(hash, s, key)
  }

  /** The set of the key is full of other flows. */
  ghost predicate Full(hash: Key -> nat, s: State, key: Key)
    requires Sized(s)
  {
    forall j :: Base(hash, key) <= j < Base(hash, key) + WAYS ==> s.cells[j].valid && s.cells[j].key != key
  }

  ghost predicate RouteOk(hash: Key -> nat, active: nat, s: State) {
    && CellsOk(hash, s) && LoadsOk(active, s)
    && (forall t: nat :: Critical(PcOf(s, t)) <==> s.lock == Some(t))
    && (forall t: nat :: PcOk(hash, active, s, PcOf(s, t)))
  }

  /* ---- steps ---- */

  /** A step of one thread leaves what the others know true. */
  ghost predicate Extends(s: State, s': State) {
    && Sized(s) && Sized(s')
    && forall i :: 0 <= i < SIZE && s.cells[i].valid ==> s'.cells[i] == s.cells[i]
  }

  lemma OthersKeep(hash: Key -> nat, active: nat, s: State, s': State, pc: Pc)
    requires Sized(s) && 0 < active <= TX_SLOTS && Extends(s, s') && !Critical(pc) && PcOk(hash, active, s, pc)
    ensures PcOk(hash, active, s', pc)
  {
    hide Base;
  }

  /** A thread moves on without touching cells, counters or an insertion in progress. */
  lemma Relocate(hash: Key -> nat, active: nat, s: State, s': State, t: nat)
    requires RouteOk(hash, active, s)
    requires s'.cells == s.cells && |s'.sent| == |s.sent|
    requires s'.workerLoad == s.workerLoad && s'.txLoad == s.txLoad && s'.txRr == s.txRr && s'.workerRr == s.workerRr
    requires forall u: nat :: u != t ==> PcOf(s', u) == PcOf(s, u)
    requires forall u: nat :: u != t ==> (s'.lock == Some(u) <==> s.lock == Some(u))
    requires PcOk(hash, active, s', PcOf(s', t)) && (Critical(PcOf(s', t)) <==> s'.lock == Some(t))
    requires !Inserts(PcOf(s, t)) && !Inserts(PcOf(s', t))
    ensures RouteOk(hash, active, s')
  {
    hide Base, CountIf, Even;
    assert Critical(PcOf(s, t)) <==> s.lock == Some(t);
    assert Inserts(Holder(s)) || Inserts(Holder(s')) ==> Holder(s') == Holder(s);
    forall u: nat ensures PcOk(hash, active, s', PcOf(s', u)) && (Critical(PcOf(s', u)) <==> s'.lock == Some(u)) {
      if u != t {
        assert PcOk(hash, active, s, PcOf(s, u));
        assert Critical(PcOf(s, u)) <==> s.lock == Some(u);
      }
    }
  }

  predicate Inserts(pc: Pc) {
    pc.Chosen? || pc.Filled? || pc.Counted?
  }

  lemma EndsOk(hash: Key -> nat, active: nat, s: State, t: nat, a: Action)
    requires RouteOk(hash, active, s) && Enabled(s, t, a) && (a.Begin? || a.Finish?)
    ensures RouteOk(hash, active, Do(hash, active, s, t, a))
  {
    hide Base, CountIf, Even, LoadsOk, Fallback;
    LoadsShape(active, s);
    assert PcOk(hash, active, s, PcOf(s, t));
    assert Critical(PcOf(s, t)) <==> s.lock == Some(t);
    Relocate(hash, active, s, Do(hash, active, s, t, a), t);
  }

  lemma LookOk(hash: Key -> nat, active: nat, s: State, t: nat)
    requires RouteOk(hash, active, s) && Enabled(s, t, Look)
    ensures RouteOk(hash, active, Do(hash, active, s, t, Look))
  {
    hide Base, CountIf, Even, LoadsOk, Fallback;
    LoadsShape(active, s);
    assert PcOk(hash, active, s, PcOf(s, t));
    assert Critical(PcOf(s, t)) <==> s.lock == Some(t);
    Relocate(hash, active, s, Do(hash, active, s, t, Look), t);
  }

  lemma LoadsShape(active: nat, s: State)
    requires LoadsOk(active, s)
    ensures Sized(s) && 0 < active <= TX_SLOTS
  {
  }

  lemma LockStepOk(hash: Key -> nat, active: nat, s: State, t: nat, a: Action)
    requires RouteOk(hash, active, s) && Enabled(s, t, a) && (a.Acquire? || a.Release?)
    ensures RouteOk(hash, active, Do(hash, active, s, t, a))
  {
    hide Base, CountIf, Even, LoadsOk, Fallback;
    LoadsShape(active, s);
    assert PcOk(hash, active, s, PcOf(s, t));
    assert Critical(PcOf(s, t)) <==> s.lock == Some(t);
    Relocate(hash, active, s, Do(hash, active, s, t, a), t);
  }

  lemma RelookOk(hash: Key -> nat, active: nat, s: State, t: nat)
    requires RouteOk(hash, active, s) && Enabled(s, t, Relook)
    ensures RouteOk(hash, active, Do(hash, active, s, t, Relook))
  {
    hide Base, CountIf, Even, LoadsOk, Fallback;
    LoadsShape(active, s);
    assert PcOk(hash, active, s, PcOf(s, t));
    assert Critical(PcOf(s, t)) <==> s.lock == Some(t);
    Relocate(hash, active, s, Do(hash, active, s, t, Relook), t);
  }

  lemma NumberStepOk(hash: Key -> nat, active: nat, s: State, t: nat, a: Action)
    requires RouteOk(hash, active, s) && Enabled(s, t, a) && (a.Ask? || a.SeekLook? || a.Take?)
    ensures RouteOk(hash, active, Do(hash, active, s, t, a))
  {
    hide Base, CountIf, Even, LoadsOk, Fallback;
    LoadsShape(active, s);
    assert PcOk(hash, active, s, PcOf(s, t));
    assert Critical(PcOf(s, t)) <==> s.lock == Some(t);
    Relocate(hash, active, s, Do(hash, active, s, t, a), t);
  }

  lemma AgainOk(hash: Key -> nat, active: nat, s: State, t: nat, dir: nat)
    requires RouteOk(hash, active, s) && Enabled(s, t, Again(dir))
    ensures RouteOk(hash, active, Do(hash, active, s, t, Again(dir)))
  {
    hide Base, CountIf, Even, LoadsOk, Fallback;
    LoadsShape(active, s);
    assert PcOk(hash, active, s, PcOf(s, t));
    assert Critical(PcOf(s, t)) <==> s.lock == Some(t);
    Relocate(hash, active, s, Do(hash, active, s, t, Again(dir)), t);
  }

  /** The second scan cannot miss an entry that the lookup read. */
  lemma ReseekOk(hash: Key -> nat, active: nat, s: State, t: nat)
    requires RouteOk(hash, active, s) && Enabled(s, t, ReseekLook)
    ensures RouteOk(hash, active, Do(hash, active, s, t, ReseekLook))
  {
    hide Base, CountIf, Even, LoadsOk, Fallback;
    LoadsShape(active, s);
    var pc := PcOf(s, t);
    assert PcOk(hash, active, s, pc);
    assert Critical(pc) <==> s.lock == Some(t);
    assert pc.way < WAYS && Matches(s.cells[Base(hash, pc.key) + pc.way], pc.key) && pc.at >= 0 ==>
             pc.at == Base(hash, pc.key) + pc.way;
    Relocate(hash, active, s, Do(hash, active, s, t, ReseekLook), t);
  }

  /** Only a full set sends a flow to the fallback. */
  lemma SpillsFull(hash: Key -> nat, active: nat, s: State, t: nat)
    requires RouteOk(hash, active, s) && Enabled(s, t, ReseekLook) && PcOf(s, t).way == WAYS
    ensures Full(hash, s, PcOf(s, t).key)
  {
    hide Base, LoadsOk, CellsOk;
    LoadsShape(active, s);
    assert PcOk(hash, active, s, PcOf(s, t));
  }

  lemma ChooseOk(hash: Key -> nat, active: nat, s: State, t: nat)
    requires RouteOk(hash, active, s) && Enabled(s, t, Choose)
    ensures RouteOk(hash, active, Do(hash, active, s, t, Choose))
  {
    hide Base, CountIf, Even, LeastLoaded;
    var s' := Do(hash, active, s, t, Choose);
    var pc := PcOf(s, t);
    assert Critical(pc) <==> s.lock == Some(t);
    assert PcOk(hash, active, s, pc);
    CountUpdate(s.cells, Base(hash, pc.key) + pc.empty, s.cells[Base(hash, pc.key) + pc.empty], InUse());
    WireSmall(s.txRr + 1);
    AddKeepsEven(s.txLoad, active, s.txRr);
    forall u: nat ensures PcOk(hash, active, s', PcOf(s', u)) && (Critical(PcOf(s', u)) <==> s'.lock == Some(u)) {
      if u != t {
        assert PcOk(hash, active, s, PcOf(s, u));
        assert Critical(PcOf(s, u)) <==> s.lock == Some(u);
      }
    }
  }

  /** What an insertion chooses: the worker it was given as a hint, otherwise one of the least loaded; and one of
      the least loaded active TX slots. */
  lemma ChooseLeast(hash: Key -> nat, active: nat, s: State, t: nat)
    requires RouteOk(hash, active, s) && Enabled(s, t, Choose)
    ensures Sized(s) && 0 < active <= TX_SLOTS
    ensures var pc, c := PcOf(s, t), PcOf(Do(hash, active, s, t, Choose), t);
            && c.Chosen? && c.key == pc.key && c.worker < WORKERS && c.tx < active
            && (if 0 <= pc.hint < WORKERS then c.worker == pc.hint
                else forall w :: 0 <= w < WORKERS ==> s.workerLoad[c.worker] <= s.workerLoad[w])
            && forall x :: 0 <= x < active ==> s.txLoad[c.tx] <= s.txLoad[x]
  {
    hide Base, CountIf, Even, LeastLoaded;
    CountBound(s.cells, InUse());
    SizeBound();
    forall w | 0 <= w < WORKERS
      ensures s.workerLoad[LeastLoaded(s.workerLoad, WORKERS, s.workerRr)] <= s.workerLoad[w]
    {
      LeastLoadedMin(s.workerLoad, WORKERS, s.workerRr, w);
    }
    forall x | 0 <= x < active ensures s.txLoad[LeastLoaded(s.txLoad, active, s.txRr)] <= s.txLoad[x] {
      LeastLoadedMin(s.txLoad, active, s.txRr, x);
    }
  }

  lemma FillOk(hash: Key -> nat, active: nat, s: State, t: nat)
    requires RouteOk(hash, active, s) && Enabled(s, t, Fill)
    ensures RouteOk(hash, active, Do(hash, active, s, t, Fill))
  {
    hide Base, CountIf, Even;
    var s' := Do(hash, active, s, t, Fill);
    var pc := PcOf(s, t);
    assert Critical(pc) <==> s.lock == Some(t);
    assert PcOk(hash, active, s, pc);
    var c := s'.cells[pc.i];
    CountUpdate(s.cells, pc.i, c, InUse());
    forall w: nat ensures CountIf(s'.cells, OnWorker(w)) == CountIf(s.cells, OnWorker(w)) {
      CountUpdate(s.cells, pc.i, c, OnWorker(w));
    }
    forall x: nat ensures CountIf(s'.cells, OnTx(x)) == CountIf(s.cells, OnTx(x)) {
      CountUpdate(s.cells, pc.i, c, OnTx(x));
    }
    OtherThreads(hash, active, s, s', t);
  }

  /** The pcs of the other threads survive a step of the lock holder. */
  lemma OtherThreads(hash: Key -> nat, active: nat, s: State, s': State, t: nat)
    requires RouteOk(hash, active, s) && Extends(s, s') && s.lock == Some(t)
    requires forall u: nat :: u != t ==> PcOf(s', u) == PcOf(s, u)
    ensures forall u: nat :: u != t ==> PcOk(hash, active, s', PcOf(s', u)) && !Critical(PcOf(s', u))
  {
    hide PcOk;
    forall u: nat | u != t ensures PcOk(hash, active, s', PcOf(s', u)) && !Critical(PcOf(s', u)) {
      assert Critical(PcOf(s, u)) <==> s.lock == Some(u);
      assert PcOk(hash, active, s, PcOf(s, u));
      OthersKeep(hash, active, s, s', PcOf(s, u));
    }
  }

  lemma CountOk(hash: Key -> nat, active: nat, s: State, t: nat)
    requires RouteOk(hash, active, s) && Enabled(s, t, Count)
    ensures RouteOk(hash, active, Do(hash, active, s, t, Count))
  {
    hide Base, CountIf, Even;
    var s' := Do(hash, active, s, t, Count);
    var pc := PcOf(s, t);
    assert Critical(pc) <==> s.lock == Some(t);
    assert PcOk(hash, active, s, pc);
    OtherThreads(hash, active, s, s', t);
    assert PcOk(hash, active, s', PcOf(s', t));
  }

  lemma PublishOk(hash: Key -> nat, active: nat, s: State, t: nat)
    requires RouteOk(hash, active, s) && Enabled(s, t, Publish)
    ensures RouteOk(hash, active, Do(hash, active, s, t, Publish))
  {
    hide Base, CountIf, Even;
    var s' := Do(hash, active, s, t, Publish);
    var pc := PcOf(s, t);
    assert Critical(pc) <==> s.lock == Some(t);
    assert PcOk(hash, active, s, pc);
    OtherThreads(hash, active, s, s', t);
    PublishLoads(hash, active, s, t);
    forall i | 0 <= i < SIZE && s.cells[i].valid ensures s.cells[i].key != pc.key {
      assert Base(hash, s.cells[i].key) <= i < Base(hash, s.cells[i].key) + WAYS;
      assert Base(hash, pc.key) <= i < Base(hash, pc.key) + WAYS ==> !Matches(s.cells[i], pc.key);
    }
    assert PcOk(hash, active, s', PcOf(s', t));
  }

  lemma PublishLoads(hash: Key -> nat, active: nat, s: State, t: nat)
    requires RouteOk(hash, active, s) && Enabled(s, t, Publish)
    ensures LoadsOk(active, Do(hash, active, s, t, Publish))
  {
    hide Base, CountIf, Even;
    var s' := Do(hash, active, s, t, Publish);
    var pc := PcOf(s, t);
    assert Critical(pc) <==> s.lock == Some(t);
    assert PcOk(hash, active, s, pc);
    var c := s'.cells[pc.i];
    CountUpdate(s.cells, pc.i, c, InUse());
    forall w: nat ensures CountIf(s'.cells, OnWorker(w)) == CountIf(s.cells, OnWorker(w)) + Bit(pc.worker == w) {
      CountUpdate(s.cells, pc.i, c, OnWorker(w));
    }
    forall x: nat ensures CountIf(s'.cells, OnTx(x)) == CountIf(s.cells, OnTx(x)) + Bit(pc.tx == x) {
      CountUpdate(s.cells, pc.i, c, OnTx(x));
    }
  }

  lemma StepOk(hash: Key -> nat, active: nat, s: State, t: nat, a: Action)
    requires RouteOk(hash, active, s) && Enabled(s, t, a)
    ensures RouteOk(hash, active, Do(hash, active, s, t, a))
    ensures Extends(s, Do(hash, active, s, t, a))
  {
    hide Base, CountIf, Even, LoadsOk;
    LoadsShape(active, s);
    assert PcOk(hash, active, s, PcOf(s, t));
    match a
    case Choose => ChooseOk(hash, active, s, t);
    case Fill => FillOk(hash, active, s, t);
    case Count => CountOk(hash, active, s, t);
    case Publish => PublishOk(hash, active, s, t);
    case Begin(_, _) => EndsOk(hash, active, s, t, a);
    case Look => LookOk(hash, active, s, t);
    case Finish => EndsOk(hash, active, s, t, a);
    case Acquire => LockStepOk(hash, active, s, t, a);
    case Relook => RelookOk(hash, active, s, t);
    case Release => LockStepOk(hash, active, s, t, a);
    case Ask(_, _) => NumberStepOk(hash, active, s, t, a);
    case SeekLook => NumberStepOk(hash, active, s, t, a);
    case Take => NumberStepOk(hash, active, s, t, a);
    case Again(dir) => AgainOk(hash, active, s, t, dir);
    case ReseekLook => ReseekOk(hash, active, s, t);
  }

  /* ---- runs ---- */

  function Start(): State {
    State(seq(SIZE, i => Cell(false, Key(0, 0, 0, 0, 0), 0, 0)), seq(SIZE, i => Sent(0, 0)),
          seq(WORKERS, i => 0), seq(TX_SLOTS, i => 0), 0, 0, None, map[], [], [])
  }

  predicate Stepped(hash: Key -> nat, active: nat, s: State, s': State, t: nat, a: Action) {
    Sized(s) && 0 < active <= TX_SLOTS && Enabled(s, t, a) && s' == Do(hash, active, s, t, a)
  }

  ghost predicate Follows(hash: Key -> nat, active: nat, s: State, s': State) {
    exists t, a :: Stepped(hash, active, s, s', t, a)
  }

  ghost predicate Runs(hash: Key -> nat, active: nat, ss: seq<State>) {
    && 0 < active <= TX_SLOTS && |ss| > 0 && ss[0] == Start()
    && forall i :: 0 <= i < |ss| - 1 ==> Follows(hash, active, ss[i], ss[i + 1])
  }

  lemma StartOk(hash: Key -> nat, active: nat)
    requires 0 < active <= TX_SLOTS
    ensures RouteOk(hash, active, Start())
  {
    hide CountIf, Base;
    var s := Start();
    CountNone(s.cells, InUse());
    forall w: nat ensures CountIf(s.cells, OnWorker(w)) == 0 {
      CountNone(s.cells, OnWorker(w));
    }
    forall x: nat ensures CountIf(s.cells, OnTx(x)) == 0 {
      CountNone(s.cells, OnTx(x));
    }
  }

  /** Main concurrency theorem: every state of every interleaving satisfies the invariant. */
  lemma {:induction false} RunOk(hash: Key -> nat, active: nat, ss: seq<State>, i: nat)
    requires Runs(hash, active, ss) && i < |ss|
    ensures RouteOk(hash, active, ss[i])
  {
    hide RouteOk, Do, Enabled, Start;
    if i == 0 {
      StartOk(hash, active);
    } else {
      RunOk(hash, active, ss, i - 1);
      assert Follows(hash, active, ss[i - 1], ss[i - 1 + 1]);
      var t, a :| Stepped(hash, active, ss[i - 1], ss[i], t, a);
      StepOk(hash, active, ss[i - 1], t, a);
    }
  }

  lemma {:induction false} CellsStay(hash: Key -> nat, active: nat, ss: seq<State>, i: nat, j: nat)
    requires Runs(hash, active, ss) && i <= j < |ss|
    ensures Extends(ss[i], ss[j])
    decreases j - i
  {
    hide RouteOk, Do, Enabled, Start;
    RunOk(hash, active, ss, i);
    RunOk(hash, active, ss, j);
    SizedOk(hash, active, ss[i]);
    if i < j {
      CellsStay(hash, active, ss, i, j - 1);
      RunOk(hash, active, ss, j - 1);
      assert Follows(hash, active, ss[j - 1], ss[j - 1 + 1]);
      var t, a :| Stepped(hash, active, ss[j - 1], ss[j], t, a);
      StepOk(hash, active, ss[j - 1], t, a);
    }
  }

  lemma SizedOk(hash: Key -> nat, active: nat, s: State)
    requires RouteOk(hash, active, s)
    ensures Sized(s)
  {
  }

  /** Stickiness over whole runs: any two completed lookups of one key, by any threads, at any times, with
      any hints, got the same worker and the same TX slot, from the table or from the hash: a full set
      stays full, and a published entry never changes. */
  lemma StickyRoute(hash: Key -> nat, active: nat, ss: seq<State>, i: nat, j: nat, t: nat, u: nat)
    requires Runs(hash, active, ss) && i <= j < |ss|
    requires PcOf(ss[i], t).Done? && PcOf(ss[j], u).Done? && PcOf(ss[i], t).key == PcOf(ss[j], u).key
    ensures PcOf(ss[i], t).worker == PcOf(ss[j], u).worker && PcOf(ss[i], t).tx == PcOf(ss[j], u).tx
  {
    hide Do, Enabled, Start, LoadsOk, Base;
    RunOk(hash, active, ss, i);
    RunOk(hash, active, ss, j);
    CellsStay(hash, active, ss, i, j);
    var a, b := PcOf(ss[i], t), PcOf(ss[j], u);
    assert PcOk(hash, active, ss[i], a) && PcOk(hash, active, ss[j], b);
  }

  /** Where a lookup that knows its entry can be: in the lock-free scan, or done with that entry's route. */
  ghost predicate OnEntry(s: State, t: nat, key: Key, k: nat) {
    var pc := PcOf(s, t);
    && Sized(s) && k < SIZE && Matches(s.cells[k], key)
    && ((pc.Scan? && pc.key == key && pc.known == k)
        || (pc.Done? && pc.key == key && pc.at == k && pc.worker == s.cells[k].worker && pc.tx == s.cells[k].tx))
  }

  /** The lookup is over. */
  predicate Ended(pc: Pc) {
    pc.Idle? || pc.Reseek?
  }

  /** One step, of this thread or another, does not take such a lookup anywhere else. */
  lemma OnEntryStays(hash: Key -> nat, active: nat, s: State, s': State, u: nat, a: Action, t: nat, key: Key, k: nat)
    requires RouteOk(hash, active, s) && Stepped(hash, active, s, s', u, a) && OnEntry(s, t, key, k)
    requires !Ended(PcOf(s', t))
    ensures OnEntry(s', t, key, k)
  {
    hide LoadsOk, Base, PcOk, Do, CellsOk;
    StepOk(hash, active, s, u, a);
    if u == t {
      OwnScan(hash, active, s, t, a, key, k);
    } else {
      OtherScan(hash, active, s, u, a, t);
    }
  }

  lemma OtherScan(hash: Key -> nat, active: nat, s: State, u: nat, a: Action, t: nat)
    requires Sized(s) && 0 < active <= TX_SLOTS && Enabled(s, u, a) && u != t
    ensures PcOf(Do(hash, active, s, u, a), t) == PcOf(s, t)
  {
    hide Base;
  }

  lemma OwnScan(hash: Key -> nat, active: nat, s: State, t: nat, a: Action, key: Key, k: nat)
    requires RouteOk(hash, active, s) && Sized(s) && 0 < active <= TX_SLOTS && Enabled(s, t, a) && OnEntry(s, t, key, k)
    ensures var s' := Do(hash, active, s, t, a); Ended(PcOf(s', t)) || OnEntry(s', t, key, k)
  {
    hide LoadsOk, Base;
    assert PcOk(hash, active, s, PcOf(s, t));
    assert a.Look? || a.Finish? || a.Again?;
    if a.Look? && Matches(s.cells[Base(hash, key) + PcOf(s, t).way], key) {
      assert Base(hash, key) + PcOf(s, t).way == k;
    }
  }

  /** A lookup that begins when the flow is present is answered from its entry by the lock-free scan alone:
      whatever the other threads do, at every moment until it ends it is scanning or done with the
      entry's route, and never waits for the lock. */
  lemma {:induction false} EstablishedIsLockFree(hash: Key -> nat, active: nat, ss: seq<State>, i: nat, j: nat,
                                                 t: nat, k: nat)
    requires Runs(hash, active, ss) && i < j < |ss| && k < SIZE
    requires PcOf(ss[i], t).Idle? && PcOf(ss[i + 1], t).Scan?
    requires Sized(ss[i]) && Matches(ss[i].cells[k], PcOf(ss[i + 1], t).key)
    requires forall m :: i < m <= j ==> !Ended(PcOf(ss[m], t))
    ensures OnEntry(ss[j], t, PcOf(ss[i + 1], t).key, k)
  {
    hide RouteOk, Do, Enabled, Start, OnEntry;
    RunOk(hash, active, ss, j - 1);
    var key := PcOf(ss[i + 1], t).key;
    assert Follows(hash, active, ss[j - 1], ss[j - 1 + 1]);
    var u, a :| Stepped(hash, active, ss[j - 1], ss[j], u, a);
    if j == i + 1 {
      BeginKnows(hash, active, ss[i], ss[j], u, a, t, k);
    } else {
      EstablishedIsLockFree(hash, active, ss, i, j - 1, t, k);
      OnEntryStays(hash, active, ss[j - 1], ss[j], u, a, t, key, k);
    }
  }

  lemma BeginKnows(hash: Key -> nat, active: nat, s: State, s': State, u: nat, a: Action, t: nat, k: nat)
    requires RouteOk(hash, active, s) && Stepped(hash, active, s, s', u, a) && k < SIZE
    requires PcOf(s, t).Idle? && PcOf(s', t).Scan? && Matches(s.cells[k], PcOf(s', t).key)
    ensures OnEntry(s', t, PcOf(s', t).key, k)
  {
    hide LoadsOk, Base, PcOk;
    assert u == t && a.Begin?;
  }

  /** Whenever no insertion is in progress the counters equal the numbers of entries, and with a constant
      number of active TX slots their loads never differ by more than one, insertion or not. */
  lemma LoadsEven(hash: Key -> nat, active: nat, ss: seq<State>, i: nat)
    requires Runs(hash, active, ss) && i < |ss|
    ensures Sized(ss[i]) && active <= |ss[i].txLoad| && Even(ss[i].txLoad, active)
    ensures ss[i].lock.None? ==>
              && (forall w :: 0 <= w < WORKERS ==> ss[i].workerLoad[w] == CountIf(ss[i].cells, OnWorker(w)))
              && (forall x :: 0 <= x < TX_SLOTS ==> ss[i].txLoad[x] == CountIf(ss[i].cells, OnTx(x)))
  {
    hide Do, Enabled, Start, Base, CountIf, CellsOk, PcOk;
    RunOk(hash, active, ss, i);
  }

  /* ---- sequence numbers ---- */

  function Of(key: Key, dir: nat): Draw -> bool {
    (d: Draw) => d.key == key && d.dir == dir
  }

  /** Each number handed out says how many its flow and direction had been given before. */
  ghost predicate DrawsOk(ds: seq<Draw>) {
    forall j :: 0 <= j < |ds| ==> ds[j].n == CountIf(ds[..j], Of(ds[j].key, ds[j].dir))
  }

  /** The counters of a published entry count the numbers handed out; those of an entry that is being
      filled are zero; only flows with a published entry have been given any. */
  ghost predicate NumbersOk(s: State) {
    && Sized(s) && DrawsOk(s.draws)
    && (forall i, dir :: 0 <= i < SIZE && 0 <= dir <= 1 && s.cells[i].valid ==>
          s.sent[i].At(dir) == CountIf(s.draws, Of(s.cells[i].key, dir)))
    && (forall j :: 0 <= j < |s.draws| ==> Published(s.cells, s.draws[j].key))
    && (var h := Holder(s); h.Filled? || h.Counted? ==> h.i < SIZE && s.sent[h.i] == Sent(0, 0))
  }

  ghost predicate Published(cells: seq<Cell>, key: Key) {
    exists i :: 0 <= i < |cells| && Matches(cells[i], key)
  }

  lemma DrawsAppend(ds: seq<Draw>, d: Draw, key: Key, dir: nat)
    ensures CountIf(ds + [d], Of(key, dir)) == CountIf(ds, Of(key, dir)) + Bit(d.key == key && d.dir == dir)
  {
    assert (ds + [d])[..|ds|] == ds;
  }

  lemma TakeDraws(ds: seq<Draw>, d: Draw)
    requires DrawsOk(ds) && d.n == CountIf(ds, Of(d.key, d.dir))
    ensures DrawsOk(ds + [d])
  {
    hide CountIf;
    var es := ds + [d];
    forall j | 0 <= j < |es| ensures es[j].n == CountIf(es[..j], Of(es[j].key, es[j].dir)) {
      if j < |ds| {
        assert es[..j] == ds[..j];
      } else {
        assert es[..j] == ds;
      }
    }
  }

  /** The fetch-and-add: it hands out the next number of this flow and direction and of no other. */
  lemma TakeNumbers(hash: Key -> nat, active: nat, s: State, t: nat)
    requires RouteOk(hash, active, s) && NumbersOk(s) && Enabled(s, t, Take)
    ensures NumbersOk(Do(hash, active, s, t, Take))
  {
    hide Base, CountIf, LoadsOk, DrawsOk;
    LoadsShape(active, s);
    var s' := Do(hash, active, s, t, Take);
    var pc := PcOf(s, t);
    assert PcOk(hash, active, s, pc);
    assert Critical(pc) <==> s.lock == Some(t);
    var d := Draw(pc.key, pc.dir, s.sent[pc.i].At(pc.dir));
    TakeDraws(s.draws, d);
    forall i, dir | 0 <= i < SIZE && 0 <= dir <= 1 && s.cells[i].valid
      ensures s'.sent[i].At(dir) == CountIf(s'.draws, Of(s'.cells[i].key, dir))
    {
      DrawsAppend(s.draws, d, s.cells[i].key, dir);
      assert i != pc.i ==> s.cells[i].key != pc.key;
    }
    forall j | 0 <= j < |s'.draws| ensures Published(s'.cells, s'.draws[j].key) {
      if j < |s.draws| {
        assert Published(s.cells, s.draws[j].key);
      }
    }
    HolderStays(s, s', t);
  }

  lemma HolderStays(s: State, s': State, t: nat)
    requires s'.lock == s.lock && s.lock != Some(t) && (forall u: nat :: u != t ==> PcOf(s', u) == PcOf(s, u))
    ensures Holder(s') == Holder(s)
  {
  }

  /** A newly published flow has been given no number yet. */
  lemma PublishNumbers(hash: Key -> nat, active: nat, s: State, t: nat)
    requires RouteOk(hash, active, s) && NumbersOk(s) && Enabled(s, t, Publish)
    ensures NumbersOk(Do(hash, active, s, t, Publish))
  {
    hide Base, CountIf, LoadsOk, DrawsOk;
    LoadsShape(active, s);
    var s' := Do(hash, active, s, t, Publish);
    var pc := PcOf(s, t);
    assert PcOk(hash, active, s, pc);
    assert Critical(pc) <==> s.lock == Some(t);
    forall j | 0 <= j < |s.draws| ensures s.draws[j].key != pc.key && Published(s'.cells, s.draws[j].key) {
      var i :| 0 <= i < SIZE && Matches(s.cells[i], s.draws[j].key);
      assert Matches(s'.cells[i], s.draws[j].key);
      assert Base(hash, s.cells[i].key) <= i < Base(hash, s.cells[i].key) + WAYS;
    }
    CountNone(s.draws, Of(pc.key, 0));
    CountNone(s.draws, Of(pc.key, 1));
  }

  lemma FillNumbers(hash: Key -> nat, active: nat, s: State, t: nat)
    requires RouteOk(hash, active, s) && NumbersOk(s) && Enabled(s, t, Fill)
    ensures NumbersOk(Do(hash, active, s, t, Fill))
  {
    hide Base, CountIf, LoadsOk, DrawsOk;
    LoadsShape(active, s);
    var s' := Do(hash, active, s, t, Fill);
    var pc := PcOf(s, t);
    assert PcOk(hash, active, s, pc);
    assert Critical(pc) <==> s.lock == Some(t);
    forall j | 0 <= j < |s.draws| ensures Published(s'.cells, s.draws[j].key) {
      var i :| 0 <= i < SIZE && Matches(s.cells[i], s.draws[j].key);
      assert Matches(s'.cells[i], s.draws[j].key);
    }
  }

  lemma StepNumbers(hash: Key -> nat, active: nat, s: State, t: nat, a: Action)
    requires RouteOk(hash, active, s) && NumbersOk(s) && Enabled(s, t, a)
    ensures NumbersOk(Do(hash, active, s, t, a))
  {
    hide Base, CountIf, LoadsOk, DrawsOk, Published;
    LoadsShape(active, s);
    assert PcOk(hash, active, s, PcOf(s, t));
    assert Critical(PcOf(s, t)) <==> s.lock == Some(t);
    if a.Take? {
      TakeNumbers(hash, active, s, t);
    } else if a.Publish? {
      PublishNumbers(hash, active, s, t);
    } else if a.Fill? {
      FillNumbers(hash, active, s, t);
    } else if s.lock != Some(t) && !a.Acquire? {
      HolderStays(s, Do(hash, active, s, t, a), t);
    }
  }

  /** Main numbering theorem, for every interleaving of scans, insertions and fetch-and-adds: the j-th number
      handed out is how many its flow and direction had been given before, so each direction of a flow
      gets 0, 1, 2, ... modulo 2^32 with no gap and no repeat. */
  lemma {:induction false} NumbersInOrder(hash: Key -> nat, active: nat, ss: seq<State>, i: nat)
    requires Runs(hash, active, ss) && i < |ss|
    ensures NumbersOk(ss[i])
    ensures forall j :: 0 <= j < |ss[i].draws| ==>
              var d := ss[i].draws[j]; d.n == CountIf(ss[i].draws[..j], Of(d.key, d.dir))
  {
    hide RouteOk, Do, Enabled, CountIf;
    if i > 0 {
      hide NumbersOk;
      RunOk(hash, active, ss, i - 1);
      NumbersInOrder(hash, active, ss, i - 1);
      assert Follows(hash, active, ss[i - 1], ss[i - 1 + 1]);
      var t, a :| Stepped(hash, active, ss[i - 1], ss[i], t, a);
      StepNumbers(hash, active, ss[i - 1], t, a);
      NumbersDraws(ss[i]);
    }
  }

  lemma NumbersDraws(s: State)
    requires NumbersOk(s)
    ensures DrawsOk(s.draws)
  {
  }

  /* ---- table or fallback ---- */

  /** Every flow that was sent to the fallback has a full set. */
  ghost predicate SpillsOk(hash: Key -> nat, s: State) {
    Sized(s) && forall j :: 0 <= j < |s.spills| ==> Full(hash, s, s.spills[j])
  }

  lemma FullStays(hash: Key -> nat, s: State, s': State, key: Key)
    requires Extends(s, s') && Full(hash, s, key)
    ensures Full(hash, s', key)
  {
    hide Base;
  }

  lemma StepSpills(hash: Key -> nat, active: nat, s: State, t: nat, a: Action)
    requires RouteOk(hash, active, s) && SpillsOk(hash, s) && Enabled(s, t, a)
    ensures SpillsOk(hash, Do(hash, active, s, t, a))
  {
    hide Base, CellsOk, LoadsOk, PcOk, Full, Extends;
    LoadsShape(active, s);
    StepOk(hash, active, s, t, a);
    var s' := Do(hash, active, s, t, a);
    SizedOk(hash, active, s');
    if a.ReseekLook? && PcOf(s, t).way == WAYS {
      SpillsFull(hash, active, s, t);
    }
    forall j | 0 <= j < |s'.spills| ensures Full(hash, s', s'.spills[j]) {
      SpillsGrow(hash, active, s, t, a);
      FullStays(hash, s, s', s'.spills[j]);
    }
  }

  lemma SpillsGrow(hash: Key -> nat, active: nat, s: State, t: nat, a: Action)
    requires Sized(s) && 0 < active <= TX_SLOTS && Enabled(s, t, a)
    ensures Do(hash, active, s, t, a).spills
         == if a.ReseekLook? && PcOf(s, t).way == WAYS then s.spills + [PcOf(s, t).key] else s.spills
  {
    hide Base;
  }

  /** No flow ever moves between the table's counters and the fallback: over every interleaving, a flow that
      was sent to the fallback has never been and will never be given a number from the table. */
  lemma {:induction false} TableOrFallback(hash: Key -> nat, active: nat, ss: seq<State>, i: nat)
    requires Runs(hash, active, ss) && i < |ss|
    ensures SpillsOk(hash, ss[i])
    ensures forall j, m :: 0 <= j < |ss[i].draws| && 0 <= m < |ss[i].spills| ==> ss[i].draws[j].key != ss[i].spills[m]
  {
    hide RouteOk, Do, Enabled, SpillsOk, NumbersOk;
    if i == 0 {
      StartSpills(hash);
    } else {
      RunOk(hash, active, ss, i - 1);
      TableOrFallback(hash, active, ss, i - 1);
      assert Follows(hash, active, ss[i - 1], ss[i - 1 + 1]);
      var t, a :| Stepped(hash, active, ss[i - 1], ss[i], t, a);
      StepSpills(hash, active, ss[i - 1], t, a);
    }
    RunOk(hash, active, ss, i);
    NumbersInOrder(hash, active, ss, i);
    SpillsApart(hash, active, ss[i]);
  }

  lemma StartSpills(hash: Key -> nat)
    ensures SpillsOk(hash, Start())
  {
  }

  lemma SpillsApart(hash: Key -> nat, active: nat, s: State)
    requires RouteOk(hash, active, s) && NumbersOk(s) && SpillsOk(hash, s)
    ensures forall j, m :: 0 <= j < |s.draws| && 0 <= m < |s.spills| ==> s.draws[j].key != s.spills[m]
  {
    hide Base, LoadsOk, PcOk, DrawsOk;
    forall j, m | 0 <= j < |s.draws| && 0 <= m < |s.spills| ensures s.draws[j].key != s.spills[m] {
      var i :| 0 <= i < |s.cells| && Matches(s.cells[i], s.draws[j].key);
      assert Full(hash, s, s.spills[m]);
    }
  }
}
