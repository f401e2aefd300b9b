/**
 Safety of the worker pool over every interleaving: the invariant of the state machine in
 `Pool`, that every step keeps it, and what it says about locks, counters, idle cleanup and
 the queue.
 */
module PoolSafety {
  import opened Options
  import opened Pool
  import opened PoolProgress

  // ----- What a thread's place says -----

  /** The core whose lock the thread has. */
  function Has(pc: Pc): Option<nat> {
    match pc
    case Locked(_, c) => Some(c)
    case Counted(_, c) => Some(c)
    case Holding(c) => Some(c)
    case Handing(c) => Some(c)
    case Releasing(c) => Some(c)
    case Unlocking(_, c) => Some(c)
    case _ => None
  }

  /** The thread has counted itself in the core's active requests. */
  predicate Counts(pc: Pc) {
    pc.Counted? || pc.Holding? || pc.Handing? || pc.Releasing?
  }

  /** The thread has the pool lock for reading. */
  predicate Reads(pc: Pc) {
    pc.WorkScan? || pc.ReserveScan? || pc.Trying? || pc.ReadScan? || pc.Locking? || pc.Locked? || pc.Counted?
  }

  /** The thread has the pool lock exclusively. */
  predicate Writes(pc: Pc) {
    pc.CleanScan? || pc.CleanClose? || pc.CloseQueue?
  }

  /** The thread is a dispatcher on its way to a core. */
  predicate Dispatches(pc: Pc) {
    match pc
    case WorkStart(who) => who == Dispatcher
    case WorkScan(who, _, _, _) => who == Dispatcher
    case ReserveStart(who) => who == Dispatcher
    case ReserveScan(who, _) => who == Dispatcher
    case Trying(who, _) => who == Dispatcher
    case Locking(who, _) => who == Dispatcher
    case Locked(who, _) => who == Dispatcher
    case Counted(who, _) => who == Dispatcher
    case StartReserve(who) => who == Dispatcher
    case Handing(_) => true
    case _ => false
  }

  /** The thread has the queue lock. */
  predicate Queues(pc: Pc) {
    Dispatches(pc) || pc.DispatchLoop? || pc.Releasing? || (pc.Unlocking? && pc.who == Dispatcher)
  }

  // ----- The invariant -----

  /** Every locked core has exactly one owner, and owners are where `owner` says they are. */
  ghost predicate Owners(cores: seq<Core>, owner: map<nat, Agent>, threads: seq<Pc>, requests: seq<Request>) {
    && (forall c: nat :: c in owner <==> c < |cores| && cores[c].locked)
    && (forall t | 0 <= t < |threads| && Has(threads[t]).Some? ::
          Has(threads[t]).value in owner && owner[Has(threads[t]).value] == Thread(t))
    && (forall c | c in owner && owner[c].Thread? ::
          owner[c].t < |threads| && Has(threads[owner[c].t]) == Some(c))
    && (forall r | 0 <= r < |requests| && requests[r].buffer.Some? ::
          requests[r].buffer.value in owner && owner[requests[r].buffer.value] == Buffer(r))
    && (forall c | c in owner && owner[c].Buffer? ::
          owner[c].r < |requests| && requests[owner[c].r].buffer == Some(c))
  }

  /** The owner of a core has counted itself. */
  predicate CountedBy(a: Agent, threads: seq<Pc>) {
    a.Buffer? || (a.t < |threads| && Counts(threads[a.t]))
  }

  /** The active count is one while an owner is counted, and zero otherwise. */
  ghost predicate Counters(cores: seq<Core>, owner: map<nat, Agent>, threads: seq<Pc>) {
    forall c | 0 <= c < |cores| :: cores[c].active == if c in owner && CountedBy(owner[c], threads) then 1 else 0
  }

  ghost predicate Locks(readers: set<nat>, writer: Option<nat>, pendingHolder: Option<nat>, threads: seq<Pc>) {
    && (forall t: nat :: t in readers <==> t < |threads| && Reads(threads[t]))
    && (forall t: nat :: writer == Some(t) <==> t < |threads| && Writes(threads[t]))
    && (forall t: nat :: pendingHolder == Some(t) <==> t < |threads| && Queues(threads[t]))
    && (writer.Some? ==> readers == {})
  }

  ghost predicate ListOf(list: seq<nat>, cores: seq<Core>, kind: Kind) {
    && (forall i | 0 <= i < |list| :: list[i] < |cores| && cores[list[i]].kind == kind)
    && (forall i, j | 0 <= i < j < |list| :: list[i] < list[j])
  }

  /** The lists name distinct cores of their kind; reserve cores are numbered upwards, never twice. */
  ghost predicate Lists(s: State) {
    && ListOf(s.work, s.cores, Work) && ListOf(s.reserve, s.cores, Reserve)
    && |s.reserve| <= s.maxReserve
    && (forall c | 0 <= c < |s.cores| && s.cores[c].kind == Reserve :: s.cores[c].name <= s.nextSeq)
    && (forall c, d | 0 <= c < d < |s.cores| && s.cores[c].kind == Reserve && s.cores[d].kind == Reserve ::
          s.cores[c].name < s.cores[d].name)
    && (s.stopped ==> s.work == [] && !s.ready)
  }

  /** What a thread's scan position says about the lists. */
  ghost predicate ScanOk(s: State, pc: Pc) {
    match pc
    case WorkScan(_, i, best, _) => i <= |s.work| && best < i
    case ReserveScan(_, i) => i <= |s.reserve|
    case Trying(_, i) => i < |s.reserve|
    case ReadScan(i, best, _) => i <= |s.work| && 0 <= best < i
    case Locking(_, c) => c in s.work && c < |s.cores|
    case CleanScan(i, remaining, _) => i <= |s.reserve| && Swept(s, i, remaining)
    case CleanClose(i, remaining, _) =>
      i < |s.reserve| && Swept(s, i, remaining) && s.cores[s.reserve[i]].active == 0
    case CloseQueue => s.stopped && s.reserve == []
    case _ => true
  }

  /** `remaining` has, in order, the cores among the first `i` of the reserve list that stay open. */
  ghost predicate Swept(s: State, i: nat, remaining: seq<nat>)
    requires i <= |s.reserve|
  {
    && |remaining| <= i
    && (forall k | 0 <= k < |remaining| :: remaining[k] in s.reserve[..i])
    && (forall k | 0 <= k < |remaining| :: remaining[k] < |s.cores| && !s.cores[remaining[k]].closed)
    && (forall j, k | 0 <= j < k < |remaining| :: remaining[j] < remaining[k])
    && (forall j | i <= j < |s.reserve| :: s.reserve[j] < |s.cores| && !s.cores[s.reserve[j]].closed)
  }

  ghost predicate Scans(s: State) {
    forall t | 0 <= t < |s.threads| :: ScanOk(s, s.threads[t])
  }

  /** Until Close runs, a closed worker is counted by nobody; and no closed worker can be acquired: only a
      running cleanup leaves one listed, and nobody is about to count himself on one. */
  ghost predicate Closed(s: State) {
    && (!s.stopped ==> forall c | 0 <= c < |s.cores| && s.cores[c].closed :: s.cores[c].active == 0)
    && (forall c | 0 <= c < |s.cores| && s.cores[c].closed :: c !in s.work)
    && (s.writer.None? ==> forall c | c in s.reserve && c < |s.cores| :: !s.cores[c].closed)
    && (forall t | 0 <= t < |s.threads| && s.threads[t].Locked? && s.threads[t].core < |s.cores| ::
          !s.cores[s.threads[t].core].closed)
  }

  /** Requests leave the queue in the order of their numbers, each once, with an empty open channel. */
  ghost predicate QueueOk(s: State) {
    && (forall i, j | 0 <= i < j < |s.queue| :: s.queue[i] < s.queue[j])
    && (forall i, j | 0 <= i < j < |s.popped| :: s.popped[i] < s.popped[j])
    && (forall i, j | 0 <= i < |s.popped| && 0 <= j < |s.queue| :: s.popped[i] < s.queue[j])
    && (forall i | 0 <= i < |s.queue| :: s.queue[i] < |s.requests|)
    && (forall i | 0 <= i < |s.popped| :: s.popped[i] < |s.requests|)
    && (forall i | 0 <= i < |s.queue| ::
          s.requests[s.queue[i]].buffer.None? && !s.requests[s.queue[i]].channelClosed)
    && (forall r | 0 <= r < |s.requests| && s.requests[r].buffer.Some? :: r in s.popped)
    && (forall t | 0 <= t < |s.threads| && Dispatches(s.threads[t]) :: s.queue != [])
  }

  ghost predicate Inv(s: State) {
    && Owners(s.cores, s.owner, s.threads, s.requests)
    && Counters(s.cores, s.owner, s.threads)
    && Locks(s.readers, s.writer, s.pendingHolder, s.threads)
    && Lists(s) && Scans(s) && Closed(s) && QueueOk(s)
  }

  lemma InitialInv(n: nat, maxReserve: nat)
    ensures Inv(Initial(n, maxReserve))
  {
  }

  // ----- The parts of the invariant under the changes that steps make -----

  lemma OwnersMove(cores: seq<Core>, owner: map<nat, Agent>, threads: seq<Pc>, requests: seq<Request>, t: nat, pc: Pc)
    requires Owners(cores, owner, threads, requests) && t < |threads| && Has(pc) == Has(threads[t])
    ensures Owners(cores, owner, threads[t := pc], requests)
  {
  }

  lemma OwnersFrame(cores: seq<Core>, cores': seq<Core>, owner: map<nat, Agent>, threads: seq<Pc>,
                    requests: seq<Request>, requests': seq<Request>)
    requires Owners(cores, owner, threads, requests)
    requires |cores| == |cores'| && forall c | 0 <= c < |cores| :: cores[c].locked == cores'[c].locked
    requires |requests| <= |requests'| && forall r | 0 <= r < |requests| :: requests[r].buffer == requests'[r].buffer
    requires forall r | |requests| <= r < |requests'| :: requests'[r].buffer.None?
    ensures Owners(cores', owner, threads, requests')
  {
  }

  lemma OwnersTake(cores: seq<Core>, owner: map<nat, Agent>, threads: seq<Pc>, requests: seq<Request>,
                   t: nat, pc: Pc, c: nat)
    requires Owners(cores, owner, threads, requests) && t < |threads| && c < |cores|
    requires !cores[c].locked && Has(threads[t]).None? && Has(pc) == Some(c)
    ensures Owners(cores[c := cores[c].(locked := true)], owner[c := Thread(t)], threads[t := pc], requests)
  {
  }

  lemma OwnersGiveUp(cores: seq<Core>, owner: map<nat, Agent>, threads: seq<Pc>, requests: seq<Request>,
                     t: nat, pc: Pc, c: nat, core: Core)
    requires Owners(cores, owner, threads, requests) && t < |threads| && c < |cores|
    requires Has(threads[t]) == Some(c) && Has(pc).None? && !core.locked
    ensures Owners(cores[c := core], owner - {c}, threads[t := pc], requests)
  {
  }

  lemma OwnersToBuffer(cores: seq<Core>, owner: map<nat, Agent>, threads: seq<Pc>, requests: seq<Request>,
                       t: nat, pc: Pc, c: nat, r: nat)
    requires Owners(cores, owner, threads, requests) && t < |threads| && r < |requests|
    requires Has(threads[t]) == Some(c) && Has(pc).None? && requests[r].buffer.None?
    ensures Owners(cores, owner[c := Buffer(r)], threads[t := pc], requests[r := requests[r].(buffer := Some(c))])
  {
  }

  lemma OwnersFromBuffer(cores: seq<Core>, owner: map<nat, Agent>, threads: seq<Pc>, requests: seq<Request>,
                         t: nat, pc: Pc, c: nat, r: nat)
    requires Owners(cores, owner, threads, requests) && t < |threads| && r < |requests|
    requires Has(threads[t]).None? && Has(pc) == Some(c) && requests[r].buffer == Some(c)
    ensures Owners(cores, owner[c := Thread(t)], threads[t := pc], requests[r := requests[r].(buffer := None)])
  {
  }

  lemma OwnersNewCore(cores: seq<Core>, owner: map<nat, Agent>, threads: seq<Pc>, requests: seq<Request>,
                      t: nat, pc: Pc, core: Core)
    requires Owners(cores, owner, threads, requests) && t < |threads|
    requires Has(threads[t]).None? && Has(pc) == Some(|cores|) && core.locked
    ensures Owners(cores + [core], owner[|cores| := Thread(t)], threads[t := pc], requests)
  {
  }

  lemma OwnersNewThread(cores: seq<Core>, owner: map<nat, Agent>, threads: seq<Pc>, requests: seq<Request>, pc: Pc)
    requires Owners(cores, owner, threads, requests) && Has(pc).None?
    ensures Owners(cores, owner, threads + [pc], requests)
  {
  }

  lemma CountersMove(cores: seq<Core>, owner: map<nat, Agent>, threads: seq<Pc>, t: nat, pc: Pc)
    requires Counters(cores, owner, threads) && t < |threads| && Counts(pc) == Counts(threads[t])
    ensures Counters(cores, owner, threads[t := pc])
  {
  }

  /** A change that only concerns core `c` and thread `t`, which owns at most that core. */
  lemma CountersOne(cores: seq<Core>, owner: map<nat, Agent>, owner': map<nat, Agent>, threads: seq<Pc>,
                    t: nat, pc: Pc, c: nat, core: Core)
    requires Counters(cores, owner, threads) && t < |threads| && c < |cores|
    requires forall d | d != c && d < |cores| :: d in owner <==> d in owner'
    requires forall d | d != c && d < |cores| && d in owner :: owner[d] == owner'[d] && owner[d] != Thread(t)
    requires core.active == if c in owner' && CountedBy(owner'[c], threads[t := pc]) then 1 else 0
    ensures Counters(cores[c := core], owner', threads[t := pc])
  {
    var threads' := threads[t := pc];
    forall d | 0 <= d < |cores| && d != c
      ensures cores[d].active == if d in owner' && CountedBy(owner'[d], threads') then 1 else 0
    {
      if d in owner && owner[d].Thread? {
        assert owner[d].t != t;
      }
    }
  }

  lemma CountersFrame(cores: seq<Core>, cores': seq<Core>, owner: map<nat, Agent>, threads: seq<Pc>)
    requires Counters(cores, owner, threads)
    requires |cores| == |cores'| && forall c | 0 <= c < |cores| :: cores[c].active == cores'[c].active
    ensures Counters(cores', owner, threads)
  {
  }

  lemma CountersNewThread(cores: seq<Core>, owner: map<nat, Agent>, threads: seq<Pc>, pc: Pc)
    requires Counters(cores, owner, threads) && forall c | c in owner && owner[c].Thread? :: owner[c].t < |threads|
    ensures Counters(cores, owner, threads + [pc])
  {
    forall c | 0 <= c < |cores| && c in owner ensures CountedBy(owner[c], threads + [pc]) == CountedBy(owner[c], threads) {
    }
  }

  function Entering(set0: set<nat>, t: nat, inside: bool): set<nat> {
    if inside then set0 + {t} else set0 - {t}
  }

  function Taking(holder: Option<nat>, t: nat, before: bool, after: bool): Option<nat> {
    if after then Some(t) else if before then None else holder
  }

  lemma LocksStep(readers: set<nat>, writer: Option<nat>, pendingHolder: Option<nat>, threads: seq<Pc>, t: nat, pc: Pc)
    requires Locks(readers, writer, pendingHolder, threads) && t < |threads|
    requires Reads(pc) && !Reads(threads[t]) ==> writer.None?
    requires Writes(pc) && !Writes(threads[t]) ==> writer.None? && readers == {}
    requires Queues(pc) && !Queues(threads[t]) ==> pendingHolder.None?
    requires !(Reads(pc) && Writes(pc)) && !(Reads(pc) && Writes(threads[t]))
    ensures Locks(Entering(readers, t, Reads(pc)), Taking(writer, t, Writes(threads[t]), Writes(pc)),
                  Taking(pendingHolder, t, Queues(threads[t]), Queues(pc)), threads[t := pc])
  {
  }

  lemma LocksNewThread(readers: set<nat>, writer: Option<nat>, pendingHolder: Option<nat>, threads: seq<Pc>, pc: Pc)
    requires Locks(readers, writer, pendingHolder, threads) && !Reads(pc) && !Writes(pc) && !Queues(pc)
    ensures Locks(readers, writer, pendingHolder, threads + [pc])
  {
  }

  /** Scan positions depend on the lists and, for a cleanup, on what cores it has passed. */
  lemma ScanFrame(s: State, s': State, pc: Pc)
    requires s.work == s'.work && s.reserve == s'.reserve && s.stopped == s'.stopped && |s.cores| == |s'.cores|
    requires pc.CleanScan? || pc.CleanClose? ==>
               forall c | 0 <= c < |s.cores| :: s.cores[c].closed == s'.cores[c].closed
    requires pc.CleanClose? ==> forall c | 0 <= c < |s.cores| :: s.cores[c].active == 0 ==> s'.cores[c].active == 0
    requires ScanOk(s, pc)
    ensures ScanOk(s', pc)
  {
  }

  /** A step of thread `t` that changes no list and closes no core keeps the other threads' positions. */
  lemma ScansStep(s: State, s': State, t: nat, pc: Pc)
    requires Scans(s) && t < |s.threads| && s'.threads == s.threads[t := pc]
    requires s.work == s'.work && s.reserve == s'.reserve && s.stopped == s'.stopped && |s.cores| == |s'.cores|
    requires forall c | 0 <= c < |s.cores| :: s.cores[c].closed == s'.cores[c].closed
    requires (forall u | 0 <= u < |s.threads| && u != t :: !s.threads[u].CleanClose?) ||
             forall c | 0 <= c < |s.cores| :: s.cores[c].active == 0 ==> s'.cores[c].active == 0
    requires ScanOk(s', pc)
    ensures Scans(s')
  {
    forall u | 0 <= u < |s'.threads| ensures ScanOk(s', s'.threads[u]) {
      if u != t {
        ScanFrame(s, s', s.threads[u]);
      }
    }
  }

  lemma ListsFrame(s: State, s': State)
    requires Lists(s) && s.work == s'.work && s.reserve == s'.reserve && s.maxReserve == s'.maxReserve
    requires s.nextSeq <= s'.nextSeq && s.stopped == s'.stopped && s.ready == s'.ready && |s.cores| == |s'.cores|
    requires forall c | 0 <= c < |s.cores| :: s.cores[c].kind == s'.cores[c].kind && s.cores[c].name == s'.cores[c].name
    ensures Lists(s')
  {
  }

  lemma ClosedStep(s: State, s': State, t: nat, pc: Pc)
    requires Closed(s) && t < |s.threads| && s'.threads == s.threads[t := pc]
    requires s.work == s'.work && s.reserve == s'.reserve && s.stopped == s'.stopped && |s.cores| == |s'.cores|
    requires forall c | 0 <= c < |s.cores| :: s.cores[c].closed == s'.cores[c].closed
    requires !s.stopped ==> forall c | 0 <= c < |s.cores| && s.cores[c].closed :: s'.cores[c].active == 0
    requires s'.writer.None? ==> s.writer.None?
    requires pc.Locked? ==> pc.core < |s.cores| && !s.cores[pc.core].closed
    ensures Closed(s')
  {
  }

  lemma QueueStep(s: State, s': State, t: nat, pc: Pc)
    requires QueueOk(s) && t < |s.threads| && s'.threads == s.threads[t := pc]
    requires s.queue == s'.queue && s.popped == s'.popped && s.requests == s'.requests
    requires Dispatches(pc) ==> s.queue != []
    ensures QueueOk(s')
  {
  }

  // ----- Every step keeps the invariant -----

  /** A thread moves, taking or leaving the pool and queue locks as its new place says. */
  function Moved(s: State, t: nat, pc: Pc, nextSeq: nat): State
    requires t < |s.threads|
  {
    s.(readers := Entering(s.readers, t, Reads(pc)),
       writer := Taking(s.writer, t, Writes(s.threads[t]), Writes(pc)),
       pendingHolder := Taking(s.pendingHolder, t, Queues(s.threads[t]), Queues(pc)),
       threads := s.threads[t := pc], nextSeq := nextSeq)
  }

  lemma MoveInv(s: State, s': State, t: nat, pc: Pc)
    requires Inv(s) && t < |s.threads|
    requires s' == Moved(s, t, pc, s'.nextSeq) && s.nextSeq <= s'.nextSeq
    requires Has(pc) == Has(s.threads[t]) && Counts(pc) == Counts(s.threads[t])
    requires Reads(pc) && !Reads(s.threads[t]) ==> s.writer.None?
    requires Writes(pc) && !Writes(s.threads[t]) ==> s.writer.None? && s.readers == {}
    requires Queues(pc) && !Queues(s.threads[t]) ==> s.pendingHolder.None?
    requires !(Reads(pc) && Writes(pc)) && (Writes(s.threads[t]) ==> Writes(pc))
    requires ScanOk(s, pc) && !pc.Locked?
    requires Dispatches(pc) ==> s.queue != []
    ensures Inv(s')
  {
    hide Owners, Counters, Lists, Scans, QueueOk, ScanOk;
    OwnersMove(s.cores, s.owner, s.threads, s.requests, t, pc);
    CountersMove(s.cores, s.owner, s.threads, t, pc);
    LocksStep(s.readers, s.writer, s.pendingHolder, s.threads, t, pc);
    ListsFrame(s, s');
    assert ScanOk(s', pc) by { ScanFrame(s, s', pc); }
    ScansStep(s, s', t, pc);
    assert s'.writer.None? ==> s.writer.None?;
    ClosedStep(s, s', t, pc);
    QueueStep(s, s', t, pc);
  }

  /** What the locks say about one thread. */
  lemma LocksAt(s: State, t: nat)
    requires Inv(s) && t < |s.threads|
    ensures t in s.readers <==> Reads(s.threads[t])
    ensures s.writer == Some(t) <==> Writes(s.threads[t])
    ensures s.pendingHolder == Some(t) <==> Queues(s.threads[t])
    ensures s.writer.Some? ==> s.readers == {}
    ensures Entering(s.readers, t, Reads(s.threads[t])) == s.readers
  {
  }

  lemma ScanAt(s: State, t: nat)
    requires Inv(s) && t < |s.threads|
    ensures ScanOk(s, s.threads[t])
  {
  }

  lemma QueueAt(s: State, t: nat)
    requires Inv(s) && t < |s.threads|
    ensures Dispatches(s.threads[t]) ==> s.queue != []
  {
  }

  lemma ListsAt(s: State)
    requires Inv(s)
    ensures forall k | 0 <= k < |s.work| :: s.work[k] in s.work && s.work[k] < |s.cores|
    ensures forall k | 0 <= k < |s.reserve| :: s.reserve[k] in s.reserve && s.reserve[k] < |s.cores|
  {
  }

  // ----- Steps that only move a thread -----

  lemma WorkStartInv(s: State, t: nat, who: Who, s': State)
    requires Inv(s) && t < |s.threads| && s.threads[t] == WorkStart(who)
    requires StepWorkStart(s, t, who) == Some(s')
    ensures Inv(s')
  {
    hide Owners, Counters, Locks, Lists, Scans, Closed, QueueOk, Inv, Swept;
    LocksAt(s, t);
    QueueAt(s, t);
    assert s' == Moved(s, t, s'.threads[t], s'.nextSeq);
    assert ScanOk(s, s'.threads[t]);
    MoveInv(s, s', t, s'.threads[t]);
  }

  lemma WorkScanPlace(s: State, t: nat, who: Who, i: nat, best: int, m: int, s': State)
    requires Inv(s) && t < |s.threads| && s.threads[t] == WorkScan(who, i, best, m)
    requires StepWorkScan(s, t, who, i, best, m) == Some(s')
    ensures ScanOk(s, s'.threads[t])
    ensures var pc := s'.threads[t]; (pc.Locking? || pc.WorkScan? || pc.ReserveStart?) && pc.who == who
    ensures s' == At(if s'.threads[t].ReserveStart? then RUnlock(s, t) else s, t, s'.threads[t])
  {
    hide Owners, Counters, Locks, Lists, Scans, Closed, QueueOk, Inv, Swept;
    ScanAt(s, t);
    ListsAt(s);
  }

  lemma WorkScanInv(s: State, t: nat, who: Who, i: nat, best: int, m: int, s': State)
    requires Inv(s) && t < |s.threads| && s.threads[t] == WorkScan(who, i, best, m)
    requires StepWorkScan(s, t, who, i, best, m) == Some(s')
    ensures Inv(s')
  {
    hide Owners, Counters, Locks, Lists, Scans, Closed, QueueOk, Inv, Swept, StepWorkScan, ScanOk;
    LocksAt(s, t);
    WorkScanPlace(s, t, who, i, best, m, s');
    QueueAt(s, t);
    assert s' == Moved(s, t, s'.threads[t], s'.nextSeq);
    MoveInv(s, s', t, s'.threads[t]);
  }

  lemma ReserveStartInv(s: State, t: nat, who: Who, s': State)
    requires Inv(s) && t < |s.threads| && s.threads[t] == ReserveStart(who)
    requires StepReserveStart(s, t, who) == Some(s')
    ensures Inv(s')
  {
    hide Owners, Counters, Locks, Lists, Scans, Closed, QueueOk, Inv, Swept;
    LocksAt(s, t);
    QueueAt(s, t);
    assert s' == Moved(s, t, s'.threads[t], s'.nextSeq);
    assert ScanOk(s, s'.threads[t]);
    MoveInv(s, s', t, s'.threads[t]);
  }

  lemma ReserveScanInv(s: State, t: nat, who: Who, i: nat, s': State)
    requires Inv(s) && t < |s.threads| && s.threads[t] == ReserveScan(who, i)
    requires StepReserveScan(s, t, who, i) == Some(s')
    ensures Inv(s')
  {
    hide Owners, Counters, Locks, Lists, Scans, Closed, QueueOk, Inv, Swept;
    LocksAt(s, t);
    ScanAt(s, t);
    QueueAt(s, t);
    ListsAt(s);
    assert s' == Moved(s, t, s'.threads[t], s'.nextSeq);
    assert ScanOk(s, s'.threads[t]);
    MoveInv(s, s', t, s'.threads[t]);
  }

  lemma ReadStartInv(s: State, t: nat, s': State)
    requires Inv(s) && t < |s.threads| && s.threads[t] == ReadStart
    requires StepReadStart(s, t) == Some(s')
    ensures Inv(s')
  {
    hide Owners, Counters, Locks, Lists, Scans, Closed, QueueOk, Inv, Swept;
    LocksAt(s, t);
    assert s' == Moved(s, t, s'.threads[t], s'.nextSeq);
    assert ScanOk(s, s'.threads[t]);
    MoveInv(s, s', t, s'.threads[t]);
  }

  lemma ReadScanInv(s: State, t: nat, i: nat, best: int, m: int, s': State)
    requires Inv(s) && t < |s.threads| && s.threads[t] == ReadScan(i, best, m)
    requires StepReadScan(s, t, i, best, m) == Some(s')
    ensures Inv(s')
  {
    hide Owners, Counters, Locks, Lists, Scans, Closed, QueueOk, Inv, Swept;
    LocksAt(s, t);
    ScanAt(s, t);
    ListsAt(s);
    assert s' == Moved(s, t, s'.threads[t], s'.nextSeq);
    assert ScanOk(s, s'.threads[t]);
    MoveInv(s, s', t, s'.threads[t]);
  }

  lemma CountedInv(s: State, t: nat, who: Who, c: nat, s': State)
    requires Inv(s) && t < |s.threads| && s.threads[t] == Counted(who, c)
    requires StepCounted(s, t, who, c) == Some(s')
    ensures Inv(s')
  {
    hide Owners, Counters, Locks, Lists, Scans, Closed, QueueOk, Inv, Swept;
    LocksAt(s, t);
    QueueAt(s, t);
    assert s' == Moved(s, t, s'.threads[t], s'.nextSeq);
    assert ScanOk(s, s'.threads[t]);
    MoveInv(s, s', t, s'.threads[t]);
  }

  lemma DispatchStartInv(s: State, t: nat, s': State)
    requires Inv(s) && t < |s.threads| && s.threads[t] == DispatchStart
    requires StepDispatchStart(s, t) == Some(s')
    ensures Inv(s')
  {
    hide Owners, Counters, Locks, Lists, Scans, Closed, QueueOk, Inv, Swept;
    LocksAt(s, t);
    assert s' == Moved(s, t, s'.threads[t], s'.nextSeq);
    assert ScanOk(s, s'.threads[t]);
    MoveInv(s, s', t, s'.threads[t]);
  }

  lemma DispatchLoopInv(s: State, t: nat, s': State)
    requires Inv(s) && t < |s.threads| && s.threads[t] == DispatchLoop
    requires StepDispatchLoop(s, t) == Some(s')
    ensures Inv(s')
  {
    hide Owners, Counters, Locks, Lists, Scans, Closed, QueueOk, Inv, Swept;
    LocksAt(s, t);
    assert s' == Moved(s, t, s'.threads[t], s'.nextSeq);
    assert ScanOk(s, s'.threads[t]);
    MoveInv(s, s', t, s'.threads[t]);
  }

  lemma CleanStartInv(s: State, t: nat, now: int, s': State)
    requires Inv(s) && t < |s.threads| && s.threads[t] == CleanStart
    requires StepCleanStart(s, t, now) == Some(s')
    ensures Inv(s')
  {
    hide Owners, Counters, Locks, Lists, Scans, Closed, QueueOk, Inv, Swept;
    LocksAt(s, t);
    ReserveOpen(s);
    assert s' == Moved(s, t, s'.threads[t], s'.nextSeq);
    assert ScanOk(s, s'.threads[t]);
    MoveInv(s, s', t, s'.threads[t]);
  }

  lemma CleanScanOnInv(s: State, t: nat, i: nat, remaining: seq<nat>, now: int, s': State)
    requires Inv(s) && t < |s.threads| && s.threads[t] == CleanScan(i, remaining, now)
    requires StepCleanScan(s, t, i, remaining, now) == Some(s')
    requires !s'.threads[t].CleanStart?
    ensures Inv(s')
  {
    hide Owners, Counters, Locks, Lists, Scans, Closed, QueueOk, Inv, Swept;
    LocksAt(s, t);
    ScanAt(s, t);
    SweptGrows(s, i, remaining);
    assert s' == Moved(s, t, s'.threads[t], s'.nextSeq);
    assert ScanOk(s, s'.threads[t]);
    MoveInv(s, s', t, s'.threads[t]);
  }

  lemma WaitingLeaveInv(s: State, t: nat, r: nat, choice: Choice, s': State)
    requires Inv(s) && t < |s.threads| && s.threads[t] == Waiting(r)
    requires StepWaiting(s, t, r, choice) == Some(s')
    requires !s'.threads[t].Holding?
    ensures Inv(s')
  {
    hide Owners, Counters, Locks, Lists, Scans, Closed, QueueOk, Inv, Swept;
    LocksAt(s, t);
    assert s' == Moved(s, t, s'.threads[t], s'.nextSeq);
    assert ScanOk(s, s'.threads[t]);
    MoveInv(s, s', t, s'.threads[t]);
  }

  lemma TryingFailedInv(s: State, t: nat, who: Who, i: nat, s': State)
    requires Inv(s) && t < |s.threads| && s.threads[t] == Trying(who, i)
    requires StepTrying(s, t, who, i) == Some(s')
    requires s'.threads[t].ReserveScan?
    ensures Inv(s')
  {
    hide Owners, Counters, Locks, Lists, Scans, Closed, QueueOk, Inv, Swept;
    LocksAt(s, t);
    ScanAt(s, t);
    QueueAt(s, t);
    assert s' == Moved(s, t, s'.threads[t], s'.nextSeq);
    assert ScanOk(s, s'.threads[t]);
    MoveInv(s, s', t, s'.threads[t]);
  }

  lemma NoReserveInv(s: State, t: nat, who: Who, choice: Choice, s': State)
    requires Inv(s) && t < |s.threads| && s.threads[t] == StartReserve(who)
    requires StepStartReserve(s, t, who, choice) == Some(s')
    requires |s.reserve| >= s.maxReserve || choice == Otherwise
    ensures Inv(s')
  {
    hide Owners, Counters, Locks, Lists, Scans, Closed, QueueOk, Inv, Swept;
    LocksAt(s, t);
    assert s' == Moved(s, t, s'.threads[t], s'.nextSeq);
    assert ScanOk(s, s'.threads[t]);
    MoveInv(s, s', t, s'.threads[t]);
  }

  /** While nobody has the pool lock exclusively, every listed reserve core is open. */
  lemma ReserveOpen(s: State)
    requires Inv(s)
    ensures s.writer.None? ==> Swept(s, 0, [])
  {
  }

  /** A core that stays open joins the remaining ones. */
  lemma SweptGrows(s: State, i: nat, remaining: seq<nat>)
    requires Inv(s) && i <= |s.reserve| && Swept(s, i, remaining)
    ensures i < |s.reserve| ==> s.reserve[i] < |s.cores| && Swept(s, i + 1, remaining + [s.reserve[i]])
  {
    if i < |s.reserve| {
      ReserveAscends(s);
      SweptExtend(s, i, remaining);
    }
  }

  lemma ReserveAscends(s: State)
    requires Inv(s)
    ensures forall i, j | 0 <= i < j < |s.reserve| :: s.reserve[i] < s.reserve[j]
  {
  }

  lemma SweptExtend(s: State, i: nat, remaining: seq<nat>)
    requires i < |s.reserve| && Swept(s, i, remaining)
    requires forall i, j | 0 <= i < j < |s.reserve| :: s.reserve[i] < s.reserve[j]
    ensures s.reserve[i] < |s.cores| && Swept(s, i + 1, remaining + [s.reserve[i]])
  {
    var front := s.reserve[..i];
    assert s.reserve[..i + 1] == front + [s.reserve[i]];
    forall k | 0 <= k < |remaining| ensures remaining[k] < s.reserve[i] {
      var j :| 0 <= j < i && front[j] == remaining[k];
      assert front[j] == s.reserve[j];
    }
  }

  // ----- Taking, counting and giving up cores -----

  /** A reader is incompatible with a writer. */
  lemma ReaderExcludesWriter(s: State, t: nat)
    requires Inv(s) && t < |s.threads| && Reads(s.threads[t])
    ensures s.writer.None?
    ensures forall u | 0 <= u < |s.threads| :: !Writes(s.threads[u])
  {
    assert t in s.readers;
  }

  lemma ListedIsOpen(s: State, c: nat)
    requires Inv(s) && s.writer.None? && c < |s.cores| && (c in s.work || c in s.reserve)
    ensures !s.cores[c].closed
  {
  }

  lemma UnlockedIsUncounted(s: State, c: nat)
    requires Inv(s) && c < |s.cores| && !s.cores[c].locked
    ensures c !in s.owner && s.cores[c].active == 0
  {
  }

  lemma OwnsNothing(s: State, t: nat)
    requires Inv(s) && t < |s.threads| && Has(s.threads[t]).None?
    ensures forall d | d in s.owner :: s.owner[d] != Thread(t)
  {
  }

  lemma OwnsOne(s: State, t: nat, c: nat)
    requires Inv(s) && t < |s.threads| && Has(s.threads[t]) == Some(c)
    ensures c < |s.cores| && s.cores[c].locked && c in s.owner && s.owner[c] == Thread(t)
    ensures s.cores[c].active == if Counts(s.threads[t]) then 1 else 0
    ensures forall d | d in s.owner && d != c :: s.owner[d] != Thread(t)
  {
  }

  lemma LockInv(s: State, t: nat, who: Who, c: nat)
    requires Inv(s) && t < |s.threads| && c < |s.cores| && !s.cores[c].locked
    requires s.threads[t] == Locking(who, c) || (s.threads[t].Trying? && s.threads[t].who == who && c in s.reserve)
    ensures Inv(Lock(s, t, who, c))
  {
    hide Owners, Counters, Locks, Lists, Scans, Closed, QueueOk, Swept;
    var s', pc := Lock(s, t, who, c), Locked(who, c);
    var core := s.cores[c].(locked := true);
    ReaderExcludesWriter(s, t);
    ScanAt(s, t);
    QueueAt(s, t);
    LocksAt(s, t);
    UnlockedIsUncounted(s, c);
    ClosedIsUncounted(s);
    OwnsNothing(s, t);
    ListedIsOpen(s, c);
    OwnersTake(s.cores, s.owner, s.threads, s.requests, t, pc, c);
    CountersOne(s.cores, s.owner, s'.owner, s.threads, t, pc, c, core);
    LocksStep(s.readers, s.writer, s.pendingHolder, s.threads, t, pc);
    ListsFrame(s, s');
    ScansStep(s, s', t, pc);
    ClosedStep(s, s', t, pc);
    QueueStep(s, s', t, pc);
  }

  lemma LockedInv(s: State, t: nat, who: Who, c: nat, now: int, s': State)
    requires Inv(s) && t < |s.threads| && s.threads[t] == Locked(who, c)
    requires StepLocked(s, t, who, c, now) == Some(s')
    ensures Inv(s')
  {
    hide Owners, Counters, Locks, Lists, Scans, Closed, QueueOk, Swept;
    var pc := Counted(who, c);
    ReaderExcludesWriter(s, t);
    QueueAt(s, t);
    LocksAt(s, t);
    OwnsOne(s, t, c);
    LockedIsOpen(s, t);
    ClosedIsUncounted(s);
    OwnersFrame(s.cores, s'.cores, s.owner, s.threads, s.requests, s.requests);
    OwnersMove(s'.cores, s.owner, s.threads, s.requests, t, pc);
    CountersOne(s.cores, s.owner, s'.owner, s.threads, t, pc, c, s'.cores[c]);
    LocksStep(s.readers, s.writer, s.pendingHolder, s.threads, t, pc);
    ListsFrame(s, s');
    ScansStep(s, s', t, pc);
    ClosedStep(s, s', t, pc);
    QueueStep(s, s', t, pc);
  }

  lemma LockedIsOpen(s: State, t: nat)
    requires Inv(s) && t < |s.threads| && s.threads[t].Locked?
    ensures s.threads[t].core < |s.cores| ==> !s.cores[s.threads[t].core].closed
  {
  }

  lemma ClosedIsUncounted(s: State)
    requires Inv(s)
    ensures !s.stopped ==> forall c | 0 <= c < |s.cores| && s.cores[c].closed :: s.cores[c].active == 0
  {
  }

  lemma ReleaseInv(s: State, t: nat, who: Who, c: nat, s': State)
    requires Inv(s) && t < |s.threads|
    requires s.threads[t] == if who == Caller then Holding(c) else Releasing(c)
    requires StepRelease(s, t, who, c) == Some(s')
    ensures Inv(s')
  {
    hide Owners, Counters, Locks, Lists, Scans, Closed, QueueOk, Swept;
    var pc := Unlocking(who, c);
    LocksAt(s, t);
    OwnsOne(s, t, c);
    ClosedIsUncounted(s);
    OwnersFrame(s.cores, s'.cores, s.owner, s.threads, s.requests, s.requests);
    OwnersMove(s'.cores, s.owner, s.threads, s.requests, t, pc);
    CountersOne(s.cores, s.owner, s'.owner, s.threads, t, pc, c, s'.cores[c]);
    LocksStep(s.readers, s.writer, s.pendingHolder, s.threads, t, pc);
    ListsFrame(s, s');
    ScansStep(s, s', t, pc);
    ClosedStep(s, s', t, pc);
    QueueStep(s, s', t, pc);
  }

  lemma NewThreadInv(s: State, pc: Pc)
    requires Inv(s) && Has(pc).None? && !Reads(pc) && !Writes(pc) && !Queues(pc)
    ensures Inv(s.(threads := s.threads + [pc]))
  {
    var s' := s.(threads := s.threads + [pc]);
    assert forall c | c in s.owner && s.owner[c].Thread? :: s.owner[c].t < |s.threads|;
    OwnersNewThread(s.cores, s.owner, s.threads, s.requests, pc);
    CountersNewThread(s.cores, s.owner, s.threads, pc);
    LocksNewThread(s.readers, s.writer, s.pendingHolder, s.threads, pc);
    assert Lists(s');
    assert Scans(s') by {
      forall u | 0 <= u < |s'.threads| ensures ScanOk(s', s'.threads[u]) {
        if u < |s.threads| {
          assert ScanOk(s, s.threads[u]);
          ScanFrame(s, s', s.threads[u]);
        }
      }
    }
    assert Closed(s');
    assert QueueOk(s');
  }

  function Unlocked(s: State, t: nat, who: Who, c: nat, now: int): State
    requires t < |s.threads| && c < |s.cores|
  {
    At(SetCore(s, c, s.cores[c].(locked := false, lastActive := now)).(owner := s.owner - {c}), t,
       if who == Caller then Finished else DispatchLoop)
  }

  lemma UnlockedInv(s: State, t: nat, who: Who, c: nat, now: int)
    requires Inv(s) && t < |s.threads| && s.threads[t] == Unlocking(who, c) && c < |s.cores|
    ensures Inv(Unlocked(s, t, who, c, now))
  {
    hide Owners, Counters, Locks, Lists, Scans, Closed, QueueOk, Swept;
    var pc := if who == Caller then Finished else DispatchLoop;
    var core, s1 := s.cores[c].(locked := false, lastActive := now), Unlocked(s, t, who, c, now);
    OwnsOne(s, t, c);
    LocksAt(s, t);
    ClosedIsUncounted(s);
    OwnersGiveUp(s.cores, s.owner, s.threads, s.requests, t, pc, c, core);
    CountersOne(s.cores, s.owner, s1.owner, s.threads, t, pc, c, core);
    LocksStep(s.readers, s.writer, s.pendingHolder, s.threads, t, pc);
    ListsFrame(s, s1);
    ScansStep(s, s1, t, pc);
    ClosedStep(s, s1, t, pc);
    QueueStep(s, s1, t, pc);
  }

  lemma UnlockingInv(s: State, t: nat, who: Who, c: nat, now: int, s': State)
    requires Inv(s) && t < |s.threads| && s.threads[t] == Unlocking(who, c)
    requires StepUnlocking(s, t, who, c, now) == Some(s')
    ensures Inv(s')
  {
    hide Inv;
    UnlockedInv(s, t, who, c, now);
    NewThreadInv(Unlocked(s, t, who, c, now), DispatchStart);
  }

  // ----- Starting a reserve core -----

  lemma ListsNewCore(s: State, s': State, now: int)
    requires Lists(s) && |s.reserve| < s.maxReserve && s'.maxReserve == s.maxReserve
    requires s'.cores == s.cores + [Core(Reserve, s.nextSeq + 1, true, 1, now, false)]
    requires s'.nextSeq == s.nextSeq + 1 && s'.work == s.work && s'.reserve == s.reserve + [|s.cores|]
    requires s'.stopped == s.stopped && s'.ready == s.ready
    ensures Lists(s')
  {
  }

  /** Nobody has the pool lock, so nobody is scanning. */
  lemma ScansNobody(s: State, s': State, t: nat, pc: Pc)
    requires Scans(s) && t < |s.threads| && s'.threads == s.threads[t := pc]
    requires forall u | 0 <= u < |s.threads| && u != t :: !Reads(s.threads[u]) && !Writes(s.threads[u])
    requires ScanOk(s', pc)
    ensures Scans(s')
  {
  }

  lemma NobodyScans(s: State, t: nat)
    requires Inv(s) && t < |s.threads| && s.writer.None? && s.readers == {}
    ensures forall u | 0 <= u < |s.threads| :: !Reads(s.threads[u]) && !Writes(s.threads[u])
  {
  }

  lemma CountersNewCore(cores: seq<Core>, owner: map<nat, Agent>, threads: seq<Pc>, requests: seq<Request>,
                        t: nat, pc: Pc, core: Core)
    requires Counters(cores, owner, threads) && Owners(cores, owner, threads, requests)
    requires t < |threads| && Has(threads[t]).None? && Counts(pc) && core.active == 1
    ensures Counters(cores + [core], owner[|cores| := Thread(t)], threads[t := pc])
  {
    var owner', threads' := owner[|cores| := Thread(t)], threads[t := pc];
    forall d | 0 <= d < |cores| ensures cores[d].active == if d in owner' && CountedBy(owner'[d], threads') then 1 else 0 {
      if d in owner && owner[d].Thread? {
        assert owner[d].t != t;
      }
    }
  }

  lemma ClosedNewCore(s: State, s': State, t: nat, pc: Pc, core: Core)
    requires Closed(s) && Lists(s) && t < |s.threads| && s'.threads == s.threads[t := pc] && !pc.Locked? && !core.closed
    requires s'.work == s.work && s'.reserve == s.reserve + [|s.cores|] && s'.stopped == s.stopped && s'.writer == s.writer
    requires s'.cores == s.cores + [core]
    requires forall u | 0 <= u < |s.threads| :: !Reads(s.threads[u])
    ensures Closed(s')
  {
  }

  lemma NewCoreInv(s: State, t: nat, who: Who, now: int, s': State)
    requires Inv(s) && t < |s.threads| && s.threads[t] == StartReserve(who)
    requires |s.reserve| < s.maxReserve
    requires StepStartReserve(s, t, who, Go(now)) == Some(s')
    ensures Inv(s')
  {
    hide Owners, Counters, Locks, Lists, Scans, Closed, QueueOk, Swept;
    var pc, core := HaveCore(who, |s.cores|), Core(Reserve, s.nextSeq + 1, true, 1, now, false);
    LocksAt(s, t);
    QueueAt(s, t);
    NobodyScans(s, t);
    OwnersNewCore(s.cores, s.owner, s.threads, s.requests, t, pc, core);
    CountersNewCore(s.cores, s.owner, s.threads, s.requests, t, pc, core);
    LocksStep(s.readers, s.writer, s.pendingHolder, s.threads, t, pc);
    ListsNewCore(s, s', now);
    ScansNobody(s, s', t, pc);
    ClosedNewCore(s, s', t, pc, core);
    QueueStep(s, s', t, pc);
  }

  // ----- The queue -----

  lemma QueueEnqueue(s: State, s': State, t: nat)
    requires QueueOk(s) && t < |s.threads| && s'.popped == s.popped
    requires s'.threads == s.threads[t := Waiting(|s.requests|)]
    requires s'.requests == s.requests + [Request(None, false, false)] && s'.queue == s.queue + [|s.requests|]
    ensures QueueOk(s')
  {
  }

  lemma EnqueueInv(s: State, t: nat, s': State)
    requires Inv(s) && t < |s.threads| && s.threads[t] == Enqueue && StepEnqueue(s, t) == Some(s')
    ensures Inv(s')
  {
    hide Owners, Counters, Locks, Lists, Scans, Closed, QueueOk, Swept;
    var pc := Waiting(|s.requests|);
    LocksAt(s, t);
    ClosedIsUncounted(s);
    OwnersFrame(s.cores, s.cores, s.owner, s.threads, s.requests, s'.requests);
    OwnersMove(s.cores, s.owner, s.threads, s'.requests, t, pc);
    CountersMove(s.cores, s.owner, s.threads, t, pc);
    LocksStep(s.readers, s.writer, s.pendingHolder, s.threads, t, pc);
    ListsFrame(s, s');
    ScansStep(s, s', t, pc);
    ClosedStep(s, s', t, pc);
    QueueEnqueue(s, s', t);
  }

  lemma QueueReceive(s: State, s': State, t: nat, r: nat, c: nat)
    requires QueueOk(s) && t < |s.threads| && s'.threads == s.threads[t := Holding(c)]
    requires s'.queue == s.queue && s'.popped == s.popped && r < |s.requests|
    requires s'.requests == s.requests[r := s.requests[r].(buffer := None)]
    ensures QueueOk(s')
  {
  }

  lemma BufferedIsCounted(s: State, r: nat)
    requires Inv(s) && r < |s.requests| && s.requests[r].buffer.Some?
    ensures var c := s.requests[r].buffer.value;
            c < |s.cores| && c in s.owner && s.owner[c] == Buffer(r) && s.cores[c].active == 1
  {
  }

  lemma ReceiveInv(s: State, t: nat, r: nat, choice: Choice, s': State)
    requires Inv(s) && t < |s.threads| && s.threads[t] == Waiting(r)
    requires StepWaiting(s, t, r, choice) == Some(s') && s'.threads[t].Holding?
    ensures Inv(s')
  {
    hide Owners, Counters, Locks, Lists, Scans, Closed, QueueOk, Swept;
    var c := s.requests[r].buffer.value;
    var pc := Holding(c);
    LocksAt(s, t);
    BufferedIsCounted(s, r);
    ClosedIsUncounted(s);
    OwnsNothing(s, t);
    OwnersFromBuffer(s.cores, s.owner, s.threads, s.requests, t, pc, c, r);
    CountersOne(s.cores, s.owner, s'.owner, s.threads, t, pc, c, s.cores[c]);
    assert s.cores[c := s.cores[c]] == s.cores;
    LocksStep(s.readers, s.writer, s.pendingHolder, s.threads, t, pc);
    ListsFrame(s, s');
    ScansStep(s, s', t, pc);
    ClosedStep(s, s', t, pc);
    QueueReceive(s, s', t, r, c);
  }

  /** Removing an entry keeps order and members. */
  lemma {:induction false} WithoutKeepsOrder(q: seq<nat>, r: nat)
    requires forall i, j | 0 <= i < j < |q| :: q[i] < q[j]
    ensures forall i, j | 0 <= i < j < |WithoutFirst(q, r)| :: WithoutFirst(q, r)[i] < WithoutFirst(q, r)[j]
    ensures forall x :: x in WithoutFirst(q, r) <==> x in q && x != r
  {
    if q != [] {
      if q[0] == r {
        assert q == [q[0]] + q[1..];
      } else {
        var w := WithoutFirst(q[1..], r);
        WithoutKeepsOrder(q[1..], r);
        assert q == [q[0]] + q[1..];
        forall k | 0 <= k < |w| ensures q[0] < w[k] {
          assert w[k] in w && w[k] in q[1..];
        }
      }
    }
  }

  lemma QueueCancel(s: State, s': State, t: nat, r: nat)
    requires QueueOk(s) && t < |s.threads| && s'.threads == s.threads[t := Finished]
    requires s'.queue == WithoutFirst(s.queue, r) && s'.popped == s.popped && s'.requests == s.requests
    requires forall u | 0 <= u < |s.threads| :: !Dispatches(s.threads[u])
    ensures QueueOk(s')
  {
    WithoutKeepsOrder(s.queue, r);
    assert forall i | 0 <= i < |s'.queue| :: s'.queue[i] in s'.queue && s'.queue[i] in s.queue;
  }

  lemma NobodyDispatches(s: State)
    requires Inv(s) && s.pendingHolder.None?
    ensures forall u | 0 <= u < |s.threads| :: !Queues(s.threads[u]) && !Dispatches(s.threads[u])
  {
  }

  lemma CancellingInv(s: State, t: nat, r: nat, s': State)
    requires Inv(s) && t < |s.threads| && s.threads[t] == Cancelling(r) && StepCancelling(s, t, r) == Some(s')
    ensures Inv(s')
  {
    hide Owners, Counters, Locks, Lists, Scans, Closed, QueueOk, Swept, WithoutFirst;
    LocksAt(s, t);
    ClosedIsUncounted(s);
    NobodyDispatches(s);
    OwnersMove(s.cores, s.owner, s.threads, s.requests, t, Finished);
    CountersMove(s.cores, s.owner, s.threads, t, Finished);
    LocksStep(s.readers, s.writer, s.pendingHolder, s.threads, t, Finished);
    ListsFrame(s, s');
    ScansStep(s, s', t, Finished);
    ClosedStep(s, s', t, Finished);
    QueueCancel(s, s', t, r);
  }

  lemma OthersDoNotDispatch(s: State, t: nat)
    requires Inv(s) && t < |s.threads| && Queues(s.threads[t])
    ensures forall u | 0 <= u < |s.threads| && u != t :: !Dispatches(s.threads[u])
  {
  }

  /** A dispatcher that has a core finds a request whose delivery neither blocks nor meets a closed channel. */
  lemma HandingCanDeliver(s: State, t: nat)
    requires Inv(s) && t < |s.threads| && s.threads[t].Handing?
    ensures CanDeliver(s)
  {
    assert s.queue != [];
  }

  lemma QueuePop(s: State, s': State, t: nat, pc: Pc, buffer: Option<nat>)
    requires QueueOk(s) && CanDeliver(s) && t < |s.threads| && s'.threads == s.threads[t := pc] && !Dispatches(pc)
    requires s'.queue == s.queue[1..] && s'.popped == s.popped + [s.queue[0]]
    requires s'.requests == s.requests[s.queue[0] := s.requests[s.queue[0]].(buffer := buffer)]
    requires forall u | 0 <= u < |s.threads| && u != t :: !Dispatches(s.threads[u])
    ensures QueueOk(s')
  {
    assert s.queue[0] in s'.popped;
    assert forall r | r in s.popped :: r in s'.popped;
  }

  lemma HandingInv(s: State, t: nat, c: nat, choice: Choice, s': State)
    requires Inv(s) && t < |s.threads| && s.threads[t] == Handing(c) && StepHanding(s, t, c, choice) == Some(s')
    ensures Inv(s')
  {
    hide Owners, Counters, Locks, Lists, Scans, Closed, QueueOk, Swept;
    var r := s.queue[0];
    var pc := if choice == Otherwise then Releasing(c) else DispatchLoop;
    LocksAt(s, t);
    OwnsOne(s, t, c);
    ClosedIsUncounted(s);
    OthersDoNotDispatch(s, t);
    if choice == Otherwise {
      OwnersMove(s.cores, s.owner, s.threads, s.requests, t, pc);
      CountersMove(s.cores, s.owner, s.threads, t, pc);
      assert s.requests[r := s.requests[r].(buffer := s.requests[r].buffer)] == s.requests;
      QueuePop(s, s', t, pc, s.requests[r].buffer);
    } else {
      OwnersToBuffer(s.cores, s.owner, s.threads, s.requests, t, pc, c, r);
      CountersOne(s.cores, s.owner, s'.owner, s.threads, t, pc, c, s.cores[c]);
      assert s.cores[c := s.cores[c]] == s.cores;
      QueuePop(s, s', t, pc, Some(c));
    }
    LocksStep(s.readers, s.writer, s.pendingHolder, s.threads, t, pc);
    ListsFrame(s, s');
    ScansStep(s, s', t, pc);
    ClosedStep(s, s', t, pc);
  }

  // ----- Cleanup and Close -----

  lemma SweptAt(s: State, t: nat, i: nat, remaining: seq<nat>, now: int)
    requires Inv(s) && t < |s.threads|
    requires s.threads[t] == CleanScan(i, remaining, now) || s.threads[t] == CleanClose(i, remaining, now)
    ensures i <= |s.reserve| && Swept(s, i, remaining)
    ensures s.threads[t].CleanClose? ==> i < |s.reserve| && s.reserve[i] < |s.cores| && s.cores[s.reserve[i]].active == 0
  {
    assert ScanOk(s, s.threads[t]);
    assert ListOf(s.reserve, s.cores, Reserve);
  }

  lemma WriterIsAlone(s: State, t: nat)
    requires Inv(s) && t < |s.threads| && Writes(s.threads[t])
    ensures forall u | 0 <= u < |s.threads| && u != t :: !Reads(s.threads[u]) && !Writes(s.threads[u])
    ensures forall u | 0 <= u < |s.threads| :: !s.threads[u].Locked?
  {
    assert s.writer == Some(t);
  }

  lemma SublistOf(s: State, i: nat, remaining: seq<nat>)
    requires Inv(s) && i <= |s.reserve| && Swept(s, i, remaining)
    ensures ListOf(remaining, s.cores, Reserve) && |remaining| <= s.maxReserve
    ensures forall c | c in remaining && c < |s.cores| :: !s.cores[c].closed
  {
    forall k | 0 <= k < |remaining| ensures remaining[k] < |s.cores| && s.cores[remaining[k]].kind == Reserve {
      var j :| 0 <= j < i && s.reserve[..i][j] == remaining[k];
      assert s.reserve[j] == remaining[k];
    }
  }

  lemma ListsCleaned(s: State, s': State)
    requires Lists(s) && s' == s.(reserve := s'.reserve, writer := None, threads := s'.threads)
    requires ListOf(s'.reserve, s.cores, Reserve) && |s'.reserve| <= s.maxReserve
    ensures Lists(s')
  {
  }

  lemma ClosedCleaned(s: State, s': State)
    requires Closed(s) && s' == s.(reserve := s'.reserve, writer := None, threads := s'.threads)
    requires forall c | c in s'.reserve && c < |s.cores| :: !s.cores[c].closed
    requires forall u | 0 <= u < |s'.threads| :: !s'.threads[u].Locked?
    ensures Closed(s')
  {
  }

  lemma CleanEndInv(s: State, t: nat, i: nat, remaining: seq<nat>, now: int, s': State)
    requires Inv(s) && t < |s.threads| && s.threads[t] == CleanScan(i, remaining, now)
    requires StepCleanScan(s, t, i, remaining, now) == Some(s') && s'.threads[t] == CleanStart
    ensures Inv(s')
  {
    hide Owners, Counters, Locks, Lists, Scans, Closed, QueueOk, Swept, ListOf;
    LocksAt(s, t);
    SweptAt(s, t, i, remaining, now);
    SublistOf(s, i, remaining);
    WriterIsAlone(s, t);
    OwnersMove(s.cores, s.owner, s.threads, s.requests, t, CleanStart);
    CountersMove(s.cores, s.owner, s.threads, t, CleanStart);
    LocksStep(s.readers, s.writer, s.pendingHolder, s.threads, t, CleanStart);
    ListsCleaned(s, s');
    ScansNobody(s, s', t, CleanStart);
    ClosedCleaned(s, s');
    QueueStep(s, s', t, CleanStart);
  }

  /** Closing the core at `i` leaves the ones behind it and the remaining ones as they were. */
  lemma SweptPasses(s: State, s': State, i: nat, remaining: seq<nat>)
    requires Inv(s) && i < |s.reserve| && Swept(s, i, remaining) && s.reserve[i] < |s.cores|
    requires s'.reserve == s.reserve && s'.cores == s.cores[s.reserve[i] := s.cores[s.reserve[i]].(closed := true)]
    ensures Swept(s', i + 1, remaining)
  {
    assert ListOf(s.reserve, s.cores, Reserve);
    forall k | 0 <= k < |remaining| ensures remaining[k] != s.reserve[i] && remaining[k] in s.reserve[..i + 1] {
      var j :| 0 <= j < i && s.reserve[..i][j] == remaining[k];
      assert s.reserve[..i + 1][j] == remaining[k];
    }
  }

  lemma ClosedOne(s: State, s': State, c: nat)
    requires Closed(s) && c < |s.cores| && s.cores[c].active == 0 && c !in s.work && s.writer.Some?
    requires s' == s.(cores := s.cores[c := s.cores[c].(closed := true)], threads := s'.threads)
    requires forall u | 0 <= u < |s'.threads| :: !s'.threads[u].Locked?
    ensures Closed(s')
  {
  }

  lemma ReserveIsNotWork(s: State, i: nat)
    requires Inv(s) && i < |s.reserve|
    ensures s.reserve[i] < |s.cores| && s.reserve[i] !in s.work
  {
    assert ListOf(s.reserve, s.cores, Reserve) && ListOf(s.work, s.cores, Work);
  }

  lemma CleanCloseInv(s: State, t: nat, i: nat, remaining: seq<nat>, now: int, s': State)
    requires Inv(s) && t < |s.threads| && s.threads[t] == CleanClose(i, remaining, now)
    requires StepCleanClose(s, t, i, remaining, now) == Some(s')
    ensures Inv(s')
  {
    hide Owners, Counters, Locks, Lists, Scans, Closed, QueueOk, Swept, ListOf;
    var pc := CleanScan(i + 1, remaining, now);
    LocksAt(s, t);
    SweptAt(s, t, i, remaining, now);
    SweptPasses(s, s', i, remaining);
    ReserveIsNotWork(s, i);
    WriterIsAlone(s, t);
    OwnersFrame(s.cores, s'.cores, s.owner, s.threads, s.requests, s.requests);
    OwnersMove(s'.cores, s.owner, s.threads, s.requests, t, pc);
    CountersFrame(s.cores, s'.cores, s.owner, s.threads);
    CountersMove(s'.cores, s.owner, s.threads, t, pc);
    LocksStep(s.readers, s.writer, s.pendingHolder, s.threads, t, pc);
    ListsFrame(s, s');
    ScansNobody(s, s', t, pc);
    ClosedOne(s, s', s.reserve[i]);
    QueueStep(s, s', t, pc);
  }

  lemma ListsStopped(s: State, s': State)
    requires Lists(s) && s'.cores == CloseListed(s) && s'.work == [] && s'.reserve == [] && !s'.ready
    requires s'.maxReserve == s.maxReserve && s'.nextSeq == s.nextSeq
    ensures Lists(s')
  {
  }

  lemma CloseStartInv(s: State, t: nat, s': State)
    requires Inv(s) && t < |s.threads| && s.threads[t] == CloseStart && StepCloseStart(s, t) == Some(s')
    ensures Inv(s')
  {
    hide Owners, Counters, Locks, Lists, Scans, QueueOk, Swept;
    LocksAt(s, t);
    NobodyScans(s, t);
    OwnersFrame(s.cores, s'.cores, s.owner, s.threads, s.requests, s.requests);
    OwnersMove(s'.cores, s.owner, s.threads, s.requests, t, CloseQueue);
    CountersFrame(s.cores, s'.cores, s.owner, s.threads);
    CountersMove(s'.cores, s.owner, s.threads, t, CloseQueue);
    LocksStep(s.readers, s.writer, s.pendingHolder, s.threads, t, CloseQueue);
    ListsStopped(s, s');
    ScansNobody(s, s', t, CloseQueue);
    QueueStep(s, s', t, CloseQueue);
  }

  lemma QueueClosed(s: State, s': State, t: nat, pc: Pc)
    requires QueueOk(s) && t < |s.threads| && s'.threads == s.threads[t := pc] && !Dispatches(pc)
    requires s'.queue == [] && s'.popped == s.popped && s'.requests == CloseChannels(s)
    requires forall u | 0 <= u < |s.threads| :: !Dispatches(s.threads[u])
    ensures QueueOk(s')
  {
  }

  lemma StoppedAt(s: State, t: nat)
    requires Inv(s) && t < |s.threads| && s.threads[t] == CloseQueue
    ensures s.stopped && s.reserve == []
  {
    assert ScanOk(s, s.threads[t]);
  }

  lemma CloseQueueInv(s: State, t: nat, s': State)
    requires Inv(s) && t < |s.threads| && s.threads[t] == CloseQueue && StepCloseQueue(s, t) == Some(s')
    ensures Inv(s')
  {
    hide Owners, Counters, Locks, Lists, Scans, Closed, QueueOk, Swept;
    LocksAt(s, t);
    StoppedAt(s, t);
    WriterIsAlone(s, t);
    NobodyDispatches(s);
    OwnersFrame(s.cores, s.cores, s.owner, s.threads, s.requests, s'.requests);
    OwnersMove(s.cores, s.owner, s.threads, s'.requests, t, Finished);
    CountersMove(s.cores, s.owner, s.threads, t, Finished);
    LocksStep(s.readers, s.writer, s.pendingHolder, s.threads, t, Finished);
    ListsFrame(s, s');
    ScansNobody(s, s', t, Finished);
    ClosedCleaned(s.(requests := s'.requests, queue := []), s');
    QueueClosed(s, s', t, Finished);
  }

  // ----- All steps -----

  lemma CancelContextInv(s: State, r: nat)
    requires Inv(s) && r < |s.requests|
    ensures Inv(SetRequest(s, r, s.requests[r].(ctxDone := true)))
  {
    hide Owners, Counters, Locks, Lists, Scans, Closed, Swept;
    var s' := SetRequest(s, r, s.requests[r].(ctxDone := true));
    OwnersFrame(s.cores, s.cores, s.owner, s.threads, s.requests, s'.requests);
    ListsFrame(s, s');
    ScansSame(s, s');
    ClosedSame(s, s');
    QueueSame(s, s');
  }

  lemma ScansSame(s: State, s': State)
    requires Scans(s) && s' == s.(requests := s'.requests)
    ensures Scans(s')
  {
    forall u | 0 <= u < |s.threads| ensures ScanOk(s', s'.threads[u]) {
      ScanFrame(s, s', s.threads[u]);
    }
  }

  lemma ClosedSame(s: State, s': State)
    requires Closed(s) && s' == s.(requests := s'.requests)
    ensures Closed(s')
  {
  }

  lemma QueueSame(s: State, s': State)
    requires QueueOk(s) && s' == s.(requests := s'.requests) && |s'.requests| == |s.requests|
    requires forall r | 0 <= r < |s.requests| ::
               s'.requests[r].buffer == s.requests[r].buffer && s'.requests[r].channelClosed == s.requests[r].channelClosed
    ensures QueueOk(s')
  {
  }

  /** Taking a core from a list. */
  lemma TakingInv(s: State, t: nat, choice: Choice, s': State)
    requires Inv(s) && t < |s.threads| && (s.threads[t].Locking? || s.threads[t].Trying?)
    requires StepThread(s, t, choice) == Some(s')
    ensures Inv(s')
  {
    hide Inv, Lock;
    match s.threads[t]
    case Locking(who, c) => LockInv(s, t, who, c);
    case Trying(who, i) =>
      if s.cores[s.reserve[i]].locked {
        TryingFailedInv(s, t, who, i, s');
      } else {
        LockInv(s, t, who, s.reserve[i]);
      }
  }

  /** Every step of every thread keeps the invariant. */
  lemma StepThreadInv(s: State, t: nat, choice: Choice, s': State)
    requires Inv(s) && StepThread(s, t, choice) == Some(s')
    ensures Inv(s')
  {
    hide Inv, StepWorkStart, StepWorkScan, StepReserveStart, StepReserveScan, StepTrying, StepReadStart, StepReadScan,
         StepLocking, StepLocked, StepCounted, StepStartReserve, StepEnqueue, StepWaiting, StepCancelling, StepRelease,
         StepUnlocking, StepDispatchStart, StepDispatchLoop, StepHanding, StepCleanStart, StepCleanScan, StepCleanClose,
         StepCloseStart, StepCloseQueue;
    match s.threads[t]
    case WorkStart(who) => WorkStartInv(s, t, who, s');
    case WorkScan(who, i, best, m) => WorkScanInv(s, t, who, i, best, m, s');
    case ReserveStart(who) => ReserveStartInv(s, t, who, s');
    case ReserveScan(who, i) => ReserveScanInv(s, t, who, i, s');
    case Trying(_, _) => TakingInv(s, t, choice, s');
    case ReadStart => ReadStartInv(s, t, s');
    case ReadScan(i, best, m) => ReadScanInv(s, t, i, best, m, s');
    case Locking(_, _) => TakingInv(s, t, choice, s');
    case Locked(who, c) => LockedInv(s, t, who, c, NowOf(choice), s');
    case Counted(who, c) => CountedInv(s, t, who, c, s');
    case StartReserve(who) => StartReserveInv(s, t, who, choice, s');
    case Enqueue => EnqueueInv(s, t, s');
    case Waiting(r) =>
      WaitingThreads(s, t, r, choice, s');
      if s'.threads[t].Holding? { ReceiveInv(s, t, r, choice, s'); } else { WaitingLeaveInv(s, t, r, choice, s'); }
    case Cancelling(r) => CancellingInv(s, t, r, s');
    case Holding(c) => ReleaseInv(s, t, Caller, c, s');
    case Releasing(c) => ReleaseInv(s, t, Dispatcher, c, s');
    case Unlocking(who, c) => UnlockingInv(s, t, who, c, NowOf(choice), s');
    case DispatchStart => DispatchStartInv(s, t, s');
    case DispatchLoop => DispatchLoopInv(s, t, s');
    case Handing(c) => HandingInv(s, t, c, choice, s');
    case CleanStart => CleanStartInv(s, t, NowOf(choice), s');
    case CleanScan(i, remaining, now) =>
      CleanScanThreads(s, t, i, remaining, now, s');
      if s'.threads[t] == CleanStart { CleanEndInv(s, t, i, remaining, now, s'); }
      else { CleanScanOnInv(s, t, i, remaining, now, s'); }
    case CleanClose(i, remaining, now) => CleanCloseInv(s, t, i, remaining, now, s');
    case CloseStart => CloseStartInv(s, t, s');
    case CloseQueue => CloseQueueInv(s, t, s');
  }

  lemma WaitingThreads(s: State, t: nat, r: nat, choice: Choice, s': State)
    requires t < |s.threads| && StepWaiting(s, t, r, choice) == Some(s')
    ensures |s'.threads| == |s.threads|
  {
  }

  lemma CleanScanThreads(s: State, t: nat, i: nat, remaining: seq<nat>, now: int, s': State)
    requires t < |s.threads| && StepCleanScan(s, t, i, remaining, now) == Some(s')
    ensures |s'.threads| == |s.threads|
    ensures s'.threads[t].CleanStart? || s'.threads[t].CleanScan? || s'.threads[t].CleanClose?
  {
  }

  lemma StartReserveInv(s: State, t: nat, who: Who, choice: Choice, s': State)
    requires Inv(s) && t < |s.threads| && s.threads[t] == StartReserve(who)
    requires StepStartReserve(s, t, who, choice) == Some(s')
    ensures Inv(s')
  {
    hide Inv;
    if |s.reserve| >= s.maxReserve || choice == Otherwise {
      NoReserveInv(s, t, who, choice, s');
    } else {
      NewCoreInv(s, t, who, choice.now, s');
    }
  }

  /** Every step keeps the invariant. */
  lemma StepInv(s: State, a: Action, s': State)
    requires Inv(s) && Step(s, a) == Some(s')
    ensures Inv(s')
  {
    hide Inv, StepThread;
    match a
    case Run(t, choice) => StepThreadInv(s, t, choice, s');
    case NewThread(pc) => NewThreadInv(s, pc);
    case CancelContext(r) => CancelContextInv(s, r);
  }

  /** Every run from a new pool, over every interleaving, keeps the invariant. */
  lemma {:induction false} RunInv(n: nat, maxReserve: nat, actions: seq<Action>)
    requires RunAll(Initial(n, maxReserve), actions).Some?
    ensures Inv(RunAll(Initial(n, maxReserve), actions).value)
  {
    hide Inv, Step;
    if actions == [] {
      InitialInv(n, maxReserve);
    } else {
      var before := RunAll(Initial(n, maxReserve), actions[..|actions| - 1]).value;
      RunInv(n, maxReserve, actions[..|actions| - 1]);
      StepInv(before, actions[|actions| - 1], RunAll(Initial(n, maxReserve), actions).value);
    }
  }

  // ----- What the invariant says -----

  /** The agent has the lock of core `c`. */
  ghost predicate HasLock(s: State, a: Agent, c: nat) {
    match a
    case Thread(t) => t < |s.threads| && Has(s.threads[t]) == Some(c)
    case Buffer(r) => r < |s.requests| && s.requests[r].buffer == Some(c)
  }

  /** In every reachable state a core is locked exactly when some thread or delivery buffer has its lock,
      and then only one has. */
  lemma OneOwner(n: nat, maxReserve: nat, actions: seq<Action>, s: State, c: nat)
    requires RunAll(Initial(n, maxReserve), actions) == Some(s) && c < |s.cores|
    ensures s.cores[c].locked <==> exists a :: HasLock(s, a, c)
    ensures forall a, b | HasLock(s, a, c) && HasLock(s, b, c) :: a == b
  {
    hide Inv, HasLock;
    RunInv(n, maxReserve, actions);
    if s.cores[c].locked {
      OwnerHasLock(s, c);
    }
    forall a | HasLock(s, a, c) ensures s.cores[c].locked && c in s.owner && s.owner[c] == a {
      LockIsOwned(s, a, c);
    }
  }

  lemma OwnerHasLock(s: State, c: nat)
    requires Inv(s) && c < |s.cores| && s.cores[c].locked
    ensures c in s.owner && HasLock(s, s.owner[c], c)
  {
  }

  lemma LockIsOwned(s: State, a: Agent, c: nat)
    requires Inv(s) && c < |s.cores| && HasLock(s, a, c)
    ensures s.cores[c].locked && c in s.owner && s.owner[c] == a
  {
  }

  /** No two threads use the same core at the same time. */
  lemma ExclusiveUse(n: nat, maxReserve: nat, actions: seq<Action>, s: State, t: nat, u: nat, c: nat)
    requires RunAll(Initial(n, maxReserve), actions) == Some(s)
    requires t < |s.threads| && u < |s.threads| && s.threads[t] == Holding(c) && s.threads[u] == Holding(c)
    ensures t == u
  {
    RunInv(n, maxReserve, actions);
    OwnsOne(s, t, c);
    OwnsOne(s, u, c);
  }

  /** The active count is 0 or 1, and 1 only while the core is locked. */
  lemma ActiveCount(n: nat, maxReserve: nat, actions: seq<Action>, s: State, c: nat)
    requires RunAll(Initial(n, maxReserve), actions) == Some(s) && c < |s.cores|
    ensures s.cores[c].active == 0 || (s.cores[c].active == 1 && s.cores[c].locked)
  {
    RunInv(n, maxReserve, actions);
  }

  /** When idle cleanup closes a worker, its count is still 0, however long ago it was looked at;
      and until the pool is closed no counted worker is ever a closed one. */
  lemma CleanupSparesBusy(n: nat, maxReserve: nat, actions: seq<Action>, s: State)
    requires RunAll(Initial(n, maxReserve), actions) == Some(s)
    ensures forall t | 0 <= t < |s.threads| && s.threads[t].CleanClose? ::
              var i := s.threads[t].i;
              i < |s.reserve| && s.reserve[i] < |s.cores| && s.cores[s.reserve[i]].active == 0
    ensures !s.stopped ==> forall c | 0 <= c < |s.cores| && s.cores[c].active == 1 :: !s.cores[c].closed
  {
    RunInv(n, maxReserve, actions);
    forall t | 0 <= t < |s.threads| && s.threads[t].CleanClose?
      ensures var i := s.threads[t].i;
              i < |s.reserve| && s.reserve[i] < |s.cores| && s.cores[s.reserve[i]].active == 0
    {
      SweptAt(s, t, s.threads[t].i, s.threads[t].remaining, s.threads[t].now);
    }
    ClosedIsUncounted(s);
  }

  /** A delivery never blocks and never sends on a closed channel. */
  lemma DeliveriesSucceed(n: nat, maxReserve: nat, actions: seq<Action>, s: State, t: nat, c: nat, now: int)
    requires RunAll(Initial(n, maxReserve), actions) == Some(s)
    requires t < |s.threads| && s.threads[t] == Handing(c)
    ensures StepThread(s, t, Go(now)).Some?
    ensures var r := s.queue[0]; StepThread(s, t, Go(now)).value.requests[r].buffer == Some(c)
  {
    RunInv(n, maxReserve, actions);
    HandingCanDeliver(s, t);
  }

  /** Requests leave the queue in the order they entered it, each at most once: a request overtaken by a
      later one is not queued any more, because it was cancelled or the pool was closed. */
  lemma QueueOrder(n: nat, maxReserve: nat, actions: seq<Action>, s: State)
    requires RunAll(Initial(n, maxReserve), actions) == Some(s)
    ensures forall i, j | 0 <= i < j < |s.popped| :: s.popped[i] < s.popped[j]
    ensures forall a, b | a < b && b in s.popped && a !in s.popped :: a !in s.queue
    ensures forall r | 0 <= r < |s.requests| && s.requests[r].buffer.Some? :: r in s.popped
  {
    RunInv(n, maxReserve, actions);
  }

  /** There are never more reserve cores than allowed, and no two ever had the same number. */
  lemma ReserveCores(n: nat, maxReserve: nat, actions: seq<Action>, s: State)
    requires RunAll(Initial(n, maxReserve), actions) == Some(s)
    ensures |s.reserve| <= maxReserve
    ensures forall c, d | 0 <= c < |s.cores| && 0 <= d < |s.cores| && c != d
                       && s.cores[c].kind == Reserve && s.cores[d].kind == Reserve :: s.cores[c].name != s.cores[d].name
  {
    RunInv(n, maxReserve, actions);
    MaxReserveFixed(n, maxReserve, actions);
  }

  /** Steps keep the number of reserve cores allowed, and a closed pool stays closed. */
  lemma StepFacts(s: State, a: Action, s': State)
    requires Inv(s) && Step(s, a) == Some(s')
    ensures s'.maxReserve == s.maxReserve && (s.stopped ==> s'.stopped)
    ensures a.Run? ==> a.t < |s.threads| && Goes(s, a.t, s')
    ensures !a.Run? ==> s'.owner == s.owner
  {
    if a.Run? {
      OwnedFacts(s, a.t);
      hide Inv, StepThread, BuffersAreOwned;
      StepGoes(s, a.t, a.choice, s');
    }
  }

  lemma OwnedFacts(s: State, t: nat)
    requires Inv(s)
    ensures BuffersAreOwned(s) && (t < |s.threads| ==> HandsItsOwn(s, t))
  {
    hide Counters, Locks, Lists, Scans, Closed, QueueOk;
  }

  lemma {:induction false} MaxReserveFixed(n: nat, maxReserve: nat, actions: seq<Action>)
    requires RunAll(Initial(n, maxReserve), actions).Some?
    ensures RunAll(Initial(n, maxReserve), actions).value.maxReserve == maxReserve
  {
    hide Step, Inv;
    if actions != [] {
      var before := actions[..|actions| - 1];
      MaxReserveFixed(n, maxReserve, before);
      RunInv(n, maxReserve, before);
      StepFacts(RunAll(Initial(n, maxReserve), before).value, actions[|actions| - 1],
                RunAll(Initial(n, maxReserve), actions).value);
    }
  }
}
