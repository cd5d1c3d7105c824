/**
 The write pipeline of one node as a step system: worker threads and the raft thread interleave.
 The steps are the ones of src/worker.c and src/raft_thread.c. On the way of a write-set into a
 batch every access to shared memory is a step of its own: the watermarks, the high watermark,
 the four accesses of a push, each load of the scan. Five steps stand for more than one access:
 CheckCapacity and Release load two counters, Pop is one take of the only consumer, and Gain and
 Lose set the leader flag together with faulted_seq.
 */
module Pipeline {
  import opened Machine
  import opened KvStore
  import opened Batch
  import opened ProposalQueue

  const MAX_INFLIGHT: nat := 2048
  const MAX_WORKERS: nat := 128
  // Watermark of a worker that is not inside a request.
  const IDLE: nat := U64_MAX

  /** Where a worker is inside the handling of one request. */
  datatype Pc =
    | Resting                 // between requests
    | Checked                 // raft_has_capacity returned true
    | Loaded(seen: nat)       // raft_worker_begin has read the high watermark
    | Begun                   // ... and published it as its own watermark
    | Finishing               // the transaction produced nothing to replicate
    | Committed(ws: WriteSet) // the transaction is in SQLite
    | Admitted(ws: WriteSet)  // the worker saw itself on the leader
    | Raised(ws: WriteSet)    // the high watermark covers the write-set
    | Tailed(ws: WriteSet, at: nat) // pq_push has loaded the tail
    | Fitted(ws: WriteSet, at: nat) // ... has loaded the head and found room
    | Filled(ws: WriteSet, at: nat) // ... has written the slot
    | Pushed(seqno: nat)      // ... has stored the tail

  datatype Phase =
    | Draining
    | Scanning(next: nat, least: nat)

  datatype Reply = Success | Unavailable | Redirected

  datatype Answer = Answer(seqno: nat, reply: Reply)

  datatype State = State(
    cap: nat,                  // batch_max_entries
    pc: seq<Pc>,               // one per worker
    wm: seq<nat>,              // worker_watermark, IDLE where the source has no entry
    hw: nat,                   // high_watermark
    ring: Ring,                // proposal queue
    drain: seq<WriteSet>,      // drain buffer
    phase: Phase,
    log: seq<seq<WriteSet>>,   // sorted batches raft accepted, in log order
    applied: nat,
    committed: nat,            // committed_seq
    leader: bool,
    faulted: nat,              // faulted_seq
    discarded: seq<WriteSet>,  // write-sets that will never be proposed
    hist: seq<WriteSet>,       // replicated transactions in commit order
    store: Store,              // the node's SQLite table
    parked: seq<nat>,          // responses waiting for their sequence number
    answers: seq<Answer>)

  datatype Step =
    | CheckCapacity(w: nat)
    | LoadHigh(w: nat)
    | StoreHigh(w: nat)
    | Commit(w: nat, ops: seq<Op>)
    | CommitGivenUp(w: nat, ops: seq<Op>)
    | CheckLeader(w: nat)
    | RaiseHigh(w: nat)
    | LoadTail(w: nat)
    | LoadHead(w: nat)
    | FillSlot(w: nat)
    | StoreTailOf(w: nat)
    | StoreSeq(w: nat)
    | FinishIdle(w: nat)
    | LoopIdle(w: nat)
    | Release(p: nat)
    | Pop
    | EndDrain
    | ScanOne
    | SkipBatch
    | Propose(accepted: bool)
    | ApplyNext
    | Gain
    | Lose(discard: bool)

  function Start(workers: nat, cap: nat): State {
    State(cap, seq(workers, i => Resting), seq(workers, i => IDLE), 0, EMPTY_RING, [], Draining, [], 0, 0,
          false, 0, [], [], map[], [], [])
  }

  function Batched(s: State): seq<WriteSet>
    requires s.phase.Scanning?
  {
    SortBySeq(Picked(s.drain, s.phase.least, s.cap))
  }

  function Remaining(s: State): seq<WriteSet>
    requires s.phase.Scanning?
  {
    Left(s.drain, s.phase.least, s.cap)
  }

  /** The scan reads the entries of at most MAX_WORKERS workers. */
  function ScanEnd(s: State): nat {
    Min(|s.pc|, MAX_WORKERS)
  }

  /** The worker has a write-set in SQLite that is not in the queue yet. */
  predicate InHand(p: Pc) {
    p.Committed? || p.Admitted? || p.Raised? || Pushing(p)
  }

  /** Between the load of the tail and its store. */
  predicate Pushing(p: Pc) {
    p.Tailed? || p.Fitted? || p.Filled?
  }

  predicate Holds(p: Pc, x: WriteSet) {
    InHand(p) && p.ws == x
  }

  predicate At(s: State, w: nat) {
    w < |s.pc| == |s.wm|
  }

  predicate Enabled(s: State, a: Step) {
    match a
    case CheckCapacity(w) =>
      At(s, w) && s.pc[w].Resting? && (s.hw <= s.committed || s.hw - s.committed < MAX_INFLIGHT)
    case LoadHigh(w) => At(s, w) && s.pc[w].Checked?
    case StoreHigh(w) => At(s, w) && s.pc[w].Loaded?
    case Commit(w, ops) => At(s, w) && s.pc[w].Begun? && CleanOps(ops) && |s.hist| + 1 < U64_MAX
    case CommitGivenUp(w, ops) =>
      At(s, w) && s.pc[w].Begun? && CleanOps(ops) && HasPut(ops) && |s.hist| + 1 < U64_MAX
    case CheckLeader(w) => At(s, w) && s.pc[w].Committed?
    case RaiseHigh(w) => At(s, w) && s.pc[w].Admitted?
    case LoadTail(w) => At(s, w) && s.pc[w].Raised?
    case LoadHead(w) => At(s, w) && s.pc[w].Tailed?
    case FillSlot(w) => At(s, w) && s.pc[w].Fitted?
    case StoreTailOf(w) => At(s, w) && s.pc[w].Filled?
    case StoreSeq(w) => At(s, w) && s.pc[w].Pushed?
    case FinishIdle(w) => At(s, w) && s.pc[w].Finishing?
    case LoopIdle(w) => At(s, w) && s.pc[w].Resting?
    case Release(p) =>
      p < |s.parked| && (s.parked[p] <= s.committed || (s.faulted > 0 && s.parked[p] <= s.faulted))
    case Pop => s.leader && s.phase.Draining? && Queued(s.ring) != [] && |s.drain| < QUEUE_CAP
    case EndDrain => s.leader && s.phase.Draining? && Queued(s.ring) == []
    case ScanOne => s.phase.Scanning? && s.phase.next < ScanEnd(s) && |s.pc| == |s.wm|
    case SkipBatch => s.phase.Scanning? && s.phase.next == ScanEnd(s)
    case Propose(_) => s.phase.Scanning? && s.phase.next == ScanEnd(s) && Batched(s) != []
    case ApplyNext => s.applied < |s.log|
    case Gain => s.phase.Draining? && !s.leader
    case Lose(_) => s.phase.Draining? && s.leader
  }

  /** A step of the raft thread, or the release of a response: no worker moves on. */
  predicate OfRaft(a: Step) {
    a.Release? || a.Pop? || a.EndDrain? || a.ScanOne? || a.SkipBatch? || a.Propose? || a.ApplyNext? ||
    a.Gain? || a.Lose?
  }

  function Move(s: State, w: nat, to: Pc): State
    requires At(s, w)
  {
    s.(pc := s.pc[w := to])
  }

  /** Workers from MAX_WORKERS on have no watermark: their stores do nothing. */
  function Marked(wm: seq<nat>, w: nat, mark: nat): (r: seq<nat>)
    requires w < |wm|
    ensures |r| == |wm| && r[w] == if w < MAX_WORKERS then mark else wm[w]
    ensures forall v :: 0 <= v < |wm| && v != w ==> r[v] == wm[v]
  {
    if w < MAX_WORKERS then wm[w := mark] else wm
  }

  function Mark(s: State, w: nat, to: Pc, mark: nat): State
    requires At(s, w)
  {
    s.(pc := s.pc[w := to], wm := Marked(s.wm, w, mark))
  }

  function Next(s: State, a: Step): State
    requires Enabled(s, a)
  {
    match a
    case CheckCapacity(w) => Move(s, w, Checked)
    case LoadHigh(w) => Move(s, w, Loaded(s.hw))
    case StoreHigh(w) => Mark(s, w, Begun, s.pc[w].seen)
    case Commit(w, ops) =>
      // kv_next_seq runs in the transaction, on its first put
      if HasPut(ops) then
        var ws := WriteSet(|s.hist| + 1, ops);
        Move(s, w, Committed(ws)).(hist := s.hist + [ws],
                                   store := Run(s.store, Writes(ops, ws.seqno)))
      else
        Move(s, w, Finishing).(store := Run(s.store, Writes(ops, 0)))
    case CommitGivenUp(w, ops) =>
      // every commit attempt conflicted: rolled back, but the write-set keeps its number
      Move(s, w, Committed(WriteSet(|s.hist| + 1, ops)))
    case CheckLeader(w) =>
      if s.leader then Move(s, w, Admitted(s.pc[w].ws))
      else Move(s, w, Resting).(discarded := s.discarded + [s.pc[w].ws],
                                answers := s.answers + [Answer(s.pc[w].ws.seqno, Redirected)])
    case RaiseHigh(w) => Move(s, w, Raised(s.pc[w].ws)).(hw := Max(s.hw, s.pc[w].ws.seqno))
    case LoadTail(w) => Move(s, w, Tailed(s.pc[w].ws, s.ring.tail))
    case LoadHead(w) =>
      // a full ring makes pq_push return false, and the worker tries again
      Move(s, w, if HasRoom(s.ring, s.pc[w].at) then Fitted(s.pc[w].ws, s.pc[w].at) else Raised(s.pc[w].ws))
    case FillSlot(w) =>
      Move(s, w, Filled(s.pc[w].ws, s.pc[w].at)).(ring := Fill(s.ring, s.pc[w].at, s.pc[w].ws))
    case StoreTailOf(w) =>
      Move(s, w, Pushed(s.pc[w].ws.seqno)).(ring := StoreTail(s.ring, s.pc[w].at))
    case StoreSeq(w) => Mark(s, w, Resting, s.pc[w].seqno).(parked := s.parked + [s.pc[w].seqno])
    case FinishIdle(w) => Mark(s, w, Resting, IDLE)
    case LoopIdle(w) => Mark(s, w, Resting, IDLE)
    case Release(p) =>
      var reply := if s.parked[p] <= s.committed then Success else Unavailable;
      s.(parked := s.parked[..p] + s.parked[p + 1..],
         answers := s.answers + [Answer(s.parked[p], reply)])
    case Pop => s.(ring := Take(s.ring), drain := s.drain + [Queued(s.ring)[0]])
    case EndDrain => s.(phase := Scanning(0, U64_MAX))
    case ScanOne =>
      s.(phase := Scanning(s.phase.next + 1, Min(s.phase.least, s.wm[s.phase.next])))
    case SkipBatch => s.(phase := Draining)
    case Propose(accepted) =>
      var t := s.(drain := Remaining(s), phase := Draining);
      if accepted then t.(log := s.log + [Batched(s)])
      else t.(discarded := s.discarded + Batched(s))
    case ApplyNext =>
      var m := MaxSeq(s.log[s.applied]);
      s.(applied := s.applied + 1, committed := if m > 0 then m else s.committed)
    case Gain => s.(leader := true, faulted := 0)
    case Lose(discard) =>
      var t := s.(leader := false, faulted := s.hw);
      if discard then t.(drain := [], discarded := s.discarded + s.drain) else t
  }

  // ---- runs ----

  predicate Runs(s: State, steps: seq<Step>)
    decreases |steps|, 0
  {
    steps == [] || (Runs(s, Init(steps)) && Enabled(After(s, Init(steps)), Last(steps)))
  }

  function After(s: State, steps: seq<Step>): State
    requires Runs(s, steps)
    decreases |steps|, 1
  {
    if steps == [] then s else Next(After(s, Init(steps)), Last(steps))
  }

  /** A run goes on by one step. */
  lemma Do(s0: State, r: seq<Step>, a: Step) returns (r': seq<Step>)
    requires Runs(s0, r) && Enabled(After(s0, r), a)
    ensures r' == r + [a]
    ensures Runs(s0, r + [a]) && After(s0, r + [a]) == Next(After(s0, r), a)
  {
    r' := r + [a];
    assert Init(r') == r;
  }

  // ---- the conditions under which the pipeline is order-safe ----

  /** In the hand of a worker that has no watermark. */
  ghost predicate HeldUnwatched(s: State, x: WriteSet) {
    exists w :: MAX_WORKERS <= w < |s.pc| && Holds(s.pc[w], x)
  }

  /** Committed, and neither in the log nor in the batch nor in the hand of a watched worker. */
  ghost predicate LeftOut(s: State, rest: seq<WriteSet>, x: WriteSet) {
    x in Queued(s.ring) || x in rest || x in s.discarded || HeldUnwatched(s, x)
  }

  /** Nothing proposable that is left behind comes before something in the batch. */
  ghost predicate NothingEarlierLeftBehind(s: State)
    requires s.phase.Scanning?
  {
    forall x, b :: LeftOut(s, Remaining(s), x) && b in Batched(s) ==> b.seqno < x.seqno
  }

  /** The access leaves the queue intact: a slot is filled only where nothing is queued, and a tail
      is stored only to append the producer's own write-set. */
  predicate PushIntact(s: State, a: Step)
    requires Enabled(s, a)
  {
    match a
    case FillSlot(w) => FillsFree(s.ring, s.pc[w].at, s.pc[w].ws)
    case StoreTailOf(w) => StoresOwn(s.ring, s.pc[w].at, s.pc[w].ws)
    case _ => true
  }

  /** A step that loses no write-set and invents none. */
  predicate Tidy(s: State, a: Step)
    requires Enabled(s, a)
  {
    !a.CommitGivenUp? && PushIntact(s, a)
  }

  /** A step that does not leave the protocol the watermarks were built for. */
  ghost predicate Sound(s: State, a: Step)
    requires Enabled(s, a)
  {
    Tidy(s, a) && (a.Propose? && a.accepted ==> NothingEarlierLeftBehind(s))
  }

  predicate TidyRun(s: State, steps: seq<Step>)
    requires Runs(s, steps)
  {
    steps == [] || (TidyRun(s, Init(steps)) && Tidy(After(s, Init(steps)), Last(steps)))
  }

  ghost predicate SoundRun(s: State, steps: seq<Step>)
    requires Runs(s, steps)
  {
    steps == [] || (SoundRun(s, Init(steps)) && Sound(After(s, Init(steps)), Last(steps)))
  }
}
