/**
 Why each hypothesis of a sound run is there: concrete runs of the pipeline, from the start
 state, that break the promise to the client when one hypothesis is dropped. Every run uses
 only steps the program can take.
 */
module PipelineCounterexamples {
  import opened Machine
  import opened KvStore
  import opened Batch
  import opened ProposalQueue
  import opened Pipeline
  import opened PipelineSafety
  import opened PipelineProgress

  /** A client was told that its write is committed, and no batch in the log holds the write. */
  ghost predicate LostWrite(s: State) {
    exists a :: a in s.answers && a.reply.Success? && 1 <= a.seqno <= |s.hist| &&
      forall b :: b in s.log ==> s.hist[a.seqno - 1] !in b
  }

  const OPS: seq<Op> := [Put([1], [7])]

  // ---- stretches of a run ----

  /** The queue holds these write-sets and has room for another. */
  predicate Has(r: Ring, q: seq<WriteSet>) {
    InOrder(r) && Queued(r) == q && HasRoom(r, r.tail)
  }

  lemma AppendHas(r: Ring, q: seq<WriteSet>, ws: WriteSet)
    requires Has(r, q) && |q| < 10
    ensures Has(Append(r, ws), q + [ws])
  {
    AppendIs(r, ws);
  }

  lemma TakeHas(r: Ring, x: WriteSet, rest: seq<WriteSet>)
    requires Has(r, [x] + rest) && |rest| < 10
    ensures Has(Take(r), rest) && Queued(r) != [] && Queued(r)[0] == x
  {
    TakeFirst(r);
    assert Queued(r) == [x] + rest;
    assert Queued(Take(r)) == Queued(r)[1..] == rest;
  }

  lemma StartHas()
    ensures Has(EMPTY_RING, [])
  {
  }

  /** A scan of idle watermarks: every buffered write-set counts as safe. */
  lemma {:induction false} ScanIdle(s0: State, r: seq<Step>) returns (r': seq<Step>)
    requires Runs(s0, r)
    requires var s := After(s0, r);
             |s.pc| == |s.wm| && (forall v :: 0 <= v < ScanEnd(s) ==> s.wm[v] == IDLE) &&
             s.phase.Scanning? && s.phase.next <= ScanEnd(s) && s.phase.least == U64_MAX
    ensures Runs(s0, r')
    ensures var s := After(s0, r); After(s0, r') == s.(phase := Scanning(ScanEnd(s), U64_MAX))
    decreases ScanEnd(After(s0, r)) - After(s0, r).phase.next
  {
    var s := After(s0, r);
    if s.phase.next < ScanEnd(s) {
      r' := Do(s0, r, ScanOne);
      r' := ScanIdle(s0, r');
    } else {
      r' := r;
    }
  }

  /** The state, up to the table and the layout of a queue with these contents. */
  ghost predicate Is(s: State, t: State, queued: seq<WriteSet>) {
    s == t.(ring := s.ring, store := s.store) && Has(s.ring, queued)
  }

  lemma StartLeading(workers: nat, cap: nat) returns (r: seq<Step>)
    ensures Runs(Start(workers, cap), r)
    ensures After(Start(workers, cap), r) == Start(workers, cap).(leader := true)
  {
    var s0 := Start(workers, cap);
    assert After(s0, []) == s0;
    r := Do(s0, [], Gain);
  }

  lemma StartPair(cap: nat)
    ensures Start(2, cap).pc == [Resting, Resting] && Start(2, cap).wm == [IDLE, IDLE]
  {
  }

  const FIRST: WriteSet := WriteSet(1, OPS)
  const SECOND: WriteSet := WriteSet(2, OPS)

  lemma FirstCommits(cap: nat) returns (r: seq<Step>)
    ensures Runs(Start(2, cap), r)
    ensures Is(After(Start(2, cap), r),
               Start(2, cap).(leader := true, pc := [Raised(FIRST), Resting], wm := [0, IDLE], hw := 1,
                              hist := [FIRST]), [])
  {
    hide Enabled, Next;
    StartHas();
    StartPair(cap);
    r := StartLeading(2, cap);
    OpsArePuts();
    r := Handle(Start(2, cap), r, 0, OPS);
  }

  lemma BothCommit(cap: nat) returns (r: seq<Step>)
    ensures Runs(Start(2, cap), r)
    ensures Is(After(Start(2, cap), r),
               Start(2, cap).(leader := true, pc := [Raised(FIRST), Raised(SECOND)], wm := [0, 1], hw := 2,
                              hist := [FIRST, SECOND]), [])
  {
    hide Has, Enabled, Next;
    r := FirstCommits(cap);
    var s := After(Start(2, cap), r);
    SecondRaises(s);
    OpsArePuts();
    r := Handle(Start(2, cap), r, 1, OPS);
  }

  lemma SecondRaises(s: State)
    requires s.pc == [Raised(FIRST), Resting] && s.wm == [0, IDLE] && s.hw == 1 && s.hist == [FIRST]
    ensures var t := Raising(Beginning(s, 1), 1, OPS);
            t == s.(store := t.store, pc := [Raised(FIRST), Raised(SECOND)], wm := [0, 1], hw := 2,
                    hist := [FIRST, SECOND])
  {
    hide Run, Writes;
    assert s.pc[1 := Begun][1 := Raised(SECOND)] == [Raised(FIRST), Raised(SECOND)];
    assert Marked(s.wm, 1, 1) == [0, 1];
    assert [FIRST] + [SECOND] == [FIRST, SECOND];
  }

  /** Both workers have committed; the second one's write-set was pushed first. */
  lemma SecondPushesFirst(cap: nat) returns (r: seq<Step>)
    ensures Runs(Start(2, cap), r)
    ensures Is(After(Start(2, cap), r),
               Start(2, cap).(leader := true, pc := [Raised(FIRST), Resting], wm := [0, IDLE], hw := 2,
                              parked := [2], hist := [FIRST, SECOND]), [SECOND])
  {
    hide Queued, Slot, Enabled, Next;
    r := BothCommit(cap);
    AppendHas(After(Start(2, cap), r).ring, [], SECOND);
    r := Park(Start(2, cap), r, 1);
  }

  /** Selection and sorting of a one-element batch. */
  lemma BatchOfOne(x: WriteSet, rest: seq<WriteSet>, limit: nat)
    requires limit > 0 && x.seqno <= U64_MAX
    requires rest == [] || (limit == 1 && |rest| == 1)
    ensures SortBySeq(Picked([x] + rest, U64_MAX, limit)) == [x]
    ensures Left([x] + rest, U64_MAX, limit) == rest
  {
    assert Init([x]) == [];
    assert Picked([x], U64_MAX, limit) == [x];
    assert Left([x], U64_MAX, limit) == [];
    assert SortBySeq([x]) == [x];
    if rest == [] {
      assert [x] + rest == [x];
    } else {
      assert Init([x] + rest) == [x];
    }
  }

  /** The raft thread takes the only queued write-set. */
  lemma DrainOne(s0: State, r: seq<Step>, x: WriteSet) returns (r': seq<Step>)
    requires Runs(s0, r)
    requires var s := After(s0, r); Has(s.ring, [x]) && s.leader && s.phase.Draining? && |s.drain| < 10
    ensures Runs(s0, r')
    ensures var s := After(s0, r);
            After(s0, r') == s.(ring := Take(s.ring), drain := s.drain + [x]) && Has(Take(s.ring), [])
  {
    hide Slot;
    var s := After(s0, r);
    assert [x] + [] == [x];
    TakeHas(s.ring, x, []);
    r' := Do(s0, r, Pop);
  }

  /** The drain finds the queue empty. */
  lemma StopDraining(s0: State, r: seq<Step>) returns (r': seq<Step>)
    requires Runs(s0, r)
    requires var s := After(s0, r); Has(s.ring, []) && s.leader && s.phase.Draining?
    ensures Runs(s0, r') && After(s0, r') == After(s0, r).(phase := Scanning(0, U64_MAX))
  {
    hide Slot, Queued;
    r' := Do(s0, r, EndDrain);
  }

  /** The drain ends and the scan finds every watermark idle. */
  lemma ScanAll(s0: State, r: seq<Step>) returns (r': seq<Step>)
    requires Runs(s0, r)
    requires var s := After(s0, r);
             Has(s.ring, []) && s.leader && s.phase.Draining? && |s.pc| == |s.wm| &&
             forall v :: 0 <= v < ScanEnd(s) ==> s.wm[v] == IDLE
    ensures Runs(s0, r')
    ensures var s := After(s0, r); After(s0, r') == s.(phase := Scanning(ScanEnd(s), U64_MAX))
  {
    hide Slot, Queued, Enabled, Next;
    r' := StopDraining(s0, r);
    r' := ScanIdle(s0, r');
  }

  /** One safe write-set in the buffer becomes a batch of its own. */
  lemma ProposeOne(s: State, x: WriteSet, accepted: bool)
    requires s.drain == [x] && x.seqno <= U64_MAX && s.cap > 0
    requires s.phase == Scanning(ScanEnd(s), U64_MAX)
    ensures Enabled(s, Propose(accepted))
    ensures var t := s.(drain := [], phase := Draining);
            Next(s, Propose(accepted)) ==
              if accepted then t.(log := s.log + [[x]]) else t.(discarded := s.discarded + [x])
  {
    assert [x] + [] == [x];
    BatchOfOne(x, [], s.cap);
  }

  // ---- the runs ----

  /** Once the batch with number 2 is applied, number 1 is answered as committed as well. */
  lemma AnswerFirst(s0: State, r: seq<Step>, p: nat) returns (r': seq<Step>)
    requires Runs(s0, r)
    requires var s := After(s0, r);
             s.log == [[SECOND]] && s.applied == 0 && s.hist == [FIRST, SECOND] &&
             p < |s.parked| && s.parked[p] == 1
    ensures Runs(s0, r') && LostWrite(After(s0, r')) && After(s0, r').discarded == After(s0, r).discarded
  {
    MaxOfOne(SECOND);
    r' := Do(s0, r, ApplyNext);
    r' := Do(s0, r', Release(p));
    var s := After(s0, r');
    assert Answer(1, Success) in s.answers;
  }

  /** The raft thread drained before the first worker pushed, and scans after it went idle. */
  lemma ScanRace() returns (r: seq<Step>)
    ensures Runs(Start(2, 256), r)
    ensures Is(After(Start(2, 256), r),
               Start(2, 256).(leader := true, hw := 2, drain := [SECOND], phase := Scanning(2, U64_MAX),
                              parked := [2, 1], hist := [FIRST, SECOND]), [FIRST])
  {
    hide Slot, Queued, Enabled, Next;
    var s0 := Start(2, 256);
    StartPair(256);
    r := SecondPushesFirst(256);
    r := DrainOne(s0, r, SECOND);
    r := StopDraining(s0, r);
    AppendHas(After(s0, r).ring, [], FIRST);
    r := Park(s0, r, 0);
    r := ScanIdle(s0, r);
  }

  /** Drain and watermark scan are not one atomic step: a worker that pushes and goes idle
      between them is overtaken, and its client is told of a commit that did not happen. */
  lemma ScanRaceLosesWrite() returns (r: seq<Step>)
    ensures Runs(Start(2, 256), r) && LostWrite(After(Start(2, 256), r))
  {
    hide Has;
    r := ScanRace();
    ProposeOne(After(Start(2, 256), r), SECOND, true);
    r := Do(Start(2, 256), r, Propose(true));
    r := AnswerFirst(Start(2, 256), r, 1);
  }

  lemma BothDrained() returns (r: seq<Step>)
    ensures Runs(Start(2, 1), r)
    ensures Is(After(Start(2, 1), r),
               Start(2, 1).(leader := true, hw := 2, drain := [SECOND, FIRST],
                            phase := Scanning(2, U64_MAX), parked := [2, 1], hist := [FIRST, SECOND]), [])
  {
    hide Slot, Queued, Enabled, Next;
    var s0 := Start(2, 1);
    StartPair(1);
    r := SecondPushesFirst(1);
    r := DrainOne(s0, r, SECOND);
    AppendHas(After(s0, r).ring, [], FIRST);
    r := Park(s0, r, 0);
    r := DrainOne(s0, r, FIRST);
    r := ScanAll(s0, r);
  }

  lemma CappedBatch(s: State)
    requires s.drain == [SECOND, FIRST] && s.phase == Scanning(2, U64_MAX) && s.cap == 1 && |s.pc| == 2
    ensures Enabled(s, Propose(true)) && Next(s, Propose(true)).log == s.log + [[SECOND]]
  {
    BatchOfOne(SECOND, [FIRST], 1);
    assert [SECOND] + [FIRST] == [SECOND, FIRST];
  }

  /** The batch cap takes write-sets in the order they were pushed, not by number. */
  lemma BatchCapLosesWrite() returns (r: seq<Step>)
    ensures Runs(Start(2, 1), r) && LostWrite(After(Start(2, 1), r))
  {
    hide Has;
    r := BothDrained();
    CappedBatch(After(Start(2, 1), r));
    r := Do(Start(2, 1), r, Propose(true));
    r := AnswerFirst(Start(2, 1), r, 1);
  }

  // ---- two producers in the same push ----

  /** Both workers have loaded the same tail and found room; both then fill the same slot and store
      the same tail. */
  lemma BothPush() returns (r: seq<Step>)
    ensures Runs(Start(2, 256), r)
    ensures Is(After(Start(2, 256), r),
               Start(2, 256).(leader := true, pc := [Pushed(1), Pushed(2)], wm := [0, 1], hw := 2,
                              hist := [FIRST, SECOND]), [SECOND])
  {
    hide Slot, Queued;
    var s0 := Start(2, 256);
    r := BothCommit(256);
    var ring := After(s0, r).ring;
    TwoLoadsKeepOne(ring, FIRST, SECOND);
    AppendHas(ring, [], SECOND);
    assert Fill(Fill(ring, ring.tail, FIRST), ring.tail, SECOND) == Fill(ring, ring.tail, SECOND);
    r := BothLoad(s0, r, ring.tail);
    r := Do(s0, r, FillSlot(0));
    r := Do(s0, r, FillSlot(1));
    r := Do(s0, r, StoreTailOf(0));
    r := Do(s0, r, StoreTailOf(1));
    assert After(s0, r).pc == [Pushed(1), Pushed(2)];
  }

  lemma BothLoad(s0: State, r: seq<Step>, at: nat) returns (r': seq<Step>)
    requires Runs(s0, r)
    requires var s := After(s0, r);
             s.pc == [Raised(FIRST), Raised(SECOND)] && |s.wm| == 2 && s.ring.tail == at && HasRoom(s.ring, at)
    ensures Runs(s0, r')
    ensures After(s0, r') == After(s0, r).(pc := [Fitted(FIRST, at), Fitted(SECOND, at)])
  {
    r' := Do(s0, r, LoadTail(0));
    r' := Do(s0, r', LoadTail(1));
    r' := Do(s0, r', LoadHead(0));
    r' := Do(s0, r', LoadHead(1));
    assert After(s0, r').pc == [Fitted(FIRST, at), Fitted(SECOND, at)];
  }

  /** Both responses are parked, and the raft thread has drained and scanned. */
  lemma OneOfTwoDrained() returns (r: seq<Step>)
    ensures Runs(Start(2, 256), r)
    ensures Is(After(Start(2, 256), r),
               Start(2, 256).(leader := true, hw := 2, drain := [SECOND], phase := Scanning(2, U64_MAX),
                              parked := [1, 2], hist := [FIRST, SECOND]), [])
  {
    hide Slot, Queued, Enabled, Next;
    var s0 := Start(2, 256);
    StartPair(256);
    r := BothPush();
    r := Rest(s0, r, 0);
    r := Rest(s0, r, 1);
    assert After(s0, r).pc == [Resting, Resting] && After(s0, r).wm == [IDLE, IDLE];
    r := DrainOne(s0, r, SECOND);
    r := ScanAll(s0, r);
  }

  /** Two workers inside a push at once: one write-set vanishes from the queue, and its client is
      told of a commit. At the proposal the queue is empty, nothing was discarded, and the batch has
      room. */
  lemma PushRaceLosesWrite() returns (r: seq<Step>)
    ensures Runs(Start(2, 256), r) && LostWrite(After(Start(2, 256), r))
    ensures After(Start(2, 256), r).discarded == []
  {
    hide Has;
    r := OneOfTwoDrained();
    ProposeOne(After(Start(2, 256), r), SECOND, true);
    r := Do(Start(2, 256), r, Propose(true));
    r := AnswerFirst(Start(2, 256), r, 0);
  }

  // ---- one worker: the first write-set is dropped, the second one goes through ----

  /** The first request is parked and its write-set is in the drain buffer. */
  lemma FirstDrained() returns (r: seq<Step>)
    ensures Runs(Start(2, 256), r)
    ensures Is(After(Start(2, 256), r),
               Start(2, 256).(leader := true, hw := 1, drain := [FIRST], parked := [1], hist := [FIRST]), [])
  {
    hide Slot, Queued, Enabled, Next;
    var s0 := Start(2, 256);
    StartPair(256);
    r := FirstCommits(256);
    AppendHas(After(s0, r).ring, [], FIRST);
    r := Park(s0, r, 0);
    r := DrainOne(s0, r, FIRST);
  }

  ghost predicate FirstGone(s: State) {
    Is(s, Start(2, 256).(leader := true, hw := 1, discarded := [FIRST], parked := [1], hist := [FIRST]), [])
  }

  lemma SecondHandled(r: seq<Step>) returns (r': seq<Step>)
    requires Runs(Start(2, 256), r) && FirstGone(After(Start(2, 256), r))
    ensures Runs(Start(2, 256), r')
    ensures Is(After(Start(2, 256), r'),
               Start(2, 256).(leader := true, hw := 2, discarded := [FIRST], parked := [1, 2],
                              hist := [FIRST, SECOND]), [SECOND])
  {
    hide Slot, Queued, Enabled, Next;
    var s0 := Start(2, 256);
    StartPair(256);
    AppendHas(After(s0, r).ring, [], SECOND);
    OpsArePuts();
    r' := Handle(s0, r, 0, OPS);
    r' := Park(s0, r', 0);
  }

  lemma SecondScanned(r: seq<Step>) returns (r': seq<Step>)
    requires Runs(Start(2, 256), r) && FirstGone(After(Start(2, 256), r))
    ensures Runs(Start(2, 256), r')
    ensures Is(After(Start(2, 256), r'),
               Start(2, 256).(leader := true, hw := 2, drain := [SECOND], phase := Scanning(2, U64_MAX),
                              discarded := [FIRST], parked := [1, 2], hist := [FIRST, SECOND]), [])
  {
    hide Slot, Queued, Enabled, Next;
    var s0 := Start(2, 256);
    StartPair(256);
    r' := SecondHandled(r);
    r' := DrainOne(s0, r', SECOND);
    r' := ScanAll(s0, r');
  }

  lemma SecondReplicates(r: seq<Step>) returns (r': seq<Step>)
    requires Runs(Start(2, 256), r) && FirstGone(After(Start(2, 256), r))
    ensures Runs(Start(2, 256), r') && LostWrite(After(Start(2, 256), r'))
  {
    hide Has;
    var s0 := Start(2, 256);
    r' := SecondScanned(r);
    ProposeOne(After(s0, r'), SECOND, true);
    r' := Do(s0, r', Propose(true));
    r' := AnswerFirst(s0, r', 0);
  }

  /** Leadership is lost and won back before the worker looks: the drain buffer was discarded,
      faulted_seq is 0 again, and the next commit answers the discarded write with success. */
  lemma RegainedLeadershipLosesWrite() returns (r: seq<Step>)
    ensures Runs(Start(2, 256), r) && LostWrite(After(Start(2, 256), r))
  {
    hide Has;
    r := FirstDrained();
    r := Do(Start(2, 256), r, Lose(true));
    r := Do(Start(2, 256), r, Gain);
    r := SecondReplicates(r);
  }

  lemma FirstScanned() returns (r: seq<Step>)
    ensures Runs(Start(2, 256), r)
    ensures Is(After(Start(2, 256), r),
               Start(2, 256).(leader := true, hw := 1, drain := [FIRST], phase := Scanning(2, U64_MAX),
                              parked := [1], hist := [FIRST]), [])
  {
    hide Slot, Queued, Enabled, Next;
    var s0 := Start(2, 256);
    StartPair(256);
    r := FirstDrained();
    r := ScanAll(s0, r);
  }

  /** raft_recv_entry refuses the batch: it is freed, and the next commit answers its clients. */
  lemma RefusedProposalLosesWrite() returns (r: seq<Step>)
    ensures Runs(Start(2, 256), r) && LostWrite(After(Start(2, 256), r))
  {
    hide Has;
    r := FirstScanned();
    ProposeOne(After(Start(2, 256), r), FIRST, false);
    r := Do(Start(2, 256), r, Propose(false));
    r := SecondReplicates(r);
  }

  // ---- more workers than watermarks ----

  /** Worker MAX_WORKERS has committed number 1, worker 0 number 2. */
  lemma UnwatchedCommits(workers: nat, cap: nat) returns (r: seq<Step>)
    requires workers > MAX_WORKERS
    ensures Runs(Start(workers, cap), r)
    ensures var s0 := Start(workers, cap);
            Is(After(s0, r),
               s0.(leader := true, pc := s0.pc[MAX_WORKERS := Raised(FIRST)][0 := Raised(SECOND)],
                   wm := s0.wm[0 := 1], hw := 2, hist := [FIRST, SECOND]), [])
  {
    hide Has, Enabled, Next;
    var s0 := Start(workers, cap);
    StartHas();
    r := StartLeading(workers, cap);
    OpsArePuts();
    r := Handle(s0, r, MAX_WORKERS, OPS);
    UnwatchedRaises(s0.(leader := true));
    var s := After(s0, r);
    OpsArePuts();
    r := Handle(s0, r, 0, OPS);
    WatchedRaises(s);
  }

  lemma UnwatchedRaises(s: State)
    requires At(s, MAX_WORKERS) && s.hist == [] && s.hw == 0
    ensures var t := Raising(Beginning(s, MAX_WORKERS), MAX_WORKERS, OPS);
            t == s.(store := t.store, pc := s.pc[MAX_WORKERS := Raised(FIRST)], hw := 1, hist := [FIRST])
  {
    hide Run, Writes;
    assert [] + [FIRST] == [FIRST];
    assert s.pc[MAX_WORKERS := Begun][MAX_WORKERS := Raised(FIRST)] == s.pc[MAX_WORKERS := Raised(FIRST)];
  }

  lemma WatchedRaises(s: State)
    requires At(s, 0) && s.hist == [FIRST] && s.hw == 1
    ensures var t := Raising(Beginning(s, 0), 0, OPS);
            t == s.(store := t.store, pc := s.pc[0 := Raised(SECOND)], wm := s.wm[0 := 1], hw := 2,
                    hist := [FIRST, SECOND])
  {
    hide Run, Writes;
    assert [FIRST] + [SECOND] == [FIRST, SECOND];
    assert s.pc[0 := Begun][0 := Raised(SECOND)] == s.pc[0 := Raised(SECOND)];
  }

  /** Number 2 is drained, and all the watermarks that exist are idle. */
  lemma UnwatchedScanned(workers: nat, cap: nat) returns (r: seq<Step>)
    requires workers > MAX_WORKERS
    ensures Runs(Start(workers, cap), r)
    ensures var s0 := Start(workers, cap);
            Is(After(s0, r),
               s0.(leader := true, pc := s0.pc[MAX_WORKERS := Raised(FIRST)], hw := 2, drain := [SECOND],
                   phase := Scanning(MAX_WORKERS, U64_MAX), parked := [2], hist := [FIRST, SECOND]), [])
  {
    hide Slot, Queued, Enabled, Next;
    var s0 := Start(workers, cap);
    r := UnwatchedCommits(workers, cap);
    AppendHas(After(s0, r).ring, [], SECOND);
    r := Park(s0, r, 0);
    assert After(s0, r).wm == s0.wm;
    assert After(s0, r).pc == s0.pc[MAX_WORKERS := Raised(FIRST)];
    r := DrainOne(s0, r, SECOND);
    r := ScanAll(s0, r);
  }

  /** With more than MAX_WORKERS workers, of whatever number and with whatever cap, a worker without
      a watermark is overtaken: nothing is left in the queue, nothing was discarded, and a client is
      told of a commit that did not happen. */
  lemma UnwatchedWorkerLosesWrite(workers: nat, cap: nat) returns (r: seq<Step>)
    requires workers > MAX_WORKERS && cap > 0
    ensures Runs(Start(workers, cap), r) && LostWrite(After(Start(workers, cap), r))
    ensures After(Start(workers, cap), r).discarded == []
  {
    hide Slot, Queued;
    var s0 := Start(workers, cap);
    r := UnwatchedScanned(workers, cap);
    ProposeOne(After(s0, r), SECOND, true);
    r := Do(s0, r, Propose(true));
    r := Park(s0, r, MAX_WORKERS);
    r := AnswerFirst(s0, r, 1);
  }

  // ---- transactions that the stream of write-sets does not describe ----

  /** The last commit attempt conflicts: nothing is in the table, and the worker goes on with the
      write-set. */
  lemma GivenUp() returns (r: seq<Step>)
    ensures Runs(Start(2, 256), r)
    ensures After(Start(2, 256), r) ==
            Start(2, 256).(leader := true, pc := [Raised(FIRST), Resting], wm := [0, IDLE], hw := 1)
  {
    hide Enabled, Next, Beginning, Committing, Queued;
    var s0 := Start(2, 256);
    StartPair(256);
    GivenUpState(s0);
    r := StartLeading(2, 256);
    r := Begin(s0, r, 0);
    r := GiveUp(s0, r, 0);
  }

  lemma GivenUpState(s: State)
    requires s.pc == [Resting, Resting] && s.wm == [IDLE, IDLE] && s.hist == [] && s.hw == 0
    ensures var b := Beginning(s.(leader := true), 0);
            At(b, 0) && b.pc[0].Begun? && b.leader && b.hist == [] &&
            b.(pc := b.pc[0 := Raised(Committing(b, OPS))], hw := Max(b.hw, |b.hist| + 1)) ==
              s.(leader := true, pc := [Raised(FIRST), Resting], wm := [0, IDLE], hw := 1)
  {
    assert s.pc[0 := Begun][0 := Raised(FIRST)] == [Raised(FIRST), Resting];
    assert Marked(s.wm, 0, 0) == [0, IDLE];
  }

  lemma GiveUp(s0: State, r: seq<Step>, w: nat) returns (r': seq<Step>)
    requires Runs(s0, r)
    requires var s := After(s0, r);
             At(s, w) && s.pc[w].Begun? && s.leader && |s.hist| + 1 < U64_MAX
    ensures Runs(s0, r')
    ensures var s := After(s0, r);
            After(s0, r') == s.(pc := s.pc[w := Raised(Committing(s, OPS))], hw := Max(s.hw, |s.hist| + 1))
  {
    hide CleanOps, HasPut, Queued, Run, Writes;
    var s := After(s0, r);
    OpsArePuts();
    r' := Do(s0, r, CommitGivenUp(w, OPS));
    r' := Do(s0, r', CheckLeader(w));
    r' := Do(s0, r', RaiseHigh(w));
    assert After(s0, r').pc == s.pc[w := Raised(Committing(s, OPS))];
  }

  lemma OpsArePuts()
    ensures CleanOps(OPS) && HasPut(OPS)
  {
    assert OPS[0].Put?;
  }

  lemma GivenUpScanned() returns (r: seq<Step>)
    ensures Runs(Start(2, 256), r)
    ensures var s := After(Start(2, 256), r);
            s == Start(2, 256).(leader := true, hw := 1, ring := s.ring, drain := [FIRST],
                                phase := Scanning(2, U64_MAX), parked := [1])
  {
    hide Slot, Queued, Enabled, Next;
    var s0 := Start(2, 256);
    StartPair(256);
    StartHas();
    r := GivenUp();
    AppendHas(After(s0, r).ring, [], FIRST);
    r := Park(s0, r, 0);
    r := DrainOne(s0, r, FIRST);
    r := ScanAll(s0, r);
  }

  /** A transaction that was rolled back reaches the log: the leader's table and history stay
      empty, and the followers will apply its write-set. */
  lemma RolledBackWriteReplicates() returns (r: seq<Step>)
    ensures Runs(Start(2, 256), r)
    ensures var s := After(Start(2, 256), r);
            s.store == map[] && s.hist == [] && s.log == [[FIRST]] && FIRST.ops == OPS
  {
    r := GivenUpScanned();
    ProposeOne(After(Start(2, 256), r), FIRST, true);
    r := Do(Start(2, 256), r, Propose(true));
  }

  /** A transaction that only deletes gets no number: the leader's table changes and nothing is
      ever replicated. */
  lemma DeleteOnlyIsNotReplicated(s: State, w: nat, k: Key)
    requires At(s, w) && Enabled(s, Commit(w, [Delete(k)]))
    ensures var t := Next(s, Commit(w, [Delete(k)]));
            k !in t.store && t.hist == s.hist && t.pc[w].Finishing?
  {
    var ops := [Delete(k)];
    assert !HasPut(ops);
    RunAt(s.store, Writes(ops, 0), k);
    assert Last(Writes(ops, 0)) == Write(Delete(k), 0);
    assert Init(Writes(ops, 0)) == [];
  }
}
