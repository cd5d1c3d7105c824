/**
 What the pipeline gets done: no worker is ever stuck, one round of the raft thread proposes all
 that idle watermarks leave free, and an undisturbed request ends in an applied batch and a
 success.
 */
module PipelineProgress {
  import opened Machine
  import opened KvStore
  import opened Batch
  import opened ProposalQueue
  import opened Pipeline
  import opened PipelineSafety

  // ---- steps a worker can always take ----

  /** A worker inside a request always has a next step, whatever the others do. */
  lemma WorkerNeverStuck(s: State, w: nat) returns (a: Step)
    requires At(s, w) && !s.pc[w].Resting? && |s.hist| + 1 < U64_MAX
    ensures Enabled(s, a) && OfWorker(a) && a.w == w
  {
    match s.pc[w]
    case Checked => a := LoadHigh(w);
    case Loaded(_) => a := StoreHigh(w);
    case Begun => a := Commit(w, []);
    case Finishing => a := FinishIdle(w);
    case Committed(_) => a := CheckLeader(w);
    case Admitted(_) => a := RaiseHigh(w);
    case Raised(_) => a := LoadTail(w);
    case Tailed(_, _) => a := LoadHead(w);
    case Fitted(_, _) => a := FillSlot(w);
    case Filled(_, _) => a := StoreTailOf(w);
    case Pushed(_) => a := StoreSeq(w);
  }

  /** A resting worker may start a request exactly while the high watermark is less than 2048 ahead
      of the transactions applied. */
  lemma CapacityIff(s: State, w: nat)
    requires Inv(s) && At(s, w) && s.pc[w].Resting?
    ensures Enabled(s, CheckCapacity(w)) <==> s.hw < |Flat(s.log[..s.applied])| + 2048
  {
  }

  /** The high watermark is raised by one step alone, to the larger of the two numbers. */
  lemma HighMoves(s: State, a: Step)
    requires Enabled(s, a)
    ensures Next(s, a).hw >= s.hw && (Next(s, a).hw > s.hw ==> a.RaiseHigh?)
    ensures a.RaiseHigh? ==>
              At(s, a.w) && s.pc[a.w].Admitted? && s.pc[a.w].ws.seqno <= Next(s, a).hw &&
              (Next(s, a).hw == s.hw || Next(s, a).hw == s.pc[a.w].ws.seqno)
  {
    hide Queued, Batched, Remaining, MaxSeq, Marked, HasRoom, HasPut, Run, Writes;
  }

  /** A worker that begins holds back nothing that was raised before. */
  lemma BeginHoldsBack(s: State, w: nat)
    requires At(s, w) && w < MAX_WORKERS && s.pc[w].Checked?
    ensures Enabled(s, LoadHigh(w)) && Enabled(Next(s, LoadHigh(w)), StoreHigh(w))
    ensures var t := Next(Next(s, LoadHigh(w)), StoreHigh(w)); At(t, w) && t.wm[w] == s.hw == t.hw
  {
    hide Queued;
  }

  /** One that has pushed holds back what is later than its own, and an idle one nothing. */
  lemma RestHoldsBack(s: State, w: nat)
    requires At(s, w) && w < MAX_WORKERS
    ensures s.pc[w].Pushed? ==>
              Enabled(s, StoreSeq(w)) && |Next(s, StoreSeq(w)).wm| > w &&
              Next(s, StoreSeq(w)).wm[w] == s.pc[w].seqno
    ensures s.pc[w].Finishing? ==>
              Enabled(s, FinishIdle(w)) && |Next(s, FinishIdle(w)).wm| > w && Next(s, FinishIdle(w)).wm[w] == U64_MAX
    ensures s.pc[w].Resting? ==>
              Enabled(s, LoopIdle(w)) && |Next(s, LoopIdle(w)).wm| > w && Next(s, LoopIdle(w)).wm[w] == U64_MAX
  {
    hide Queued;
  }

  /** The drain buffer and the ring are together one queue in push order. */
  lemma PopMovesOldest(s: State)
    requires Enabled(s, Pop)
    ensures var t := Next(s, Pop);
            t.drain + Queued(t.ring) == s.drain + Queued(s.ring) && |t.drain| == |s.drain| + 1
  {
    hide Queued;
    TakeFirst(s.ring);
    Assoc(s.drain, [Queued(s.ring)[0]], Queued(Take(s.ring)));
  }

  // ---- one round of the raft thread ----

  lemma {:induction false} DrainAll(s0: State, r: seq<Step>) returns (r': seq<Step>)
    requires Runs(s0, r)
    requires var s := After(s0, r);
             s.leader && s.phase.Draining? && |s.drain| + |Queued(s.ring)| <= QUEUE_CAP
    ensures Runs(s0, r')
    ensures var s, t := After(s0, r), After(s0, r');
            t == s.(drain := s.drain + Queued(s.ring), ring := t.ring) && Queued(t.ring) == [] &&
            t.ring.slots == s.ring.slots && t.ring.tail == s.ring.tail &&
            (s.ring.head <= s.ring.tail ==> t.ring.head == t.ring.tail)
    decreases |Queued(After(s0, r).ring)|
  {
    hide Queued, Slot;
    var s := After(s0, r);
    LengthOf(s.ring);
    if Queued(s.ring) == [] {
      r' := r;
      assert s.drain + Queued(s.ring) == s.drain;
    } else {
      r' := Do(s0, r, Pop);
      PopMovesOldest(s);
      TakeFirst(s.ring);
      assert After(s0, r').ring == Take(s.ring);
      r' := DrainAll(s0, r');
    }
  }

  /** What no watermark read stands against is safe at the end of the scan. */
  lemma {:induction false} ScanToEnd(s0: State, r: seq<Step>, bound: nat) returns (r': seq<Step>)
    requires Runs(s0, r)
    requires var s := After(s0, r);
             |s.pc| == |s.wm| && s.phase.Scanning? && s.phase.next <= ScanEnd(s) && bound <= s.phase.least &&
             forall v :: s.phase.next <= v < ScanEnd(s) ==> bound <= s.wm[v]
    ensures Runs(s0, r')
    ensures var s, t := After(s0, r), After(s0, r');
            t == s.(phase := t.phase) && t.phase.Scanning? && t.phase.next == ScanEnd(s) && bound <= t.phase.least
    decreases ScanEnd(After(s0, r)) - After(s0, r).phase.next
  {
    var s := After(s0, r);
    if s.phase.next < ScanEnd(s) {
      r' := Do(s0, r, ScanOne);
      r' := ScanToEnd(s0, r', bound);
    } else {
      r' := r;
    }
  }

  lemma {:induction false} AllPicked(buf: seq<WriteSet>, safe: nat, limit: nat)
    requires |buf| <= limit && forall x :: x in buf ==> x.seqno <= safe
    ensures Picked(buf, safe, limit) == buf && Left(buf, safe, limit) == []
  {
    if buf != [] {
      assert Last(buf) in buf && forall x :: x in Init(buf) ==> x in buf;
      AllPicked(Init(buf), safe, limit);
      assert buf == Init(buf) + [Last(buf)];
    }
  }

  lemma ProposeAll(s: State)
    requires s.phase.Scanning? && s.phase.next == ScanEnd(s) && s.drain != [] && |s.drain| <= s.cap
    requires forall x :: x in s.drain ==> x.seqno <= s.phase.least
    ensures Enabled(s, Propose(true))
    ensures var t := Next(s, Propose(true));
            t == s.(drain := [], phase := Draining, log := s.log + [SortBySeq(s.drain)])
  {
    AllPicked(s.drain, s.phase.least, s.cap);
    SortIsSortedPermutation(s.drain);
  }

  /** When no watermark is below what was pushed and a batch has room for it, the raft thread by
      itself drains the ring, scans and proposes all of it, sorted, in one round. */
  lemma RoundTakesAll(s0: State, r: seq<Step>) returns (r': seq<Step>)
    requires Runs(s0, r)
    requires var s := After(s0, r); var all := s.drain + Queued(s.ring);
             s.leader && s.phase.Draining? && |s.pc| == |s.wm| &&
             0 < |all| <= QUEUE_CAP && |all| <= s.cap &&
             forall x :: x in all ==>
               x.seqno <= U64_MAX && forall v :: 0 <= v < ScanEnd(s) ==> x.seqno <= s.wm[v]
    ensures Runs(s0, r')
    ensures var s, t := After(s0, r), After(s0, r'); var all := s.drain + Queued(s.ring);
            t == s.(drain := [], ring := t.ring, log := s.log + [SortBySeq(all)]) && Queued(t.ring) == [] &&
            t.ring.slots == s.ring.slots && t.ring.tail == s.ring.tail &&
            (s.ring.head <= s.ring.tail ==> t.ring.head == t.ring.tail) &&
            SortedBySeq(SortBySeq(all)) && multiset(SortBySeq(all)) == multiset(all)
  {
    hide Queued, Slot, SortBySeq;
    var s := After(s0, r);
    var all := s.drain + Queued(s.ring);
    SortIsSortedPermutation(all);
    r' := DrainAll(s0, r);
    r' := Do(s0, r', EndDrain);
    MaxSeqIsMax(all);
    r' := ScanToEnd(s0, r', MaxSeq(all));
    ProposeAll(After(s0, r'));
    r' := Do(s0, r', Propose(true));
  }

  // ---- one request from beginning to end ----

  function Committing(s: State, ops: seq<Op>): WriteSet {
    WriteSet(|s.hist| + 1, ops)
  }

  function Beginning(s: State, w: nat): State
    requires At(s, w)
  {
    s.(pc := s.pc[w := Begun], wm := Marked(s.wm, w, s.hw))
  }

  function Raising(s: State, w: nat, ops: seq<Op>): State
    requires At(s, w)
  {
    s.(pc := s.pc[w := Raised(Committing(s, ops))], hw := Max(s.hw, |s.hist| + 1),
       hist := s.hist + [Committing(s, ops)], store := Run(s.store, Writes(ops, |s.hist| + 1)))
  }

  lemma Begin(s0: State, r: seq<Step>, w: nat) returns (r': seq<Step>)
    requires Runs(s0, r)
    requires var s := After(s0, r);
             At(s, w) && s.pc[w].Resting? && s.hw < s.committed + MAX_INFLIGHT
    ensures Runs(s0, r') && After(s0, r') == Beginning(After(s0, r), w)
  {
    r' := Do(s0, r, CheckCapacity(w));
    r' := Do(s0, r', LoadHigh(w));
    r' := Do(s0, r', StoreHigh(w));
    assert After(s0, r').pc == After(s0, r).pc[w := Begun];
  }

  lemma Replicate(s0: State, r: seq<Step>, w: nat, ops: seq<Op>) returns (r': seq<Step>)
    requires Runs(s0, r) && CleanOps(ops) && HasPut(ops)
    requires var s := After(s0, r);
             At(s, w) && s.pc[w].Begun? && s.leader && |s.hist| + 1 < U64_MAX
    ensures Runs(s0, r') && After(s0, r') == Raising(After(s0, r), w, ops)
  {
    hide CleanOps, HasPut, Queued, Run, Writes;
    var s := After(s0, r);
    r' := Do(s0, r, Commit(w, ops));
    r' := Do(s0, r', CheckLeader(w));
    r' := Do(s0, r', RaiseHigh(w));
    assert After(s0, r').pc == s.pc[w := Raised(Committing(s, ops))];
  }

  /** A resting worker handles a request up to the point where its write-set is about to be pushed. */
  lemma Handle(s0: State, r: seq<Step>, w: nat, ops: seq<Op>) returns (r': seq<Step>)
    requires Runs(s0, r) && CleanOps(ops) && HasPut(ops)
    requires var s := After(s0, r);
             At(s, w) && s.pc[w].Resting? && s.leader && s.hw < s.committed + MAX_INFLIGHT &&
             |s.hist| + 1 < U64_MAX
    ensures Runs(s0, r') && After(s0, r') == Raising(Beginning(After(s0, r), w), w, ops)
  {
    hide Enabled, Next;
    r' := Begin(s0, r, w);
    r' := Replicate(s0, r', w, ops);
  }

  function Parking(s: State, w: nat): State
    requires At(s, w) && s.pc[w].Raised?
  {
    s.(pc := s.pc[w := Resting], wm := Marked(s.wm, w, IDLE), ring := Append(s.ring, s.pc[w].ws),
       parked := s.parked + [s.pc[w].ws.seqno])
  }

  function Appending(s: State, w: nat): State
    requires At(s, w) && s.pc[w].Raised?
  {
    s.(pc := s.pc[w := Pushed(s.pc[w].ws.seqno)], ring := Append(s.ring, s.pc[w].ws))
  }

  /** The four accesses of a push that nothing interrupts. */
  lemma PushAlone(s0: State, r: seq<Step>, w: nat) returns (r': seq<Step>)
    requires Runs(s0, r)
    requires var s := After(s0, r); At(s, w) && s.pc[w].Raised? && HasRoom(s.ring, s.ring.tail)
    ensures Runs(s0, r') && After(s0, r') == Appending(After(s0, r), w)
  {
    hide Slot, Queued;
    var s := After(s0, r);
    r' := Do(s0, r, LoadTail(w));
    r' := Do(s0, r', LoadHead(w));
    r' := Do(s0, r', FillSlot(w));
    r' := Do(s0, r', StoreTailOf(w));
    assert After(s0, r').pc == s.pc[w := Pushed(s.pc[w].ws.seqno)];
  }

  /** The worker pushes, parks its response and finds no further request. */
  lemma Park(s0: State, r: seq<Step>, w: nat) returns (r': seq<Step>)
    requires Runs(s0, r)
    requires var s := After(s0, r); At(s, w) && s.pc[w].Raised? && HasRoom(s.ring, s.ring.tail)
    ensures Runs(s0, r') && After(s0, r') == Parking(After(s0, r), w)
  {
    hide Slot, Queued;
    var s := After(s0, r);
    r' := PushAlone(s0, r, w);
    r' := Rest(s0, r', w);
    assert After(s0, r').pc == s.pc[w := Resting];
  }

  /** After its push the worker parks the response and finds no further request. */
  lemma Rest(s0: State, r: seq<Step>, w: nat) returns (r': seq<Step>)
    requires Runs(s0, r)
    requires var s := After(s0, r); At(s, w) && s.pc[w].Pushed?
    ensures Runs(s0, r')
    ensures var s := After(s0, r);
            After(s0, r') == s.(pc := s.pc[w := Resting], wm := Marked(s.wm, w, IDLE),
                                parked := s.parked + [s.pc[w].seqno])
  {
    var s := After(s0, r);
    r' := Do(s0, r, StoreSeq(w));
    r' := Do(s0, r', LoopIdle(w));
    assert After(s0, r').pc == s.pc[w := Resting];
    assert After(s0, r').wm == Marked(s.wm, w, IDLE);
  }

  /** The only batch not yet applied is applied, and the response parked last goes out. */
  lemma ApplyAndAnswer(s0: State, r: seq<Step>, ws: WriteSet) returns (r': seq<Step>)
    requires Runs(s0, r) && ws.seqno > 0
    requires var s := After(s0, r);
             s.log != [] && s.applied == |s.log| - 1 && Last(s.log) == [ws] &&
             s.parked != [] && Last(s.parked) == ws.seqno
    ensures Runs(s0, r')
    ensures var s := After(s0, r);
            After(s0, r') == s.(applied := |s.log|, committed := ws.seqno, parked := Init(s.parked),
                                answers := s.answers + [Answer(ws.seqno, Success)])
  {
    var s := After(s0, r);
    MaxOfOne(ws);
    r' := Do(s0, r, ApplyNext);
    r' := Do(s0, r', Release(|s.parked| - 1));
    assert s.parked[..|s.parked| - 1] + s.parked[|s.parked|..] == Init(s.parked);
  }

  lemma MaxOfOne(x: WriteSet)
    ensures MaxSeq([x]) == x.seqno && SortBySeq([x]) == [x]
  {
    assert Init([x]) == [];
    assert SortBySeq([]) == [];
  }

  /** A server at rest: nothing queued or unapplied, and the other workers hold nothing back. */
  predicate AtRest(s: State, w: nat) {
    At(s, w) && s.pc[w].Resting? && s.leader && s.phase.Draining? && s.cap > 0 &&
    s.ring.head == s.ring.tail && s.drain == [] && s.applied == |s.log| &&
    s.hw < s.committed + MAX_INFLIGHT && |s.hist| + 1 < U64_MAX &&
    forall v :: 0 <= v < ScanEnd(s) && v != w ==> |s.hist| < s.wm[v]
  }

  /** The request is committed, pushed and parked. */
  function Requested(s: State, w: nat, ops: seq<Op>): State
    requires At(s, w)
  {
    var ws := Committing(s, ops);
    s.(wm := Marked(Marked(s.wm, w, s.hw), w, IDLE), hw := Max(s.hw, ws.seqno), hist := s.hist + [ws],
       store := Run(s.store, Writes(ops, ws.seqno)), ring := Append(s.ring, ws), parked := s.parked + [ws.seqno])
  }

  lemma RequestIsPushed(s0: State, r: seq<Step>, w: nat, ops: seq<Op>) returns (r': seq<Step>)
    requires Runs(s0, r) && AtRest(After(s0, r), w) && CleanOps(ops) && HasPut(ops)
    ensures Runs(s0, r') && After(s0, r') == Requested(After(s0, r), w, ops)
    ensures Queued(After(s0, r').ring) == [Committing(After(s0, r), ops)]
  {
    hide CleanOps, HasPut, Queued, Slot, Run, Writes, Enabled, Next, Marked, Fill, StoreTail;
    var s := After(s0, r);
    var ws := Committing(s, ops);
    r' := Handle(s0, r, w, ops);
    assert s.pc[w := Begun][w := Raised(ws)][w := Resting] == s.pc;
    r' := Park(s0, r', w);
    AppendIs(s.ring, ws);
    LengthOf(s.ring);
    assert [] + [ws] == [ws];
  }

  lemma IdleHoldNothing(s: State, w: nat, ops: seq<Op>)
    requires AtRest(s, w)
    ensures var t := Requested(s, w, ops);
            |t.pc| == |t.wm| && ScanEnd(t) == ScanEnd(s) &&
            forall v :: 0 <= v < ScanEnd(t) ==> |s.hist| + 1 <= t.wm[v]
  {
    hide Run, Writes, Append;
  }

  /** The only write-set queued becomes a batch, and the response parked last goes out. */
  lemma OnlyOneSucceeds(s0: State, r: seq<Step>, ws: WriteSet) returns (r': seq<Step>)
    requires Runs(s0, r) && 0 < ws.seqno <= U64_MAX
    requires var s := After(s0, r);
             Queued(s.ring) == [ws] && s.drain == [] && s.leader && s.phase.Draining? && s.cap > 0 &&
             s.applied == |s.log| && s.parked != [] && Last(s.parked) == ws.seqno && |s.pc| == |s.wm| &&
             forall v :: 0 <= v < ScanEnd(s) ==> ws.seqno <= s.wm[v]
    ensures Runs(s0, r')
    ensures var s, t := After(s0, r), After(s0, r');
            Queued(t.ring) == [] &&
            t == s.(ring := t.ring, log := s.log + [[ws]], applied := |s.log| + 1, committed := ws.seqno,
                    parked := Init(s.parked), answers := s.answers + [Answer(ws.seqno, Success)])
  {
    hide Queued, Enabled, Next, SortBySeq, Runs, Picked, Left;
    assert [] + [ws] == [ws];
    MaxOfOne(ws);
    r' := RoundTakesAll(s0, r);
    r' := ApplyAndAnswer(s0, r', ws);
  }

  /** On such a server a request with a put can be carried to its end: its write-set is in the
      table and, alone in a batch, in the log, the batch is applied, and the client is told so. */
  lemma RequestSucceeds(s0: State, r: seq<Step>, w: nat, ops: seq<Op>) returns (r': seq<Step>)
    requires Runs(s0, r) && AtRest(After(s0, r), w) && CleanOps(ops) && HasPut(ops)
    ensures Runs(s0, r')
    ensures var s, t := After(s0, r), After(s0, r'); var ws := WriteSet(|s.hist| + 1, ops);
            t.hist == s.hist + [ws] && t.store == Run(s.store, Writes(ops, ws.seqno)) &&
            t.log == s.log + [[ws]] && t.applied == |t.log| && t.committed == ws.seqno &&
            t.answers == s.answers + [Answer(ws.seqno, Success)] && t.parked == s.parked &&
            t.discarded == s.discarded && t.pc == s.pc && t.hw >= ws.seqno &&
            Queued(t.ring) == [] && t.drain == []
  {
    hide CleanOps, HasPut, Queued, Slot, Run, Writes, Enabled, Next, Runs, Append, Marked;
    var s := After(s0, r);
    r' := RequestIsPushed(s0, r, w, ops);
    IdleHoldNothing(s, w, ops);
    r' := OnlyOneSucceeds(s0, r', Committing(s, ops));
  }
}
