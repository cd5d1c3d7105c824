/**
 What every step of the pipeline keeps, and what follows for whole runs.
 The watermark protocol is proved here at the granularity of single loads and stores.
 */
module PipelineSafety {
  import opened Machine
  import opened KvStore
  import opened Batch
  import opened ProposalQueue
  import opened Pipeline

  // ---- ledgers over the workers ----

  /** The worker still has to answer for sequence number n. */
  predicate Owes(p: Pc, n: nat) {
    (InHand(p) && p.ws.seqno == n) || (p.Pushed? && p.seqno == n)
  }

  function One(b: bool): nat {
    if b then 1 else 0
  }

  function Holders(pc: seq<Pc>, x: WriteSet): nat {
    if pc == [] then 0 else Holders(Init(pc), x) + One(Holds(Last(pc), x))
  }

  function Owers(pc: seq<Pc>, n: nat): nat {
    if pc == [] then 0 else Owers(Init(pc), n) + One(Owes(Last(pc), n))
  }

  function Occurs<T(==)>(s: seq<T>, x: T): nat {
    multiset(s)[x]
  }

  function Answered(answers: seq<Answer>, n: nat): nat {
    if answers == [] then 0 else Answered(Init(answers), n) + One(Last(answers).seqno == n)
  }

  lemma {:induction false} HoldersMove(pc: seq<Pc>, w: nat, p: Pc, x: WriteSet)
    requires w < |pc|
    ensures Holders(pc[w := p], x) + One(Holds(pc[w], x)) == Holders(pc, x) + One(Holds(p, x))
  {
    if w == |pc| - 1 {
      assert Init(pc[w := p]) == Init(pc);
    } else {
      HoldersMove(Init(pc), w, p, x);
      assert Init(pc[w := p]) == Init(pc)[w := p];
    }
  }

  lemma {:induction false} OwersMove(pc: seq<Pc>, w: nat, p: Pc, n: nat)
    requires w < |pc|
    ensures Owers(pc[w := p], n) + One(Owes(pc[w], n)) == Owers(pc, n) + One(Owes(p, n))
  {
    if w == |pc| - 1 {
      assert Init(pc[w := p]) == Init(pc);
    } else {
      OwersMove(Init(pc), w, p, n);
      assert Init(pc[w := p]) == Init(pc)[w := p];
    }
  }

  lemma {:induction false} HoldersIff(pc: seq<Pc>, x: WriteSet)
    ensures Holders(pc, x) > 0 <==> exists w :: 0 <= w < |pc| && Holds(pc[w], x)
  {
    if pc != [] {
      HoldersIff(Init(pc), x);
      if Holds(Last(pc), x) {
        assert Holds(pc[|pc| - 1], x);
      }
      if w :| 0 <= w < |Init(pc)| && Holds(Init(pc)[w], x) {
        assert Holds(pc[w], x);
      }
      if w :| 0 <= w < |pc| && Holds(pc[w], x) && w != |pc| - 1 {
        assert Holds(Init(pc)[w], x);
      }
    }
  }

  lemma {:induction false} RestingOwesNothing(pc: seq<Pc>, x: WriteSet, n: nat)
    requires forall w :: 0 <= w < |pc| ==> pc[w].Resting?
    ensures Holders(pc, x) == 0 && Owers(pc, n) == 0
  {
    if pc != [] {
      forall w | 0 <= w < |Init(pc)|
        ensures Init(pc)[w].Resting?
      {
        assert Init(pc)[w] == pc[w];
      }
      RestingOwesNothing(Init(pc), x, n);
    }
  }

  lemma OccursAppend<T>(a: seq<T>, b: seq<T>, x: T)
    ensures Occurs(a + b, x) == Occurs(a, x) + Occurs(b, x)
  {
  }

  lemma OccursRemove<T>(s: seq<T>, p: nat, x: T)
    requires p < |s|
    ensures Occurs(s[..p] + s[p + 1..], x) + One(s[p] == x) == Occurs(s, x)
  {
    assert s == s[..p] + ([s[p]] + s[p + 1..]);
  }

  lemma OccursIff<T>(s: seq<T>, x: T)
    ensures Occurs(s, x) > 0 <==> x in s
  {
  }

  // ---- the invariant, one part per concern ----

  ghost predicate Shaped(s: State) {
    |s.wm| == |s.pc| && s.cap > 0 && s.applied <= |s.log| &&
    (s.phase.Scanning? ==> s.phase.next <= ScanEnd(s)) &&
    (forall b :: b in s.log ==> b != [] && |b| <= s.cap && SortedBySeq(b))
  }

  /** Transactions are numbered 1, 2, 3, ... in commit order. */
  ghost predicate Numbered(hist: seq<WriteSet>) {
    |hist| < U64_MAX &&
    forall i :: 0 <= i < |hist| ==>
      hist[i].seqno == i + 1 && CleanOps(hist[i].ops) && HasPut(hist[i].ops)
  }

  /** How often x is in one of the places a committed write-set can be in. */
  function Places(s: State, x: WriteSet): nat {
    Holders(s.pc, x) + Occurs(Queued(s.ring), x) + Occurs(s.drain, x) + Occurs(Flat(s.log), x) +
    Occurs(s.discarded, x)
  }

  /** Each committed write-set is in exactly one place, once, and nothing else is anywhere. */
  ghost predicate Conserved(s: State) {
    s.ring.head <= s.ring.tail && forall x :: Places(s, x) == One(x in s.hist)
  }

  /** What a worker's watermark promises about the transaction it is in. */
  ghost predicate Promise(s: State, w: nat)
    requires At(s, w)
  {
    (s.pc[w].Loaded? ==> s.pc[w].seen <= |s.hist|) &&
    (s.pc[w].Begun? ==> s.wm[w] <= |s.hist|) &&
    (InHand(s.pc[w]) ==> s.wm[w] < s.pc[w].ws.seqno)
  }

  /** The first MAX_WORKERS workers keep the promise; the others look idle at all times. */
  ghost predicate Watermarked(s: State) {
    |s.wm| == |s.pc| && s.hw <= |s.hist| &&
    forall w :: 0 <= w < |s.pc| ==> if w < MAX_WORKERS then Promise(s, w) else s.wm[w] == IDLE
  }

  ghost predicate ScanHolds(s: State, least: nat, w: nat)
    requires w < |s.pc|
  {
    InHand(s.pc[w]) ==>
      least < s.pc[w].ws.seqno || forall d :: d in s.drain ==> d.seqno < s.pc[w].ws.seqno
  }

  /** What a scan of the first `next` watermarks has established, whatever ran meanwhile. */
  ghost predicate Scanned(s: State) {
    s.phase.Scanning? ==>
      s.phase.next <= ScanEnd(s) &&
      forall w :: 0 <= w < s.phase.next ==> ScanHolds(s, s.phase.least, w)
  }

  /** The batches in the log, joined, are the first transactions of the history. */
  ghost predicate LogIsPrefix(s: State) {
    Flat(s.log) <= s.hist
  }

  ghost predicate CommittedIsApplied(s: State) {
    s.applied <= |s.log| && s.committed == |Flat(s.log[..s.applied])|
  }

  function Owing(s: State, n: nat): nat {
    Owers(s.pc, n) + Occurs(s.parked, n) + Answered(s.answers, n)
  }

  /** Each numbered request is being handled, parked or answered, exactly once. */
  ghost predicate AnswerLedger(s: State) {
    forall n: nat :: Owing(s, n) == One(1 <= n <= |s.hist|)
  }

  ghost predicate SuccessIsCommitted(s: State) {
    forall a :: a in s.answers && a.reply.Success? ==> a.seqno <= s.committed
  }

  /** What holds as long as no write-set is lost or invented, whatever is proposed. */
  ghost predicate Core(s: State) {
    Shaped(s) && Numbered(s.hist) && Conserved(s) && Watermarked(s) && Scanned(s)
  }

  ghost predicate Inv(s: State) {
    Core(s) && LogIsPrefix(s) && CommittedIsApplied(s) && AnswerLedger(s) && SuccessIsCommitted(s)
  }

  // ---- facts about numbered histories ----

  lemma NumberedMember(hist: seq<WriteSet>, x: WriteSet)
    requires Numbered(hist) && x in hist
    ensures 1 <= x.seqno <= |hist| && hist[x.seqno - 1] == x
  {
  }

  lemma Twice(s: seq<WriteSet>, i: nat, j: nat)
    requires i < j < |s| && s[i] == s[j]
    ensures Occurs(s, s[i]) >= 2
  {
    assert s == s[..j] + [s[j]] + s[j + 1..];
    assert s[i] in s[..j];
  }

  lemma FlatStep(log: seq<seq<WriteSet>>, i: nat)
    requires i < |log|
    ensures Flat(log[..i + 1]) == Flat(log[..i]) + log[i]
  {
    FlatSnoc(log[..i], log[i]);
    assert log[..i + 1] == log[..i] + [log[i]];
  }

  /** A transaction is in a prefix of the history exactly when its number is that small. */
  lemma PrefixMember(p: seq<WriteSet>, hist: seq<WriteSet>, x: WriteSet)
    requires Numbered(hist) && p <= hist && x in hist
    ensures x in p <==> x.seqno <= |p|
  {
    NumberedMember(hist, x);
    if x in p {
      var i :| 0 <= i < |p| && p[i] == x;
      assert hist[i] == x;
    }
    if x.seqno <= |p| {
      assert p[x.seqno - 1] == hist[x.seqno - 1];
    }
  }

  /** The places a write-set can be in exclude each other. */
  lemma Exclusive(s: State, x: WriteSet)
    requires Conserved(s)
    ensures x in Flat(s.log) ==> x !in Queued(s.ring) && x !in s.drain && x !in s.discarded
    ensures x in s.drain ==> Occurs(s.drain, x) == 1 && x !in Queued(s.ring) && x !in s.discarded
    ensures Holders(s.pc, x) > 0 ==> x !in s.drain && x !in Flat(s.log)
  {
    assert Places(s, x) <= 1;
    OccursIff(Queued(s.ring), x);
    OccursIff(s.drain, x);
    OccursIff(Flat(s.log), x);
    OccursIff(s.discarded, x);
  }

  lemma PlaceIsHistory(s: State, x: WriteSet)
    requires Numbered(s.hist) && Conserved(s)
    requires x in Queued(s.ring) || x in s.drain || x in s.discarded || x in Flat(s.log) || Holders(s.pc, x) > 0
    ensures x in s.hist && 1 <= x.seqno <= |s.hist| && s.hist[x.seqno - 1] == x
  {
    OccursIff(Queued(s.ring), x);
    OccursIff(s.drain, x);
    OccursIff(Flat(s.log), x);
    OccursIff(s.discarded, x);
    assert Places(s, x) > 0;
    NumberedMember(s.hist, x);
  }

  // ---- the batch a scan entitles the raft thread to propose ----

  /** The state the raft thread proposes from. */
  ghost predicate Ready(s: State) {
    Numbered(s.hist) && Conserved(s) && Scanned(s) && LogIsPrefix(s) &&
    s.phase.Scanning? && s.phase.next == ScanEnd(s)
  }

  /** What selection and sorting guarantee of a batch and the rest of the drain buffer. */
  ghost predicate Chosen(s: State, batch: seq<WriteSet>, rest: seq<WriteSet>) {
    s.phase.Scanning? && batch != [] && SortedBySeq(batch) &&
    multiset(batch) + multiset(rest) == multiset(s.drain) &&
    forall b :: b in batch ==> b.seqno <= s.phase.least && b in s.drain
  }

  ghost predicate Closed(s: State, batch: seq<WriteSet>, rest: seq<WriteSet>) {
    forall x, b :: LeftOut(s, rest, x) && b in batch ==> b.seqno < x.seqno
  }

  lemma BatchIsChosen(s: State)
    requires s.phase.Scanning? && Batched(s) != []
    ensures Chosen(s, Batched(s), Remaining(s))
  {
    SelectionConserves(s.drain, s.phase.least, s.cap);
    var picked := Picked(s.drain, s.phase.least, s.cap);
    SortIsSortedPermutation(picked);
    forall b | b in Batched(s)
      ensures b.seqno <= s.phase.least && b in s.drain
    {
      assert b in multiset(Batched(s));
      assert b in picked;
      assert b in multiset(s.drain);
    }
  }

  lemma ChosenIsNew(s: State, batch: seq<WriteSet>, rest: seq<WriteSet>, b: WriteSet)
    requires Ready(s) && Chosen(s, batch, rest) && b in batch
    ensures |Flat(s.log)| < b.seqno <= |s.hist| && s.hist[b.seqno - 1] == b
    ensures Occurs(batch, b) == 1 && b !in rest
  {
    PlaceIsHistory(s, b);
    Exclusive(s, b);
    PrefixMember(Flat(s.log), s.hist, b);
    OccursIff(batch, b);
    OccursIff(rest, b);
    assert Occurs(s.drain, b) == Occurs(batch, b) + Occurs(rest, b);
  }

  lemma ChosenIsStrict(s: State, batch: seq<WriteSet>, rest: seq<WriteSet>)
    requires Ready(s) && Chosen(s, batch, rest)
    ensures StrictlySorted(batch)
  {
    forall i, j | 0 <= i < j < |batch|
      ensures batch[i].seqno < batch[j].seqno
    {
      ChosenIsNew(s, batch, rest, batch[i]);
      ChosenIsNew(s, batch, rest, batch[j]);
      if batch[i] == batch[j] {
        Twice(batch, i, j);
      }
    }
  }

  /** No worker with a watermark still holds a transaction as old as a member of the batch. */
  lemma NotInFlight(s: State, x: WriteSet, top: WriteSet)
    requires Scanned(s) && s.phase.Scanning? && s.phase.next == ScanEnd(s)
    requires top in s.drain && x.seqno <= top.seqno <= s.phase.least
    ensures Holders(s.pc, x) == 0 || HeldUnwatched(s, x)
  {
    forall w | 0 <= w < ScanEnd(s)
      ensures !Holds(s.pc[w], x)
    {
      assert ScanHolds(s, s.phase.least, w);
    }
    HoldersIff(s.pc, x);
  }

  /** A transaction missing from log and batch that comes before the end of the batch was
      left in the queue, in the buffer, unwatched, or discarded: the watermarks rule out every
      other place. */
  lemma MissingWasLeftBehind(s: State, batch: seq<WriteSet>, rest: seq<WriteSet>, x: WriteSet)
    requires Ready(s) && Chosen(s, batch, rest)
    requires x in s.hist && x.seqno <= Last(batch).seqno
    requires x !in Flat(s.log) && x !in batch
    ensures LeftOut(s, rest, x)
  {
    assert Last(batch) in batch;
    assert Places(s, x) == 1;
    NotInFlight(s, x, Last(batch));
    OccursIff(Queued(s.ring), x);
    OccursIff(s.discarded, x);
    OccursIff(Flat(s.log), x);
    OccursIff(batch, x);
    OccursIff(rest, x);
    assert Occurs(s.drain, x) == Occurs(batch, x) + Occurs(rest, x);
  }

  /** If nothing earlier is left behind, the batch is the next stretch of the history. */
  lemma ClosedBatchIsNextSlice(s: State, batch: seq<WriteSet>, rest: seq<WriteSet>)
    requires Ready(s) && Chosen(s, batch, rest) && Closed(s, batch, rest)
    ensures |Flat(s.log)| < Last(batch).seqno <= |s.hist|
    ensures batch == s.hist[|Flat(s.log)|..Last(batch).seqno]
  {
    var from, top := |Flat(s.log)|, Last(batch).seqno;
    assert Last(batch) in batch;
    ChosenIsNew(s, batch, rest, Last(batch));
    var slice := s.hist[from..top];
    forall x
      ensures x in batch <==> x in slice
    {
      if x in batch {
        ChosenIsNew(s, batch, rest, x);
        assert x == slice[x.seqno - 1 - from];
      }
      if x in slice {
        SliceMember(s.hist, from, top, x);
        PrefixMember(Flat(s.log), s.hist, x);
        if x !in batch {
          MissingWasLeftBehind(s, batch, rest, x);
        }
      }
    }
    ChosenIsStrict(s, batch, rest);
    StrictlySortedUnique(batch, slice);
  }

  lemma SliceMember(hist: seq<WriteSet>, from: nat, to: nat, x: WriteSet)
    requires Numbered(hist) && from <= to <= |hist| && x in hist[from..to]
    ensures x in hist && from < x.seqno <= to
  {
    var i :| 0 <= i < to - from && hist[from..to][i] == x;
    assert hist[from + i] == x;
  }

  lemma OrderedTailIsOutside(s: State, batch: seq<WriteSet>, rest: seq<WriteSet>, x: WriteSet, b: WriteSet)
    requires Ready(s) && Chosen(s, batch, rest) && Flat(s.log) + batch <= s.hist
    requires LeftOut(s, rest, x) && b in batch
    ensures b.seqno < x.seqno
  {
    assert x in rest ==> x in multiset(s.drain);
    HoldersIff(s.pc, x);
    PlaceIsHistory(s, x);
    PlaceIsHistory(s, b);
    PrefixMember(Flat(s.log) + batch, s.hist, b);
    PrefixMember(Flat(s.log) + batch, s.hist, x);
    Exclusive(s, x);
    if x in batch {
      ChosenIsNew(s, batch, rest, x);
    }
  }

  /** The order hypothesis is exact: the log stays a prefix of the history if and only if
      nothing earlier than the batch was left behind. */
  lemma ProposalKeepsOrderIff(s: State)
    requires Ready(s) && Batched(s) != []
    ensures Flat(s.log) + Batched(s) <= s.hist <==> NothingEarlierLeftBehind(s)
  {
    BatchIsChosen(s);
    OrderIff(s, Batched(s), Remaining(s));
  }

  lemma OrderIff(s: State, batch: seq<WriteSet>, rest: seq<WriteSet>)
    requires Ready(s) && Chosen(s, batch, rest)
    ensures Flat(s.log) + batch <= s.hist <==> Closed(s, batch, rest)
  {
    if Closed(s, batch, rest) {
      ClosedBatchIsNextSlice(s, batch, rest);
      assert Flat(s.log) + batch == s.hist[..Last(batch).seqno];
    }
    if Flat(s.log) + batch <= s.hist {
      forall x, b | LeftOut(s, rest, x) && b in batch
        ensures b.seqno < x.seqno
      {
        OrderedTailIsOutside(s, batch, rest, x, b);
      }
    }
  }

  // ---- preservation, part by part ----

  predicate OfWorker(a: Step) {
    !OfRaft(a) && !a.CommitGivenUp?
  }

  lemma ProposeKeepsShape(s: State, accepted: bool)
    requires Shaped(s) && Enabled(s, Propose(accepted))
    ensures Shaped(Next(s, Propose(accepted)))
  {
    BatchIsChosen(s);
    var t := Next(s, Propose(accepted));
    forall b | b in t.log
      ensures b != [] && |b| <= s.cap && SortedBySeq(b)
    {
      assert b in s.log || b == Batched(s);
      SortIsSortedPermutation(Picked(s.drain, s.phase.least, s.cap));
    }
  }

  lemma KeepsNumbering(s: State, a: Step)
    requires Numbered(s.hist) && Enabled(s, a)
    ensures Numbered(Next(s, a).hist) && |s.hist| <= |Next(s, a).hist|
  {
    if a.Commit? {
      assert Next(s, a).hist == s.hist || Next(s, a).hist == s.hist + [WriteSet(|s.hist| + 1, a.ops)];
    } else {
      assert Next(s, a).hist == s.hist;
    }
  }

  lemma WorkerKeepsShape(s: State, a: Step)
    requires Shaped(s) && Enabled(s, a) && !OfRaft(a)
    ensures Shaped(Next(s, a))
  {
    hide Queued, Run, Writes, HasPut, Marked, HasRoom, Fill, StoreTail;
    assert Next(s, a).log == s.log;
  }

  lemma RaftKeepsShape(s: State, a: Step)
    requires Shaped(s) && Enabled(s, a) && OfRaft(a) && !a.Propose?
    ensures Shaped(Next(s, a))
  {
    assert Next(s, a).log == s.log;
  }

  lemma KeepsShape(s: State, a: Step)
    requires Shaped(s) && Enabled(s, a)
    ensures Shaped(Next(s, a))
  {
    if a.Propose? {
      ProposeKeepsShape(s, a.accepted);
    } else if OfRaft(a) {
      RaftKeepsShape(s, a);
    } else {
      WorkerKeepsShape(s, a);
    }
  }

  lemma FillConserves(s: State, w: nat, x: WriteSet)
    requires Enabled(s, FillSlot(w)) && PushIntact(s, FillSlot(w))
    ensures Places(Next(s, FillSlot(w)), x) == Places(s, x)
  {
    hide Queued, FillsFree;
    FillKeepsIff(s.ring, s.pc[w].at, s.pc[w].ws);
    HoldersMove(s.pc, w, Filled(s.pc[w].ws, s.pc[w].at), x);
  }

  lemma StoreTailMoves(s: State, w: nat)
    requires Enabled(s, StoreTailOf(w))
    ensures At(s, w) && s.pc[w].Filled?
    ensures var t := Next(s, StoreTailOf(w));
            t.pc == s.pc[w := Pushed(s.pc[w].ws.seqno)] && t.ring == StoreTail(s.ring, s.pc[w].at) &&
            t.drain == s.drain && t.log == s.log && t.discarded == s.discarded && t.hist == s.hist
  {
  }

  /** Storing a tail moves the write-set out of the hand, whatever it does to the queue. */
  lemma StoreTailPlaces(s: State, w: nat, x: WriteSet)
    requires Enabled(s, StoreTailOf(w))
    ensures var t := Next(s, StoreTailOf(w));
            At(s, w) && s.pc[w].Filled? &&
            Places(t, x) + Occurs(Queued(s.ring) + [s.pc[w].ws], x) == Places(s, x) + Occurs(Queued(t.ring), x)
  {
    hide Queued, Enabled, Next, Holders;
    StoreTailMoves(s, w);
    var t, ws, q := Next(s, StoreTailOf(w)), s.pc[w].ws, Queued(s.ring);
    HoldersMove(s.pc, w, Pushed(ws.seqno), x);
    OccursAppend(q, [ws], x);
    OccursOne(ws, x);
  }

  lemma OccursOne<T>(y: T, x: T)
    ensures Occurs([y], x) == One(y == x)
  {
  }

  lemma StoreTailConserves(s: State, w: nat, x: WriteSet)
    requires Enabled(s, StoreTailOf(w)) && PushIntact(s, StoreTailOf(w)) && s.ring.head <= s.ring.tail
    ensures Places(Next(s, StoreTailOf(w)), x) == Places(s, x)
  {
    hide Queued, Places, Occurs;
    StoreTailPlaces(s, w, x);
    StoreAppendsIff(s.ring, s.pc[w].at, s.pc[w].ws);
  }

  lemma CheckLeaderConserves(s: State, w: nat, x: WriteSet)
    requires Enabled(s, CheckLeader(w))
    ensures Places(Next(s, CheckLeader(w)), x) == Places(s, x)
  {
    var ws := s.pc[w].ws;
    HoldersMove(s.pc, w, Admitted(ws), x);
    HoldersMove(s.pc, w, Resting, x);
    OccursAppend(s.discarded, [ws], x);
  }

  lemma CommitIs(s: State, w: nat, ops: seq<Op>)
    requires Enabled(s, Commit(w, ops))
    ensures At(s, w) && s.pc[w].Begun?
    ensures var t, ws := Next(s, Commit(w, ops)), WriteSet(|s.hist| + 1, ops);
            t.pc == s.pc[w := if HasPut(ops) then Committed(ws) else Finishing] &&
            t.hist == (if HasPut(ops) then s.hist + [ws] else s.hist) &&
            t.ring == s.ring && t.drain == s.drain && t.log == s.log && t.discarded == s.discarded &&
            t.parked == s.parked && t.answers == s.answers
  {
    hide HasPut, Run, Writes;
  }

  lemma CommitConserves(s: State, w: nat, ops: seq<Op>, x: WriteSet)
    requires Enabled(s, Commit(w, ops)) && Numbered(s.hist)
    ensures Places(Next(s, Commit(w, ops)), x) - Places(s, x)
            == One(x in Next(s, Commit(w, ops)).hist) - One(x in s.hist)
  {
    hide Enabled, Next, HasPut, Queued;
    CommitIs(s, w, ops);
    var ws := WriteSet(|s.hist| + 1, ops);
    HoldersMove(s.pc, w, Committed(ws), x);
    HoldersMove(s.pc, w, Finishing, x);
    assert ws !in s.hist;
    assert x in s.hist + [ws] <==> x in s.hist || x == ws;
  }

  /** Moves that leave the worker's write-set, if any, where it is. */
  lemma QuietMove(s: State, t: State, w: nat, p: Pc, x: WriteSet, n: nat)
    requires w < |s.pc| && t.pc == s.pc[w := p]
    ensures Holds(p, x) == Holds(s.pc[w], x) ==> Holders(t.pc, x) == Holders(s.pc, x)
    ensures Owes(p, n) == Owes(s.pc[w], n) ==> Owers(t.pc, n) == Owers(s.pc, n)
  {
    HoldersMove(s.pc, w, p, x);
    OwersMove(s.pc, w, p, n);
  }

  lemma ProposeConserves(s: State, accepted: bool, x: WriteSet)
    requires Enabled(s, Propose(accepted))
    ensures Places(Next(s, Propose(accepted)), x) == Places(s, x)
  {
    var batch := Batched(s);
    BatchIsChosen(s);
    FlatSnoc(s.log, batch);
    OccursAppend(Flat(s.log), batch, x);
    OccursAppend(s.discarded, batch, x);
    assert Occurs(s.drain, x) == Occurs(batch, x) + Occurs(Remaining(s), x);
  }

  lemma PopConserves(s: State, x: WriteSet)
    requires Enabled(s, Pop)
    ensures Places(Next(s, Pop), x) == Places(s, x)
  {
    TakeFirst(s.ring);
    var first := Queued(s.ring)[0];
    OccursAppend([first], Queued(Take(s.ring)), x);
    OccursAppend(s.drain, [first], x);
  }

  lemma LoseConserves(s: State, discard: bool, x: WriteSet)
    requires Enabled(s, Lose(discard))
    ensures Places(Next(s, Lose(discard)), x) == Places(s, x)
  {
    OccursAppend(s.discarded, s.drain, x);
  }

  predicate MovesWriteSet(a: Step) {
    a.Commit? || a.CheckLeader? || a.FillSlot? || a.StoreTailOf?
  }

  lemma QuietConserves(s: State, a: Step, x: WriteSet)
    requires Enabled(s, a) && OfWorker(a) && !MovesWriteSet(a)
    ensures Places(Next(s, a), x) == Places(s, x) && Next(s, a).hist == s.hist
  {
    hide Queued, HasRoom, Marked;
    var t := Next(s, a);
    assert t.pc == s.pc[a.w := t.pc[a.w]] && t.ring == s.ring && t.log == s.log;
    assert Holds(t.pc[a.w], x) == Holds(s.pc[a.w], x);
    QuietMove(s, t, a.w, t.pc[a.w], x, 0);
  }

  /** Every step moves a committed write-set between two places or creates one in a worker's
      hands; none is lost and none is duplicated. */
  lemma WorkerConserves(s: State, a: Step, x: WriteSet)
    requires Numbered(s.hist) && Enabled(s, a) && OfWorker(a) && PushIntact(s, a) && s.ring.head <= s.ring.tail
    ensures Places(Next(s, a), x) - Places(s, x) == One(x in Next(s, a).hist) - One(x in s.hist)
  {
    hide Places, Queued, HasRoom, Marked, Run, Writes, HasPut;
    if a.Commit? {
      CommitConserves(s, a.w, a.ops, x);
    } else if a.CheckLeader? {
      CheckLeaderConserves(s, a.w, x);
    } else if a.FillSlot? {
      FillConserves(s, a.w, x);
    } else if a.StoreTailOf? {
      StoreTailConserves(s, a.w, x);
    } else {
      QuietConserves(s, a, x);
    }
  }

  predicate MovesBuffer(a: Step) {
    a.Pop? || a.Propose? || a.Lose?
  }

  lemma BuffersStay(s: State, a: Step)
    requires Enabled(s, a) && OfRaft(a) && !MovesBuffer(a)
    ensures var t := Next(s, a);
            t.pc == s.pc && t.ring == s.ring && t.drain == s.drain && t.log == s.log &&
            t.discarded == s.discarded && t.hist == s.hist
  {
    hide Queued, Batched, Remaining, MaxSeq;
  }

  lemma RaftConserves(s: State, a: Step, x: WriteSet)
    requires Enabled(s, a) && OfRaft(a)
    ensures Places(Next(s, a), x) == Places(s, x) && Next(s, a).hist == s.hist
  {
    hide Queued, Enabled, Next;
    RaftFrame(s, a);
    if a.Pop? {
      PopConserves(s, x);
    } else if a.Propose? {
      ProposeConserves(s, a.accepted, x);
    } else if a.Lose? {
      LoseConserves(s, a.discard, x);
    } else {
      BuffersStay(s, a);
    }
  }

  /** Counters: the head never passes the tail when every tail stored is the one loaded. */
  lemma KeepsAligned(s: State, a: Step)
    requires s.ring.head <= s.ring.tail && Enabled(s, a) && Tidy(s, a)
    ensures Next(s, a).ring.head <= Next(s, a).ring.tail
  {
  }

  lemma KeepsConservation(s: State, a: Step)
    requires Numbered(s.hist) && Conserved(s) && Enabled(s, a) && Tidy(s, a)
    ensures Conserved(Next(s, a))
  {
    KeepsAligned(s, a);
    forall x
      ensures Places(Next(s, a), x) == One(x in Next(s, a).hist)
    {
      if OfWorker(a) {
        WorkerConserves(s, a, x);
      } else {
        RaftConserves(s, a, x);
      }
    }
  }

  /** The write-set in a worker's hands is a committed transaction. */
  lemma FlightIsHistory(s: State, w: nat, x: WriteSet)
    requires Numbered(s.hist) && Conserved(s) && w < |s.pc| && Holds(s.pc[w], x)
    ensures 1 <= x.seqno <= |s.hist|
  {
    HoldersIff(s.pc, x);
    PlaceIsHistory(s, x);
  }

  /** The watermark invariant only looks at the workers, the high watermark and the history. */
  lemma PromiseFrame(s: State, t: State, v: nat)
    requires At(s, v) && Promise(s, v) && |t.pc| == |t.wm| == |s.pc|
    requires t.pc[v] == s.pc[v] && t.wm[v] == s.wm[v] && |s.hist| <= |t.hist|
    ensures Promise(t, v)
  {
  }

  lemma WatermarkFrame(s: State, t: State, w: nat)
    requires Watermarked(s) && At(s, w) && |t.pc| == |t.wm| == |s.pc| && |s.hist| <= |t.hist|
    requires forall v :: 0 <= v < |s.pc| && v != w ==> t.pc[v] == s.pc[v] && t.wm[v] == s.wm[v]
    requires (if w < MAX_WORKERS then Promise(t, w) else t.wm[w] == IDLE) && t.hw <= |t.hist|
    ensures Watermarked(t)
  {
    forall v | 0 <= v < |t.pc|
      ensures if v < MAX_WORKERS then Promise(t, v) else t.wm[v] == IDLE
    {
      if v != w && v < MAX_WORKERS {
        PromiseFrame(s, t, v);
      }
    }
  }

  lemma WorkerKeepsWatermarks(s: State, a: Step)
    requires Numbered(s.hist) && Watermarked(s) && Conserved(s) && Enabled(s, a) && OfWorker(a)
    ensures Watermarked(Next(s, a))
  {
    hide Conserved, Promise, Numbered, Run, Writes, Queued, HasRoom, Fill, StoreTail;
    var t := Next(s, a);
    if a.RaiseHigh? {
      FlightIsHistory(s, a.w, s.pc[a.w].ws);
    }
    if a.w < MAX_WORKERS {
      WorkerPromise(s, a);
    }
    WorkerFrame(s, a);
    WatermarkFrame(s, t, a.w);
  }

  /** A worker's step leaves the other workers alone. */
  lemma WorkerFrame(s: State, a: Step)
    requires Enabled(s, a) && OfWorker(a)
    ensures At(s, a.w) && |Next(s, a).pc| == |Next(s, a).wm| == |s.pc| && |s.hist| <= |Next(s, a).hist|
    ensures forall v :: 0 <= v < |s.pc| && v != a.w ==>
              Next(s, a).pc[v] == s.pc[v] && Next(s, a).wm[v] == s.wm[v]
    ensures a.w >= MAX_WORKERS ==> Next(s, a).wm[a.w] == s.wm[a.w]
    ensures !a.RaiseHigh? ==> Next(s, a).hw == s.hw
  {
    hide Queued, Run, Writes, HasPut, HasRoom, Fill, StoreTail;
  }

  lemma WorkerPromise(s: State, a: Step)
    requires Watermarked(s) && Enabled(s, a) && OfWorker(a) && a.w < MAX_WORKERS
    ensures Promise(Next(s, a), a.w)
  {
    hide Run, Writes, Queued, HasRoom, Fill, StoreTail;
    assert Promise(s, a.w);
  }

  lemma KeepsWatermarks(s: State, a: Step)
    requires Numbered(s.hist) && Watermarked(s) && Conserved(s)
    requires Enabled(s, a) && !a.CommitGivenUp?
    ensures Watermarked(Next(s, a))
  {
    if OfWorker(a) {
      WorkerKeepsWatermarks(s, a);
    } else {
      RaftKeepsWatermarks(s, a);
    }
  }

  lemma RaftFrame(s: State, a: Step)
    requires Enabled(s, a) && OfRaft(a)
    ensures Next(s, a).pc == s.pc && Next(s, a).wm == s.wm && Next(s, a).hw == s.hw
    ensures Next(s, a).hist == s.hist
  {
    hide Queued, Batched, Remaining, MaxSeq;
  }

  lemma RaftKeepsWatermarks(s: State, a: Step)
    requires Watermarked(s) && Enabled(s, a) && OfRaft(a)
    ensures Watermarked(Next(s, a))
  {
    RaftFrame(s, a);
    forall v | 0 <= v < |s.pc|
      ensures if v < MAX_WORKERS then Promise(Next(s, a), v) else Next(s, a).wm[v] == IDLE
    {
      if v < MAX_WORKERS {
        PromiseFrame(s, Next(s, a), v);
      }
    }
  }

  /** A transaction that commits during a scan is newer than everything in the drain buffer. */
  lemma NewerThanDrain(s: State, n: nat)
    requires Numbered(s.hist) && Conserved(s) && n > |s.hist|
    ensures forall d :: d in s.drain ==> d.seqno < n
  {
    forall d | d in s.drain
      ensures d.seqno < n
    {
      PlaceIsHistory(s, d);
    }
  }

  /** What a finished part of the scan says about a worker survives that worker's step. */
  lemma ScanFrame(s: State, t: State, w: nat)
    requires Scanned(s) && s.phase.Scanning? && t.phase == s.phase && t.drain == s.drain
    requires w < |s.pc| == |t.pc| && forall v :: 0 <= v < |s.pc| && v != w ==> t.pc[v] == s.pc[v]
    requires ScanHolds(s, s.phase.least, w) ==> ScanHolds(t, s.phase.least, w)
    ensures Scanned(t)
  {
    forall v | 0 <= v < t.phase.next
      ensures ScanHolds(t, t.phase.least, v)
    {
      assert ScanHolds(s, s.phase.least, v);
      if v != w {
        assert t.pc[v] == s.pc[v];
      }
    }
  }

  lemma ScanOneKeepsScan(s: State)
    requires Watermarked(s) && Scanned(s) && Enabled(s, ScanOne)
    ensures Scanned(Next(s, ScanOne))
  {
    var t := Next(s, ScanOne);
    forall v | 0 <= v < t.phase.next
      ensures ScanHolds(t, t.phase.least, v)
    {
      assert Promise(s, v);
      assert v < s.phase.next ==> ScanHolds(s, s.phase.least, v);
    }
  }

  lemma WorkerKeepsScan(s: State, a: Step)
    requires Numbered(s.hist) && Conserved(s) && Scanned(s) && s.phase.Scanning?
    requires Enabled(s, a) && OfWorker(a)
    ensures Scanned(Next(s, a))
  {
    hide Queued, Run, Writes, HasPut, Marked, HasRoom, Fill, StoreTail, Conserved, Numbered;
    NewerThanDrain(s, |s.hist| + 1);
    ScanFrame(s, Next(s, a), a.w);
  }

  lemma RaftKeepsScan(s: State, a: Step)
    requires Watermarked(s) && Scanned(s) && Enabled(s, a) && OfRaft(a)
    ensures Scanned(Next(s, a))
  {
    hide Queued, Batched, Remaining, MaxSeq;
    match a
    case ScanOne => ScanOneKeepsScan(s);
    case Release(p) => SameScan(s, Next(s, a));
    case ApplyNext => SameScan(s, Next(s, a));
    case _ =>
  }

  lemma KeepsScan(s: State, a: Step)
    requires Numbered(s.hist) && Watermarked(s) && Conserved(s) && Scanned(s)
    requires Enabled(s, a) && !a.CommitGivenUp?
    ensures Scanned(Next(s, a))
  {
    if OfRaft(a) {
      RaftKeepsScan(s, a);
    } else if s.phase.Scanning? {
      WorkerKeepsScan(s, a);
    }
  }

  lemma SameScan(s: State, t: State)
    requires Scanned(s) && t.phase == s.phase && t.drain == s.drain && t.pc == s.pc
    ensures Scanned(t)
  {
    if t.phase.Scanning? {
      forall v | 0 <= v < t.phase.next
        ensures ScanHolds(t, t.phase.least, v)
      {
        assert ScanHolds(s, s.phase.least, v);
      }
    }
  }

  lemma LogMoves(s: State, a: Step)
    requires Enabled(s, a)
    ensures Next(s, a).log == if a.Propose? && a.accepted then s.log + [Batched(s)] else s.log
  {
    hide Queued, Batched, Remaining, MaxSeq, Marked, HasRoom;
  }

  lemma KeepsPrefix(s: State, a: Step)
    requires Inv(s) && Enabled(s, a) && Sound(s, a)
    ensures LogIsPrefix(Next(s, a))
  {
    hide Next, Batched, NothingEarlierLeftBehind;
    LogMoves(s, a);
    KeepsNumbering(s, a);
    if a.Propose? && a.accepted {
      ProposalKeepsOrderIff(s);
      FlatSnoc(s.log, Batched(s));
      HistoryStays(s, a);
    } else {
      HistoryGrows(s, a);
    }
  }

  lemma HistoryStays(s: State, a: Step)
    requires Enabled(s, a) && a.Propose?
    ensures Next(s, a).hist == s.hist && Batched(s) != []
  {
  }

  lemma HistoryGrows(s: State, a: Step)
    requires Enabled(s, a)
    ensures s.hist <= Next(s, a).hist
  {
    hide Queued, Batched, Remaining, MaxSeq, Marked, HasRoom, HasPut;
  }

  /** Applying the next batch moves committed_seq to the end of that batch, and upwards. */
  lemma ApplyAdvances(s: State)
    requires Shaped(s) && Numbered(s.hist) && LogIsPrefix(s) && s.applied < |s.log|
    ensures MaxSeq(s.log[s.applied]) == |Flat(s.log[..s.applied + 1])| > |Flat(s.log[..s.applied])|
  {
    var b := s.log[s.applied];
    assert b in s.log;
    FlatStep(s.log, s.applied);
    FlatTake(s.log, s.applied + 1);
    MaxSeqOfSorted(b);
    var upTo := Flat(s.log[..s.applied + 1]);
    assert Last(upTo) == Last(b);
    assert upTo[|upTo| - 1] == s.hist[|upTo| - 1];
  }

  lemma AppliedMoves(s: State, a: Step)
    requires Enabled(s, a)
    ensures !a.ApplyNext? ==> Next(s, a).applied == s.applied && Next(s, a).committed == s.committed
    ensures a.ApplyNext? ==>
              s.applied < |s.log| && Next(s, a).applied == s.applied + 1 &&
              Next(s, a).committed == if MaxSeq(s.log[s.applied]) > 0 then MaxSeq(s.log[s.applied]) else s.committed
  {
    hide Queued, Batched, Remaining, MaxSeq, Marked, HasRoom, HasPut, Run, Writes;
  }

  lemma KeepsCommitted(s: State, a: Step)
    requires Shaped(s) && Numbered(s.hist) && LogIsPrefix(s) && CommittedIsApplied(s) && Enabled(s, a)
    ensures CommittedIsApplied(Next(s, a))
    ensures Next(s, a).committed >= s.committed
  {
    hide Enabled, Next, MaxSeq, Batched, Shaped, Numbered, LogIsPrefix;
    var t := Next(s, a);
    LogMoves(s, a);
    AppliedMoves(s, a);
    assert s.log <= t.log;
    if a.ApplyNext? {
      ApplyAdvances(s);
      assert t.log[..t.applied] == s.log[..s.applied + 1];
    } else {
      assert t.log[..t.applied] == s.log[..s.applied];
    }
  }

  lemma AnsweredAppend(answers: seq<Answer>, a: Answer, n: nat)
    ensures Answered(answers + [a], n) == Answered(answers, n) + One(a.seqno == n)
  {
    assert Init(answers + [a]) == answers;
  }

  lemma ParkIs(s: State, w: nat)
    requires Enabled(s, StoreSeq(w))
    ensures At(s, w) && s.pc[w].Pushed?
    ensures var t := Next(s, StoreSeq(w));
            t.pc == s.pc[w := Resting] && t.parked == s.parked + [s.pc[w].seqno] && t.answers == s.answers
  {
    hide Marked;
  }

  lemma ParkKeepsOwing(s: State, w: nat, n: nat)
    requires Enabled(s, StoreSeq(w))
    ensures Owing(Next(s, StoreSeq(w)), n) == Owing(s, n)
  {
    hide Enabled, Next;
    ParkIs(s, w);
    OwersMove(s.pc, w, Resting, n);
    OccursAppend(s.parked, [s.pc[w].seqno], n);
  }

  lemma CheckLeaderKeepsOwing(s: State, w: nat, n: nat)
    requires Enabled(s, CheckLeader(w))
    ensures Owing(Next(s, CheckLeader(w)), n) == Owing(s, n)
  {
    var ws := s.pc[w].ws;
    OwersMove(s.pc, w, Resting, n);
    OwersMove(s.pc, w, Admitted(ws), n);
    AnsweredAppend(s.answers, Answer(ws.seqno, Redirected), n);
  }

  lemma CommitKeepsOwing(s: State, w: nat, ops: seq<Op>, n: nat)
    requires Enabled(s, Commit(w, ops))
    ensures Owing(Next(s, Commit(w, ops)), n) == Owing(s, n) + One(HasPut(ops) && n == |s.hist| + 1)
  {
    OwersMove(s.pc, w, Committed(WriteSet(|s.hist| + 1, ops)), n);
    OwersMove(s.pc, w, Finishing, n);
  }

  lemma StoreTailKeepsOwing(s: State, w: nat, n: nat)
    requires Enabled(s, StoreTailOf(w))
    ensures Owing(Next(s, StoreTailOf(w)), n) == Owing(s, n)
  {
    OwersMove(s.pc, w, Pushed(s.pc[w].ws.seqno), n);
  }

  lemma ReleaseKeepsOwing(s: State, p: nat, n: nat)
    requires Enabled(s, Release(p))
    ensures Owing(Next(s, Release(p)), n) == Owing(s, n)
  {
    OccursRemove(s.parked, p, n);
    AnsweredAppend(s.answers, Last(Next(s, Release(p)).answers), n);
  }

  predicate MovesAnswer(a: Step) {
    a.Commit? || a.CheckLeader? || a.StoreTailOf? || a.StoreSeq?
  }

  lemma QuietKeepsOwing(s: State, a: Step, n: nat)
    requires Enabled(s, a) && OfWorker(a) && !MovesAnswer(a)
    ensures Owing(Next(s, a), n) == Owing(s, n) && Next(s, a).hist == s.hist
  {
    hide Queued, HasRoom, Fill, StoreTail, Run, Writes, Marked;
    var t := Next(s, a);
    assert t.pc == s.pc[a.w := t.pc[a.w]] && t.parked == s.parked && t.answers == s.answers;
    assert Owes(t.pc[a.w], n) == Owes(s.pc[a.w], n);
    QuietMove(s, t, a.w, t.pc[a.w], BLANK, n);
  }

  lemma WorkerKeepsOwing(s: State, a: Step, n: nat)
    requires Enabled(s, a) && OfWorker(a)
    ensures Owing(Next(s, a), n) - Owing(s, n) == One(1 <= n <= |Next(s, a).hist|) - One(1 <= n <= |s.hist|)
  {
    hide Queued, HasRoom, Fill, StoreTail, Run, Writes, Marked;
    if a.Commit? {
      CommitKeepsOwing(s, a.w, a.ops, n);
    } else if a.CheckLeader? {
      CheckLeaderKeepsOwing(s, a.w, n);
    } else if a.StoreTailOf? {
      StoreTailKeepsOwing(s, a.w, n);
    } else if a.StoreSeq? {
      ParkKeepsOwing(s, a.w, n);
    } else {
      QuietKeepsOwing(s, a, n);
    }
  }

  lemma RaftKeepsOwing(s: State, a: Step, n: nat)
    requires Enabled(s, a) && OfRaft(a)
    ensures Owing(Next(s, a), n) == Owing(s, n) && Next(s, a).hist == s.hist
  {
    match a
    case Release(p) => ReleaseKeepsOwing(s, p, n);
    case _ =>
  }

  /** Every step keeps each numbered request in exactly one of: a worker's hands, the parked
      responses, the answers sent. */
  lemma KeepsAnswers(s: State, a: Step)
    requires AnswerLedger(s) && Enabled(s, a) && !a.CommitGivenUp?
    ensures AnswerLedger(Next(s, a))
  {
    forall n: nat
      ensures Owing(Next(s, a), n) == One(1 <= n <= |Next(s, a).hist|)
    {
      if OfWorker(a) {
        WorkerKeepsOwing(s, a, n);
      } else {
        RaftKeepsOwing(s, a, n);
      }
    }
  }

  lemma KeepsSuccess(s: State, a: Step)
    requires SuccessIsCommitted(s) && Enabled(s, a) && Next(s, a).committed >= s.committed
    ensures SuccessIsCommitted(Next(s, a))
  {
  }

  lemma KeepsCore(s: State, a: Step)
    requires Core(s) && Enabled(s, a) && Tidy(s, a)
    ensures Core(Next(s, a))
  {
    KeepsNumbering(s, a);
    KeepsShape(s, a);
    KeepsConservation(s, a);
    KeepsWatermarks(s, a);
    KeepsScan(s, a);
  }

  lemma KeepsInv(s: State, a: Step)
    requires Inv(s) && Enabled(s, a) && Sound(s, a)
    ensures Inv(Next(s, a))
    ensures s.committed <= Next(s, a).committed
  {
    KeepsCore(s, a);
    KeepsPrefix(s, a);
    KeepsCommitted(s, a);
    KeepsAnswers(s, a);
    KeepsSuccess(s, a);
  }

  lemma StartInv(workers: nat, cap: nat)
    requires cap > 0
    ensures Inv(Start(workers, cap))
  {
    var s := Start(workers, cap);
    forall x
      ensures Places(s, x) == 0
    {
      RestingOwesNothing(s.pc, x, 0);
    }
    StartLedger(workers, cap);
  }

  lemma StartLedger(workers: nat, cap: nat)
    ensures AnswerLedger(Start(workers, cap))
  {
    forall n: nat
      ensures Owing(Start(workers, cap), n) == 0
    {
      RestingOwesNothing(Start(workers, cap).pc, BLANK, n);
    }
  }

  /** Conservation, watermarks and scan hold over every tidy run, in whatever order the batches are
      proposed and however often leadership changes. */
  lemma {:induction false} RunKeepsCore(s: State, steps: seq<Step>)
    requires Core(s) && Runs(s, steps) && TidyRun(s, steps)
    ensures Core(After(s, steps))
  {
    hide Core, Enabled, Next, Tidy;
    if steps != [] {
      RunKeepsCore(s, Init(steps));
      KeepsCore(After(s, Init(steps)), Last(steps));
    }
  }

  /** The ledger of answers holds over every run without a given-up commit. */
  lemma {:induction false} RunKeepsAnswers(s: State, steps: seq<Step>)
    requires AnswerLedger(s) && Runs(s, steps)
    requires forall i :: 0 <= i < |steps| ==> !steps[i].CommitGivenUp?
    ensures AnswerLedger(After(s, steps))
  {
    hide AnswerLedger, Enabled, Next;
    if steps != [] {
      RunKeepsAnswers(s, Init(steps));
      assert Last(steps) == steps[|steps| - 1];
      KeepsAnswers(After(s, Init(steps)), Last(steps));
    }
  }

  lemma {:induction false} RunKeepsInv(s: State, steps: seq<Step>)
    requires Inv(s) && Runs(s, steps) && SoundRun(s, steps)
    ensures Inv(After(s, steps))
    ensures s.committed <= After(s, steps).committed
  {
    hide Inv, Enabled, Next, Sound;
    if steps != [] {
      RunKeepsInv(s, Init(steps));
      KeepsInv(After(s, Init(steps)), Last(steps));
    }
  }

  // ---- what the conditions exclude ----

  /** The watermark of a worker lies below the write-set in its hand if and only if the worker is
      one of the first MAX_WORKERS. */
  lemma WatermarkProtectsIff(s: State, w: nat)
    requires Numbered(s.hist) && Conserved(s) && Watermarked(s) && w < |s.pc| && InHand(s.pc[w])
    ensures s.wm[w] < s.pc[w].ws.seqno <==> w < MAX_WORKERS
  {
    FlightIsHistory(s, w, s.pc[w].ws);
    assert w < MAX_WORKERS ==> Promise(s, w);
  }

  /** Filling a slot in which another write-set is queued puts the producer's own into the queue
      while the producer still has it in hand. */
  lemma BadFillBreaks(s: State, w: nat)
    requires Conserved(s) && Enabled(s, FillSlot(w)) && !PushIntact(s, FillSlot(w))
    ensures !Conserved(Next(s, FillSlot(w)))
  {
    hide Slot, Queued;
    var t, ws, at := Next(s, FillSlot(w)), s.pc[w].ws, s.pc[w].at;
    var i :| 0 <= i < |Queued(s.ring)| && Slot(s.ring.head + i) == Slot(at) && Queued(s.ring)[i] != ws;
    FilledSlot(s.ring, at, ws, i);
    assert ws in Queued(t.ring);
    OccursIff(Queued(t.ring), ws);
    HoldersIff(t.pc, ws);
    assert Holds(t.pc[w], ws);
    assert Places(t, ws) >= 2;
  }

  lemma FilledSlot(r: Ring, at: nat, ws: WriteSet, i: nat)
    requires i < |Queued(r)| && Slot(r.head + i) == Slot(at)
    ensures i < |Queued(Fill(r, at, ws))| && Queued(Fill(r, at, ws))[i] == ws
  {
  }

  /** Storing a tail that is not the one loaded, or above a slot overwritten meanwhile, leaves the
      queue without the write-set, or with others in it twice or not at all. */
  lemma BadStoreBreaks(s: State, w: nat)
    requires Conserved(s) && Enabled(s, StoreTailOf(w)) && !PushIntact(s, StoreTailOf(w))
    ensures !Conserved(Next(s, StoreTailOf(w)))
  {
    hide Slot, Queued, StoresOwn;
    var t, ws, at := Next(s, StoreTailOf(w)), s.pc[w].ws, s.pc[w].at;
    if forall x :: Places(t, x) == One(x in t.hist) {
      forall x
        ensures multiset(Queued(t.ring))[x] == multiset(Queued(s.ring) + [ws])[x]
      {
        StoreTailPlaces(s, w, x);
      }
      StoredLength(s.ring, at, ws);
    }
  }

  lemma StoredLength(r: Ring, at: nat, ws: WriteSet)
    requires r.head <= r.tail && multiset(Queued(StoreTail(r, at))) == multiset(Queued(r) + [ws])
    ensures StoresOwn(r, at, ws)
  {
    hide Slot;
    var before, after := Queued(r), Queued(StoreTail(r, at));
    assert |multiset(after)| == |after| && |multiset(before + [ws])| == |before| + 1;
    assert at == r.tail;
    assert after == before + [r.slots[Slot(at)]];
    assert multiset(after) == multiset(before) + multiset{r.slots[Slot(at)]};
    assert multiset(before + [ws]) == multiset(before) + multiset{ws};
    assert multiset(before)[ws] + 1 == multiset(after)[ws];
  }

  /** Conservation is kept by exactly the steps that give up no commit and whose access to the queue
      leaves it intact. */
  lemma KeepsConservationIff(s: State, a: Step)
    requires Numbered(s.hist) && Conserved(s) && Enabled(s, a)
    ensures Conserved(Next(s, a)) <==> Tidy(s, a)
  {
    hide Conserved, Numbered, Next, Enabled;
    if Tidy(s, a) {
      KeepsConservation(s, a);
    } else if a.CommitGivenUp? {
      GivenUpBreaksConservation(s, a.w, a.ops);
    } else if a.FillSlot? {
      BadFillBreaks(s, a.w);
    } else {
      BadStoreBreaks(s, a.w);
    }
  }

  /** A commit given up for good always breaks conservation: its write-set is on the way to the log
      and is not a transaction. */
  lemma GivenUpBreaksConservation(s: State, w: nat, ops: seq<Op>)
    requires Numbered(s.hist) && Conserved(s) && Enabled(s, CommitGivenUp(w, ops))
    ensures !Conserved(Next(s, CommitGivenUp(w, ops)))
  {
    var t, ws := Next(s, CommitGivenUp(w, ops)), WriteSet(|s.hist| + 1, ops);
    HoldersMove(s.pc, w, Committed(ws), ws);
    assert Holders(t.pc, ws) >= 1;
    assert Places(t, ws) >= 1 && ws !in t.hist;
  }
}
