/**
 What the invariant of the pipeline means for its clients, over every sound run.
 */
module PipelineTheorems {
  import opened Machine
  import opened KvStore
  import opened Batch
  import opened ProposalQueue
  import opened Pipeline
  import opened PipelineProducers
  import opened PipelineSafety

  ghost predicate Reached(workers: nat, cap: nat, steps: seq<Step>) {
    cap > 0 && Runs(Start(workers, cap), steps) && SoundRun(Start(workers, cap), steps)
  }

  function Final(workers: nat, cap: nat, steps: seq<Step>): State
    requires Runs(Start(workers, cap), steps)
  {
    After(Start(workers, cap), steps)
  }

  lemma ReachedInv(workers: nat, cap: nat, steps: seq<Step>)
    requires Reached(workers, cap, steps)
    ensures Inv(Final(workers, cap, steps))
  {
    StartInv(workers, cap);
    RunKeepsInv(Start(workers, cap), steps);
  }

  // ---- responses ----

  lemma {:induction false} FlatMember(log: seq<seq<WriteSet>>, x: WriteSet)
    requires x in Flat(log)
    ensures exists i :: 0 <= i < |log| && x in log[i]
  {
    if x in Last(log) {
      assert x in log[|log| - 1];
    } else {
      FlatMember(Init(log), x);
      var i :| 0 <= i < |Init(log)| && x in Init(log)[i];
      assert x in log[i];
    }
  }

  lemma {:induction false} AnsweredAt(answers: seq<Answer>, i: nat)
    requires i < |answers|
    ensures Answered(answers, answers[i].seqno) >= 1
    ensures forall j :: i < j < |answers| && answers[j].seqno == answers[i].seqno ==>
              Answered(answers, answers[i].seqno) >= 2
  {
    if i < |answers| - 1 {
      AnsweredAt(Init(answers), i);
      assert Init(answers)[i] == answers[i];
      forall j | i < j < |answers| && answers[j].seqno == answers[i].seqno
        ensures Answered(answers, answers[i].seqno) >= 2
      {
        if j < |answers| - 1 {
          assert Init(answers)[j] == answers[j];
        }
      }
    }
  }

  /** The transaction answered as committed is in a batch that has been applied. */
  lemma SuccessMeansApplied(workers: nat, cap: nat, steps: seq<Step>, a: Answer)
    requires Reached(workers, cap, steps)
    requires a in Final(workers, cap, steps).answers && a.reply.Success?
    ensures var s := Final(workers, cap, steps);
            1 <= a.seqno <= |s.hist| &&
            exists i :: 0 <= i < s.applied <= |s.log| && s.hist[a.seqno - 1] in s.log[i]
  {
    ReachedInv(workers, cap, steps);
    var s := Final(workers, cap, steps);
    var k :| 0 <= k < |s.answers| && s.answers[k] == a;
    AnsweredAt(s.answers, k);
    assert Owing(s, a.seqno) >= 1;
    FlatTake(s.log, s.applied);
    var x := s.hist[a.seqno - 1];
    assert Flat(s.log[..s.applied])[a.seqno - 1] == x;
    FlatMember(s.log[..s.applied], x);
    var i :| 0 <= i < s.applied && x in s.log[..s.applied][i];
    assert s.log[..s.applied][i] == s.log[i];
  }

  predicate NoneGivenUp(steps: seq<Step>) {
    forall i :: 0 <= i < |steps| ==> !steps[i].CommitGivenUp?
  }

  /** No request is answered twice, and an answered request is no longer parked: in every run in
      which no commit is given up for good, whatever is raced, refused, discarded or reordered. */
  lemma AnsweredAtMostOnce(workers: nat, cap: nat, steps: seq<Step>)
    requires Runs(Start(workers, cap), steps) && NoneGivenUp(steps)
    ensures var s := Final(workers, cap, steps);
            (forall i, j :: 0 <= i < j < |s.answers| ==> s.answers[i].seqno != s.answers[j].seqno) &&
            (forall i :: 0 <= i < |s.answers| ==> s.answers[i].seqno !in s.parked)
  {
    StartLedger(workers, cap);
    RunKeepsAnswers(Start(workers, cap), steps);
    var s := Final(workers, cap, steps);
    forall i | 0 <= i < |s.answers|
      ensures s.answers[i].seqno !in s.parked
      ensures forall j :: i < j < |s.answers| ==> s.answers[i].seqno != s.answers[j].seqno
    {
      AnsweredAt(s.answers, i);
      OccursIff(s.parked, s.answers[i].seqno);
      assert Owing(s, s.answers[i].seqno) <= 1;
    }
  }

  /** With one producer at a time every committed write-set stays in exactly one place: also
      through the scan race, the batch cap, refused batches and changes of leadership. */
  lemma LoneProducersConserve(workers: nat, cap: nat, steps: seq<Step>)
    requires cap > 0 && Runs(Start(workers, cap), steps)
    requires NoneGivenUp(steps) && LoneRun(Start(workers, cap), steps)
    ensures TidyRun(Start(workers, cap), steps) && Conserved(Final(workers, cap, steps))
  {
    StartIsLone(workers, cap);
    LoneRunIsTidy(Start(workers, cap), steps);
    StartInv(workers, cap);
    RunKeepsCore(Start(workers, cap), steps);
  }

  /** Over every such run, a watermark protects the write-set in a worker's hand if and only if the
      worker is one of the first 128. */
  lemma ProtectedIff(workers: nat, cap: nat, steps: seq<Step>, w: nat)
    requires cap > 0 && Runs(Start(workers, cap), steps)
    requires NoneGivenUp(steps) && LoneRun(Start(workers, cap), steps)
    requires w < |Final(workers, cap, steps).pc| && InHand(Final(workers, cap, steps).pc[w])
    ensures var s := Final(workers, cap, steps);
            w < |s.wm| && (s.wm[w] < s.pc[w].ws.seqno <==> w < 128)
  {
    LoneProducersConserve(workers, cap, steps);
    StartInv(workers, cap);
    RunKeepsCore(Start(workers, cap), steps);
    WatermarkProtectsIff(Final(workers, cap, steps), w);
  }

  // ---- order ----

  lemma BatchSlice(log: seq<seq<WriteSet>>, hist: seq<WriteSet>, i: nat)
    requires Flat(log) <= hist && i < |log|
    ensures |Flat(log[..i])| + |log[i]| <= |hist|
    ensures log[i] == hist[|Flat(log[..i])|..|Flat(log[..i])| + |log[i]|]
  {
    FlatStep(log, i);
    FlatTake(log, i + 1);
    SliceOfPrefix(Flat(log[..i]), log[i], Flat(log), hist);
  }

  lemma SliceOfPrefix<T>(a: seq<T>, b: seq<T>, whole: seq<T>, hist: seq<T>)
    requires whole <= hist && |a + b| <= |whole| && whole[..|a + b|] == a + b
    ensures b == hist[|a|..|a| + |b|]
  {
    assert hist[..|a + b|] == a + b;
  }

  /** The proposed batches are consecutive stretches of the commit history: contiguous,
      without gaps, each strictly after the one before. */
  lemma BatchesAreConsecutive(workers: nat, cap: nat, steps: seq<Step>, i: nat)
    requires Reached(workers, cap, steps) && i < |Final(workers, cap, steps).log|
    ensures var s := Final(workers, cap, steps);
            var from := |Flat(s.log[..i])|;
            from + |s.log[i]| <= |s.hist| && s.log[i] == s.hist[from..from + |s.log[i]|]
  {
    ReachedInv(workers, cap, steps);
    BatchSlice(Final(workers, cap, steps).log, Final(workers, cap, steps).hist, i);
  }

  /** committed_seq never moves back as a run goes on. */
  lemma {:induction false} CommittedNeverDecreases(workers: nat, cap: nat, steps: seq<Step>, a: Step)
    requires Reached(workers, cap, steps + [a])
    ensures Runs(Start(workers, cap), steps)
    ensures Final(workers, cap, steps).committed <= Final(workers, cap, steps + [a]).committed
  {
    assert Init(steps + [a]) == steps;
    StartInv(workers, cap);
    RunKeepsInv(Start(workers, cap), steps);
    KeepsInv(Final(workers, cap, steps), a);
  }

  // ---- when the order hypothesis is met ----

  /** All of xs come after whatever is drained and safe by the least watermark read so far. */
  ghost predicate AfterSafe(s: State, xs: seq<WriteSet>)
    requires s.phase.Scanning?
  {
    forall x, d :: x in xs && d in s.drain && d.seqno <= s.phase.least ==> d.seqno < x.seqno
  }

  /** With a watermark for every worker and at most batch_max_entries safe write-sets, the order
      condition is one on the queue and on the discarded. */
  lemma ScanIsSoundIff(s: State)
    requires s.phase.Scanning? && |s.pc| <= MAX_WORKERS
    requires |Picked(s.drain, s.phase.least, |s.drain|)| <= s.cap
    ensures NothingEarlierLeftBehind(s) <==> AfterSafe(s, Queued(s.ring)) && AfterSafe(s, s.discarded)
  {
    hide Queued, Picked, Left;
    BatchIsAllSafe(s);
    assert forall x :: !HeldUnwatched(s, x);
    if NothingEarlierLeftBehind(s) {
      forall x, d | (x in Queued(s.ring) || x in s.discarded) && d in s.drain && d.seqno <= s.phase.least
        ensures d.seqno < x.seqno
      {
        assert LeftOut(s, Remaining(s), x) && d in Batched(s);
      }
    }
  }

  lemma BatchIsAllSafe(s: State)
    requires s.phase.Scanning? && |Picked(s.drain, s.phase.least, |s.drain|)| <= s.cap
    ensures forall b :: b in Batched(s) <==> b in s.drain && b.seqno <= s.phase.least
    ensures forall x :: x in Remaining(s) ==> x.seqno > s.phase.least
  {
    hide Picked, Left, SortBySeq;
    var picked, left := Picked(s.drain, s.phase.least, s.cap), Remaining(s);
    UncappedSelection(s.drain, s.phase.least, s.cap);
    SelectionConserves(s.drain, s.phase.least, s.cap);
    SortIsSortedPermutation(picked);
    forall b
      ensures b in Batched(s) <==> b in s.drain && b.seqno <= s.phase.least
    {
      SameMembers(Batched(s), picked, b);
      PartMembers(picked, left, s.drain, b);
    }
  }

  lemma SameMembers<T>(a: seq<T>, b: seq<T>, x: T)
    requires multiset(a) == multiset(b)
    ensures x in a <==> x in b
  {
    assert x in multiset(a) <==> x in multiset(b);
  }

  lemma PartMembers<T>(a: seq<T>, b: seq<T>, whole: seq<T>, x: T)
    requires multiset(a) + multiset(b) == multiset(whole)
    ensures x in whole <==> x in a || x in b
  {
    assert x in multiset(whole) <==> x in multiset(a) || x in multiset(b);
  }

  /** What can be checked of a step by itself: no commit is given up, a push starts only while no
      other worker is inside one, and what is queued or discarded at an accepted proposal comes
      after everything safe, as it does when there is nothing. */
  ghost predicate Calm(s: State, a: Step)
    requires Enabled(s, a)
  {
    !a.CommitGivenUp? && StartsAlone(s, a) &&
    (a.Propose? && a.accepted ==> AfterSafe(s, Queued(s.ring)) && AfterSafe(s, s.discarded))
  }

  /** And the batch has room for all that is safe. */
  ghost predicate Quiet(s: State, a: Step)
    requires Enabled(s, a)
  {
    Calm(s, a) && (a.Propose? && a.accepted ==> |Picked(s.drain, s.phase.least, |s.drain|)| <= s.cap)
  }

  ghost predicate CalmRun(s: State, steps: seq<Step>)
    requires Runs(s, steps)
  {
    steps == [] || (CalmRun(s, Init(steps)) && Calm(After(s, Init(steps)), Last(steps)))
  }

  ghost predicate QuietRun(s: State, steps: seq<Step>)
    requires Runs(s, steps)
  {
    steps == [] || (QuietRun(s, Init(steps)) && Quiet(After(s, Init(steps)), Last(steps)))
  }

  lemma QuietStepIsSound(s: State, a: Step)
    requires Enabled(s, a) && Quiet(s, a) && Lone(s) && |s.pc| <= MAX_WORKERS
    ensures Sound(s, a) && Lone(Next(s, a)) && |Next(s, a).pc| == |s.pc|
  {
    hide Lone, PushIntact, NothingEarlierLeftBehind;
    LoneIsIntact(s, a);
    KeepsLone(s, a);
    NextKeepsWorkers(s, a);
    if a.Propose? && a.accepted {
      ScanIsSoundIff(s);
    }
  }

  /** Runs of such steps by at most MAX_WORKERS workers are covered by every theorem here. */
  lemma {:induction false} QuietRunIsSound(s: State, steps: seq<Step>)
    requires Runs(s, steps) && QuietRun(s, steps) && Lone(s) && |s.pc| <= MAX_WORKERS
    ensures SoundRun(s, steps) && Lone(After(s, steps)) && |After(s, steps).pc| == |s.pc|
  {
    hide Enabled, Next, Quiet, Sound, Lone;
    if steps != [] {
      QuietRunIsSound(s, Init(steps));
      QuietStepIsSound(After(s, Init(steps)), Last(steps));
    }
  }

  /** Between the end of the drain and the proposal the queue only fills through the store of a
      tail. */
  lemma {:induction false} NoPushKeepsQueueEmpty(s: State, steps: seq<Step>)
    requires Runs(s, steps) && Queued(s.ring) == []
    requires forall i :: 0 <= i < |steps| ==> !steps[i].StoreTailOf?
    ensures Queued(After(s, steps).ring) == []
  {
    if steps != [] {
      NoPushKeepsQueueEmpty(s, Init(steps));
      var a := Last(steps);
      assert a == steps[|steps| - 1];
      StaysEmpty(After(s, Init(steps)), a);
    }
  }

  lemma StaysEmpty(s: State, a: Step)
    requires Enabled(s, a) && Queued(s.ring) == [] && !a.StoreTailOf?
    ensures Queued(Next(s, a).ring) == []
  {
    var t := Next(s, a);
    assert t.ring.head == s.ring.head && t.ring.tail == s.ring.tail;
    assert |Queued(t.ring)| == |Queued(s.ring)|;
  }

  // ---- the queue and the drain buffer never overflow ----

  predicate Working(p: Pc) {
    p.Checked? || p.Loaded? || p.Begun? || InHand(p)
  }

  function Workers(pc: seq<Pc>): nat {
    if pc == [] then 0 else Workers(Init(pc)) + One(Working(Last(pc)))
  }

  lemma {:induction false} WorkersMove(pc: seq<Pc>, w: nat, p: Pc)
    requires w < |pc|
    ensures Workers(pc[w := p]) + One(Working(pc[w])) == Workers(pc) + One(Working(p))
    ensures Workers(pc) <= |pc|
    ensures !Working(pc[w]) ==> Workers(pc) < |pc|
  {
    if w == |pc| - 1 {
      assert Init(pc[w := p]) == Init(pc);
      WorkersBound(Init(pc));
    } else {
      WorkersMove(Init(pc), w, p);
      assert Init(pc[w := p]) == Init(pc)[w := p];
    }
  }

  lemma {:induction false} WorkersBound(pc: seq<Pc>)
    ensures Workers(pc) <= |pc|
  {
    if pc != [] {
      WorkersBound(Init(pc));
    }
  }

  /** The high watermark covers the worker's write-set. */
  predicate Climbed(p: Pc) {
    p.Raised? || Pushing(p)
  }

  /** Whatever was pushed, or is being pushed, is covered by the high watermark. */
  ghost predicate Covered(s: State) {
    (forall w :: 0 <= w < |s.pc| && Climbed(s.pc[w]) ==> s.pc[w].ws.seqno <= s.hw) &&
    (forall x :: x in Queued(s.ring) || x in s.drain ==> x.seqno <= s.hw)
  }

  ghost predicate Bounded(s: State) {
    |Queued(s.ring)| + |s.drain| + Workers(s.pc) <= MAX_INFLIGHT - 1 + |s.pc|
  }

  lemma ProposeKeepsCovered(s: State, accepted: bool)
    requires Covered(s) && Enabled(s, Propose(accepted))
    ensures Covered(Next(s, Propose(accepted)))
  {
    BatchIsChosen(s);
    forall x | x in Remaining(s)
      ensures x.seqno <= s.hw
    {
      assert x in multiset(Remaining(s));
      assert x in multiset(s.drain);
    }
  }

  /** What a push does to the queue, as far as it is intact. */
  lemma WorkerQueue(s: State, a: Step)
    requires Enabled(s, a) && OfWorker(a) && Tidy(s, a) && s.ring.head <= s.ring.tail
    ensures Queued(Next(s, a).ring) ==
            if a.StoreTailOf? then Queued(s.ring) + [s.pc[a.w].ws] else Queued(s.ring)
  {
    hide Queued, FillsFree, StoresOwn, Run, Writes, HasPut, Marked, HasRoom, Slot;
    if a.FillSlot? {
      FillKeepsIff(s.ring, s.pc[a.w].at, s.pc[a.w].ws);
    } else if a.StoreTailOf? {
      StoreAppendsIff(s.ring, s.pc[a.w].at, s.pc[a.w].ws);
    }
  }

  /** The high watermark is raised before a push starts. */
  lemma WorkerClimbs(s: State, a: Step)
    requires Enabled(s, a) && OfWorker(a)
    ensures var t := Next(s, a);
            At(s, a.w) && |t.pc| == |s.pc| && t.hw >= s.hw && t.drain == s.drain &&
            (Climbed(t.pc[a.w]) ==>
               (Climbed(s.pc[a.w]) && t.pc[a.w].ws == s.pc[a.w].ws) || t.pc[a.w].ws.seqno <= t.hw) &&
            (a.StoreTailOf? ==> Climbed(s.pc[a.w]))
  {
    hide Queued, Run, Writes, HasPut, Marked, HasRoom, Fill, StoreTail;
  }

  lemma WorkerKeepsCovered(s: State, a: Step)
    requires Covered(s) && Enabled(s, a) && OfWorker(a) && Tidy(s, a) && s.ring.head <= s.ring.tail
    ensures Covered(Next(s, a))
  {
    hide Queued, Tidy, Enabled, Next;
    WorkerQueue(s, a);
    WorkerFrame(s, a);
    WorkerClimbs(s, a);
    var t := Next(s, a);
    forall w | 0 <= w < |t.pc| && Climbed(t.pc[w])
      ensures t.pc[w].ws.seqno <= t.hw
    {
      assert w != a.w ==> t.pc[w] == s.pc[w];
    }
  }

  lemma RaftKeepsCovered(s: State, a: Step)
    requires Covered(s) && Enabled(s, a) && OfRaft(a) && !a.Propose?
    ensures Covered(Next(s, a))
  {
    hide Queued;
    RaftFrame(s, a);
    if a.Pop? {
      TakeFirst(s.ring);
      assert Next(s, a).drain == s.drain + [Queued(s.ring)[0]];
      assert forall x :: x in Queued(Take(s.ring)) ==> x in Queued(s.ring);
    } else {
      assert Next(s, a).ring == s.ring;
      assert Next(s, a).drain == s.drain || Next(s, a).drain == [];
    }
  }

  lemma KeepsCovered(s: State, a: Step)
    requires Covered(s) && Enabled(s, a) && Tidy(s, a) && s.ring.head <= s.ring.tail
    ensures Covered(Next(s, a))
  {
    if a.Propose? {
      ProposeKeepsCovered(s, a.accepted);
    } else if OfRaft(a) {
      RaftKeepsCovered(s, a);
    } else {
      WorkerKeepsCovered(s, a);
    }
  }

  /** The numbers above lo up to hi. */
  ghost function Span(lo: nat, hi: nat): (r: set<nat>)
    ensures forall n :: n in r <==> lo < n <= hi
    ensures |r| == Max(hi - lo, 0)
  {
    if hi <= lo then {} else Span(lo, hi - 1) + {hi}
  }

  ghost function NumberSet(sets: seq<WriteSet>): (r: set<nat>)
    ensures forall n :: n in r ==> exists x :: x in sets && x.seqno == n
  {
    if sets == [] then {}
    else
      assert Last(sets) in sets;
      assert forall x :: x in Init(sets) ==> x in sets;
      NumberSet(Init(sets)) + {Last(sets).seqno}
  }

  lemma {:induction false} DistinctNumbers(sets: seq<WriteSet>)
    requires forall i, j :: 0 <= i < j < |sets| ==> sets[i].seqno != sets[j].seqno
    ensures |NumberSet(sets)| == |sets|
  {
    if sets != [] {
      DistinctNumbers(Init(sets));
      assert Last(sets).seqno !in NumberSet(Init(sets)) by {
        forall x | x in Init(sets)
          ensures x.seqno != Last(sets).seqno
        {
          var i :| 0 <= i < |Init(sets)| && Init(sets)[i] == x;
          assert sets[i].seqno != sets[|sets| - 1].seqno;
        }
      }
    }
  }

  lemma {:induction false} SubsetSize(a: set<nat>, b: set<nat>)
    requires a <= b
    ensures |a| <= |b|
  {
    if a != {} {
      var x :| x in a;
      SubsetSize(a - {x}, b - {x});
    }
  }

  lemma QueuedMember(s: State, x: WriteSet)
    requires Inv(s) && Covered(s) && x in Queued(s.ring) + s.drain
    ensures |Flat(s.log)| < x.seqno <= s.hw && Occurs(Queued(s.ring) + s.drain, x) == 1
    ensures 1 <= x.seqno <= |s.hist| && s.hist[x.seqno - 1] == x
  {
    PlaceIsHistory(s, x);
    PrefixMember(Flat(s.log), s.hist, x);
    Exclusive(s, x);
    OccursAppend(Queued(s.ring), s.drain, x);
    OccursIff(Queued(s.ring) + s.drain, x);
    assert Places(s, x) <= 1;
  }

  lemma QueuedDistinct(s: State)
    requires Inv(s) && Covered(s)
    ensures var all := Queued(s.ring) + s.drain;
            forall i, j :: 0 <= i < j < |all| ==> all[i].seqno != all[j].seqno
  {
    hide Inv, Covered, Queued;
    var all := Queued(s.ring) + s.drain;
    forall i, j | 0 <= i < j < |all|
      ensures all[i].seqno != all[j].seqno
    {
      QueuedMember(s, all[i]);
      QueuedMember(s, all[j]);
      if all[i] == all[j] {
        Twice(all, i, j);
      }
    }
  }

  /** No more write-sets are queued or buffered than there are numbers between what is committed
      and the high watermark. */
  lemma QueuedFitsWindow(s: State)
    requires Inv(s) && Covered(s)
    ensures |Queued(s.ring)| + |s.drain| <= Max(s.hw - s.committed, 0)
  {
    var all, lo := Queued(s.ring) + s.drain, |Flat(s.log)|;
    FlatTake(s.log, s.applied);
    QueuedDistinct(s);
    DistinctNumbers(all);
    forall n | n in NumberSet(all)
      ensures n in Span(lo, s.hw)
    {
      var x :| x in all && x.seqno == n;
      QueuedMember(s, x);
    }
    SubsetSize(NumberSet(all), Span(lo, s.hw));
  }

  lemma ProposeKeepsBounded(s: State, accepted: bool)
    requires Bounded(s) && Enabled(s, Propose(accepted))
    ensures Bounded(Next(s, Propose(accepted)))
  {
    BatchIsChosen(s);
    assert |multiset(s.drain)| == |multiset(Batched(s))| + |multiset(Remaining(s))|;
  }

  /** A worker takes up work only through the capacity check, and gives it up only through the
      store of a tail or at the end of its request. */
  lemma WorkerWorks(s: State, a: Step)
    requires Enabled(s, a) && OfWorker(a)
    ensures At(s, a.w) && |Next(s, a).pc| == |s.pc| && Next(s, a).drain == s.drain
    ensures Next(s, a).pc == s.pc[a.w := Next(s, a).pc[a.w]]
    ensures Working(Next(s, a).pc[a.w]) && !Working(s.pc[a.w]) ==>
              a.CheckCapacity? && (s.hw <= s.committed || s.hw - s.committed < MAX_INFLIGHT)
    ensures a.CheckCapacity? ==> !Working(s.pc[a.w]) && s.hw < s.committed + MAX_INFLIGHT
    ensures a.StoreTailOf? ==> Working(s.pc[a.w]) && !Working(Next(s, a).pc[a.w])
  {
    hide Queued, Run, Writes, HasPut, Marked, HasRoom, Fill, StoreTail;
  }

  lemma WorkerKeepsBounded(s: State, a: Step)
    requires Inv(s) && Covered(s) && Bounded(s) && Enabled(s, a) && OfWorker(a) && Tidy(s, a)
    requires s.ring.head <= s.ring.tail
    ensures Bounded(Next(s, a))
  {
    hide Inv, Covered, Tidy, Queued, Enabled, Next;
    WorkerQueue(s, a);
    WorkerWorks(s, a);
    WorkersMove(s.pc, a.w, Next(s, a).pc[a.w]);
    if a.CheckCapacity? {
      QueuedFitsWindow(s);
    }
  }

  lemma RaftKeepsBounded(s: State, a: Step)
    requires Bounded(s) && Enabled(s, a) && OfRaft(a) && !a.Propose?
    ensures Bounded(Next(s, a))
  {
    hide Queued;
    RaftFrame(s, a);
    if a.Pop? {
      TakeFirst(s.ring);
    }
  }

  lemma KeepsBounded(s: State, a: Step)
    requires Inv(s) && Covered(s) && Bounded(s) && Enabled(s, a) && Tidy(s, a)
    ensures Bounded(Next(s, a))
  {
    if OfWorker(a) {
      WorkerKeepsBounded(s, a);
    } else if a.Propose? {
      ProposeKeepsBounded(s, a.accepted);
    } else {
      RaftKeepsBounded(s, a);
    }
  }

  lemma StartBounded(workers: nat, cap: nat)
    ensures Covered(Start(workers, cap)) && Bounded(Start(workers, cap)) && |Start(workers, cap).pc| == workers
  {
    WorkersBound(Start(workers, cap).pc);
  }

  lemma {:induction false} RunBounded(workers: nat, cap: nat, steps: seq<Step>)
    requires Reached(workers, cap, steps)
    ensures Covered(Final(workers, cap, steps)) && Bounded(Final(workers, cap, steps))
    ensures |Final(workers, cap, steps).pc| == workers && Final(workers, cap, steps).cap == cap
  {
    hide Inv, Bounded, Covered, Start, Next, Enabled, Tidy;
    if steps == [] {
      StartBounded(workers, cap);
      StartCap(workers, cap);
    } else {
      RunBounded(workers, cap, Init(steps));
      ReachedInv(workers, cap, Init(steps));
      var s := Final(workers, cap, Init(steps));
      InvAligned(s);
      KeepsCovered(s, Last(steps));
      KeepsBounded(s, Last(steps));
      NextKeepsWorkers(s, Last(steps));
    }
  }

  lemma StartCap(workers: nat, cap: nat)
    ensures Start(workers, cap).cap == cap
  {
  }

  lemma InvAligned(s: State)
    requires Inv(s)
    ensures s.ring.head <= s.ring.tail
  {
  }

  lemma NextKeepsWorkers(s: State, a: Step)
    requires Enabled(s, a)
    ensures |Next(s, a).pc| == |s.pc| && Next(s, a).cap == s.cap
  {
  }

  /** With at most MAX_WORKERS workers the queue is never full and the drain buffer never reaches
      its capacity: a push that loads the current tail finds room, and the fatal abort is
      unreachable. This is for a server that runs; on shutdown workers skip the capacity check. */
  lemma QueueNeverOverflows(workers: nat, cap: nat, steps: seq<Step>)
    requires Reached(workers, cap, steps) && workers <= MAX_WORKERS
    ensures var s := Final(workers, cap, steps);
            |Queued(s.ring)| + |s.drain| < QUEUE_CAP && HasRoom(s.ring, s.ring.tail) &&
            (s.leader && s.phase.Draining? && Queued(s.ring) != [] ==> Enabled(s, Pop))
  {
    RunBounded(workers, cap, steps);
    ReachedInv(workers, cap, steps);
    InvAligned(Final(workers, cap, steps));
  }

  /** A batch_max_entries chosen beforehand that never cuts a batch: the in-flight window and one
      more for every worker. */
  lemma WideCapTakesAll(workers: nat, cap: nat, steps: seq<Step>)
    requires Reached(workers, cap, steps) && cap >= MAX_INFLIGHT + workers
    ensures var s := Final(workers, cap, steps);
            s.phase.Scanning? ==> |Picked(s.drain, s.phase.least, |s.drain|)| <= s.cap
  {
    RunBounded(workers, cap, steps);
  }

  /** With such a cap and at most MAX_WORKERS workers, every calm run is sound. */
  lemma {:induction false} CalmRunIsSound(workers: nat, cap: nat, steps: seq<Step>)
    requires workers <= MAX_WORKERS && cap >= MAX_INFLIGHT + workers
    requires Runs(Start(workers, cap), steps) && CalmRun(Start(workers, cap), steps)
    ensures Reached(workers, cap, steps) && Lone(Final(workers, cap, steps))
  {
    hide Start, Next, Enabled, Sound, Lone, Calm, Quiet;
    if steps == [] {
      StartIsLone(workers, cap);
    } else {
      CalmRunIsSound(workers, cap, Init(steps));
      var s := Final(workers, cap, Init(steps));
      RunBounded(workers, cap, Init(steps));
      WideCapTakesAll(workers, cap, Init(steps));
      CalmIsQuiet(s, Last(steps));
      QuietStepIsSound(s, Last(steps));
    }
  }

  lemma CalmIsQuiet(s: State, a: Step)
    requires Enabled(s, a) && Calm(s, a)
    requires s.phase.Scanning? ==> |Picked(s.drain, s.phase.least, |s.drain|)| <= s.cap
    ensures Quiet(s, a)
  {
    hide Picked;
  }

  // ---- pushes during the scan ----

  /** Nothing queued is earlier than what the scan will call safe. */
  ghost predicate QueueIsLater(s: State) {
    s.phase.Scanning? ==> AfterSafe(s, Queued(s.ring))
  }

  /** Instead of looking into the queue: while the raft thread scans, a worker stores a tail only
      after its own watermark was read. */
  ghost predicate Timely(s: State, a: Step)
    requires Enabled(s, a)
  {
    !a.CommitGivenUp? && StartsAlone(s, a) &&
    (a.StoreTailOf? && s.phase.Scanning? ==> a.w < s.phase.next) &&
    (a.Propose? && a.accepted ==> AfterSafe(s, s.discarded))
  }

  ghost predicate TimelyRun(s: State, steps: seq<Step>)
    requires Runs(s, steps)
  {
    steps == [] || (TimelyRun(s, Init(steps)) && Timely(After(s, Init(steps)), Last(steps)))
  }

  lemma WorkerLeavesScan(s: State, a: Step)
    requires Enabled(s, a) && OfWorker(a)
    ensures Next(s, a).phase == s.phase && Next(s, a).drain == s.drain
    ensures a.StoreTailOf? ==> a.w < |s.pc| && InHand(s.pc[a.w])
  {
    hide Queued, Run, Writes, HasPut, Marked, HasRoom, Fill, StoreTail;
  }

  lemma RaftScans(s: State, a: Step)
    requires Enabled(s, a) && OfRaft(a)
    ensures var t := Next(s, a);
            t.phase.Scanning? ==>
              t.ring == s.ring && t.drain == s.drain &&
              if s.phase.Scanning? then t.phase.least <= s.phase.least else Queued(s.ring) == []
  {
    hide Queued, Batched, Remaining, MaxSeq;
  }

  /** A worker already scanned pushes only what is later: that is what the scan established. */
  lemma KeepsQueueLater(s: State, a: Step)
    requires Scanned(s) && s.ring.head <= s.ring.tail && QueueIsLater(s)
    requires Enabled(s, a) && Timely(s, a) && Tidy(s, a)
    ensures QueueIsLater(Next(s, a))
  {
    hide Queued, Enabled, Next, Tidy;
    if OfRaft(a) {
      RaftScans(s, a);
    } else {
      WorkerLeavesScan(s, a);
      WorkerQueue(s, a);
      if a.StoreTailOf? && s.phase.Scanning? {
        assert ScanHolds(s, s.phase.least, a.w);
      }
    }
  }

  lemma TimelyIsQuiet(s: State, a: Step)
    requires Enabled(s, a) && Timely(s, a) && QueueIsLater(s)
    requires s.phase.Scanning? ==> |Picked(s.drain, s.phase.least, |s.drain|)| <= s.cap
    ensures Quiet(s, a)
  {
    hide Picked, Queued;
  }

  lemma InvScans(s: State)
    requires Inv(s)
    ensures Scanned(s) && s.ring.head <= s.ring.tail
  {
  }

  lemma StartIsLater(workers: nat, cap: nat)
    ensures QueueIsLater(Start(workers, cap))
  {
  }

  lemma SoundIsTidy(s: State, a: Step)
    requires Enabled(s, a) && Sound(s, a)
    ensures Tidy(s, a)
  {
  }

  /** So pushes may go on during the scan, by the workers that it has passed: with a cap as above
      and at most MAX_WORKERS workers every timely run is sound. */
  lemma {:induction false} TimelyRunIsSound(workers: nat, cap: nat, steps: seq<Step>)
    requires workers <= MAX_WORKERS && cap >= MAX_INFLIGHT + workers
    requires Runs(Start(workers, cap), steps) && TimelyRun(Start(workers, cap), steps)
    ensures Reached(workers, cap, steps) && Lone(Final(workers, cap, steps))
    ensures QueueIsLater(Final(workers, cap, steps))
  {
    hide Start, Next, Enabled, Sound, Lone, Timely, Quiet, QueueIsLater, Inv, Tidy;
    if steps == [] {
      StartIsLone(workers, cap);
      StartIsLater(workers, cap);
    } else {
      TimelyRunIsSound(workers, cap, Init(steps));
      var s := Final(workers, cap, Init(steps));
      RunBounded(workers, cap, Init(steps));
      WideCapTakesAll(workers, cap, Init(steps));
      TimelyIsQuiet(s, Last(steps));
      QuietStepIsSound(s, Last(steps));
      SoundIsTidy(s, Last(steps));
      ReachedInv(workers, cap, Init(steps));
      InvScans(s);
      KeepsQueueLater(s, Last(steps));
    }
  }

  // ---- a commit that leadership overtook ----

  /** Off the leader a committed transaction is answered with a redirect: its rows stay in the
      table, its write-set is discarded. */
  lemma RedirectDiscards(s: State, w: nat)
    requires Core(s) && Enabled(s, CheckLeader(w)) && !s.leader
    ensures var t, ws := Next(s, CheckLeader(w)), s.pc[w].ws;
            t.store == s.store && t.wm == s.wm && ws in t.hist && ws in t.discarded && Tidy(s, CheckLeader(w)) &&
            Answer(ws.seqno, Redirected) in t.answers
  {
    FlightIsHistory(s, w, s.pc[w].ws);
    HoldersIff(s.pc, s.pc[w].ws);
    PlaceIsHistory(s, s.pc[w].ws);
  }

  lemma KeepsDiscarded(s: State, a: Step, x: WriteSet)
    requires Enabled(s, a) && x in s.discarded
    ensures x in Next(s, a).discarded
  {
    hide Queued, Batched, Remaining, MaxSeq, Marked, HasRoom, HasPut, Run, Writes;
  }

  lemma {:induction false} DiscardedForGood(s: State, steps: seq<Step>, x: WriteSet)
    requires Runs(s, steps) && x in s.discarded
    ensures x in After(s, steps).discarded
  {
    hide Enabled, Next;
    if steps != [] {
      DiscardedForGood(s, Init(steps), x);
      KeepsDiscarded(After(s, Init(steps)), Last(steps), x);
    }
  }

  /** What was discarded is in no batch, so a log that is a prefix of the history ends before it,
      and a proposal that reaches beyond it is out of order. */
  lemma DiscardedEndsTheLog(s: State, x: WriteSet)
    requires Core(s) && x in s.discarded
    ensures x !in Flat(s.log) && (LogIsPrefix(s) ==> |Flat(s.log)| < x.seqno)
    ensures Ready(s) && Batched(s) != [] && Last(Batched(s)).seqno > x.seqno ==>
              !(Flat(s.log) + Batched(s) <= s.hist)
  {
    hide Batched, Remaining, Queued;
    Exclusive(s, x);
    PlaceIsHistory(s, x);
    if LogIsPrefix(s) {
      PrefixMember(Flat(s.log), s.hist, x);
    }
    if Ready(s) && Batched(s) != [] && Last(Batched(s)).seqno > x.seqno {
      ProposalKeepsOrderIff(s);
      assert LeftOut(s, Remaining(s), x) && Last(Batched(s)) in Batched(s);
    }
  }

  /** So a transaction answered with a redirect stays in the history of this node and never reaches
      the log, which ends before it for as long as it is a prefix of that history. */
  lemma RedirectedNeverReplicates(s: State, w: nat, steps: seq<Step>)
    requires Core(s) && Enabled(s, CheckLeader(w)) && !s.leader
    requires var t := Next(s, CheckLeader(w)); Runs(t, steps) && TidyRun(t, steps)
    ensures var ws, t := s.pc[w].ws, After(Next(s, CheckLeader(w)), steps);
            ws in t.hist && ws !in Flat(t.log) && (LogIsPrefix(t) ==> |Flat(t.log)| < ws.seqno)
  {
    var ws := s.pc[w].ws;
    hide Core, Enabled, Next, Tidy, LogIsPrefix;
    var t := Next(s, CheckLeader(w));
    RedirectDiscards(s, w);
    KeepsCore(s, CheckLeader(w));
    DiscardedForGood(t, steps, ws);
    RunKeepsCore(t, steps);
    DiscardedEndsTheLog(After(t, steps), ws);
    HistoryHolds(After(t, steps), ws);
  }

  lemma HistoryHolds(s: State, x: WriteSet)
    requires Core(s) && x in s.discarded
    ensures x in s.hist
  {
    PlaceIsHistory(s, x);
  }
}
