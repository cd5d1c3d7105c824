/**
 What clients are told: when a parked response may go out, and what it then says about the
 transaction, in terms of the batches applied and not of the counters that decide it.
 */
module PipelineAnswers {
  import opened Machine
  import opened KvStore
  import opened Batch
  import opened ProposalQueue
  import opened Pipeline
  import opened PipelineProducers
  import opened PipelineSafety
  import opened PipelineTheorems

  /** Transaction n is in a batch that has been applied. */
  ghost predicate InApplied(s: State, n: nat) {
    1 <= n <= |s.hist| && exists i :: 0 <= i < s.applied <= |s.log| && s.hist[n - 1] in s.log[i]
  }

  lemma {:induction false} MemberOfFlat(log: seq<seq<WriteSet>>, i: nat, x: WriteSet)
    requires i < |log| && x in log[i]
    ensures x in Flat(log)
  {
    if i < |log| - 1 {
      assert Init(log)[i] == log[i];
      MemberOfFlat(Init(log), i, x);
    }
  }

  lemma InAppliedIff(s: State, n: nat)
    requires Inv(s) && 1 <= n <= |s.hist|
    ensures InApplied(s, n) <==> n <= s.committed
  {
    var done, x := s.log[..s.applied], s.hist[n - 1];
    FlatTake(s.log, s.applied);
    assert Flat(done) <= s.hist;
    PrefixMember(Flat(done), s.hist, x);
    if InApplied(s, n) {
      var i :| 0 <= i < s.applied && x in s.log[i];
      assert done[i] == s.log[i];
      MemberOfFlat(done, i, x);
    }
    if n <= s.committed {
      FlatMember(done, x);
      var i :| 0 <= i < |done| && x in done[i];
      assert done[i] == s.log[i];
    }
  }

  lemma ParkedIsNumbered(s: State, p: nat)
    requires AnswerLedger(s) && p < |s.parked|
    ensures 1 <= s.parked[p] <= |s.hist|
  {
    assert s.parked[p] in s.parked;
    OccursIff(s.parked, s.parked[p]);
    assert Owing(s, s.parked[p]) >= 1;
  }

  /** A parked response may go out exactly when its transaction has been applied, or was raised
      before leadership was lost. */
  lemma ReleasableIff(s: State, p: nat)
    requires Inv(s) && p < |s.parked|
    ensures Enabled(s, Release(p)) <==> InApplied(s, s.parked[p]) || s.parked[p] <= s.faulted
  {
    ParkedIsNumbered(s, p);
    InAppliedIff(s, s.parked[p]);
  }

  /** And it says success exactly when the transaction has been applied by then. */
  lemma ReleaseTellsOutcome(s: State, p: nat)
    requires Inv(s) && Enabled(s, Release(p))
    ensures var t, n := Next(s, Release(p)), s.parked[p];
            1 <= n <= |s.hist| &&
            (InApplied(s, n) ==> t.answers == s.answers + [Answer(n, Success)]) &&
            (!InApplied(s, n) ==> t.answers == s.answers + [Answer(n, Unavailable)])
  {
    ParkedIsNumbered(s, p);
    InAppliedIff(s, s.parked[p]);
  }

  /** Over every sound run, whatever came before the release. */
  lemma AnswerTellsOutcome(workers: nat, cap: nat, steps: seq<Step>, p: nat)
    requires Reached(workers, cap, steps + [Release(p)])
    ensures Runs(Start(workers, cap), steps)
    ensures var s, t := Final(workers, cap, steps), Final(workers, cap, steps + [Release(p)]);
            p < |s.parked| &&
            t.answers == s.answers + [Answer(s.parked[p], if InApplied(s, s.parked[p]) then Success else Unavailable)]
  {
    assert Init(steps + [Release(p)]) == steps;
    ReachedInv(workers, cap, steps);
    ReleaseTellsOutcome(Final(workers, cap, steps), p);
  }

  // ---- without a loss of leadership ----

  predicate NeverLost(steps: seq<Step>) {
    forall i :: 0 <= i < |steps| ==> !steps[i].Lose?
  }

  lemma FaultedStays(s: State, a: Step)
    requires Enabled(s, a) && !a.Lose?
    ensures Next(s, a).faulted == 0 || Next(s, a).faulted == s.faulted
  {
    hide Queued, Batched, Remaining, MaxSeq, Marked, HasRoom, HasPut, Run, Writes;
  }

  lemma OtherAnswers(s: State, a: Step)
    requires Enabled(s, a) && !a.Release?
    ensures Next(s, a).answers == s.answers ||
            (exists n :: Next(s, a).answers == s.answers + [Answer(n, Redirected)])
  {
    hide Queued, Batched, Remaining, MaxSeq, Marked, HasRoom, HasPut, Run, Writes;
  }

  /** As long as leadership is never lost nobody is told that the service is unavailable, and every
      parked response waits for nothing but the application of its transaction. */
  lemma {:induction false} WithoutLossAllSucceed(workers: nat, cap: nat, steps: seq<Step>)
    requires Reached(workers, cap, steps) && NeverLost(steps)
    ensures var s := Final(workers, cap, steps);
            s.faulted == 0 && (forall a :: a in s.answers ==> !a.reply.Unavailable?) &&
            forall p :: 0 <= p < |s.parked| ==> (Enabled(s, Release(p)) <==> InApplied(s, s.parked[p]))
  {
    hide Enabled, Next, Inv, InApplied, Sound;
    if steps == [] {
      StartAnswersNobody(workers, cap);
    } else {
      var a := Last(steps);
      assert a == steps[|steps| - 1];
      assert NeverLost(Init(steps)) by {
        assert forall i :: 0 <= i < |Init(steps)| ==> Init(steps)[i] == steps[i];
      }
      WithoutLossAllSucceed(workers, cap, Init(steps));
      var s := Final(workers, cap, Init(steps));
      ReachedInv(workers, cap, Init(steps));
      FaultedStays(s, a);
      if a.Release? {
        ReleaseTellsOutcome(s, a.p);
        ReleasedIsParked(s, a.p);
      } else {
        OtherAnswers(s, a);
      }
    }
    var t := Final(workers, cap, steps);
    ReachedInv(workers, cap, steps);
    forall p | 0 <= p < |t.parked|
      ensures Enabled(t, Release(p)) <==> InApplied(t, t.parked[p])
    {
      ReleasableIff(t, p);
      InvNumbers(t, p);
    }
  }

  lemma StartAnswersNobody(workers: nat, cap: nat)
    ensures Start(workers, cap).faulted == 0 && Start(workers, cap).answers == []
  {
  }

  lemma ReleasedIsParked(s: State, p: nat)
    requires Enabled(s, Release(p))
    ensures p < |s.parked|
  {
  }

  lemma InvNumbers(s: State, p: nat)
    requires Inv(s) && p < |s.parked|
    ensures 1 <= s.parked[p] <= |s.hist|
  {
    ParkedIsNumbered(s, p);
  }

  // ---- a loss of leadership answers everyone who waits ----

  /** What is parked, or about to be, is covered by the high watermark. */
  ghost predicate WaitersCovered(s: State) {
    (forall n :: n in s.parked ==> n <= s.hw) &&
    (forall w :: 0 <= w < |s.pc| && s.pc[w].Pushed? ==> s.pc[w].seqno <= s.hw)
  }

  lemma WorkerParks(s: State, a: Step)
    requires Enabled(s, a) && OfWorker(a)
    ensures var t := Next(s, a);
            At(s, a.w) && t.hw >= s.hw && t.pc == s.pc[a.w := t.pc[a.w]] &&
            (t.pc[a.w].Pushed? ==> Climbed(s.pc[a.w]) && t.pc[a.w].seqno == s.pc[a.w].ws.seqno) &&
            (t.parked == s.parked || (s.pc[a.w].Pushed? && t.parked == s.parked + [s.pc[a.w].seqno]))
  {
    hide Queued, Run, Writes, HasPut, Marked, HasRoom, Fill, StoreTail;
  }

  lemma RaftUnparks(s: State, a: Step)
    requires Enabled(s, a) && OfRaft(a)
    ensures var t := Next(s, a);
            t.hw == s.hw && t.pc == s.pc && forall n :: n in t.parked ==> n in s.parked
  {
    hide Queued, Batched, Remaining, MaxSeq;
  }

  lemma KeepsWaitersCovered(s: State, a: Step)
    requires WaitersCovered(s) && Covered(s) && Enabled(s, a) && !a.CommitGivenUp?
    ensures WaitersCovered(Next(s, a))
  {
    hide Enabled, Next, Queued;
    if OfRaft(a) {
      RaftUnparks(s, a);
    } else {
      WorkerParks(s, a);
    }
  }

  lemma {:induction false} RunWaitersCovered(workers: nat, cap: nat, steps: seq<Step>)
    requires Reached(workers, cap, steps)
    ensures WaitersCovered(Final(workers, cap, steps))
  {
    hide Covered, WaitersCovered, Enabled, Next, Bounded, PushIntact;
    if steps == [] {
      StartWaitersCovered(workers, cap);
    } else {
      RunWaitersCovered(workers, cap, Init(steps));
      RunBounded(workers, cap, Init(steps));
      KeepsWaitersCovered(Final(workers, cap, Init(steps)), Last(steps));
    }
  }

  lemma StartWaitersCovered(workers: nat, cap: nat)
    ensures WaitersCovered(Start(workers, cap))
  {
  }

  lemma LossIs(s: State, discard: bool)
    requires Enabled(s, Lose(discard))
    ensures Next(s, Lose(discard)).parked == s.parked && Next(s, Lose(discard)).faulted == s.hw
  {
  }

  /** Once leadership is lost every parked response may go out: none waits for ever. */
  lemma LossReleasesAll(workers: nat, cap: nat, steps: seq<Step>, discard: bool)
    requires Reached(workers, cap, steps + [Lose(discard)])
    ensures var s := Final(workers, cap, steps + [Lose(discard)]);
            forall p :: 0 <= p < |s.parked| ==> Enabled(s, Release(p))
  {
    hide Inv, Enabled, Next, Sound, Start, InApplied;
    var all := steps + [Lose(discard)];
    assert Init(all) == steps;
    RunWaitersCovered(workers, cap, steps);
    var s, t := Final(workers, cap, steps), Final(workers, cap, all);
    LossIs(s, discard);
    ReachedInv(workers, cap, all);
    forall p | 0 <= p < |t.parked|
      ensures Enabled(t, Release(p))
    {
      assert t.parked[p] in s.parked;
      ReleasableIff(t, p);
    }
  }
}
