/**
 One producer at a time: when a worker starts a push only while no other worker is inside one,
 every access of every push leaves the queue intact.
 */
module PipelineProducers {
  import opened Machine
  import opened KvStore
  import opened Batch
  import opened ProposalQueue
  import opened Pipeline

  /** No other worker is between its load of the tail and its store when this one loads it. */
  predicate StartsAlone(s: State, a: Step) {
    a.LoadTail? ==> forall v :: 0 <= v < |s.pc| && v != a.w ==> !Pushing(s.pc[v])
  }

  predicate LoneRun(s: State, steps: seq<Step>)
    requires Runs(s, steps)
  {
    steps == [] || (LoneRun(s, Init(steps)) && StartsAlone(After(s, Init(steps)), Last(steps)))
  }

  ghost predicate OneProducer(s: State) {
    forall v, w :: 0 <= v < |s.pc| && 0 <= w < |s.pc| && Pushing(s.pc[v]) && Pushing(s.pc[w]) ==> v == w
  }

  /** What the producer knows of the queue at each stage of its push. */
  predicate Knows(r: Ring, p: Pc) {
    (Pushing(p) ==> p.at == r.tail) &&
    (p.Fitted? || p.Filled? ==> HasRoom(r, r.tail)) &&
    (p.Filled? ==> r.slots[Slot(r.tail)] == p.ws)
  }

  ghost predicate Lone(s: State) {
    InOrder(s.ring) && OneProducer(s) && forall w :: 0 <= w < |s.pc| ==> Knows(s.ring, s.pc[w])
  }

  lemma LoneIsIntact(s: State, a: Step)
    requires Lone(s) && Enabled(s, a)
    ensures PushIntact(s, a)
  {
    hide Slot, FillsFree, Queued;
    if a.FillSlot? {
      assert Knows(s.ring, s.pc[a.w]);
      FreeAtTail(s.ring, s.pc[a.w].ws);
    } else if a.StoreTailOf? {
      assert Knows(s.ring, s.pc[a.w]);
    }
  }

  /** A lone producer that looks at the head goes on while fewer than 4096 write-sets are queued, and
      otherwise loads the tail again. */
  lemma GoesOnIff(s: State, w: nat)
    requires Lone(s) && Enabled(s, LoadHead(w))
    ensures At(s, w) && s.pc[w].Tailed?
    ensures Next(s, LoadHead(w)).pc[w] ==
            if |Queued(s.ring)| < 4096 then Fitted(s.pc[w].ws, s.ring.tail) else Raised(s.pc[w].ws)
  {
    hide Slot;
    assert Knows(s.ring, s.pc[w]);
    LengthOf(s.ring);
  }

  /** A take does not change what the producer knows. */
  lemma TakeKeepsLone(s: State)
    requires Lone(s) && Enabled(s, Pop)
    ensures Lone(Next(s, Pop))
  {
    hide Slot;
    var t := Next(s, Pop);
    assert s.ring.head < s.ring.tail;
    forall w | 0 <= w < |t.pc|
      ensures Knows(t.ring, t.pc[w])
    {
      assert Knows(s.ring, s.pc[w]);
    }
  }

  predicate OfPush(a: Step) {
    a.LoadTail? || a.LoadHead? || a.FillSlot? || a.StoreTailOf?
  }

  lemma PushMoves(s: State, a: Step)
    requires Enabled(s, a) && OfPush(a)
    ensures At(s, a.w) && Next(s, a).pc == s.pc[a.w := Next(s, a).pc[a.w]]
    ensures !a.FillSlot? && !a.StoreTailOf? ==> Next(s, a).ring == s.ring
    ensures InHand(s.pc[a.w]) && (a.LoadTail? || Pushing(s.pc[a.w]))
  {
  }

  lemma PushKeepsLone(s: State, a: Step)
    requires Lone(s) && Enabled(s, a) && OfPush(a) && StartsAlone(s, a)
    ensures Lone(Next(s, a))
  {
    hide Slot, Queued;
    PushMoves(s, a);
    LoneIsIntact(s, a);
    var t := Next(s, a);
    assert Knows(s.ring, s.pc[a.w]);
    forall v | 0 <= v < |t.pc|
      ensures Knows(t.ring, t.pc[v]) && (v != a.w ==> !Pushing(t.pc[v]))
    {
      assert Knows(s.ring, s.pc[v]);
      if v != a.w {
        assert t.pc[v] == s.pc[v];
      }
    }
  }

  lemma RaftMoves(s: State, a: Step)
    requires Enabled(s, a) && OfRaft(a) && !a.Pop?
    ensures Next(s, a).ring == s.ring && Next(s, a).pc == s.pc
  {
    hide Queued, Batched, Remaining, MaxSeq, Picked, Left;
  }

  lemma WorkerMoves(s: State, a: Step)
    requires Enabled(s, a) && !OfRaft(a) && !OfPush(a)
    ensures At(s, a.w) && Next(s, a).ring == s.ring
    ensures Next(s, a).pc == s.pc[a.w := Next(s, a).pc[a.w]] && !Pushing(Next(s, a).pc[a.w])
  {
    hide HasPut, Run, Writes, Marked, CleanOps;
  }

  lemma OtherMoves(s: State, a: Step)
    requires Enabled(s, a) && !OfPush(a) && !a.Pop?
    ensures Next(s, a).ring == s.ring && |Next(s, a).pc| == |s.pc|
    ensures forall v :: 0 <= v < |s.pc| ==> Next(s, a).pc[v] == s.pc[v] || !Pushing(Next(s, a).pc[v])
  {
    hide Enabled, Next;
    if OfRaft(a) {
      RaftMoves(s, a);
    } else {
      WorkerMoves(s, a);
    }
  }

  lemma KeepsLone(s: State, a: Step)
    requires Lone(s) && Enabled(s, a) && StartsAlone(s, a)
    ensures Lone(Next(s, a))
  {
    if a.Pop? {
      TakeKeepsLone(s);
    } else if OfPush(a) {
      PushKeepsLone(s, a);
    } else {
      hide Enabled, Next;
      OtherMoves(s, a);
    }
  }

  /** Producers that start alone keep the queue intact over the whole run. */
  lemma {:induction false} LoneRunIsTidy(s: State, steps: seq<Step>)
    requires Lone(s) && Runs(s, steps) && LoneRun(s, steps)
    requires forall i :: 0 <= i < |steps| ==> !steps[i].CommitGivenUp?
    ensures TidyRun(s, steps) && Lone(After(s, steps))
  {
    hide Lone, Enabled, Next, PushIntact, StartsAlone;
    if steps != [] {
      var a := Last(steps);
      assert a == steps[|steps| - 1];
      LoneRunIsTidy(s, Init(steps));
      LoneIsIntact(After(s, Init(steps)), a);
      KeepsLone(After(s, Init(steps)), a);
    }
  }

  lemma StartIsLone(workers: nat, cap: nat)
    ensures Lone(Start(workers, cap))
  {
  }

  /** A single worker is always alone. */
  lemma {:induction false} OneWorkerIsLone(s: State, steps: seq<Step>)
    requires |s.pc| <= 1 && Runs(s, steps)
    ensures LoneRun(s, steps) && |After(s, steps).pc| == |s.pc|
  {
    if steps != [] {
      OneWorkerIsLone(s, Init(steps));
      WorkersStay(After(s, Init(steps)), Last(steps));
    }
  }

  lemma WorkersStay(s: State, a: Step)
    requires Enabled(s, a)
    ensures |Next(s, a).pc| == |s.pc|
    ensures a.LoadTail? ==> a.w < |s.pc|
  {
  }
}
