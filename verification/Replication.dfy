/**
 From the shared-memory protocol to the bytes in the raft log and back: a follower that applies
 the blobs of the log, in log order, holds a prefix of the leader's history, row for row.
 */
module Replication {
  import opened Machine
  import opened Wire
  import opened KvStore
  import opened Batch
  import opened BatchCodec
  import opened Pipeline
  import opened PipelineSafety
  import opened PipelineTheorems

  /** What raft carries for a batch. */
  ghost function BlobOf(batch: seq<WriteSet>): Bytes {
    Serialize(Dedupe(batch))
  }

  /** A follower's table after the blobs of the given batches. */
  ghost function Replica(st: Store, log: seq<seq<WriteSet>>): Store {
    if log == [] then st else Follow(Replica(st, Init(log)), BlobOf(Last(log))).0
  }

  /** serialize_batch sizes a blob in 32 bits. */
  ghost predicate FitsBlob(batch: seq<WriteSet>) {
    |BlobOf(batch)| < U32_END
  }

  /** The blob of a batch in the log is what the raft thread makes of its drain buffer. */
  lemma BlobIsProposed(s: State, accepted: bool)
    requires Enabled(s, Propose(accepted)) && accepted
    ensures BlobOf(Last(Next(s, Propose(accepted)).log)) ==
            Serialize(Dedupe(SortBySeq(Picked(s.drain, s.phase.least, s.cap))))
    ensures Next(s, Propose(accepted)).drain == Left(s.drain, s.phase.least, s.cap)
  {
    hide Serialize, Dedupe, SortBySeq, Picked, Left;
  }

  lemma CleanIsEncodable(ops: seq<Op>)
    requires CleanOps(ops)
    ensures EncodableOps(ops)
  {
    forall i | 0 <= i < |ops|
      ensures Encodable(ops[i])
    {
      assert Clean(ops[i]);
    }
  }

  lemma BatchEncodable(s: State, i: nat)
    requires Shaped(s) && Numbered(s.hist) && LogIsPrefix(s) && i < |s.log| && s.cap < U32_END
    ensures EncodableSets(s.log[i]) && EncodableSets(Dedupe(s.log[i]))
  {
    var b := s.log[i];
    assert b in s.log;
    BatchSlice(s.log, s.hist, i);
    var from := |Flat(s.log[..i])|;
    forall k | 0 <= k < |b|
      ensures EncodableOps(b[k].ops) && b[k].seqno < U64_END
    {
      assert b[k] == s.hist[from + k];
      CleanIsEncodable(b[k].ops);
    }
    DedupeEncodable(b);
  }

  lemma {:induction false} ReplicaRuns(s: State, m: nat)
    requires Shaped(s) && Numbered(s.hist) && LogIsPrefix(s) && m <= |s.log| && s.cap < U32_END
    ensures Replica(map[], s.log[..m]) == Run(map[], Flatten(Flat(s.log[..m])))
  {
    if m > 0 {
      var before, b := s.log[..m - 1], s.log[m - 1];
      assert Init(s.log[..m]) == before && Last(s.log[..m]) == b;
      ReplicaRuns(s, m - 1);
      BatchEncodable(s, m - 1);
      FollowSerializedBatch(Replica(map[], before), b);
      FlattenAppend(Flat(before), b);
      RunAppend(map[], Flatten(Flat(before)), Flatten(b));
    }
  }

  /** State machine safety. In every sound run, a follower that has applied the first m blobs of
      the log holds exactly what the leader's first k transactions produce, for the k that those
      batches contain: same keys, same values, same sequence numbers. */
  lemma FollowerHoldsPrefix(workers: nat, cap: nat, steps: seq<Step>, m: nat)
    requires Reached(workers, cap, steps) && cap < U32_END
    requires m <= |Final(workers, cap, steps).log|
    requires forall i :: 0 <= i < m ==> FitsBlob(Final(workers, cap, steps).log[i])
    ensures var s := Final(workers, cap, steps);
            var k := |Flat(s.log[..m])|;
            k <= |s.hist| && Replica(map[], s.log[..m]) == Run(map[], Flatten(s.hist[..k]))
  {
    ReachedInv(workers, cap, steps);
    CapIsFixed(workers, cap, steps);
    var s := Final(workers, cap, steps);
    ReplicaRuns(s, m);
    FlatTake(s.log, m);
    assert s.hist[..|Flat(s.log[..m])|] == Flat(s.log[..m]);
  }

  lemma {:induction false} CapIsFixed(workers: nat, cap: nat, steps: seq<Step>)
    requires Runs(Start(workers, cap), steps)
    ensures Final(workers, cap, steps).cap == cap
  {
    if steps != [] {
      CapIsFixed(workers, cap, Init(steps));
      StepKeepsCap(Final(workers, cap, Init(steps)), Last(steps));
    }
  }

  lemma StepKeepsCap(s: State, a: Step)
    requires Enabled(s, a)
    ensures Next(s, a).cap == s.cap
  {
  }

  // ---- the leader's own table ----

  /** The leader's table is what its numbered transactions produce. */
  ghost predicate TableIsHistory(s: State) {
    s.store == Run(map[], Flatten(s.hist))
  }

  lemma {:induction false} DeletesOnly(st: Store, ops: seq<Op>, n: nat)
    requires forall i :: 0 <= i < |ops| ==> ops[i].Delete?
    ensures Run(st, Writes(ops, n)) == st <==> forall i :: 0 <= i < |ops| ==> ops[i].key !in st
    ensures Run(st, Writes(ops, n)).Keys <= st.Keys
  {
    if ops != [] {
      DeletesOnly(st, Init(ops), n);
      assert Init(Writes(ops, n)) == Writes(Init(ops), n);
      var mid, k := Run(st, Writes(Init(ops), n)), Last(ops).key;
      assert Run(st, Writes(ops, n)) == mid - {k};
      if Run(st, Writes(ops, n)) == st {
        assert k !in st;
        StillThere(st, Init(ops), n, k);
        assert mid == st;
        forall i | 0 <= i < |ops|
          ensures ops[i].key !in st
        {
          assert i < |ops| - 1 ==> Init(ops)[i] == ops[i];
        }
      }
      if forall i :: 0 <= i < |ops| ==> ops[i].key !in st {
        forall i | 0 <= i < |Init(ops)|
          ensures Init(ops)[i].key !in st
        {
          assert Init(ops)[i] == ops[i];
        }
        assert ops[|ops| - 1].key !in st;
        assert mid - {k} == st;
      }
    }
  }

  lemma StillThere(st: Store, ops: seq<Op>, n: nat, k: Key)
    requires forall i :: 0 <= i < |ops| ==> ops[i].Delete?
    requires Run(st, Writes(ops, n)).Keys <= st.Keys && Run(st, Writes(ops, n)) - {k} == st
    ensures k !in st ==> Run(st, Writes(ops, n)) == st
  {
    var mid := Run(st, Writes(ops, n));
    if k !in st {
      assert k !in mid;
      assert mid - {k} == mid;
    }
  }

  /** Exactly which transactions reach the followers in full: those with a put, and those whose
      deletes find nothing to delete. */
  lemma CommitIsReplicatedIff(s: State, w: nat, ops: seq<Op>)
    requires TableIsHistory(s) && Enabled(s, Commit(w, ops))
    ensures TableIsHistory(Next(s, Commit(w, ops))) <==>
            HasPut(ops) || forall i :: 0 <= i < |ops| ==> ops[i].key !in s.store
  {
    var t := Next(s, Commit(w, ops));
    if HasPut(ops) {
      var ws := WriteSet(|s.hist| + 1, ops);
      assert Init(s.hist + [ws]) == s.hist;
      RunAppend(map[], Flatten(s.hist), Writes(ops, ws.seqno));
    } else {
      forall i | 0 <= i < |ops|
        ensures ops[i].Delete?
      {
        assert Clean(ops[i]);
      }
      DeletesOnly(s.store, ops, 0);
    }
  }

  ghost predicate Replicable(s: State, a: Step) {
    a.Commit? ==> HasPut(a.ops) || forall i :: 0 <= i < |a.ops| ==> a.ops[i] != Nulled && a.ops[i].key !in s.store
  }

  ghost predicate ReplicableRun(s: State, steps: seq<Step>)
    requires Runs(s, steps)
  {
    steps == [] ||
    (ReplicableRun(s, Init(steps)) && Replicable(After(s, Init(steps)), Last(steps)))
  }

  lemma KeepsTable(s: State, a: Step)
    requires TableIsHistory(s) && Enabled(s, a) && Replicable(s, a)
    ensures TableIsHistory(Next(s, a))
  {
    if a.Commit? {
      CommitIsReplicatedIff(s, a.w, a.ops);
    } else {
      assert Next(s, a).store == s.store && Next(s, a).hist == s.hist;
    }
  }

  lemma {:induction false} RunKeepsTable(workers: nat, cap: nat, steps: seq<Step>)
    requires Runs(Start(workers, cap), steps) && ReplicableRun(Start(workers, cap), steps)
    ensures TableIsHistory(Final(workers, cap, steps))
  {
    if steps != [] {
      RunKeepsTable(workers, cap, Init(steps));
      KeepsTable(Final(workers, cap, Init(steps)), Last(steps));
    }
  }

  /** When every committed write is in the log, a follower that has applied the whole log holds
      the leader's table. */
  lemma ReplicaConverges(workers: nat, cap: nat, steps: seq<Step>)
    requires Reached(workers, cap, steps) && cap < U32_END
    requires ReplicableRun(Start(workers, cap), steps)
    requires var s := Final(workers, cap, steps); |Flat(s.log)| == |s.hist|
    requires forall b :: b in Final(workers, cap, steps).log ==> FitsBlob(b)
    ensures var s := Final(workers, cap, steps); Replica(map[], s.log) == s.store
  {
    var s := Final(workers, cap, steps);
    FollowerHoldsPrefix(workers, cap, steps, |s.log|);
    assert s.log[..|s.log|] == s.log;
    RunKeepsTable(workers, cap, steps);
    assert s.hist[..|s.hist|] == s.hist;
  }
}
