/**
 Snapshot catch-up: the leader sends the rows whose number lies above the follower's largest
 one and up to its last snapshot, then the log entries after the snapshot. Deleted rows leave
 no trace in the delta.
 */
module CatchUp {
  import opened Machine
  import opened KvStore

  /** The n-th transaction has number n. */
  predicate Consecutive(hist: seq<WriteSet>) {
    forall i :: 0 <= i < |hist| ==> hist[i].seqno == i + 1
  }

  function Table(hist: seq<WriteSet>): Store {
    Run(map[], Flatten(hist))
  }

  /** SELECT MAX(seq): 0 on an empty table. */
  ghost predicate IsMaxSeq(st: Store, m: nat) {
    (forall k :: k in st ==> st[k].seqno <= m) && (m == 0 || exists k :: k in st && st[k].seqno == m)
  }

  /** A 64-bit value as sqlite3_bind_int64 sees it. */
  function Signed(v: u64): int {
    if v < 0x8000_0000_0000_0000 then v else v - U64_END
  }

  /** The upper end of the delta: UINT64_MAX stands for no snapshot yet. */
  function Through(snapshotSeq: u64): int {
    Signed(if snapshotSeq == 0 then U64_MAX else snapshotSeq)
  }

  /** Rows with after < seq <= through. */
  function Delta(st: Store, after: int, through: int): Store {
    map k | k in st && after < st[k].seqno <= through :: st[k]
  }

  /** The follower puts the rows of the delta over its own. */
  function Patched(follower: Store, delta: Store): Store {
    follower + delta
  }

  lemma {:induction false} WriteNumbers(hist: seq<WriteSet>, k: Key)
    requires Consecutive(hist)
    ensures LastOn(Flatten(hist), k).Some? ==> 1 <= LastOn(Flatten(hist), k).value.seqno <= |hist|
  {
    if hist != [] {
      var last := Last(hist);
      var own := Writes(last.ops, last.seqno);
      LastOnAppend(Flatten(Init(hist)), own, k);
      WriteNumbers(Init(hist), k);
      if LastOn(own, k).Some? {
        LastOnIsMember(own, k);
      }
    }
  }

  /** The last write on k in a prefix is the last one overall if the latter is that early;
      the tail holds it otherwise. */
  lemma {:induction false} LastOnSplit(hist: seq<WriteSet>, a: nat, k: Key)
    requires Consecutive(hist) && a <= |hist|
    ensures var all := LastOn(Flatten(hist), k);
            (all.Some? && all.value.seqno > a ==> LastOn(Flatten(hist[a..]), k) == all) &&
            (all.None? || all.value.seqno <= a ==>
               LastOn(Flatten(hist[..a]), k) == all && LastOn(Flatten(hist[a..]), k).None?)
  {
    var head, tail := hist[..a], hist[a..];
    assert hist == head + tail;
    FlattenAppend(head, tail);
    LastOnAppend(Flatten(head), Flatten(tail), k);
    WriteNumbers(head, k);
    TailNumbers(tail, a, k);
  }

  lemma {:induction false} TailNumbers(tail: seq<WriteSet>, a: nat, k: Key)
    requires forall i :: 0 <= i < |tail| ==> tail[i].seqno == a + i + 1
    ensures LastOn(Flatten(tail), k).Some? ==> LastOn(Flatten(tail), k).value.seqno > a
  {
    if tail != [] {
      var last := Last(tail);
      var own := Writes(last.ops, last.seqno);
      LastOnAppend(Flatten(Init(tail)), own, k);
      TailNumbers(Init(tail), a, k);
      if LastOn(own, k).Some? {
        LastOnIsMember(own, k);
      }
    }
  }

  lemma MaxSeqBound(hist: seq<WriteSet>, m: nat)
    requires Consecutive(hist) && IsMaxSeq(Table(hist), m)
    ensures m <= |hist|
  {
    var st := Table(hist);
    if m > 0 {
      var k :| k in st && st[k].seqno == m;
      RunAt(map[], Flatten(hist), k);
      assert Cell(st, k) == Some(st[k]);
      WriteNumbers(hist, k);
    }
  }

  /** The key was deleted after the follower's state and before the snapshot, for good. */
  ghost predicate MissedDelete(hist: seq<WriteSet>, a: nat, t: nat, k: Key) {
    var w := LastOn(Flatten(hist), k);
    w.Some? && w.value.op.Delete? && a < w.value.seqno <= t
  }

  /** What the follower holds on a key at the end of the catch-up. */
  lemma CaughtUpAt(hist: seq<WriteSet>, a: nat, t: nat, after: nat, k: Key)
    requires Consecutive(hist) && a <= |hist| && t <= |hist| && after <= a
    ensures var follower, leader := Table(hist[..a]), Table(hist);
            var end := Run(Patched(follower, Delta(leader, after, t)), Flatten(hist[t..]));
            Cell(end, k) == if MissedDelete(hist, a, t, k) then Cell(follower, k) else Cell(leader, k)
  {
    hide MissedDelete;
    var follower, leader := Table(hist[..a]), Table(hist);
    var delta := Delta(leader, after, t);
    var mid := Patched(follower, delta);
    var w := LastOn(Flatten(hist), k);
    RunAt(map[], Flatten(hist), k);
    RunAt(map[], Flatten(hist[..a]), k);
    RunAt(mid, Flatten(hist[t..]), k);
    LastOnSplit(hist, a, k);
    LastOnSplit(hist, t, k);
    WriteNumbers(hist, k);
    WriteNumbers(hist[..a], k);
    PatchedAt(follower, leader, after, t, k);
    MissedMeans(hist, a, t, k);
    if w.Some? && w.value.seqno <= t {
      LastOnIsMember(Flatten(hist), k);
    }
  }

  lemma PatchedAt(follower: Store, leader: Store, after: int, through: int, k: Key)
    ensures Cell(Patched(follower, Delta(leader, after, through)), k) ==
            if k in leader && after < leader[k].seqno <= through then Cell(leader, k) else Cell(follower, k)
  {
  }

  lemma MissedMeans(hist: seq<WriteSet>, a: nat, t: nat, k: Key)
    ensures MissedDelete(hist, a, t, k) <==>
            LastOn(Flatten(hist), k).Some? && LastOn(Flatten(hist), k).value.op.Delete? &&
            a < LastOn(Flatten(hist), k).value.seqno <= t
  {
  }

  /** Catch-up is exact if and only if the follower holds no key that was deleted for good after
      its own state and up to the snapshot. */
  lemma CatchUpExactIff(hist: seq<WriteSet>, a: nat, snapshotSeq: u64, after: u64)
    requires Consecutive(hist) && a <= |hist| && 0 < snapshotSeq <= |hist| < 0x8000_0000_0000_0000
    requires IsMaxSeq(Table(hist[..a]), after)
    ensures var follower, leader := Table(hist[..a]), Table(hist);
            var delta := Delta(leader, Signed(after), Through(snapshotSeq));
            Run(Patched(follower, delta), Flatten(hist[snapshotSeq..])) == leader <==>
            forall k :: k in follower ==> !MissedDelete(hist, a, snapshotSeq, k)
  {
    var t := snapshotSeq;
    var follower, leader := Table(hist[..a]), Table(hist);
    MaxSeqBound(hist[..a], after);
    var end := Run(Patched(follower, Delta(leader, after, t)), Flatten(hist[t..]));
    forall k
      ensures Cell(end, k) == if MissedDelete(hist, a, t, k) then Cell(follower, k) else Cell(leader, k)
      ensures MissedDelete(hist, a, t, k) ==> k !in leader
    {
      CaughtUpAt(hist, a, t, after, k);
      RunAt(map[], Flatten(hist), k);
    }
    if forall k :: k in follower ==> !MissedDelete(hist, a, t, k) {
      StoresEqual(end, leader);
    } else {
      var k :| k in follower && MissedDelete(hist, a, t, k);
      assert Cell(end, k) == Cell(follower, k);
    }
  }

  /** Histories without deletes always catch up. */
  lemma PutOnlyCatchesUp(hist: seq<WriteSet>, a: nat, snapshotSeq: u64, after: u64)
    requires Consecutive(hist) && a <= |hist| && 0 < snapshotSeq <= |hist| < 0x8000_0000_0000_0000
    requires forall w :: w in Flatten(hist) ==> w.op.Put?
    requires IsMaxSeq(Table(hist[..a]), after)
    ensures Run(Patched(Table(hist[..a]), Delta(Table(hist), Signed(after), Through(snapshotSeq))),
                Flatten(hist[snapshotSeq..])) == Table(hist)
  {
    CatchUpExactIff(hist, a, snapshotSeq, after);
    forall k | k in Table(hist[..a])
      ensures !MissedDelete(hist, a, snapshotSeq, k)
    {
      if LastOn(Flatten(hist), k).Some? {
        LastOnIsMember(Flatten(hist), k);
      }
    }
  }

  /** Before the first snapshot the delta is empty, whatever the leader holds. */
  lemma NoSnapshotNoDelta(leader: Store, after: nat)
    ensures Delta(leader, after, Through(0)) == map[]
  {
    assert Through(0) == -1;
  }

  /** A key deleted between the follower's state and the snapshot stays at the follower. */
  lemma DeletedRowStays()
    ensures var k, other: Key := [1], [2];
            var hist := [WriteSet(1, [Put(k, [7])]), WriteSet(2, [Put(other, [8]), Delete(k)])];
            var follower, leader := Table(hist[..1]), Table(hist);
            k in follower && k !in leader &&
            k in Run(Patched(follower, Delta(leader, 1, 2)), Flatten(hist[2..]))
  {
    hide Run, Patched, Delta, Flatten;
    var k, other: Key := [1], [2];
    var first := WriteSet(1, [Put(k, [7])]);
    var second := WriteSet(2, [Put(other, [8]), Delete(k)]);
    var hist := [first, second];
    assert hist == [first] + [second] && hist[..1] == [first];
    FlattenAppend([first], [second]);
    FlattenOne(first);
    FlattenOne(second);
    LastWriteOf(first.ops, 1, k);
    LastWriteOf(second.ops, 2, k);
    LastOnAppend(Flatten([first]), Flatten([second]), k);
    RunAt(map[], Flatten([first]), k);
    RunAt(map[], Flatten(hist), k);
    CaughtUpAt(hist, 1, 2, 1, k);
  }

  lemma FlattenOne(w: WriteSet)
    ensures Flatten([w]) == Writes(w.ops, w.seqno)
  {
    assert Init([w]) == [];
    assert Flatten([]) == [];
  }

  /** The last operation of a write-set decides its key. */
  lemma LastWriteOf(ops: seq<Op>, seqno: nat, k: Key)
    requires ops != [] && Touches(Last(ops), k)
    ensures LastOn(Writes(ops, seqno), k) == Some(Write(Last(ops), seqno))
  {
  }
}
