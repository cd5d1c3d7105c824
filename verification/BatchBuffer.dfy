/**
 The array code that turns the drain buffer into a batch: in-place partition, insertion sort and
 backward deduplication. Each method is proved against the specification in Batch.
 */
module BatchBuffer {
  import opened Machine
  import opened KvStore
  import opened Batch

  lemma TakeMore<T>(s: seq<T>, i: nat)
    requires i < |s|
    ensures Init(s[..i + 1]) == s[..i] && Last(s[..i + 1]) == s[i]
  {
  }

  lemma {:induction false} PickedMonotone(buf: seq<WriteSet>, safe: nat, limit: nat, i: nat)
    requires i <= |buf|
    ensures |Picked(buf[..i], safe, limit)| <= |Picked(buf, safe, limit)| <= limit
    decreases |buf|
  {
    if i < |buf| {
      PickedMonotone(Init(buf), safe, limit, i);
      assert Init(buf)[..i] == buf[..i];
    } else {
      assert buf[..i] == buf;
    }
  }

  /** With a limit that exactly the whole buffer fills, the cap of the selection makes no
      difference to which write-sets are taken. */
  lemma {:induction false} ExactLimit(buf: seq<WriteSet>, safe: nat, cap: nat, limit: nat)
    requires limit == |Picked(buf, safe, cap)|
    ensures Picked(buf, safe, limit) == Picked(buf, safe, cap)
    ensures Left(buf, safe, limit) == Left(buf, safe, cap)
  {
    SameLimit(buf, safe, cap, limit);
  }

  lemma {:induction false} SameLimit(buf: seq<WriteSet>, safe: nat, cap: nat, limit: nat)
    requires |Picked(buf, safe, cap)| <= limit <= cap
    ensures Picked(buf, safe, limit) == Picked(buf, safe, cap)
    ensures Left(buf, safe, limit) == Left(buf, safe, cap)
  {
    if buf != [] {
      SameLimit(Init(buf), safe, cap, limit);
    }
  }

  /** The number of write-sets a proposal takes: the safe ones, counted up to the cap. */
  method CountSafe(buf: array<WriteSet>, count: nat, safe: nat, cap: nat) returns (n: nat)
    requires count <= buf.Length && cap > 0
    ensures n == |Picked(buf[..count], safe, cap)|
  {
    n := 0;
    for i := 0 to count
      invariant n == |Picked(buf[..i], safe, cap)| < cap
    {
      TakeMore(buf[..count], i);
      assert buf[..count][..i + 1] == buf[..i + 1] && buf[..count][..i] == buf[..i];
      if buf[i].seqno <= safe {
        n := n + 1;
        if n >= cap {
          PickedMonotone(buf[..count], safe, cap, i + 1);
          return;
        }
      }
    }
  }

  lemma PickMore(buf: seq<WriteSet>, safe: nat, limit: nat, i: nat)
    requires i < |buf|
    ensures var p, rest := Picked(buf[..i], safe, limit), Left(buf[..i], safe, limit);
            if buf[i].seqno <= safe && |p| < limit
            then Picked(buf[..i + 1], safe, limit) == p + [buf[i]] && Left(buf[..i + 1], safe, limit) == rest
            else Picked(buf[..i + 1], safe, limit) == p && Left(buf[..i + 1], safe, limit) == rest + [buf[i]]
  {
    assert buf[..i + 1] == buf[..i] + [buf[i]];
    SelectionSnoc(buf[..i], safe, limit, buf[i]);
  }

  /** Moves the safe write-sets to a new batch, in buffer order, and closes the gaps they leave. */
  method TakeSafe(buf: array<WriteSet>, count: nat, safe: nat, n: nat, blank: WriteSet)
    returns (batch: array<WriteSet>, left: nat)
    requires count <= buf.Length && n == |Picked(buf[..count], safe, n)|
    modifies buf
    ensures fresh(batch) && batch[..] == Picked(old(buf[..count]), safe, n)
    ensures left <= count && buf[..left] == Left(old(buf[..count]), safe, n)
  {
    hide Picked, Left;
    ghost var was := buf[..count];
    batch := new WriteSet[n](_ => blank);
    var bi, ri := 0, 0;
    SelectionNone(safe, n);
    for i := 0 to count
      invariant fresh(batch) && batch.Length == n && bi <= n && ri <= i
      invariant batch[..bi] == Picked(was[..i], safe, n)
      invariant buf[..ri] == Left(was[..i], safe, n)
      invariant forall k :: i <= k < count ==> buf[k] == was[k]
    {
      PickMore(was, safe, n, i);
      PickedMonotone(was, safe, n, i + 1);
      if buf[i].seqno <= safe && bi < n {
        batch[bi] := buf[i];
        bi := bi + 1;
        assert batch[..bi] == batch[..bi - 1] + [was[i]];
      } else {
        buf[ri] := buf[i];
        ri := ri + 1;
        assert buf[..ri] == buf[..ri - 1] + [was[i]];
      }
    }
    assert was[..count] == was;
    left := ri;
  }

  /** Inserting x into a sorted prefix when the elements from j on are all larger. */
  lemma {:induction false} InsertAt(s: seq<WriteSet>, j: nat, x: WriteSet)
    requires j <= |s|
    requires forall k :: j <= k < |s| ==> s[k].seqno > x.seqno
    requires j > 0 ==> s[j - 1].seqno <= x.seqno
    ensures InsertBySeq(s, x) == s[..j] + [x] + s[j..]
  {
    if j < |s| {
      InsertAt(Init(s), j, x);
      assert s[j..] == Init(s)[j..] + [Last(s)];
      assert Init(s)[..j] == s[..j];
    } else {
      assert s[..j] == s;
    }
  }

  /** Shifts the larger elements of the sorted prefix up and drops element i into the gap. */
  method InsertInPlace(batch: array<WriteSet>, i: nat)
    requires i < batch.Length
    modifies batch
    ensures batch[..i + 1] == InsertBySeq(old(batch[..i]), old(batch[i]))
    ensures batch[i + 1..] == old(batch[i + 1..])
  {
    ghost var sorted := batch[..i];
    var tmp := batch[i];
    var j := i;
    while j > 0 && batch[j - 1].seqno > tmp.seqno
      invariant j <= i
      invariant batch[..j] == sorted[..j]
      invariant batch[j + 1..i + 1] == sorted[j..]
      invariant forall k :: j <= k < i ==> sorted[k].seqno > tmp.seqno
      invariant batch[i + 1..] == old(batch[i + 1..])
    {
      assert batch[j - 1] == sorted[j - 1];
      batch[j] := batch[j - 1];
      assert batch[j..i + 1] == [sorted[j - 1]] + sorted[j..];
      j := j - 1;
    }
    batch[j] := tmp;
    assert j > 0 ==> batch[j - 1] == sorted[j - 1];
    InsertAt(sorted, j, tmp);
    assert batch[..i + 1] == sorted[..j] + [tmp] + sorted[j..];
  }

  /** Insertion sort by sequence number, in place. */
  method SortInPlace(batch: array<WriteSet>)
    modifies batch
    ensures batch[..] == SortBySeq(old(batch[..]))
  {
    ghost var was := batch[..];
    var i := 0;
    while i < batch.Length
      invariant i <= batch.Length
      invariant batch[..i] == SortBySeq(was[..i])
      invariant batch[i..] == was[i..]
    {
      assert batch[i] == batch[i..][0] == was[i];
      assert was[i + 1..] == was[i..][1..] && batch[i + 1..] == batch[i..][1..];
      InsertInPlace(batch, i);
      TakeMore(was, i);
      i := i + 1;
    }
    assert was[..i] == was;
    assert batch[..i] == batch[..];
  }

  /** The batch with positions from (i, j) on deduplicated and the earlier ones untouched. */
  ghost predicate DedupedFrom(now: seq<WriteSet>, was: seq<WriteSet>, i: nat, j: nat) {
    |now| == |was| &&
    (forall a :: 0 <= a < |was| ==> now[a].seqno == was[a].seqno && |now[a].ops| == |was[a].ops|) &&
    (forall a, b :: 0 <= a < |was| && 0 <= b < |was[a].ops| ==>
       now[a].ops[b] == if a > i || (a == i && b >= j) then DedupedOp(was, a, b) else was[a].ops[b])
  }

  /** A key has a live operation after a position exactly when it had any operation there. */
  ghost predicate LaterLive(now: seq<WriteSet>, i: nat, j: nat, k: Key)
    requires i < |now|
  {
    (exists jj :: j < jj < |now[i].ops| && Touches(now[i].ops[jj], k)) ||
    (exists ii, jj :: i < ii < |now| && 0 <= jj < |now[ii].ops| && Touches(now[ii].ops[jj], k))
  }

  lemma LaterLiveIsOvertaken(now: seq<WriteSet>, was: seq<WriteSet>, i: nat, j: nat)
    requires i < |was| && j < |was[i].ops| && was[i].ops[j] != Nulled
    requires DedupedFrom(now, was, i, j + 1)
    ensures LaterLive(now, i, j, was[i].ops[j].key) <==> Overtaken(was, i, j)
  {
    var k := was[i].ops[j].key;
    if Overtaken(was, i, j) {
      LastOnSets(was, k);
      LastTouch(was, i, j, k);
      var a: nat, b: nat :| IsLastOn(was, a, b, k);
      assert a > i || (a == i && b > j);
      assert now[a].ops[b] == DedupedOp(was, a, b);
    }
  }

  /** If something after (i, j) touches k, the last operation on k comes after (i, j). */
  lemma LastTouch(was: seq<WriteSet>, i: nat, j: nat, k: Key)
    requires i < |was| && j < |was[i].ops| && Touches(was[i].ops[j], k) && Overtaken(was, i, j)
    ensures exists a: nat, b: nat :: IsLastOn(was, a, b, k) && (a > i || (a == i && b > j))
  {
    LastOnSets(was, k);
    assert !Untouched(was, k);
    var a: nat, b: nat :| IsLastOn(was, a, b, k);
  }

  predicate TouchedIn(ops: seq<Op>, from: nat, k: Key) {
    exists b :: from <= b < |ops| && Touches(ops[b], k)
  }

  /** Whether one write-set has a live operation on k at or after `from`. */
  method Scan(ops: seq<Op>, from: nat, k: Key) returns (found: bool)
    requires from <= |ops|
    ensures found <==> TouchedIn(ops, from, k)
  {
    var jj := |ops|;
    while jj > from
      invariant from <= jj <= |ops|
      invariant !TouchedIn(ops, jj, k)
    {
      if Touches(ops[jj - 1], k) {
        return true;
      }
      jj := jj - 1;
    }
    return false;
  }

  /** Whether a live operation on the key of (i, j) comes later: first the later write-sets from
      the end, then the rest of this one. */
  method Dominated(sets: array<WriteSet>, i: nat, j: nat, k: Key) returns (found: bool)
    requires i < sets.Length && j < |sets[i].ops|
    ensures found <==> LaterLive(sets[..], i, j, k)
  {
    ghost var now := sets[..];
    var ii := sets.Length;
    while ii > i + 1
      invariant i < ii <= sets.Length
      invariant forall a :: ii <= a < |now| ==> !TouchedIn(now[a].ops, 0, k)
    {
      found := Scan(sets[ii - 1].ops, 0, k);
      if found {
        assert TouchedIn(now[ii - 1].ops, 0, k);
        return;
      }
      ii := ii - 1;
    }
    found := Scan(sets[i].ops, j + 1, k);
    assert found <==> TouchedIn(now[i].ops, j + 1, k);
  }

  /** One step of the backward pass: position (i, j) gets its final value. */
  lemma DedupeStep(now: seq<WriteSet>, was: seq<WriteSet>, next: seq<WriteSet>, i: nat, j: nat)
    requires i < |was| && j < |was[i].ops| && DedupedFrom(now, was, i, j + 1)
    requires next == now[i := now[i].(ops := now[i].ops[j := DedupedOp(was, i, j)])]
    ensures DedupedFrom(next, was, i, j)
  {
    hide DedupedOp;
    forall a, b | 0 <= a < |was| && 0 <= b < |was[a].ops|
      ensures next[a].ops[b] == if a > i || (a == i && b >= j) then DedupedOp(was, a, b) else was[a].ops[b]
    {
      if a != i {
        assert next[a] == now[a];
      }
    }
  }

  lemma DedupeNextSet(now: seq<WriteSet>, was: seq<WriteSet>, i: nat)
    requires 0 < i <= |was| && DedupedFrom(now, was, i, 0)
    ensures DedupedFrom(now, was, i - 1, |was[i - 1].ops|)
  {
    hide DedupedOp;
  }

  /** Nulls every operation that a later one on the same key overtakes, from the end. */
  method DedupeInPlace(sets: array<WriteSet>)
    modifies sets
    ensures sets[..] == Dedupe(old(sets[..]))
  {
    ghost var was := sets[..];
    var i := sets.Length;
    while i > 0
      invariant 0 <= i <= sets.Length
      invariant DedupedFrom(sets[..], was, i, 0)
    {
      DedupeNextSet(sets[..], was, i);
      var j := |sets[i - 1].ops|;
      while j > 0
        invariant 0 <= j <= |was[i - 1].ops|
        invariant DedupedFrom(sets[..], was, i - 1, j)
      {
        ghost var now := sets[..];
        assert now[i - 1] == sets[i - 1] && now[i - 1].ops[j - 1] == was[i - 1].ops[j - 1];
        var op := sets[i - 1].ops[j - 1];
        if op != Nulled {
          var found := Dominated(sets, i - 1, j - 1, op.key);
          LaterLiveIsOvertaken(now, was, i - 1, j - 1);
          if found {
            sets[i - 1] := sets[i - 1].(ops := sets[i - 1].ops[j - 1 := Nulled]);
          }
        }
        assert now[i - 1].ops[j - 1 := op] == now[i - 1].ops;
        DedupeStep(now, was, sets[..], i - 1, j - 1);
        j := j - 1;
      }
      i := i - 1;
    }
    DedupedWhole(sets[..], was);
  }

  lemma DedupedWhole(now: seq<WriteSet>, was: seq<WriteSet>)
    requires DedupedFrom(now, was, 0, 0)
    ensures now == Dedupe(was)
  {
    forall i | 0 <= i < |was|
      ensures now[i] == Dedupe(was)[i]
    {
      assert now[i].ops == DedupedSet(was, i).ops;
    }
  }
}
