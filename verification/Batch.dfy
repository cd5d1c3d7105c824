/**
 What the raft thread does with its drain buffer: pick the write-sets that are safe to
 propose, sort them by sequence number, null every operation that a later one on the same
 key overtakes. This module holds the specification and its meaning; BatchBuffer holds the
 array code.
 */
module Batch {
  import opened Machine
  import opened KvStore

  // ---- selection ----

  /** The first `limit` write-sets, in buffer order, whose sequence number is at most `safe`. */
  function Picked(buf: seq<WriteSet>, safe: nat, limit: nat): (r: seq<WriteSet>)
    ensures |r| <= limit
  {
    if buf == [] then []
    else
      var p := Picked(Init(buf), safe, limit);
      if Last(buf).seqno <= safe && |p| < limit then p + [Last(buf)] else p
  }

  /** What stays in the buffer, in buffer order. */
  function Left(buf: seq<WriteSet>, safe: nat, limit: nat): seq<WriteSet> {
    if buf == [] then []
    else
      var rest := Left(Init(buf), safe, limit);
      if Last(buf).seqno <= safe && |Picked(Init(buf), safe, limit)| < limit then rest
      else rest + [Last(buf)]
  }

  lemma {:induction false} SelectionConserves(buf: seq<WriteSet>, safe: nat, limit: nat)
    ensures multiset(Picked(buf, safe, limit)) + multiset(Left(buf, safe, limit)) == multiset(buf)
    ensures forall x :: x in Picked(buf, safe, limit) ==> x.seqno <= safe
    ensures |Picked(buf, safe, limit)| < limit ==>
              forall x :: x in Left(buf, safe, limit) ==> safe < x.seqno
  {
    if buf != [] {
      SelectionConserves(Init(buf), safe, limit);
      MultisetUnsnoc(buf);
    }
  }

  /** The places of the safe write-sets in the buffer. */
  ghost function SafeAt(buf: seq<WriteSet>, safe: nat): set<nat> {
    set i: nat | i < |buf| && buf[i].seqno <= safe
  }

  /** As many are picked as are safe, up to the limit. */
  lemma {:induction false} PickedCount(buf: seq<WriteSet>, safe: nat, limit: nat)
    ensures |Picked(buf, safe, limit)| == Min(limit, |SafeAt(buf, safe)|)
  {
    if buf != [] {
      PickedCount(Init(buf), safe, limit);
      var most, n := SafeAt(Init(buf), safe), |buf| - 1;
      assert forall i: nat :: i < n ==> Init(buf)[i] == buf[i];
      assert SafeAt(buf, safe) == if Last(buf).seqno <= safe then most + {n} else most;
    } else {
      assert SafeAt(buf, safe) == {};
    }
  }

  /** The elements of a in the order they have in b. */
  predicate Subsequence(a: seq<WriteSet>, b: seq<WriteSet>) {
    a == [] ||
    (b != [] && ((Last(a) == Last(b) && Subsequence(Init(a), Init(b))) || Subsequence(a, Init(b))))
  }

  lemma SubsequenceStep(a: seq<WriteSet>, b: seq<WriteSet>, x: WriteSet)
    requires Subsequence(a, b)
    ensures Subsequence(a + [x], b + [x]) && Subsequence(a, b + [x])
  {
    assert Init(a + [x]) == a && Init(b + [x]) == b;
  }

  /** The selection one write-set further on. */
  lemma SelectionSnoc(buf: seq<WriteSet>, safe: nat, limit: nat, x: WriteSet)
    ensures var p, rest := Picked(buf, safe, limit), Left(buf, safe, limit);
            if x.seqno <= safe && |p| < limit
            then Picked(buf + [x], safe, limit) == p + [x] && Left(buf + [x], safe, limit) == rest
            else Picked(buf + [x], safe, limit) == p && Left(buf + [x], safe, limit) == rest + [x]
  {
    assert Init(buf + [x]) == buf;
  }

  lemma SelectionNone(safe: nat, limit: nat)
    ensures Picked([], safe, limit) == [] && Left([], safe, limit) == [] && Subsequence([], [])
  {
  }

  /** Both halves of the selection keep the order of the buffer. */
  lemma {:induction false} SelectionKeepsOrder(buf: seq<WriteSet>, safe: nat, limit: nat)
    ensures Subsequence(Picked(buf, safe, limit), buf) && Subsequence(Left(buf, safe, limit), buf)
  {
    hide Subsequence, Picked, Left;
    SelectionNone(safe, limit);
    if buf != [] {
      var most, x := Init(buf), Last(buf);
      SelectionKeepsOrder(most, safe, limit);
      SelectionSnoc(most, safe, limit, x);
      SubsequenceStep(Picked(most, safe, limit), most, x);
      SubsequenceStep(Left(most, safe, limit), most, x);
      assert buf == most + [x];
    }
  }

  /** The cap takes the safe write-sets that were pushed first. */
  lemma {:induction false} CapTakesFirstPushed(buf: seq<WriteSet>, safe: nat, limit: nat)
    ensures |Picked(buf, safe, limit)| == Min(limit, |Picked(buf, safe, |buf|)|)
    ensures Picked(buf, safe, limit) <= Picked(buf, safe, |buf|)
  {
    if buf != [] {
      CapTakesFirstPushed(Init(buf), safe, limit);
      CapTakesFirstPushed(Init(buf), safe, |buf|);
    }
  }

  /** When no more than `limit` write-sets are safe, selection splits the buffer by safety. */
  lemma {:induction false} UncappedSelection(buf: seq<WriteSet>, safe: nat, limit: nat)
    requires |Picked(buf, safe, |buf|)| <= limit
    ensures Picked(buf, safe, limit) == Picked(buf, safe, |buf|)
    ensures forall x :: x in Left(buf, safe, limit) ==> safe < x.seqno
  {
    if buf != [] {
      PickedSaturates(Init(buf), safe, |Init(buf)|, |buf|);
      UncappedSelection(Init(buf), safe, limit);
    }
  }

  lemma {:induction false} PickedSaturates(buf: seq<WriteSet>, safe: nat, a: nat, b: nat)
    requires |buf| <= a && |buf| <= b
    ensures Picked(buf, safe, a) == Picked(buf, safe, b)
    ensures |Picked(buf, safe, a)| <= |buf|
  {
    if buf != [] {
      PickedSaturates(Init(buf), safe, a, b);
    }
  }

  // ---- sorting ----

  predicate SortedBySeq(s: seq<WriteSet>) {
    forall i, j :: 0 <= i < j < |s| ==> s[i].seqno <= s[j].seqno
  }

  predicate StrictlySorted(s: seq<WriteSet>) {
    forall i, j :: 0 <= i < j < |s| ==> s[i].seqno < s[j].seqno
  }

  /** Insert x before the trailing elements with a larger sequence number. */
  function InsertBySeq(s: seq<WriteSet>, x: WriteSet): seq<WriteSet> {
    if s != [] && Last(s).seqno > x.seqno then InsertBySeq(Init(s), x) + [Last(s)] else s + [x]
  }

  function SortBySeq(s: seq<WriteSet>): seq<WriteSet> {
    if s == [] then [] else InsertBySeq(SortBySeq(Init(s)), Last(s))
  }

  lemma {:induction false} InsertKeepsSorted(s: seq<WriteSet>, x: WriteSet)
    requires SortedBySeq(s)
    ensures SortedBySeq(InsertBySeq(s, x))
    ensures multiset(InsertBySeq(s, x)) == multiset(s) + multiset{x}
  {
    if s != [] && Last(s).seqno > x.seqno {
      InsertKeepsSorted(Init(s), x);
      MultisetUnsnoc(s);
      var t := InsertBySeq(Init(s), x);
      forall i | 0 <= i < |t|
        ensures t[i].seqno <= Last(s).seqno
      {
        Among(t, Init(s), x, i);
      }
    }
  }

  lemma Among(t: seq<WriteSet>, s: seq<WriteSet>, x: WriteSet, i: nat)
    requires multiset(t) == multiset(s) + multiset{x} && i < |t|
    ensures t[i] == x || t[i] in s
  {
    assert t[i] in multiset(t);
    assert t[i] in multiset(s) + multiset{x};
  }

  /** The sort yields a permutation ordered by sequence number. */
  lemma {:induction false} SortIsSortedPermutation(s: seq<WriteSet>)
    ensures SortedBySeq(SortBySeq(s))
    ensures multiset(SortBySeq(s)) == multiset(s)
    ensures |SortBySeq(s)| == |s|
  {
    if s != [] {
      SortIsSortedPermutation(Init(s));
      InsertKeepsSorted(SortBySeq(Init(s)), Last(s));
      MultisetUnsnoc(s);
    }
    assert |multiset(SortBySeq(s))| == |multiset(s)|;
  }

  /** The write-sets with a given number, in the order they have in s. */
  function WithNumber(s: seq<WriteSet>, n: nat): seq<WriteSet> {
    if s == [] then []
    else WithNumber(Init(s), n) + if Last(s).seqno == n then [Last(s)] else []
  }

  lemma {:induction false} InsertIsStable(s: seq<WriteSet>, x: WriteSet, n: nat)
    ensures WithNumber(InsertBySeq(s, x), n) == WithNumber(s, n) + if x.seqno == n then [x] else []
  {
    assert Init(s + [x]) == s;
    if s != [] && Last(s).seqno > x.seqno {
      InsertIsStable(Init(s), x, n);
      assert Init(InsertBySeq(s, x)) == InsertBySeq(Init(s), x);
    }
  }

  /** The sort is stable: equal numbers keep their order. */
  lemma {:induction false} SortIsStable(s: seq<WriteSet>, n: nat)
    ensures WithNumber(SortBySeq(s), n) == WithNumber(s, n)
  {
    if s != [] {
      SortIsStable(Init(s), n);
      InsertIsStable(SortBySeq(Init(s)), Last(s), n);
    }
  }

  // ---- deduplication ----

  /** Some operation after position (i, j) is on the key of the operation there. */
  ghost predicate Overtaken(sets: seq<WriteSet>, i: nat, j: nat)
    requires i < |sets| && j < |sets[i].ops|
  {
    var op := sets[i].ops[j];
    op != Nulled &&
    ((exists jj :: j < jj < |sets[i].ops| && Touches(sets[i].ops[jj], op.key)) ||
     (exists ii, jj :: i < ii < |sets| && 0 <= jj < |sets[ii].ops| && Touches(sets[ii].ops[jj], op.key)))
  }

  ghost function DedupedOp(sets: seq<WriteSet>, i: nat, j: nat): Op
    requires i < |sets| && j < |sets[i].ops|
  {
    if Overtaken(sets, i, j) then Nulled else sets[i].ops[j]
  }

  ghost function DedupedSet(sets: seq<WriteSet>, i: nat): (r: WriteSet)
    requires i < |sets|
    ensures r.seqno == sets[i].seqno && |r.ops| == |sets[i].ops|
    ensures forall j :: 0 <= j < |r.ops| ==> r.ops[j] == DedupedOp(sets, i, j)
  {
    WriteSet(sets[i].seqno,
             seq(|sets[i].ops|, j requires 0 <= j < |sets[i].ops| => DedupedOp(sets, i, j)))
  }

  /** The batch after deduplication: same shape, overtaken operations nulled. */
  ghost function Dedupe(sets: seq<WriteSet>): (r: seq<WriteSet>)
    ensures |r| == |sets|
    ensures forall i :: 0 <= i < |r| ==> r[i] == DedupedSet(sets, i)
  {
    seq(|sets|, i requires 0 <= i < |sets| => DedupedSet(sets, i))
  }

  /** (i, j) is the last operation on k in the batch. */
  ghost predicate IsLastOn(sets: seq<WriteSet>, i: nat, j: nat, k: Key) {
    i < |sets| && j < |sets[i].ops| && Touches(sets[i].ops[j], k) &&
    (forall jj :: j < jj < |sets[i].ops| ==> !Touches(sets[i].ops[jj], k)) &&
    (forall ii, jj :: i < ii < |sets| && 0 <= jj < |sets[ii].ops| ==> !Touches(sets[ii].ops[jj], k))
  }

  ghost predicate Untouched(sets: seq<WriteSet>, k: Key) {
    forall i, j :: 0 <= i < |sets| && 0 <= j < |sets[i].ops| ==> !Touches(sets[i].ops[j], k)
  }

  lemma {:induction false} LastOnOps(ops: seq<Op>, s: nat, k: Key)
    ensures LastOn(Writes(ops, s), k).None? ==> forall j :: 0 <= j < |ops| ==> !Touches(ops[j], k)
    ensures LastOn(Writes(ops, s), k).Some? ==>
              exists j :: 0 <= j < |ops| && Touches(ops[j], k) &&
                (forall jj :: j < jj < |ops| ==> !Touches(ops[jj], k)) &&
                LastOn(Writes(ops, s), k) == Some(Write(ops[j], s))
  {
    var ws := Writes(ops, s);
    if ops != [] {
      assert Init(ws) == Writes(Init(ops), s);
      if Touches(Last(ops), k) {
        assert Last(ws) == Write(ops[|ops| - 1], s);
      } else {
        LastOnOps(Init(ops), s, k);
        if LastOn(ws, k).Some? {
          var j :| 0 <= j < |Init(ops)| && Touches(Init(ops)[j], k) &&
            (forall jj :: j < jj < |Init(ops)| ==> !Touches(Init(ops)[jj], k)) &&
            LastOn(Init(ws), k) == Some(Write(Init(ops)[j], s));
          forall jj | j < jj < |ops|
            ensures !Touches(ops[jj], k)
          {
            if jj < |ops| - 1 {
              assert ops[jj] == Init(ops)[jj];
            }
          }
          assert ops[j] == Init(ops)[j];
        } else {
          forall j | 0 <= j < |ops|
            ensures !Touches(ops[j], k)
          {
            if j < |ops| - 1 {
              assert ops[j] == Init(ops)[j];
            }
          }
        }
      }
    }
  }

  /** The last write on k sits at the last position that touches k, if there is one. */
  lemma {:induction false} LastOnSets(sets: seq<WriteSet>, k: Key)
    ensures LastOn(Flatten(sets), k).None? ==> Untouched(sets, k)
    ensures LastOn(Flatten(sets), k).Some? ==>
              exists i: nat, j: nat :: IsLastOn(sets, i, j, k) &&
                LastOn(Flatten(sets), k) == Some(Write(sets[i].ops[j], sets[i].seqno))
  {
    if sets != [] {
      var last := Last(sets);
      LastOnAppend(Flatten(Init(sets)), Writes(last.ops, last.seqno), k);
      LastOnOps(last.ops, last.seqno, k);
      if LastOn(Writes(last.ops, last.seqno), k).Some? {
        var j :| 0 <= j < |last.ops| && Touches(last.ops[j], k) &&
          (forall jj :: j < jj < |last.ops| ==> !Touches(last.ops[jj], k)) &&
          LastOn(Writes(last.ops, last.seqno), k) == Some(Write(last.ops[j], last.seqno));
        assert IsLastOn(sets, |sets| - 1, j, k);
      } else {
        LastOnSets(Init(sets), k);
        if LastOn(Flatten(Init(sets)), k).Some? {
          var i: nat, j: nat :| IsLastOn(Init(sets), i, j, k) &&
            LastOn(Flatten(Init(sets)), k) == Some(Write(Init(sets)[i].ops[j], Init(sets)[i].seqno));
          assert Init(sets)[i] == sets[i];
          forall ii, jj | i < ii < |sets| && 0 <= jj < |sets[ii].ops|
            ensures !Touches(sets[ii].ops[jj], k)
          {
            if ii < |sets| - 1 {
              assert sets[ii] == Init(sets)[ii];
            }
          }
          assert IsLastOn(sets, i, j, k);
        } else {
          forall i, j | 0 <= i < |sets| && 0 <= j < |sets[i].ops|
            ensures !Touches(sets[i].ops[j], k)
          {
            if i < |sets| - 1 {
              assert sets[i] == Init(sets)[i];
            }
          }
        }
      }
    }
  }

  lemma LastPositionUnique(sets: seq<WriteSet>, i: nat, j: nat, i2: nat, j2: nat, k: Key)
    requires IsLastOn(sets, i, j, k) && IsLastOn(sets, i2, j2, k)
    ensures i == i2 && j == j2
  {
  }

  /** The operations that survive are exactly the last ones on their keys. */
  lemma SurvivorsAreLast(sets: seq<WriteSet>, i: nat, j: nat)
    requires i < |sets| && j < |sets[i].ops| && sets[i].ops[j] != Nulled
    ensures Dedupe(sets)[i].ops[j] != Nulled <==> IsLastOn(sets, i, j, sets[i].ops[j].key)
  {
    assert Dedupe(sets)[i] == DedupedSet(sets, i);
    assert Dedupe(sets)[i].ops[j] == DedupedOp(sets, i, j);
  }

  lemma DedupeKeepsLast(sets: seq<WriteSet>, k: Key)
    ensures LastOn(Flatten(Dedupe(sets)), k) == LastOn(Flatten(sets), k)
  {
    var d := Dedupe(sets);
    forall i, j | 0 <= i < |sets| && 0 <= j < |sets[i].ops|
      ensures d[i].ops[j] == DedupedOp(sets, i, j)
    {
      assert d[i] == DedupedSet(sets, i);
    }
    LastOnSets(sets, k);
    LastOnSets(d, k);
    if LastOn(Flatten(sets), k).Some? {
      var i: nat, j: nat :| IsLastOn(sets, i, j, k) &&
        LastOn(Flatten(sets), k) == Some(Write(sets[i].ops[j], sets[i].seqno));
      SurvivorsAreLast(sets, i, j);
      assert d[i].ops[j] == sets[i].ops[j];
      assert d[i].seqno == sets[i].seqno;
      assert IsLastOn(d, i, j, k) by {
        forall ii, jj | 0 <= ii < |d| && 0 <= jj < |d[ii].ops| && Touches(d[ii].ops[jj], k)
          ensures Touches(sets[ii].ops[jj], k)
        {
          assert d[ii].ops[jj] == DedupedOp(sets, ii, jj);
        }
      }
      assert LastOn(Flatten(d), k).Some?;
      var i2: nat, j2: nat :| IsLastOn(d, i2, j2, k) &&
        LastOn(Flatten(d), k) == Some(Write(d[i2].ops[j2], d[i2].seqno));
      LastPositionUnique(d, i, j, i2, j2, k);
    }
  }

  /** Applying the deduplicated batch to any store does what applying the whole batch does. */
  lemma DedupePreservesMeaning(st: Store, sets: seq<WriteSet>)
    ensures Run(st, Flatten(Dedupe(sets))) == Run(st, Flatten(sets))
  {
    forall k
      ensures Cell(Run(st, Flatten(Dedupe(sets))), k) == Cell(Run(st, Flatten(sets)), k)
    {
      RunAt(st, Flatten(Dedupe(sets)), k);
      RunAt(st, Flatten(sets), k);
      DedupeKeepsLast(sets, k);
    }
    StoresEqual(Run(st, Flatten(Dedupe(sets))), Run(st, Flatten(sets)));
  }

  // ---- batch headers ----

  /** The largest sequence number in the headers of a batch, 0 when it is empty. */
  function MaxSeq(sets: seq<WriteSet>): nat {
    if sets == [] then 0 else Max(MaxSeq(Init(sets)), Last(sets).seqno)
  }

  lemma {:induction false} MaxSeqIsMax(sets: seq<WriteSet>)
    ensures forall x :: x in sets ==> x.seqno <= MaxSeq(sets)
    ensures if sets == [] then MaxSeq(sets) == 0 else exists x :: x in sets && x.seqno == MaxSeq(sets)
  {
    if sets != [] {
      MaxSeqIsMax(Init(sets));
      assert Last(sets) in sets && forall x :: x in Init(sets) ==> x in sets;
      assert forall x :: x in sets ==> x in Init(sets) || x == Last(sets);
    }
  }

  lemma {:induction false} MaxSeqSameHeaders(a: seq<WriteSet>, b: seq<WriteSet>)
    requires |a| == |b|
    requires forall i :: 0 <= i < |a| ==> a[i].seqno == b[i].seqno
    ensures MaxSeq(a) == MaxSeq(b)
  {
    if a != [] {
      MaxSeqSameHeaders(Init(a), Init(b));
    }
  }

  lemma {:induction false} MaxSeqOfSorted(sets: seq<WriteSet>)
    requires SortedBySeq(sets) && sets != []
    ensures MaxSeq(sets) == Last(sets).seqno
  {
    if |sets| > 1 {
      MaxSeqOfSorted(Init(sets));
    }
  }

  // ---- uniqueness of sorted batches ----

  /** Two strictly sorted lists with the same members are the same list. */
  lemma {:induction false} StrictlySortedUnique(a: seq<WriteSet>, b: seq<WriteSet>)
    requires StrictlySorted(a) && StrictlySorted(b)
    requires forall x :: x in a <==> x in b
    ensures a == b
  {
    if b != [] {
      MemberOfOther(b, a);
    }
    if a != [] {
      MemberOfOther(a, b);
      assert Last(b) in a;
      var i :| 0 <= i < |b| && b[i] == Last(a);
      var j :| 0 <= j < |a| && a[j] == Last(b);
      assert Last(a) == Last(b);
      forall x
        ensures x in Init(a) <==> x in Init(b)
      {
        StrictInit(a, x);
        StrictInit(b, x);
      }
      StrictlySortedUnique(Init(a), Init(b));
      assert a == Init(a) + [Last(a)];
      assert b == Init(b) + [Last(b)];
    }
  }

  lemma MemberOfOther(a: seq<WriteSet>, b: seq<WriteSet>)
    requires a != [] && forall x :: x in a ==> x in b
    ensures b != [] && Last(a) in b
  {
    assert Last(a) in a;
  }

  lemma StrictInit(a: seq<WriteSet>, x: WriteSet)
    requires StrictlySorted(a) && a != []
    ensures x in Init(a) <==> x in a && x != Last(a)
  {
    assert a == Init(a) + [Last(a)];
    if x in Init(a) {
      var i :| 0 <= i < |Init(a)| && Init(a)[i] == x;
      assert a[i].seqno < a[|a| - 1].seqno;
    }
  }
}
