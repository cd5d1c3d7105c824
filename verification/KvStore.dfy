/**
 The replicated table of src/kvstore.c: a key maps to its value and to the sequence number
 of the transaction that last wrote it. A write-set is what one request changed.
 */
module KvStore {
  import opened Machine

  type Key = seq<u8>
  type Value = seq<u8>

  datatype Row = Row(value: Value, seqno: nat)

  type Store = map<Key, Row>

  // Nulled stands for an operation whose key pointer was set to NULL by the deduplication.
  datatype Op = Put(key: Key, value: Value) | Delete(key: Key) | Nulled

  datatype WriteSet = WriteSet(seqno: nat, ops: seq<Op>)

  // One operation together with the sequence number it is applied under.
  datatype Write = Write(op: Op, seqno: nat)

  predicate Touches(op: Op, k: Key) {
    op != Nulled && op.key == k
  }

  /** A C string of a length that fits the wire format: no zero byte inside. */
  predicate CString(k: Key) {
    0 !in k && |k| < U32_END
  }

  /** An operation as the write-set helpers build it. */
  predicate Clean(op: Op) {
    match op
    case Put(k, v) => CString(k) && |v| < U32_END
    case Delete(k) => CString(k)
    case Nulled => false
  }

  predicate CleanOps(ops: seq<Op>) {
    |ops| < U32_END && forall i :: 0 <= i < |ops| ==> Clean(ops[i])
  }

  predicate HasPut(ops: seq<Op>) {
    exists i :: 0 <= i < |ops| && ops[i].Put?
  }

  function Apply(st: Store, w: Write): Store {
    match w.op
    case Put(k, v) => st[k := Row(v, w.seqno)]
    case Delete(k) => st - {k}
    case Nulled => st
  }

  function Run(st: Store, ws: seq<Write>): Store {
    if ws == [] then st else Apply(Run(st, Init(ws)), Last(ws))
  }

  /** The writes of one set, in program order. */
  function Writes(ops: seq<Op>, seqno: nat): (r: seq<Write>)
    ensures |r| == |ops|
    ensures forall i :: 0 <= i < |ops| ==> r[i] == Write(ops[i], seqno)
  {
    seq(|ops|, i requires 0 <= i < |ops| => Write(ops[i], seqno))
  }

  /** All writes of a list of sets, in order. */
  function Flatten(sets: seq<WriteSet>): seq<Write> {
    if sets == [] then [] else Flatten(Init(sets)) + Writes(Last(sets).ops, Last(sets).seqno)
  }

  function Cell(st: Store, k: Key): Option<Row> {
    if k in st then Some(st[k]) else None
  }

  /** What a write leaves behind on the key it touches. */
  function Outcome(w: Write): Option<Row> {
    if w.op.Put? then Some(Row(w.op.value, w.seqno)) else None
  }

  /** The last write of the list that touches k. */
  function LastOn(ws: seq<Write>, k: Key): Option<Write> {
    if ws == [] then None
    else if Touches(Last(ws).op, k) then Some(Last(ws))
    else LastOn(Init(ws), k)
  }

  lemma {:induction false} RunAppend(st: Store, a: seq<Write>, b: seq<Write>)
    ensures Run(st, a + b) == Run(Run(st, a), b)
  {
    if b == [] {
      assert a + b == a;
    } else {
      RunAppend(st, a, Init(b));
      assert Init(a + b) == a + Init(b);
    }
  }

  lemma {:induction false} FlattenAppend(a: seq<WriteSet>, b: seq<WriteSet>)
    ensures Flatten(a + b) == Flatten(a) + Flatten(b)
  {
    if b == [] {
      assert a + b == a;
    } else {
      var most, last := Init(b), Writes(Last(b).ops, Last(b).seqno);
      assert Init(a + b) == a + most && Last(a + b) == Last(b);
      FlattenAppend(a, most);
      assert Flatten(a) + Flatten(most) + last == Flatten(a) + (Flatten(most) + last);
    }
  }

  lemma {:induction false} LastOnAppend(a: seq<Write>, b: seq<Write>, k: Key)
    ensures LastOn(a + b, k) == if LastOn(b, k).Some? then LastOn(b, k) else LastOn(a, k)
  {
    if b == [] {
      assert a + b == a;
    } else {
      LastOnAppend(a, Init(b), k);
      assert Init(a + b) == a + Init(b);
    }
  }

  /** A key's row after a run is what the last write on it left, or the row it had before. */
  lemma {:induction false} RunAt(st: Store, ws: seq<Write>, k: Key)
    ensures Cell(Run(st, ws), k) ==
            if LastOn(ws, k).Some? then Outcome(LastOn(ws, k).value) else Cell(st, k)
  {
    if ws != [] {
      RunAt(st, Init(ws), k);
    }
  }

  lemma StoresEqual(a: Store, b: Store)
    requires forall k :: Cell(a, k) == Cell(b, k)
    ensures a == b
  {
    forall k
      ensures k in a <==> k in b
      ensures k in a ==> a[k] == b[k]
    {
      assert Cell(a, k) == Cell(b, k);
    }
  }

  lemma {:induction false} LastOnIsMember(ws: seq<Write>, k: Key)
    requires LastOn(ws, k).Some?
    ensures Touches(LastOn(ws, k).value.op, k)
    ensures LastOn(ws, k).value in ws
  {
    if !Touches(Last(ws).op, k) {
      LastOnIsMember(Init(ws), k);
    }
  }

  /** The last write on a key decides it: a put leaves its value and number, a delete no row. */
  lemma {:induction false} LastWriteDecides(st: Store, a: seq<Write>, w: Write, b: seq<Write>, k: Key)
    requires w.op != Nulled && w.op.key == k
    requires forall i :: 0 <= i < |b| && b[i].op != Nulled ==> b[i].op.key != k
    ensures var r := Run(st, a + [w] + b);
            if w.op.Put? then k in r && r[k].value == w.op.value && r[k].seqno == w.seqno else k !in r
  {
    if b == [] {
      assert a + [w] + b == a + [w] && Init(a + [w]) == a;
    } else {
      assert Init(a + [w] + b) == a + [w] + Init(b);
      assert b[|b| - 1] == Last(b);
      LastWriteDecides(st, a, w, Init(b), k);
    }
  }

  /** A key that no write is on keeps its row, or stays without one. */
  lemma {:induction false} UntouchedKeyStays(st: Store, ws: seq<Write>, k: Key)
    requires forall i :: 0 <= i < |ws| && ws[i].op != Nulled ==> ws[i].op.key != k
    ensures var r := Run(st, ws); (k in r <==> k in st) && (k in st ==> r[k] == st[k])
  {
    if ws != [] {
      assert ws[|ws| - 1] == Last(ws);
      assert forall i :: 0 <= i < |Init(ws)| ==> Init(ws)[i] == ws[i];
      UntouchedKeyStays(st, Init(ws), k);
    }
  }
}
