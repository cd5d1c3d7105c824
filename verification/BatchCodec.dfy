/**
 The blob a batch travels in: [count] then per write-set [seq][op count] and per operation
 [type][key length][key][value length][value], all integers in network order.
 */
module BatchCodec {
  import opened Machine
  import opened Wire
  import opened KvStore
  import opened Batch

  const PUT: u8 := 1
  const DELETE: u8 := 2

  // ---- encoding ----

  /** An operation whose lengths fit the wire format; a nulled one takes no bytes. */
  predicate Encodable(op: Op) {
    match op
    case Put(k, v) => CString(k) && |v| < U32_END
    case Delete(k) => CString(k)
    case Nulled => true
  }

  predicate EncodableOps(ops: seq<Op>) {
    |ops| < U32_END && forall i :: 0 <= i < |ops| ==> Encodable(ops[i])
  }

  predicate EncodableSets(sets: seq<WriteSet>) {
    |sets| < U32_END && forall i :: 0 <= i < |sets| ==> EncodableOps(sets[i].ops) && sets[i].seqno < U64_END
  }

  function EncOp(op: Op): Bytes
  {
    match op
    case Put(k, v) => [PUT] + (Be32(|k|) + (k + (Be32(|v|) + v)))
    case Delete(k) => [DELETE] + (Be32(|k|) + (k + Be32(0)))
    case Nulled => []
  }

  function EncOps(ops: seq<Op>): Bytes
  {
    if ops == [] then [] else EncOps(Init(ops)) + EncOp(Last(ops))
  }

  function Live(ops: seq<Op>): (r: seq<Op>)
    ensures |r| <= |ops|
  {
    if ops == [] then []
    else if Last(ops) == Nulled then Live(Init(ops))
    else Live(Init(ops)) + [Last(ops)]
  }

  function EncSet(ws: WriteSet): Bytes
  {
    Be64(ws.seqno) + (Be32(|Live(ws.ops)|) + EncOps(ws.ops))
  }

  function EncSets(sets: seq<WriteSet>): Bytes
  {
    if sets == [] then [] else EncSets(Init(sets)) + EncSet(Last(sets))
  }

  function Serialize(sets: seq<WriteSet>): Bytes
  {
    Be32(|sets|) + EncSets(sets)
  }

  function LiveSets(sets: seq<WriteSet>): (r: seq<WriteSet>)
    ensures |r| == |sets|
  {
    if sets == [] then [] else LiveSets(Init(sets)) + [Last(sets).(ops := Live(Last(sets).ops))]
  }

  // ---- decoding, as the follower does it ----

  datatype Read<+T> = Bad | Good(value: T, rest: Bytes)

  /** What a malloc'd copy of the bytes is as a C string. */
  function CStr(b: Bytes): (r: Key)
    ensures 0 !in r && |r| <= |b|
  {
    if b == [] || b[0] == 0 then [] else [b[0]] + CStr(b[1..])
  }

  lemma {:induction false} CStrIdentity(b: Bytes)
    requires 0 !in b
    ensures CStr(b) == b
  {
    if b != [] {
      assert b[0] in b;
      assert forall x :: x in b[1..] ==> x in b;
      CStrIdentity(b[1..]);
    }
  }

  function ReadOp(d: Bytes): Read<Op> {
    if |d| < 1 then Bad
    else if |d| < 5 then Bad
    else
      var klen := FromBe32(d[1..]);
      if |d| < 5 + klen + 4 then Bad
      else
        var key := CStr(d[5..5 + klen]);
        var vlen := FromBe32(d[5 + klen..]);
        var at := 5 + klen + 4;
        if d[0] == PUT then
          if |d| < at + vlen then Bad else Good(Put(key, d[at..at + vlen]), d[at + vlen..])
        else if d[0] == DELETE then Good(Delete(key), d[at..])
        else Good(Nulled, d[at..])
  }

  function ReadOps(d: Bytes, n: nat): Read<seq<Op>>
    decreases n
  {
    if n == 0 then Good([], d)
    else
      match ReadOp(d)
      case Bad => Bad
      case Good(op, rest) =>
        match ReadOps(rest, n - 1)
        case Bad => Bad
        case Good(ops, after) => Good([op] + ops, after)
  }

  function ReadSets(d: Bytes, n: nat): Read<seq<WriteSet>>
    decreases n
  {
    if n == 0 then Good([], d)
    else if |d| < 12 then Bad
    else
      match ReadOps(d[12..], FromBe32(d[8..]))
      case Bad => Bad
      case Good(ops, rest) =>
        match ReadSets(rest, n - 1)
        case Bad => Bad
        case Good(sets, after) => Good([WriteSet(FromBe64(d), ops)] + sets, after)
  }

  function ParseBatch(d: Bytes): Read<seq<WriteSet>> {
    if |d| < 4 then Bad else ReadSets(d[4..], FromBe32(d))
  }

  // ---- round trip ----

  lemma OpLayout(op: Op, rest: Bytes)
    requires op != Nulled
    ensures var v := if op.Put? then op.value else [];
            EncOp(op) + rest == [if op.Put? then PUT else DELETE]
                                + (Be32(|op.key|) + (op.key + (Be32(|v|) + (v + rest))))
  {
    var v := if op.Put? then op.value else [];
    var k, t := op.key, [if op.Put? then PUT else DELETE];
    assert Be32(|v|) + v == if op.Put? then Be32(|v|) + v else Be32(0);
    Assoc(Be32(|v|), v, rest);
    Assoc(k, Be32(|v|) + v, rest);
    Assoc(Be32(|k|), k + (Be32(|v|) + v), rest);
    Assoc(t, Be32(|k|) + (k + (Be32(|v|) + v)), rest);
  }

  /** Where the parts of an operation start. */
  lemma OpParts(d: Bytes, t: u8, k: Bytes, v: Bytes, rest: Bytes)
    requires d == [t] + (Be32(|k|) + (k + (Be32(|v|) + (v + rest))))
    requires |k| < U32_END && |v| < U32_END
    ensures |d| == 9 + |k| + |v| + |rest| && d[0] == t
    ensures FromBe32(d[1..]) == |k| && d[5..5 + |k|] == k
    ensures FromBe32(d[5 + |k|..]) == |v| && d[9 + |k|..] == v + rest
  {
    var tail := Be32(|v|) + (v + rest);
    DropLeft([t], Be32(|k|) + (k + tail));
    Be32RoundTrip(|k|, k + tail);
    DropDrop(d, 1, 4);
    DropLeft(k, tail);
    DropDrop(d, 5, |k|);
    assert d[5..5 + |k|] == d[5..][..|k|];
    Be32RoundTrip(|v|, v + rest);
    DropDrop(d, 5 + |k|, 4);
  }

  lemma ReadOpInverts(op: Op, rest: Bytes)
    requires Encodable(op) && op != Nulled
    ensures ReadOp(EncOp(op) + rest) == Good(op, rest)
  {
    var k, v := op.key, if op.Put? then op.value else [];
    OpLayout(op, rest);
    OpParts(EncOp(op) + rest, if op.Put? then PUT else DELETE, k, v, rest);
    CStrIdentity(k);
    DropLeft(v, rest);
    var d, at := EncOp(op) + rest, 9 + |k|;
    DropDrop(d, at, |v|);
    assert d[at..at + |v|] == d[at..][..|v|];
    assert [] + rest == rest;
  }

  lemma {:induction false} LiveAppend(a: seq<Op>, b: seq<Op>)
    ensures Live(a + b) == Live(a) + Live(b)
  {
    if b == [] {
      assert a + b == a;
    } else {
      assert Init(a + b) == a + Init(b) && Last(a + b) == Last(b);
      LiveAppend(a, Init(b));
    }
  }

  lemma {:induction false} EncOpsAppend(a: seq<Op>, b: seq<Op>)
    ensures EncOps(a + b) == EncOps(a) + EncOps(b)
  {
    if b == [] {
      assert a + b == a;
    } else {
      var most := Init(b);
      assert Init(a + b) == a + most && Last(a + b) == Last(b);
      EncOpsAppend(a, most);
      Assoc(EncOps(a), EncOps(most), EncOp(Last(b)));
    }
  }

  lemma EncOpsOne(op: Op)
    ensures EncOps([op]) == EncOp(op)
    ensures Live([op]) == if op == Nulled then [] else [op]
  {
    assert Init([op]) == [];
    assert EncOps([]) + EncOp(op) == EncOp(op);
  }

  lemma EncOpsHead(ops: seq<Op>)
    requires ops != []
    ensures EncOps(ops) == EncOps([ops[0]]) + EncOps(ops[1..])
    ensures Live(ops) == Live([ops[0]]) + Live(ops[1..])
  {
    var head, tail := [ops[0]], ops[1..];
    assert ops == head + tail;
    EncOpsAppend(head, tail);
    LiveAppend(head, tail);
  }

  lemma ReadOpsStep(d: Bytes, op: Op, rest: Bytes, n: nat)
    requires ReadOp(d) == Good(op, rest) && ReadOps(rest, n).Good?
    ensures ReadOps(d, n + 1) == Good([op] + ReadOps(rest, n).value, ReadOps(rest, n).rest)
  {
  }

  lemma NulledTakesNothing(ops: seq<Op>, rest: Bytes)
    requires ops != [] && ops[0] == Nulled
    ensures EncOps(ops) + rest == EncOps(ops[1..]) + rest
    ensures Live(ops) == Live(ops[1..])
  {
    EncOpsHead(ops);
    EncOpsOne(Nulled);
    assert [] + EncOps(ops[1..]) == EncOps(ops[1..]);
    assert [] + Live(ops[1..]) == Live(ops[1..]);
  }

  lemma LiveComesFirst(ops: seq<Op>, rest: Bytes)
    requires ops != [] && ops[0] != Nulled
    ensures EncOps(ops) + rest == EncOp(ops[0]) + (EncOps(ops[1..]) + rest)
    ensures Live(ops) == [ops[0]] + Live(ops[1..])
  {
    EncOpsHead(ops);
    EncOpsOne(ops[0]);
    Assoc(EncOps([ops[0]]), EncOps(ops[1..]), rest);
  }

  lemma TailEncodable(ops: seq<Op>)
    requires EncodableOps(ops) && ops != []
    ensures Encodable(ops[0]) && EncodableOps(ops[1..])
  {
  }

  lemma ReadOneMore(ops: seq<Op>, rest: Bytes)
    requires ops != [] && ops[0] != Nulled && Encodable(ops[0])
    requires ReadOps(EncOps(ops[1..]) + rest, |Live(ops[1..])|) == Good(Live(ops[1..]), rest)
    ensures ReadOps(EncOps(ops) + rest, |Live(ops)|) == Good(Live(ops), rest)
  {
    hide EncOp, ReadOp;
    var after, n := EncOps(ops[1..]) + rest, |Live(ops[1..])|;
    LiveComesFirst(ops, rest);
    ReadOpInverts(ops[0], after);
    ReadOpsStep(EncOps(ops) + rest, ops[0], after, n);
  }

  lemma {:induction false} ReadOpsInverts(ops: seq<Op>, rest: Bytes)
    requires EncodableOps(ops)
    ensures ReadOps(EncOps(ops) + rest, |Live(ops)|) == Good(Live(ops), rest)
  {
    hide EncOp, ReadOp;
    if ops == [] {
      assert EncOps(ops) + rest == rest;
    } else {
      TailEncodable(ops);
      ReadOpsInverts(ops[1..], rest);
      if ops[0] == Nulled {
        NulledTakesNothing(ops, rest);
      } else {
        ReadOneMore(ops, rest);
      }
    }
  }

  lemma {:induction false} EncSetsAppend(a: seq<WriteSet>, b: seq<WriteSet>)
    ensures EncSets(a + b) == EncSets(a) + EncSets(b)
  {
    if b == [] {
      assert a + b == a;
    } else {
      var most := Init(b);
      assert Init(a + b) == a + most && Last(a + b) == Last(b);
      EncSetsAppend(a, most);
      Assoc(EncSets(a), EncSets(most), EncSet(Last(b)));
    }
  }

  lemma EncSetsHead(sets: seq<WriteSet>)
    requires sets != []
    ensures EncSets(sets) == EncSet(sets[0]) + EncSets(sets[1..])
    ensures LiveSets(sets) == [sets[0].(ops := Live(sets[0].ops))] + LiveSets(sets[1..])
  {
    var head := [sets[0]];
    assert sets == head + sets[1..];
    EncSetsAppend(head, sets[1..]);
    LiveSetsAppend(head, sets[1..]);
    assert Init(head) == [];
    assert EncSets(head) == EncSet(sets[0]);
  }

  lemma {:induction false} LiveSetsAppend(a: seq<WriteSet>, b: seq<WriteSet>)
    ensures LiveSets(a + b) == LiveSets(a) + LiveSets(b)
  {
    if b == [] {
      assert a + b == a;
    } else {
      assert Init(a + b) == a + Init(b) && Last(a + b) == Last(b);
      LiveSetsAppend(a, Init(b));
    }
  }

  lemma SetHeader(ws: WriteSet, rest: Bytes)
    requires |ws.ops| < U32_END && ws.seqno < U64_END
    ensures var d := EncSet(ws) + rest;
            |d| >= 12 && FromBe64(d) == ws.seqno && FromBe32(d[8..]) == |Live(ws.ops)| &&
            d[12..] == EncOps(ws.ops) + rest
  {
    var d, n := EncSet(ws) + rest, |Live(ws.ops)|;
    var body := EncOps(ws.ops) + rest;
    Assoc(Be32(n), EncOps(ws.ops), rest);
    Assoc(Be64(ws.seqno), Be32(n) + EncOps(ws.ops), rest);
    Be64RoundTrip(ws.seqno, Be32(n) + body);
    Be32RoundTrip(n, body);
    DropDrop(d, 8, 4);
  }

  lemma {:induction false} ReadSetsInverts(sets: seq<WriteSet>, rest: Bytes)
    requires EncodableSets(sets)
    ensures ReadSets(EncSets(sets) + rest, |sets|) == Good(LiveSets(sets), rest)
  {
    hide EncSet, ReadOps;
    if sets == [] {
      assert EncSets(sets) + rest == rest;
    } else {
      var after := EncSets(sets[1..]) + rest;
      EncSetsHead(sets);
      Assoc(EncSet(sets[0]), EncSets(sets[1..]), rest);
      SetHeader(sets[0], after);
      ReadOpsInverts(sets[0].ops, after);
      ReadSetsInverts(sets[1..], rest);
    }
  }

  /** Parsing a serialized batch gives back its live operations, all of the input consumed. */
  lemma ParseInvertsSerialize(sets: seq<WriteSet>)
    requires EncodableSets(sets)
    ensures ParseBatch(Serialize(sets)) == Good(LiveSets(sets), [])
  {
    Be32RoundTrip(|sets|, EncSets(sets));
    ReadSetsInverts(sets, []);
    assert EncSets(sets) + [] == EncSets(sets);
  }

  // ---- dropping the nulled operations changes nothing ----

  lemma {:induction false} LiveRuns(st: Store, ops: seq<Op>, s: nat)
    ensures Run(st, Writes(Live(ops), s)) == Run(st, Writes(ops, s))
  {
    if ops != [] {
      LiveRuns(st, Init(ops), s);
      assert Init(Writes(ops, s)) == Writes(Init(ops), s);
      if Last(ops) != Nulled {
        assert Init(Writes(Live(ops), s)) == Writes(Live(Init(ops)), s);
      }
    }
  }

  lemma {:induction false} LiveSetsRun(st: Store, sets: seq<WriteSet>)
    ensures Run(st, Flatten(LiveSets(sets))) == Run(st, Flatten(sets))
    ensures MaxSeq(LiveSets(sets)) == MaxSeq(sets)
  {
    if sets != [] {
      var last := Last(sets);
      LiveSetsRun(st, Init(sets));
      assert Init(LiveSets(sets)) == LiveSets(Init(sets));
      var before := Run(st, Flatten(Init(sets)));
      RunAppend(st, Flatten(Init(sets)), Writes(last.ops, last.seqno));
      RunAppend(st, Flatten(LiveSets(Init(sets))), Writes(Live(last.ops), last.seqno));
      LiveRuns(before, last.ops, last.seqno);
    }
  }

  /** What a follower ends up with from a blob: its table and the largest number, or no change. */
  function Follow(st: Store, blob: Bytes): (Store, nat) {
    match ParseBatch(blob)
    case Bad => (st, 0)
    case Good(sets, _) => (Run(st, Flatten(sets)), MaxSeq(sets))
  }

  /** The leader's blob does to a follower's table what the whole batch does. */
  lemma FollowSerializedBatch(st: Store, sets: seq<WriteSet>)
    requires EncodableSets(sets) && EncodableSets(Dedupe(sets))
    ensures Follow(st, Serialize(Dedupe(sets))) == (Run(st, Flatten(sets)), MaxSeq(sets))
  {
    ParseInvertsSerialize(Dedupe(sets));
    LiveSetsRun(st, Dedupe(sets));
    DedupePreservesMeaning(st, sets);
    MaxSeqSameHeaders(Dedupe(sets), sets);
  }

  lemma DedupeEncodable(sets: seq<WriteSet>)
    requires EncodableSets(sets)
    ensures EncodableSets(Dedupe(sets))
  {
    var d := Dedupe(sets);
    forall i | 0 <= i < |d|
      ensures EncodableOps(d[i].ops) && d[i].seqno < U64_END
    {
      assert d[i] == DedupedSet(sets, i);
      assert EncodableOps(sets[i].ops);
      forall j | 0 <= j < |d[i].ops|
        ensures Encodable(d[i].ops[j])
      {
        assert d[i].ops[j] == DedupedOp(sets, i, j);
      }
    }
  }
}
