/**
 The bytes of a batch as a grammar, and what each sentence means: the follower's parser accepts
 exactly the sentences, whoever wrote them, and the serializer writes some of them.
 */
module BatchGrammar {
  import opened Machine
  import opened Wire
  import opened KvStore
  import opened Batch
  import opened BatchCodec

  // An operation on the wire: any code byte, a key, the size field, and a value for code 1 alone.
  datatype RawOp = RawOp(code: u8, key: Bytes, size: u32, value: Bytes)

  datatype RawSet = RawSet(seqno: u64, ops: seq<RawOp>)

  predicate OpOk(o: RawOp) {
    |o.key| < U32_END && if o.code == 1 then |o.value| == o.size else o.value == []
  }

  predicate OpsOk(os: seq<RawOp>) {
    forall i :: 0 <= i < |os| ==> OpOk(os[i])
  }

  predicate SetsOk(raw: seq<RawSet>) {
    forall i :: 0 <= i < |raw| ==> |raw[i].ops| < U32_END && OpsOk(raw[i].ops)
  }

  function OpBytes(o: RawOp): Bytes {
    [o.code] + (Be32(|o.key|) + (o.key + (Be32(o.size) + o.value)))
  }

  function OpsBytes(os: seq<RawOp>): Bytes {
    if os == [] then [] else OpBytes(os[0]) + OpsBytes(os[1..])
  }

  function SetBytes(s: RawSet): Bytes {
    Be64(s.seqno) + (Be32(|s.ops|) + OpsBytes(s.ops))
  }

  function SetsBytes(raw: seq<RawSet>): Bytes {
    if raw == [] then [] else SetBytes(raw[0]) + SetsBytes(raw[1..])
  }

  /** Code 1 puts, code 2 deletes, any other code does nothing; a key ends at its first zero byte. */
  function OpMeaning(o: RawOp): Op {
    if o.code == 1 then Put(CStr(o.key), o.value) else if o.code == 2 then Delete(CStr(o.key)) else Nulled
  }

  function OpsMeaning(os: seq<RawOp>): seq<Op> {
    seq(|os|, i requires 0 <= i < |os| => OpMeaning(os[i]))
  }

  function SetsMeaning(raw: seq<RawSet>): seq<WriteSet> {
    seq(|raw|, i requires 0 <= i < |raw| => WriteSet(raw[i].seqno, OpsMeaning(raw[i].ops)))
  }

  lemma {:induction false} CStrStopsAtZero(b: Bytes)
    ensures CStr(b) <= b && (|CStr(b)| < |b| ==> b[|CStr(b)|] == 0)
  {
    if b != [] && b[0] != 0 {
      CStrStopsAtZero(b[1..]);
    }
  }

  // ---------------------------------------------------------------- one operation

  /** Where the parts of an operation start. */
  lemma Parts(d: Bytes, t: u8, k: Bytes, size: u32, tail: Bytes)
    requires |k| < U32_END && d == [t] + (Be32(|k|) + (k + (Be32(size) + tail)))
    ensures |d| == 9 + |k| + |tail| && d[0] == t
    ensures FromBe32(d[1..]) == |k| && d[5..5 + |k|] == k
    ensures FromBe32(d[5 + |k|..]) == size && d[9 + |k|..] == tail
  {
    var sized := Be32(size) + tail;
    DropLeft([t], Be32(|k|) + (k + sized));
    Be32RoundTrip(|k|, k + sized);
    DropDrop(d, 1, 4);
    DropLeft(k, sized);
    DropDrop(d, 5, |k|);
    assert d[5..5 + |k|] == d[5..][..|k|];
    Be32RoundTrip(size, tail);
    DropDrop(d, 5 + |k|, 4);
  }

  lemma OpThenRest(o: RawOp, rest: Bytes)
    ensures OpBytes(o) + rest == [o.code] + (Be32(|o.key|) + (o.key + (Be32(o.size) + (o.value + rest))))
  {
    Assoc(Be32(o.size), o.value, rest);
    Assoc(o.key, Be32(o.size) + o.value, rest);
    Assoc(Be32(|o.key|), o.key + (Be32(o.size) + o.value), rest);
    Assoc([o.code], Be32(|o.key|) + (o.key + (Be32(o.size) + o.value)), rest);
  }

  lemma OpReads(o: RawOp, rest: Bytes)
    requires OpOk(o)
    ensures ReadOp(OpBytes(o) + rest) == Good(OpMeaning(o), rest)
  {
    var d, at := OpBytes(o) + rest, 9 + |o.key|;
    OpThenRest(o, rest);
    Parts(d, o.code, o.key, o.size, o.value + rest);
    DropLeft(o.value, rest);
    DropDrop(d, at, |o.value|);
    assert d[at..at + |o.value|] == d[at..][..|o.value|];
    assert [] + rest == rest;
  }

  lemma FiveParts(d: Bytes, i: nat, j: nat)
    requires 5 <= i <= j <= |d|
    ensures d == [d[0]] + (d[1..5] + (d[5..i] + (d[i..j] + d[j..])))
  {
    assert d[i..] == d[i..j] + d[j..];
    assert d[5..] == d[5..i] + d[i..];
    assert d[1..] == d[1..5] + d[5..];
    assert d == [d[0]] + d[1..];
  }

  /** The parts that a successful read found. */
  lemma ReadOpFinds(d: Bytes)
    requires ReadOp(d).Good?
    ensures |d| >= 9 && var klen: nat := FromBe32(d[1..]);
            |d| >= 9 + klen &&
            var size: nat, at := FromBe32(d[5 + klen..]), 9 + klen;
            ReadOp(d) ==
              if d[0] == 1 then
                if |d| < at + size then Bad else Good(Put(CStr(d[5..5 + klen]), d[at..at + size]), d[at + size..])
              else if d[0] == 2 then Good(Delete(CStr(d[5..5 + klen])), d[at..])
              else Good(Nulled, d[at..])
  {
    hide FromBe32, CStr;
  }

  lemma OpOf(d: Bytes) returns (o: RawOp)
    requires ReadOp(d).Good?
    ensures OpOk(o) && d == OpBytes(o) + ReadOp(d).rest && ReadOp(d).value == OpMeaning(o)
  {
    hide FromBe32, CStr, ReadOp, OpBytes;
    ReadOpFinds(d);
    var klen: nat := FromBe32(d[1..]);
    var at := 9 + klen;
    var size := FromBe32(d[5 + klen..]);
    o := RawOp(d[0], d[5..5 + klen], size, if d[0] == 1 then d[at..at + size] else []);
    Be32Onto(d[1..]);
    Be32Onto(d[5 + klen..]);
    assert d[1..][..4] == d[1..5] && d[5 + klen..][..4] == d[5 + klen..at];
    OpThenRest(o, ReadOp(d).rest);
    FiveParts(d, 5 + klen, at);
    assert d[at..] == o.value + ReadOp(d).rest;
  }

  // ---------------------------------------------------------------- lists of operations

  lemma {:induction false} OpsRead(os: seq<RawOp>, rest: Bytes)
    requires OpsOk(os)
    ensures ReadOps(OpsBytes(os) + rest, |os|) == Good(OpsMeaning(os), rest)
  {
    hide OpBytes, ReadOp, OpMeaning, OpOk;
    if os == [] {
      assert OpsBytes(os) + rest == rest;
    } else {
      Assoc(OpBytes(os[0]), OpsBytes(os[1..]), rest);
      OpReads(os[0], OpsBytes(os[1..]) + rest);
      OpsRead(os[1..], rest);
      assert [OpMeaning(os[0])] + OpsMeaning(os[1..]) == OpsMeaning(os);
    }
  }

  lemma {:induction false} OpsOf(d: Bytes, n: nat) returns (os: seq<RawOp>)
    requires ReadOps(d, n).Good?
    ensures |os| == n && OpsOk(os)
    ensures d == OpsBytes(os) + ReadOps(d, n).rest && ReadOps(d, n).value == OpsMeaning(os)
    decreases n
  {
    hide OpBytes, ReadOp, OpMeaning, OpOk;
    if n == 0 {
      os := [];
      assert OpsBytes(os) + d == d;
    } else {
      var o := OpOf(d);
      var more := OpsOf(ReadOp(d).rest, n - 1);
      os := [o] + more;
      assert os[1..] == more;
      Assoc(OpBytes(o), OpsBytes(more), ReadOps(d, n).rest);
      assert [OpMeaning(o)] + OpsMeaning(more) == OpsMeaning(os);
    }
  }

  // ---------------------------------------------------------------- lists of sets

  lemma HeaderReads(s: RawSet, rest: Bytes)
    requires |s.ops| < U32_END
    ensures var d := SetBytes(s) + rest;
            |d| >= 12 && FromBe64(d) == s.seqno && FromBe32(d[8..]) == |s.ops| && d[12..] == OpsBytes(s.ops) + rest
  {
    var d, n, body := SetBytes(s) + rest, |s.ops|, OpsBytes(s.ops) + rest;
    Assoc(Be32(n), OpsBytes(s.ops), rest);
    Assoc(Be64(s.seqno), Be32(n) + OpsBytes(s.ops), rest);
    Be64RoundTrip(s.seqno, Be32(n) + body);
    Be32RoundTrip(n, body);
    DropDrop(d, 8, 4);
  }

  lemma {:induction false} SetsRead(raw: seq<RawSet>, rest: Bytes)
    requires SetsOk(raw)
    ensures ReadSets(SetsBytes(raw) + rest, |raw|) == Good(SetsMeaning(raw), rest)
  {
    hide SetBytes, OpsBytes, ReadOps, OpsMeaning, OpsOk, FromBe32, FromBe64;
    if raw == [] {
      assert SetsBytes(raw) + rest == rest;
    } else {
      var after := SetsBytes(raw[1..]) + rest;
      Assoc(SetBytes(raw[0]), SetsBytes(raw[1..]), rest);
      HeaderReads(raw[0], after);
      OpsRead(raw[0].ops, after);
      SetsRead(raw[1..], rest);
      assert [WriteSet(raw[0].seqno, OpsMeaning(raw[0].ops))] + SetsMeaning(raw[1..]) == SetsMeaning(raw);
    }
  }

  lemma HeaderOf(d: Bytes, ops: seq<RawOp>, rest: Bytes)
    requires |d| >= 12 && FromBe32(d[8..]) == |ops| && d[12..] == OpsBytes(ops) + rest
    ensures d == SetBytes(RawSet(FromBe64(d), ops)) + rest
  {
    hide FromBe32, FromBe64, OpsBytes;
    Be64Onto(d);
    Be32Onto(d[8..]);
    assert d[8..][..4] == d[8..12];
    assert d == d[..8] + (d[8..12] + d[12..]);
    Assoc(Be32(|ops|), OpsBytes(ops), rest);
    Assoc(Be64(FromBe64(d)), Be32(|ops|) + OpsBytes(ops), rest);
  }

  lemma {:induction false} SetsOf(d: Bytes, n: nat) returns (raw: seq<RawSet>)
    requires ReadSets(d, n).Good?
    ensures |raw| == n && SetsOk(raw)
    ensures d == SetsBytes(raw) + ReadSets(d, n).rest && ReadSets(d, n).value == SetsMeaning(raw)
    decreases n
  {
    hide SetBytes, OpsBytes, ReadOps, OpsMeaning, OpsOk, FromBe32, FromBe64;
    if n == 0 {
      raw := [];
      assert SetsBytes(raw) + d == d;
    } else {
      var ops := OpsOf(d[12..], FromBe32(d[8..]));
      var after := ReadOps(d[12..], FromBe32(d[8..])).rest;
      var more := SetsOf(after, n - 1);
      var s := RawSet(FromBe64(d), ops);
      HeaderOf(d, ops, after);
      raw := [s] + more;
      assert raw[1..] == more;
      Assoc(SetBytes(s), SetsBytes(more), ReadSets(d, n).rest);
      assert [WriteSet(s.seqno, OpsMeaning(ops))] + SetsMeaning(more) == SetsMeaning(raw);
    }
  }

  // ---------------------------------------------------------------- whole batches

  /** The sentence with these sets. */
  function BatchBytes(raw: seq<RawSet>): Bytes {
    Be32(|raw|) + SetsBytes(raw)
  }

  ghost predicate IsSentence(d: Bytes, raw: seq<RawSet>, rest: Bytes) {
    |raw| < U32_END && SetsOk(raw) && d == BatchBytes(raw) + rest
  }

  /** On any bytes the parser succeeds if and only if they start with a sentence, and it then gives
      that sentence's meaning and leaves what follows. */
  lemma ParsedIff(d: Bytes, sets: seq<WriteSet>, rest: Bytes)
    ensures ParseBatch(d) == Good(sets, rest) <==>
            exists raw :: IsSentence(d, raw, rest) && sets == SetsMeaning(raw)
  {
    hide SetsMeaning, ReadSets, FromBe32, SetsOk;
    if ParseBatch(d) == Good(sets, rest) {
      var raw := SetsOf(d[4..], FromBe32(d));
      Be32Onto(d);
      assert d == d[..4] + d[4..];
      Assoc(Be32(|raw|), SetsBytes(raw), rest);
      assert IsSentence(d, raw, rest);
    }
    if raw :| IsSentence(d, raw, rest) && sets == SetsMeaning(raw) {
      Assoc(Be32(|raw|), SetsBytes(raw), rest);
      Be32RoundTrip(|raw|, SetsBytes(raw) + rest);
      SetsRead(raw, rest);
    }
  }

  // ---------------------------------------------------------------- what the serializer writes

  function RawOf(op: Op): RawOp
    requires Encodable(op) && op != Nulled
  {
    if op.Put? then RawOp(1, op.key, |op.value|, op.value) else RawOp(2, op.key, 0, [])
  }

  function RawOps(ops: seq<Op>): seq<RawOp>
    requires forall i :: 0 <= i < |ops| ==> Encodable(ops[i])
  {
    if ops == [] then []
    else RawOps(Init(ops)) + if Last(ops) == Nulled then [] else [RawOf(Last(ops))]
  }

  function RawSets(sets: seq<WriteSet>): (r: seq<RawSet>)
    requires EncodableSets(sets)
    ensures |r| == |sets|
  {
    seq(|sets|, i requires 0 <= i < |sets| => RawSet(sets[i].seqno, RawOps(sets[i].ops)))
  }

  lemma {:induction false} OpsBytesAppend(a: seq<RawOp>, b: seq<RawOp>)
    ensures OpsBytes(a + b) == OpsBytes(a) + OpsBytes(b)
  {
    hide OpBytes;
    if a == [] {
      assert a + b == b;
    } else {
      OpsBytesAppend(a[1..], b);
      assert (a + b)[1..] == a[1..] + b;
      Assoc(OpBytes(a[0]), OpsBytes(a[1..]), OpsBytes(b));
    }
  }

  lemma {:induction false} SetsBytesAppend(a: seq<RawSet>, b: seq<RawSet>)
    ensures SetsBytes(a + b) == SetsBytes(a) + SetsBytes(b)
  {
    hide SetBytes;
    if a == [] {
      assert a + b == b;
    } else {
      SetsBytesAppend(a[1..], b);
      assert (a + b)[1..] == a[1..] + b;
      Assoc(SetBytes(a[0]), SetsBytes(a[1..]), SetsBytes(b));
    }
  }

  lemma {:induction false} OpsWritten(ops: seq<Op>)
    requires forall i :: 0 <= i < |ops| ==> Encodable(ops[i])
    ensures EncOps(ops) == OpsBytes(RawOps(ops)) && |RawOps(ops)| == |Live(ops)|
  {
    hide Encodable, OpBytes, EncOp, RawOf;
    if ops != [] {
      assert Encodable(ops[|ops| - 1]);
      assert forall i :: 0 <= i < |Init(ops)| ==> Init(ops)[i] == ops[i];
      OpsWritten(Init(ops));
      OneMoreWritten(Init(ops), Last(ops));
      assert ops == Init(ops) + [Last(ops)];
    }
  }

  lemma OneMoreWritten(ops: seq<Op>, op: Op)
    requires (forall i :: 0 <= i < |ops| ==> Encodable(ops[i])) && Encodable(op)
    requires EncOps(ops) == OpsBytes(RawOps(ops))
    ensures EncOps(ops + [op]) == OpsBytes(RawOps(ops + [op]))
    ensures |RawOps(ops + [op])| - |RawOps(ops)| == |Live(ops + [op])| - |Live(ops)|
  {
    hide Encodable, OpBytes, EncOp, RawOf, OpsBytes;
    var all := ops + [op];
    assert Init(all) == ops && Last(all) == op;
    if op == Nulled {
      NulledIsEmpty();
      assert EncOps(ops) + [] == EncOps(ops) && RawOps(ops) + [] == RawOps(ops);
    } else {
      OpsBytesAppend(RawOps(ops), [RawOf(op)]);
      OpWritten(op);
      OneOp(RawOf(op));
    }
  }

  lemma NulledIsEmpty()
    ensures EncOp(Nulled) == []
  {
  }

  lemma OneOp(o: RawOp)
    ensures OpsBytes([o]) == OpBytes(o)
  {
    assert [o][1..] == [] && OpBytes(o) + [] == OpBytes(o);
  }

  lemma OpWritten(op: Op)
    requires Encodable(op) && op != Nulled
    ensures EncOp(op) == OpBytes(RawOf(op))
  {
    assert Be32(0) + [] == Be32(0);
  }

  lemma {:induction false} SetsWritten(sets: seq<WriteSet>)
    requires EncodableSets(sets)
    ensures EncSets(sets) == SetsBytes(RawSets(sets))
  {
    hide Encodable, OpsBytes, EncOps, RawOps;
    if sets != [] {
      var s := Last(sets);
      assert EncodableSets(Init(sets));
      SetsWritten(Init(sets));
      OpsWritten(s.ops);
      var o := RawSet(s.seqno, RawOps(s.ops));
      assert RawSets(sets) == RawSets(Init(sets)) + [o];
      SetsBytesAppend(RawSets(Init(sets)), [o]);
      assert [o][1..] == [] && SetBytes(o) + [] == SetBytes(o);
    }
  }

  /** A serialized batch is the sentence of its operations that are not nulled: code 1 with the value
      for a put, code 2 with size 0 for a delete. */
  lemma SerializedIsSentence(sets: seq<WriteSet>)
    requires EncodableSets(sets)
    ensures Serialize(sets) == BatchBytes(RawSets(sets))
  {
    SetsWritten(sets);
  }
}
