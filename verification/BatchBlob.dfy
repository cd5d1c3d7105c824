/**
 The byte-cursor code on both ends of the raft log: writing a batch as a blob, the follower's
 checked parse that applies it, and the leader's unchecked parse that only reads the headers.
 */
module BatchBlob {
  import opened Machine
  import opened Wire
  import opened KvStore
  import opened Batch
  import opened BatchCodec
  import opened BatchBuffer

  // ---- prefixes of an encoding ----

  lemma EncOpsTake(ops: seq<Op>, j: nat)
    requires j < |ops|
    ensures EncOps(ops[..j + 1]) == EncOps(ops[..j]) + EncOp(ops[j])
    ensures Live(ops[..j + 1]) == Live(ops[..j]) + if ops[j] == Nulled then [] else [ops[j]]
    ensures |EncOps(ops[..j + 1])| <= |EncOps(ops)|
  {
    hide EncOp;
    TakeMore(ops, j);
    EncOpsAppend(ops[..j + 1], ops[j + 1..]);
    assert ops == ops[..j + 1] + ops[j + 1..];
  }

  lemma EncSetsTake(sets: seq<WriteSet>, i: nat)
    requires i < |sets|
    ensures EncSets(sets[..i + 1]) == EncSets(sets[..i]) + EncSet(sets[i])
    ensures |EncSets(sets[..i + 1])| <= |EncSets(sets)|
  {
    hide EncSet;
    TakeMore(sets, i);
    EncSetsAppend(sets[..i + 1], sets[i + 1..]);
    assert sets == sets[..i + 1] + sets[i + 1..];
  }

  // ---- the size pre-pass ----

  lemma NoOps()
    ensures EncOps([]) == [] && Live([]) == []
  {
  }

  /** Bytes and live operations of one write-set, by the arithmetic of the pre-pass. */
  method MeasureOps(ops: seq<Op>) returns (size: nat, live: nat)
    ensures size == |EncOps(ops)| && live == |Live(ops)|
  {
    hide EncOp, EncOps, Live;
    NoOps();
    size, live := 0, 0;
    for j := 0 to |ops|
      invariant size == |EncOps(ops[..j])| && live == |Live(ops[..j])|
    {
      EncOpsTake(ops, j);
      EncOpSize(ops[j]);
      if ops[j].Put? {
        size, live := size + 1 + 4 + |ops[j].key| + 4 + |ops[j].value|, live + 1;
      } else if ops[j].Delete? {
        size, live := size + 1 + 4 + |ops[j].key| + 4, live + 1;
      }
    }
    assert ops[..|ops|] == ops;
  }

  lemma EncOpSize(op: Op)
    ensures |EncOp(op)| == if op.Put? then 9 + |op.key| + |op.value| else if op.Delete? then 9 + |op.key| else 0
  {
  }

  /** A size as a uint32_t holds it. */
  function Low32(v: nat): u32 {
    v % U32_END
  }

  lemma AddLow32(a: nat, b: nat)
    ensures Low32(Low32(a) + b) == Low32(a + b)
  {
    var q, r := a / U32_END, a % U32_END;
    assert a + b == q * U32_END + (r + b);
  }

  lemma Low32Iff(v: nat)
    ensures Low32(v) == v <==> v < U32_END
  {
  }

  /** The size pre-pass, in 32 bits: the size of the blob if and only if that is below 4 GiB. */
  method Measure(sets: array<WriteSet>) returns (size: nat)
    ensures size == Low32(|Serialize(sets[..])|)
    ensures size == |Serialize(sets[..])| <==> |Serialize(sets[..])| < U32_END
  {
    hide Low32, EncSets, EncSet, EncOps, Live;
    ghost var all := sets[..];
    NothingToEncode();
    Low32Iff(4);
    size := 4;
    for i := 0 to sets.Length
      invariant size == Low32(4 + |EncSets(all[..i])|)
    {
      SetSize(all, i);
      var bytes, live := MeasureOps(sets[i].ops);
      AddLow32(4 + |EncSets(all[..i])|, 8 + 4 + bytes);
      size := Low32(size + (8 + 4 + bytes));
    }
    assert all[..sets.Length] == all;
    Low32Iff(|Serialize(all)|);
  }

  lemma SetSize(sets: seq<WriteSet>, i: nat)
    requires i < |sets|
    ensures |EncSets(sets[..i + 1])| == |EncSets(sets[..i])| + 12 + |EncOps(sets[i].ops)|
  {
    hide EncSets;
    EncSetsTake(sets, i);
  }

  lemma NothingToEncode()
    ensures EncSets([]) == []
  {
  }

  // ---- writing ----

  lemma Chain(w: Bytes, a: Bytes, b: Bytes, c: Bytes, d: Bytes, e: Bytes)
    ensures w + a + b + c + d + e == w + (a + (b + (c + (d + e))))
  {
    Assoc(w, a, b);
    Assoc(w, a + b, c);
    Assoc(w, a + b + c, d);
    Assoc(w, a + b + c + d, e);
    Assoc(a, b, c);
    Assoc(a, b + c, d);
    Assoc(a, b + c + d, e);
    Assoc(b, c, d);
    Assoc(b, c + d, e);
    Assoc(c, d, e);
  }

  lemma OpBytes(op: Op)
    requires op != Nulled
    ensures var v := if op.Put? then op.value else [];
            EncOp(op) == [if op.Put? then PUT else DELETE]
                         + (Be32(|op.key|) + (op.key + (Be32(|v|) + v)))
  {
    assert Be32(0) + [] == Be32(0);
  }

  method WriteParts(buf: array<u8>, p: nat, t: u8, k: Bytes, v: Bytes) returns (q: nat)
    requires p + 9 + |k| + |v| <= buf.Length
    modifies buf
    ensures q == p + 9 + |k| + |v|
    ensures buf[..q] == old(buf[..p]) + ([t] + (Be32(|k|) + (k + (Be32(|v|) + v))))
  {
    hide BigEndian;
    Chain(buf[..p], [t], Be32(|k|), k, Be32(|v|), v);
    q := Append(buf, p, [t]);
    q := Append(buf, q, Be32(|k|));
    q := Append(buf, q, k);
    q := Append(buf, q, Be32(|v|));
    q := Append(buf, q, v);
  }

  method WriteOp(buf: array<u8>, p: nat, op: Op) returns (q: nat)
    requires op != Nulled && p + |EncOp(op)| <= buf.Length
    modifies buf
    ensures q == p + |EncOp(op)| && buf[..q] == old(buf[..p]) + EncOp(op)
  {
    OpBytes(op);
    match op
    case Put(k, v) => q := WriteParts(buf, p, PUT, k, v);
    case Delete(k) => q := WriteParts(buf, p, DELETE, k, []);
  }

  method WriteOps(buf: array<u8>, p: nat, ops: seq<Op>) returns (q: nat)
    requires p + |EncOps(ops)| <= buf.Length
    modifies buf
    ensures q == p + |EncOps(ops)| && buf[..q] == old(buf[..p]) + EncOps(ops)
  {
    ghost var was := buf[..p];
    q := p;
    for j := 0 to |ops|
      invariant q == p + |EncOps(ops[..j])| <= buf.Length
      invariant buf[..q] == was + EncOps(ops[..j])
    {
      EncOpsTake(ops, j);
      if ops[j] != Nulled {
        q := WriteOp(buf, q, ops[j]);
        Assoc(was, EncOps(ops[..j]), EncOp(ops[j]));
      } else {
        assert EncOps(ops[..j]) + [] == EncOps(ops[..j]);
      }
    }
    assert ops[..|ops|] == ops;
  }

  method WriteOneSet(buf: array<u8>, p: nat, ws: WriteSet) returns (q: nat)
    requires p + |EncSet(ws)| <= buf.Length
    modifies buf
    ensures q == p + |EncSet(ws)| && buf[..q] == old(buf[..p]) + EncSet(ws)
  {
    ghost var was := buf[..p];
    var bytes, live := MeasureOps(ws.ops);
    Copy(buf, p, Be64(ws.seqno));
    Copy(buf, p + 8, Be32(live));
    q := WriteOps(buf, p + 12, ws.ops);
    Assoc(was, Be64(ws.seqno), Be32(live));
    Assoc(was, Be64(ws.seqno) + Be32(live), EncOps(ws.ops));
    Assoc(Be64(ws.seqno), Be32(live), EncOps(ws.ops));
  }

  /** The blob of a batch: exactly the encoding, in a buffer of exactly the measured size. */
  method SerializeBatch(sets: array<WriteSet>) returns (buf: array<u8>)
    requires |Serialize(sets[..])| < U32_END
    ensures fresh(buf) && buf[..] == Serialize(sets[..])
  {
    var size := Measure(sets);
    buf := new u8[size](_ => 0);
    Copy(buf, 0, Be32(sets.Length));
    var p := 4;
    for i := 0 to sets.Length
      invariant p == 4 + |EncSets(sets[..i])| <= buf.Length
      invariant buf[..p] == Be32(sets.Length) + EncSets(sets[..i])
    {
      EncSetsTake(sets[..], i);
      assert sets[..][..i + 1] == sets[..i + 1] && sets[..][..i] == sets[..i];
      p := WriteOneSet(buf, p, sets[i]);
      Assoc(Be32(sets.Length), EncSets(sets[..i]), EncSet(sets[i]));
    }
    assert sets[..sets.Length] == sets[..];
    assert buf[..p] == buf[..];
  }

  // ---- the follower ----

  function Prepend<T>(done: seq<T>, r: Read<seq<T>>): Read<seq<T>> {
    match r
    case Bad => Bad
    case Good(v, rest) => Good(done + v, rest)
  }

  lemma PrependNothing<T>(r: Read<seq<T>>)
    ensures Prepend([], r) == r
  {
    if r.Good? {
      assert [] + r.value == r.value;
    }
  }

  lemma WritesSnoc(st: Store, ops: seq<Op>, op: Op, s: nat)
    ensures Run(st, Writes(ops + [op], s)) == Apply(Run(st, Writes(ops, s)), Write(op, s))
  {
    assert Writes(ops + [op], s) == Writes(ops, s) + [Write(op, s)];
    assert Init(Writes(ops, s) + [Write(op, s)]) == Writes(ops, s);
  }

  lemma SetsSnoc(st: Store, sets: seq<WriteSet>, ws: WriteSet)
    ensures Run(st, Flatten(sets + [ws])) == Run(Run(st, Flatten(sets)), Writes(ws.ops, ws.seqno))
    ensures MaxSeq(sets + [ws]) == Max(MaxSeq(sets), ws.seqno)
  {
    assert Init(sets + [ws]) == sets;
    RunAppend(st, Flatten(sets), Writes(ws.ops, ws.seqno));
  }

  lemma ReadOpsNext(d: Bytes, n: nat, done: seq<Op>)
    requires n > 0
    ensures Prepend(done, ReadOps(d, n)) ==
            match ReadOp(d) { case Bad => Bad case Good(op, rest) => Prepend(done + [op], ReadOps(rest, n - 1)) }
  {
    match ReadOp(d)
    case Bad =>
    case Good(op, rest) =>
      match ReadOps(rest, n - 1)
      case Bad =>
      case Good(ops, after) =>
        assert done + ([op] + ops) == done + [op] + ops;
  }

  lemma ReadSetsNext(d: Bytes, n: nat, done: seq<WriteSet>)
    requires n > 0 && |d| >= 12
    ensures Prepend(done, ReadSets(d, n)) ==
            match ReadOps(d[12..], FromBe32(d[8..])) {
              case Bad => Bad
              case Good(ops, rest) => Prepend(done + [WriteSet(FromBe64(d), ops)], ReadSets(rest, n - 1)) }
  {
    match ReadOps(d[12..], FromBe32(d[8..]))
    case Bad =>
    case Good(ops, rest) =>
      match ReadSets(rest, n - 1)
      case Bad =>
      case Good(sets, after) =>
        var ws := WriteSet(FromBe64(d), ops);
        assert done + ([ws] + sets) == done + [ws] + sets;
  }

  /** One operation at the cursor, with every read checked against the end of the data. */
  method ParseOp(data: array<u8>, p: nat) returns (ok: bool, op: Op, q: nat)
    requires p <= data.Length
    ensures p <= q <= data.Length
    ensures ok <==> ReadOp(data[p..]).Good?
    ensures ok ==> ReadOp(data[p..]) == Good(op, data[q..])
  {
    ghost var d := data[p..];
    ok, op, q := false, Nulled, p;
    if p + 1 > data.Length { return; }
    var t := data[p];
    if p + 1 + 4 > data.Length { return; }
    assert data[p + 1..] == d[1..];
    var klen := FromBe32(data[p + 1..]);
    if p + 5 + klen + 4 > data.Length { return; }
    assert data[p + 5..p + 5 + klen] == d[5..5 + klen];
    var key := CStr(data[p + 5..p + 5 + klen]);
    assert data[p + 5 + klen..] == d[5 + klen..];
    var vlen := FromBe32(data[p + 5 + klen..]);
    var at := p + 5 + klen + 4;
    if t == PUT {
      if at + vlen > data.Length { return; }
      assert data[at..at + vlen] == d[5 + klen + 4..5 + klen + 4 + vlen];
      op := Put(key, data[at..at + vlen]);
      at := at + vlen;
    } else if t == DELETE {
      op := Delete(key);
    }
    ok, q := true, at;
    assert data[at..] == d[at - p..];
  }

  /** Parses and applies n operations under sequence number s. */
  method ApplyOps(rows: Store, data: array<u8>, p: nat, n: nat, s: nat)
    returns (ok: bool, st: Store, q: nat)
    requires p <= data.Length
    ensures p <= q <= data.Length
    ensures ok <==> ReadOps(data[p..], n).Good?
    ensures ok ==> st == Run(rows, Writes(ReadOps(data[p..], n).value, s))
                   && ReadOps(data[p..], n).rest == data[q..]
  {
    hide ReadOp;
    ghost var goal := ReadOps(data[p..], n);
    ghost var done: seq<Op> := [];
    st, q := rows, p;
    PrependNothing(goal);
    for j := 0 to n
      invariant p <= q <= data.Length
      invariant goal == Prepend(done, ReadOps(data[q..], n - j))
      invariant st == Run(rows, Writes(done, s))
    {
      ReadOpsNext(data[q..], n - j, done);
      var good, op, next := ParseOp(data, q);
      if !good {
        return false, rows, q;
      }
      WritesSnoc(rows, done, op, s);
      st := Apply(st, Write(op, s));
      done := done + [op];
      q := next;
    }
    assert done + [] == done;
    ok := true;
  }

  lemma NoSets(rows: Store)
    ensures Run(rows, Flatten([])) == rows && MaxSeq([]) == 0
  {
  }

  lemma NoMoreSets(d: Bytes)
    ensures ReadSets(d, 0) == Good([], d)
  {
  }

  lemma ReadSetsShort(d: Bytes, n: nat)
    requires n > 0 && |d| < 12
    ensures ReadSets(d, n) == Bad
  {
  }

  /** apply_batch: the table after the blob and the largest number, or failure. */
  method ApplyBatch(rows: Store, data: array<u8>) returns (ok: bool, st: Store, top: nat)
    ensures ok <==> ParseBatch(data[..]).Good?
    ensures ok ==> st == Run(rows, Flatten(ParseBatch(data[..]).value))
                   && top == MaxSeq(ParseBatch(data[..]).value)
  {
    hide ReadOps, ReadSets, Run, Flatten, MaxSeq, FromBe32, FromBe64;
    ok, st, top := false, rows, 0;
    NoSets(rows);
    if data.Length < 4 {
      return;
    }
    ghost var goal := ParseBatch(data[..]);
    ghost var done: seq<WriteSet> := [];
    var count, p := FromBe32(data[..]), 4;
    assert data[..][4..] == data[4..];
    PrependNothing(goal);
    for i := 0 to count
      invariant p <= data.Length
      invariant goal == Prepend(done, ReadSets(data[p..], count - i))
      invariant st == Run(rows, Flatten(done)) && top == MaxSeq(done)
    {
      if p + 12 > data.Length {
        ReadSetsShort(data[p..], count - i);
        return;
      }
      ReadSetsNext(data[p..], count - i, done);
      assert data[p..][8..] == data[p + 8..] && data[p..][12..] == data[p + 12..];
      var s := FromBe64(data[p..]);
      var n := FromBe32(data[p + 8..]);
      var good, next, q := ApplyOps(st, data, p + 12, n, s);
      if !good {
        return;
      }
      ghost var ws := WriteSet(s, ReadOps(data[p + 12..], n).value);
      SetsSnoc(rows, done, ws);
      st, p := next, q;
      if s > top {
        top := s;
      }
      done := done + [ws];
    }
    assert done + [] == done;
    NoMoreSets(data[p..]);
    ok := true;
  }

  // ---- the leader ----

  lemma EncLive(ops: seq<Op>)
    ensures EncOps(Live(ops)) == EncOps(ops)
    ensures forall op :: op in Live(ops) ==> op != Nulled && op in ops
  {
    LiveMembers(ops);
    NulledIsNoBytes(ops);
  }

  lemma {:induction false} LiveMembers(ops: seq<Op>)
    ensures forall op :: op in Live(ops) ==> op != Nulled && op in ops
  {
    if ops != [] {
      LiveMembers(Init(ops));
    }
  }

  lemma {:induction false} NulledIsNoBytes(ops: seq<Op>)
    ensures EncOps(Live(ops)) == EncOps(ops)
  {
    hide EncOp, EncOps;
    NoOps();
    if ops != [] {
      var most, last := Init(ops), Last(ops);
      NulledIsNoBytes(most);
      EncOpsAppend(most, [last]);
      EncOpsOne(last);
      assert ops == most + [last];
      if last != Nulled {
        EncOpsAppend(Live(most), [last]);
      } else {
        EncOpSize(last);
        assert EncOps(most) + [] == EncOps(most);
      }
    }
  }

  lemma EncOpsTail(ops: seq<Op>, j: nat, after: Bytes)
    requires j < |ops| && ops[j] != Nulled
    ensures EncOps(ops[j..]) + after == EncOp(ops[j]) + (EncOps(ops[j + 1..]) + after)
  {
    LiveComesFirst(ops[j..], after);
    assert ops[j..][1..] == ops[j + 1..];
  }

  function ValueOf(op: Op): Value {
    if op.Put? then op.value else []
  }

  /** Where the cursor finds the two lengths of an operation, and where it ends. */
  lemma SkipOne(all: Bytes, q: nat, op: Op, rest: Bytes)
    requires q <= |all| && all[q..] == EncOp(op) + rest && op != Nulled && Encodable(op)
    ensures |all| - q == 9 + |op.key| + |ValueOf(op)| + |rest|
    ensures FromBe32(all[q + 1..]) == |op.key|
    ensures FromBe32(all[q + 5 + |op.key|..]) == |ValueOf(op)|
    ensures all[q + 9 + |op.key| + |ValueOf(op)|..] == rest
  {
    hide EncOp, FromBe32, Be32;
    var k, v := op.key, ValueOf(op);
    OpLayout(op, rest);
    OpParts(all[q..], if op.Put? then PUT else DELETE, k, v, rest);
    DropDrop(all, q, 1);
    DropDrop(all, q, 5 + |k|);
    DropDrop(all, q, 9 + |k|);
    DropLeft(v, rest);
    DropDrop(all, q + 9 + |k|, |v|);
  }

  /** Skips the operations of one write-set without looking at their type. */
  method SkipOps(data: array<u8>, p: nat, n: nat, ghost ops: seq<Op>, ghost after: Bytes) returns (q: nat)
    requires p <= data.Length && data[p..] == EncOps(ops) + after
    requires EncodableOps(ops) && n == |ops| && Nulled !in ops
    ensures q <= data.Length && data[q..] == after
  {
    hide EncOp, EncOps, FromBe32, ValueOf;
    NoOps();
    q := p;
    assert ops[0..] == ops;
    for j := 0 to n
      invariant q <= data.Length && data[q..] == EncOps(ops[j..]) + after
    {
      assert ops[j] in ops && Encodable(ops[j]);
      EncOpsTail(ops, j, after);
      SkipOne(data[..], q, ops[j], EncOps(ops[j + 1..]) + after);
      q := q + 1;
      var klen := FromBe32(data[..][q..]);
      q := q + 4 + klen;
      var vlen := FromBe32(data[..][q..]);
      q := q + 4 + vlen;
    }
    assert ops[n..] == [] && [] + after == after;
  }

  lemma LeaderStep(all: Bytes, p: nat, sets: seq<WriteSet>, i: nat)
    requires p <= |all| && i < |sets| && all[p..] == EncSets(sets[i..]) && EncodableSets(sets)
    ensures p + 12 <= |all| && FromBe64(all[p..]) == sets[i].seqno
    ensures FromBe32(all[p + 8..]) == |Live(sets[i].ops)|
    ensures all[p + 12..] == EncOps(Live(sets[i].ops)) + EncSets(sets[i + 1..])
    ensures EncodableOps(Live(sets[i].ops)) && Nulled !in Live(sets[i].ops)
  {
    EncSetsHead(sets[i..]);
    assert sets[i..][1..] == sets[i + 1..];
    SetHeader(sets[i], EncSets(sets[i + 1..]));
    DropDrop(all, p, 8);
    DropDrop(all, p, 12);
    EncLive(sets[i].ops);
    LiveEncodable(sets[i].ops);
  }

  /** The leader reads the headers of its own blob and finds the largest number in it. */
  method LeaderMaxSeq(data: array<u8>, ghost sets: seq<WriteSet>) returns (top: nat)
    requires EncodableSets(sets) && data[..] == Serialize(sets)
    ensures top == MaxSeq(sets)
  {
    hide FromBe32, FromBe64, EncSets, Live, EncOps, MaxSeq, EncodableOps;
    top := 0;
    Be32RoundTrip(|sets|, EncSets(sets));
    var count, p := FromBe32(data[..]), 4;
    assert count == |sets| && sets[0..] == sets && sets[..0] == [];
    NoSets(map[]);
    for i := 0 to count
      invariant p <= data.Length && data[..][p..] == EncSets(sets[i..])
      invariant top == MaxSeq(sets[..i])
    {
      LeaderStep(data[..], p, sets, i);
      var s := FromBe64(data[..][p..]);
      var n := FromBe32(data[..][p + 8..]);
      if s > top {
        top := s;
      }
      assert data[p + 12..] == data[..][p + 12..];
      p := SkipOps(data, p + 12, n, Live(sets[i].ops), EncSets(sets[i + 1..]));
      assert data[p..] == data[..][p..];
      MaxSeqTake(sets, i);
    }
    assert sets[..count] == sets;
  }

  lemma MaxSeqTake(sets: seq<WriteSet>, i: nat)
    requires i < |sets|
    ensures MaxSeq(sets[..i + 1]) == Max(MaxSeq(sets[..i]), sets[i].seqno)
  {
    TakeMore(sets, i);
  }

  lemma LiveEncodable(ops: seq<Op>)
    requires EncodableOps(ops)
    ensures EncodableOps(Live(ops)) && Nulled !in Live(ops)
  {
    EncLive(ops);
    forall i | 0 <= i < |Live(ops)|
      ensures Encodable(Live(ops)[i])
    {
      assert Live(ops)[i] in ops;
    }
  }

  // ---- the two roles of cb_applylog ----

  class Node {
    var rows: Store
    var committed: nat

    constructor ()
      ensures rows == map[] && committed == 0
    {
      rows, committed := map[], 0;
    }

    /** A follower applies the blob in a transaction and rolls back when it does not parse. */
    method ApplyAsFollower(data: array<u8>)
      modifies this
      ensures rows == Follow(old(rows), data[..]).0
      ensures committed == if Follow(old(rows), data[..]).1 > 0 then Follow(old(rows), data[..]).1
                           else old(committed)
    {
      var saved := rows;
      var ok, st, top := ApplyBatch(rows, data);
      if ok {
        rows := st;
      } else {
        rows, top := saved, 0;
      }
      if top > 0 {
        committed := top;
      }
    }

    /** The leader's table already holds the writes; only committed_seq moves. */
    method ApplyAsLeader(data: array<u8>, ghost sets: seq<WriteSet>)
      requires EncodableSets(sets) && data[..] == Serialize(sets)
      modifies this
      ensures rows == old(rows)
      ensures committed == if MaxSeq(sets) > 0 then MaxSeq(sets) else old(committed)
    {
      var top := LeaderMaxSeq(data, sets);
      if top > 0 {
        committed := top;
      }
    }
  }

  /** From the drain buffer to the blob handed to raft, when there is one to make: something must be
      safe, and either the interval has passed or a full batch is safe. */
  method Propose(buf: array<WriteSet>, count: nat, safe: nat, cap: nat, due: bool)
    returns (blob: Option<array<u8>>, left: nat)
    requires count <= buf.Length && cap > 0
    requires |Serialize(Dedupe(SortBySeq(Picked(buf[..count], safe, cap))))| < U32_END
    modifies buf
    ensures var n := |SafeAt(old(buf[..count]), safe)|;
            blob.Some? <==> n > 0 && (due || n >= cap)
    ensures blob.None? ==> left == count && buf[..] == old(buf[..])
    ensures blob.Some? ==>
              left <= count && buf[..left] == Left(old(buf[..count]), safe, cap) &&
              blob.value[..] == Serialize(Dedupe(SortBySeq(Picked(old(buf[..count]), safe, cap))))
  {
    hide Picked, Left, SortBySeq, Dedupe, Serialize;
    ghost var was := buf[..count];
    PickedCount(was, safe, cap);
    var n := CountSafe(buf, count, safe, cap);
    if n == 0 || !(due || n >= cap) {
      return None, count;
    }
    ExactLimit(was, safe, cap, n);
    var batch: array<WriteSet>;
    assert count > 0 by {
      SelectionNone(safe, cap);
    }
    batch, left := TakeSafe(buf, count, safe, n, buf[0]);
    SortInPlace(batch);
    DedupeInPlace(batch);
    var out := SerializeBatch(batch);
    blob := Some(out);
  }
}
