/**
 The raft messages of src/raft_rpc.c. A frame is a four-byte payload length and a payload; a
 payload is a type byte, fixed-width fields and, for appends, the entries.
 */
module Rpc {
  import opened Machine
  import opened Wire

  type s32 = x: int | -0x8000_0000 <= x < 0x8000_0000
  type s64 = x: int | -0x8000_0000_0000_0000 <= x < 0x8000_0000_0000_0000

  function U32(v: s32): u32 {
    v % U32_END
  }

  function S32(v: u32): s32 {
    if v < 0x8000_0000 then v else v - U32_END
  }

  function U64(v: s64): u64 {
    v % U64_END
  }

  function S64(v: u64): s64 {
    if v < 0x8000_0000_0000_0000 then v else v - U64_END
  }

  lemma CastsUndo(a: s32, b: s64, c: u32, d: u64)
    ensures S32(U32(a)) == a && S64(U64(b)) == b && U32(S32(c)) == c && U64(S64(d)) == d
  {
  }

  // ---------------------------------------------------------------- fixed fields

  datatype Word = Wide(v: u64) | Narrow(v: u64)

  type Field = f: Word | f.Narrow? ==> f.v < U32_END witness Wide(0)

  function FieldBytes(f: Field): Bytes {
    if f.Wide? then Be64(f.v) else Be32(f.v)
  }

  function Encoded(fs: seq<Field>): Bytes {
    if fs == [] then [] else Encoded(Init(fs)) + FieldBytes(Last(fs))
  }

  lemma EncodedSnoc(fs: seq<Field>, f: Field)
    ensures Encoded(fs + [f]) == Encoded(fs) + FieldBytes(f)
  {
    assert Init(fs + [f]) == fs;
  }

  // The width of each field, in order: 8 or 4 bytes.
  type Layout = seq<bool>

  function Size(layout: Layout): nat {
    if layout == [] then 0 else Size(Init(layout)) + if Last(layout) then 8 else 4
  }

  function LayoutOf(fs: seq<Field>): (r: Layout)
    ensures |r| == |fs|
  {
    seq(|fs|, i requires 0 <= i < |fs| => fs[i].Wide?)
  }

  function ReadFields(layout: Layout, d: Bytes): (r: seq<Field>)
    requires Size(layout) <= |d|
    ensures LayoutOf(r) == layout
  {
    if layout == [] then []
    else
      var most := ReadFields(Init(layout), d);
      var rest := d[Size(Init(layout))..];
      most + [if Last(layout) then Wide(FromBe64(rest)) else Narrow(FromBe32(rest))]
  }

  lemma {:induction false} EncodedSize(fs: seq<Field>)
    ensures |Encoded(fs)| == Size(LayoutOf(fs))
  {
    if fs != [] {
      EncodedSize(Init(fs));
      assert Init(LayoutOf(fs)) == LayoutOf(Init(fs));
    }
  }

  /** Reading undoes encoding, whatever follows. */
  lemma {:induction false} ReadFieldsOf(fs: seq<Field>, rest: Bytes)
    ensures |Encoded(fs)| == Size(LayoutOf(fs))
    ensures ReadFields(LayoutOf(fs), Encoded(fs) + rest) == fs
  {
    hide Be64, Be32, FromBe64, FromBe32;
    EncodedSize(fs);
    if fs != [] {
      var most, last := Init(fs), FieldBytes(Last(fs));
      EncodedSize(most);
      assert Init(LayoutOf(fs)) == LayoutOf(most);
      Assoc(Encoded(most), last, rest);
      ReadFieldsOf(most, last + rest);
      DropLeft(Encoded(most), last + rest);
      if Last(fs).Wide? {
        Be64RoundTrip(Last(fs).v, rest);
      } else {
        Be32RoundTrip(Last(fs).v, rest);
      }
      assert fs == most + [Last(fs)];
    }
  }

  lemma SplitTake(d: Bytes, n: nat, m: nat)
    requires n + m <= |d|
    ensures d[..n + m] == d[..n] + d[n..][..m]
  {
  }

  /** Encoding undoes reading. */
  lemma {:induction false} ReadFieldsOnto(layout: Layout, d: Bytes)
    requires Size(layout) <= |d|
    ensures Encoded(ReadFields(layout, d)) == d[..Size(layout)]
  {
    hide Be64, Be32, FromBe64, FromBe32;
    if layout != [] {
      ReadFieldsOnto(Init(layout), d);
      var n := Size(Init(layout));
      var rest := d[n..];
      var f: Field := if Last(layout) then Wide(FromBe64(rest)) else Narrow(FromBe32(rest));
      EncodedSnoc(ReadFields(Init(layout), d), f);
      if Last(layout) {
        Be64Onto(rest);
      } else {
        Be32Onto(rest);
      }
      SplitTake(d, n, Size(layout) - n);
    }
  }

  // ---------------------------------------------------------------- entries

  datatype Entry = Entry(term: s64, id: s32, kind: s32, data: Bytes)

  predicate Storable(e: Entry) {
    |e.data| < U32_END
  }

  const ENTRY_LAYOUT: Layout := [true, false, false, false]

  function EntryFields(e: Entry): seq<Field>
    requires Storable(e)
  {
    [Wide(U64(e.term)), Narrow(U32(e.id)), Narrow(U32(e.kind)), Narrow(|e.data|)]
  }

  function EntryBytes(e: Entry): Bytes
    requires Storable(e)
  {
    Encoded(EntryFields(e)) + e.data
  }

  function EntriesBytes(es: seq<Entry>): Bytes
    requires forall i :: 0 <= i < |es| ==> Storable(es[i])
  {
    if es == [] then [] else EntryBytes(es[0]) + EntriesBytes(es[1..])
  }

  lemma EntryLayoutSize()
    ensures Size(ENTRY_LAYOUT) == 20
  {
    assert Init(ENTRY_LAYOUT) == [true, false, false];
    assert Init([true, false, false]) == [true, false];
    assert Init([true, false]) == [true];
    assert Init([true]) == [];
  }

  function EntryFrom(fs: seq<Field>, data: Bytes): Entry
    requires LayoutOf(fs) == ENTRY_LAYOUT
  {
    LayoutAt(fs);
    Entry(S64(fs[0].v), S32(fs[1].v), S32(fs[2].v), data)
  }

  lemma LayoutAt(fs: seq<Field>)
    ensures forall i :: 0 <= i < |fs| ==> LayoutOf(fs)[i] == fs[i].Wide?
  {
  }

  /** The first entry of the bytes and what follows it. */
  function ReadEntry(d: Bytes): (r: Option<(Entry, Bytes)>)
    ensures r.Some? ==> Storable(r.value.0) && |r.value.1| < |d|
  {
    EntryLayoutSize();
    if |d| < 20 then None
    else
      var fs := ReadFields(ENTRY_LAYOUT, d);
      LayoutAt(fs);
      if |d| - 20 < fs[3].v then None
      else Some((EntryFrom(fs, d[20..20 + fs[3].v]), d[20 + fs[3].v..]))
  }

  lemma EntryFieldsFit(e: Entry)
    requires Storable(e)
    ensures LayoutOf(EntryFields(e)) == ENTRY_LAYOUT && |Encoded(EntryFields(e))| == 20
  {
    EntryLayoutSize();
    var fs := EntryFields(e);
    LayoutAt(fs);
    assert LayoutOf(fs) == ENTRY_LAYOUT;
    EncodedSize(fs);
  }

  lemma ReadEntryOf(e: Entry, rest: Bytes)
    requires Storable(e)
    ensures ReadEntry(EntryBytes(e) + rest) == Some((e, rest))
  {
    hide Encoded, ReadFields;
    EntryFieldsFit(e);
    EntryLayoutSize();
    var fs := EntryFields(e);
    Assoc(Encoded(fs), e.data, rest);
    var d := Encoded(fs) + (e.data + rest);
    ReadFieldsOf(fs, e.data + rest);
    assert d[20..20 + |e.data|] == e.data && d[20 + |e.data|..] == rest;
    CastsUndo(e.id, e.term, 0, 0);
    CastsUndo(e.kind, e.term, 0, 0);
  }

  lemma ReadEntryOnto(d: Bytes)
    ensures ReadEntry(d).Some? ==>
              d == EntryBytes(ReadEntry(d).value.0) + ReadEntry(d).value.1
  {
    hide Encoded, ReadFields;
    if ReadEntry(d).Some? {
      EntryLayoutSize();
      var fs := ReadFields(ENTRY_LAYOUT, d);
      var e, rest := ReadEntry(d).value.0, ReadEntry(d).value.1;
      LayoutAt(fs);
      ReadFieldsOnto(ENTRY_LAYOUT, d);
      CastsUndo(0, 0, fs[1].v, fs[0].v);
      CastsUndo(0, 0, fs[2].v, fs[0].v);
      assert EntryFields(e) == fs;
      assert d == d[..20] + d[20..20 + fs[3].v] + d[20 + fs[3].v..];
    }
  }

  predicate StorableAll(es: seq<Entry>) {
    forall i :: 0 <= i < |es| ==> Storable(es[i])
  }

  /** The first n entries of the bytes. */
  function ReadEntries(d: Bytes, n: nat): (r: Option<seq<Entry>>)
    ensures r.Some? ==> |r.value| == n && StorableAll(r.value)
    decreases n
  {
    if n == 0 then Some([])
    else
      var head := ReadEntry(d);
      if head.None? then None
      else
        var tail := ReadEntries(head.value.1, n - 1);
        if tail.None? then None else Some([head.value.0] + tail.value)
  }

  lemma {:induction false} ReadEntriesOf(es: seq<Entry>, rest: Bytes)
    requires StorableAll(es)
    ensures ReadEntries(EntriesBytes(es) + rest, |es|) == Some(es)
  {
    hide EntryBytes, ReadEntry;
    if es != [] {
      Assoc(EntryBytes(es[0]), EntriesBytes(es[1..]), rest);
      ReadEntryOf(es[0], EntriesBytes(es[1..]) + rest);
      ReadEntriesOf(es[1..], rest);
      assert [es[0]] + es[1..] == es;
    }
  }

  lemma {:induction false} ReadEntriesOnto(d: Bytes, n: nat)
    ensures ReadEntries(d, n).Some? ==> EntriesBytes(ReadEntries(d, n).value) <= d
    decreases n
  {
    hide EntryBytes, ReadEntry;
    if ReadEntries(d, n).Some? && n > 0 {
      var e, rest := ReadEntry(d).value.0, ReadEntry(d).value.1;
      ReadEntryOnto(d);
      ReadEntriesOnto(rest, n - 1);
      var es := ReadEntries(rest, n - 1).value;
      assert ([e] + es)[1..] == es;
      PrefixUnder(EntryBytes(e), EntriesBytes(es), rest);
    }
  }

  lemma PrefixUnder(a: Bytes, b: Bytes, c: Bytes)
    requires b <= c
    ensures a + b <= a + c
  {
  }

  // ---------------------------------------------------------------- messages

  datatype Message =
    | VoteReq(term: s64, candidate: s32, lastIdx: s64, lastTerm: s64)
    | VoteResp(term: s64, granted: s32)
    | AppendReq(term: s64, prevIdx: s64, prevTerm: s64, commit: s64, count: s32, entries: seq<Entry>)
    | AppendResp(term: s64, success: s32, currentIdx: s64, firstIdx: s64)
    | Ident(node: u32)

  /** The count of an append says how many entries there are; a negative one stands for none. */
  predicate WellFormed(m: Message) {
    m.AppendReq? ==> StorableAll(m.entries) && |m.entries| == Max(0, m.count)
  }

  function Kind(m: Message): (r: u8)
    ensures 1 <= r <= 5
  {
    match m
    case VoteReq(_, _, _, _) => 1
    case VoteResp(_, _) => 2
    case AppendReq(_, _, _, _, _, _) => 3
    case AppendResp(_, _, _, _) => 4
    case Ident(_) => 5
  }

  function Fields(m: Message): seq<Field> {
    match m
    case VoteReq(term, candidate, lastIdx, lastTerm) =>
      [Wide(U64(term)), Narrow(U32(candidate)), Wide(U64(lastIdx)), Wide(U64(lastTerm))]
    case VoteResp(term, granted) =>
      [Wide(U64(term)), Narrow(U32(granted))]
    case AppendReq(term, prevIdx, prevTerm, commit, count, _) =>
      [Wide(U64(term)), Wide(U64(prevIdx)), Wide(U64(prevTerm)), Wide(U64(commit)), Narrow(U32(count))]
    case AppendResp(term, success, currentIdx, firstIdx) =>
      [Wide(U64(term)), Narrow(U32(success)), Wide(U64(currentIdx)), Wide(U64(firstIdx))]
    case Ident(node) => [Narrow(node)]
  }

  function Body(m: Message): Bytes
    requires WellFormed(m)
  {
    Encoded(Fields(m)) + if m.AppendReq? then EntriesBytes(m.entries) else []
  }

  function Payload(m: Message): Bytes
    requires WellFormed(m)
  {
    [Kind(m)] + Body(m)
  }

  function Frame(m: Message): Bytes
    requires WellFormed(m)
  {
    Be32(|Payload(m)|) + Payload(m)
  }

  lemma {:induction false} EncodedAppend(a: seq<Field>, b: seq<Field>)
    ensures Encoded(a + b) == Encoded(a) + Encoded(b)
  {
    hide FieldBytes;
    if b == [] {
      assert a + b == a;
    } else {
      EncodedAppend(a, Init(b));
      assert Init(a + b) == a + Init(b) && Last(a + b) == Last(b);
      Assoc(Encoded(a), Encoded(Init(b)), FieldBytes(Last(b)));
    }
  }

  lemma EncodedOne(f: Field)
    ensures Encoded([f]) == FieldBytes(f)
  {
    assert Init([f]) == [];
    assert [] + FieldBytes(f) == FieldBytes(f);
  }

  lemma EncodedTwo(f: Field, g: Field)
    ensures Encoded([f, g]) == FieldBytes(f) + FieldBytes(g)
  {
    hide FieldBytes, Encoded;
    EncodedOne(f);
    EncodedOne(g);
    EncodedAppend([f], [g]);
    assert [f] + [g] == [f, g];
  }

  lemma EncodedFour(f: Field, g: Field, h: Field, i: Field)
    ensures Encoded([f, g, h, i]) == FieldBytes(f) + FieldBytes(g) + (FieldBytes(h) + FieldBytes(i))
  {
    hide FieldBytes, Encoded;
    EncodedTwo(f, g);
    EncodedTwo(h, i);
    EncodedAppend([f, g], [h, i]);
    assert [f, g] + [h, i] == [f, g, h, i];
  }

  lemma EncodedFive(f: Field, g: Field, h: Field, i: Field, j: Field)
    ensures Encoded([f, g, h, i, j]) == FieldBytes(f) + FieldBytes(g) + (FieldBytes(h) + FieldBytes(i)) + FieldBytes(j)
  {
    hide FieldBytes, Encoded;
    EncodedFour(f, g, h, i);
    EncodedOne(j);
    EncodedAppend([f, g, h, i], [j]);
    assert [f, g, h, i] + [j] == [f, g, h, i, j];
  }

  /** The layout of each message on the wire: its kind, then its fields in network order, signed ones
      in two's complement. */
  lemma PayloadBytes(m: Message)
    requires WellFormed(m)
    ensures m.VoteReq? ==>
              Payload(m) == [1] + (Be64(m.term % U64_END) + Be32(m.candidate % U32_END) +
                                   (Be64(m.lastIdx % U64_END) + Be64(m.lastTerm % U64_END)))
    ensures m.VoteResp? ==> Payload(m) == [2] + (Be64(m.term % U64_END) + Be32(m.granted % U32_END))
    ensures m.AppendReq? ==>
              Payload(m) == [3] + (Be64(m.term % U64_END) + Be64(m.prevIdx % U64_END) +
                                   (Be64(m.prevTerm % U64_END) + Be64(m.commit % U64_END)) +
                                   Be32(m.count % U32_END) + EntriesBytes(m.entries))
    ensures m.AppendResp? ==>
              Payload(m) == [4] + (Be64(m.term % U64_END) + Be32(m.success % U32_END) +
                                   (Be64(m.currentIdx % U64_END) + Be64(m.firstIdx % U64_END)))
    ensures m.Ident? ==> Payload(m) == [5] + Be32(m.node)
  {
    hide Encoded;
    var fs := Fields(m);
    assert Encoded(fs) + [] == Encoded(fs);
    match m
    case VoteReq(_, _, _, _) => EncodedFour(fs[0], fs[1], fs[2], fs[3]);
    case VoteResp(_, _) => EncodedTwo(fs[0], fs[1]);
    case AppendReq(_, _, _, _, _, _) => EncodedFive(fs[0], fs[1], fs[2], fs[3], fs[4]);
    case AppendResp(_, _, _, _) => EncodedFour(fs[0], fs[1], fs[2], fs[3]);
    case Ident(_) => EncodedOne(fs[0]);
  }

  /** And of each log entry: term, id, type, length and data. */
  lemma EntryLayout(e: Entry)
    requires Storable(e)
    ensures EntryBytes(e) == Be64(e.term % U64_END) + Be32(e.id % U32_END) +
                             (Be32(e.kind % U32_END) + Be32(|e.data|)) + e.data
  {
    hide Encoded;
    var fs := EntryFields(e);
    EncodedFour(fs[0], fs[1], fs[2], fs[3]);
  }

  function FieldLayout(kind: u8): Layout
    requires 1 <= kind <= 5
  {
    if kind == 1 || kind == 4 then [true, false, true, true]
    else if kind == 2 then [true, false]
    else if kind == 3 then [true, true, true, true, false]
    else [false]
  }

  /** The sizes the source checks against. */
  lemma LayoutSizes()
    ensures Size(FieldLayout(1)) == 28 && Size(FieldLayout(2)) == 12 && Size(FieldLayout(3)) == 36
    ensures Size(FieldLayout(4)) == 28 && Size(FieldLayout(5)) == 4
  {
    hide Size;
    SizeEmpty();
    SizeSnoc([], true);
    SizeSnoc([], false);
    SizeSnoc([true], true);
    SizeSnoc([true], false);
    SizeSnoc([true, false], true);
    SizeSnoc([true, false, true], true);
    SizeSnoc([true, true], true);
    SizeSnoc([true, true, true], true);
    SizeSnoc([true, true, true, true], false);
    assert [] + [true] == [true] && [] + [false] == [false];
    assert [true] + [true] == [true, true] && [true] + [false] == [true, false];
    assert [true, false] + [true] == [true, false, true] && [true, true] + [true] == [true, true, true];
    assert [true, true, true] + [true] == [true, true, true, true];
    assert FieldLayout(1) == [true, false, true] + [true];
    assert FieldLayout(3) == [true, true, true, true] + [false];
  }

  lemma SizeEmpty()
    ensures Size([]) == 0
  {
  }

  lemma SizeSnoc(layout: Layout, wide: bool)
    ensures Size(layout + [wide]) == Size(layout) + if wide then 8 else 4
  {
    assert Init(layout + [wide]) == layout;
  }

  /** The message with these fields, and these entries for an append. */
  function Make(kind: u8, fs: seq<Field>, es: seq<Entry>): Message
    requires 1 <= kind <= 5 && LayoutOf(fs) == FieldLayout(kind)
  {
    LayoutAt(fs);
    if kind == 1 then VoteReq(S64(fs[0].v), S32(fs[1].v), S64(fs[2].v), S64(fs[3].v))
    else if kind == 2 then VoteResp(S64(fs[0].v), S32(fs[1].v))
    else if kind == 3 then
      AppendReq(S64(fs[0].v), S64(fs[1].v), S64(fs[2].v), S64(fs[3].v), S32(fs[4].v), es)
    else if kind == 4 then AppendResp(S64(fs[0].v), S32(fs[1].v), S64(fs[2].v), S64(fs[3].v))
    else Ident(fs[0].v)
  }

  function CountOf(kind: u8, fs: seq<Field>): nat
    requires 1 <= kind <= 5 && LayoutOf(fs) == FieldLayout(kind)
  {
    LayoutAt(fs);
    if kind == 3 then Max(0, S32(fs[4].v)) else 0
  }

  /** What decoding a payload must give. */
  function Decoded(d: Bytes): Option<Message> {
    if d == [] || !(1 <= d[0] <= 5) || |d| - 1 < Size(FieldLayout(d[0])) then None
    else
      var body, n := d[1..], Size(FieldLayout(d[0]));
      var fs := ReadFields(FieldLayout(d[0]), body);
      var es := ReadEntries(body[n..], CountOf(d[0], fs));
      if es.None? then None else Some(Make(d[0], fs, es.value))
  }

  /** The fields of a message and the message made of fields determine each other. */
  lemma FieldsFit(m: Message)
    requires WellFormed(m)
    ensures LayoutOf(Fields(m)) == FieldLayout(Kind(m))
    ensures Make(Kind(m), Fields(m), if m.AppendReq? then m.entries else []) == m
    ensures CountOf(Kind(m), Fields(m)) == if m.AppendReq? then |m.entries| else 0
  {
    var fs := Fields(m);
    LayoutAt(fs);
    assert LayoutOf(fs) == FieldLayout(Kind(m));
    forall a: s64, b: s32
      ensures S64(U64(a)) == a && S32(U32(b)) == b
    {
      CastsUndo(b, a, 0, 0);
    }
  }

  lemma MakeFits(kind: u8, fs: seq<Field>, es: seq<Entry>)
    requires 1 <= kind <= 5 && LayoutOf(fs) == FieldLayout(kind)
    requires StorableAll(es) && |es| == CountOf(kind, fs)
    ensures var m := Make(kind, fs, es);
            WellFormed(m) && Kind(m) == kind && Fields(m) == fs && (m.AppendReq? ==> m.entries == es)
    ensures !Make(kind, fs, es).AppendReq? ==> es == []
  {
    LayoutAt(fs);
    forall a: u32, b: u64
      ensures U32(S32(a)) == a && U64(S64(b)) == b
    {
      CastsUndo(0, 0, a, b);
    }
  }

  /** Decoding finds a message exactly when the bytes start with its payload; what follows the
      payload is ignored. */
  lemma DecodedIff(d: Bytes, m: Message)
    ensures Decoded(d) == Some(m) <==> WellFormed(m) && Payload(m) <= d
  {
    if WellFormed(m) && Payload(m) <= d {
      DecodedOf(m, d[|Payload(m)|..]);
      assert d == Payload(m) + d[|Payload(m)|..];
    }
    DecodedOnto(d);
  }

  lemma DecodedOf(m: Message, rest: Bytes)
    requires WellFormed(m)
    ensures Decoded(Payload(m) + rest) == Some(m)
  {
    hide Encoded, ReadFields, Fields, Make, FieldLayout, CountOf, Kind;
    var fs := Fields(m);
    var es: seq<Entry> := if m.AppendReq? then m.entries else [];
    var d := Payload(m) + rest;
    FieldsFit(m);
    EncodedSize(fs);
    Assoc([Kind(m)], Body(m), rest);
    Assoc(Encoded(fs), EntriesBytes(es), rest);
    assert d[0] == Kind(m) && d[1..] == Encoded(fs) + (EntriesBytes(es) + rest);
    ReadFieldsOf(fs, EntriesBytes(es) + rest);
    DropLeft(Encoded(fs), EntriesBytes(es) + rest);
    ReadEntriesOf(es, rest);
  }

  lemma NoEntriesBytes()
    ensures EntriesBytes([]) == []
  {
  }

  lemma DecodedOnto(d: Bytes)
    ensures Decoded(d).Some? ==> WellFormed(Decoded(d).value) && Payload(Decoded(d).value) <= d
  {
    hide Encoded, ReadFields, ReadEntries, EntriesBytes, Fields, Make, FieldLayout, CountOf, Kind, Size;
    if Decoded(d).Some? {
      var body, n := d[1..], Size(FieldLayout(d[0]));
      var fs := ReadFields(FieldLayout(d[0]), body);
      var es := ReadEntries(body[n..], CountOf(d[0], fs)).value;
      MakeFits(d[0], fs, es);
      ReadFieldsOnto(FieldLayout(d[0]), body);
      ReadEntriesOnto(body[n..], CountOf(d[0], fs));
      var m := Make(d[0], fs, es);
      PrefixUnder(body[..n], EntriesBytes(es), body[n..]);
      NoEntriesBytes();
      assert Body(m) == body[..n] + EntriesBytes(es);
      assert body == body[..n] + body[n..];
      PrefixUnder([d[0]], Body(m), body);
      assert d == [d[0]] + body;
    }
  }

  /** Decoding a frame without its header gives the message back, and the header is its length. */
  lemma FrameRoundTrip(m: Message)
    requires WellFormed(m) && |Payload(m)| < U32_END
    ensures FromBe32(Frame(m)) == |Frame(m)[4..]|
    ensures Decoded(Frame(m)[4..]) == Some(m)
  {
    Be32RoundTrip(|Payload(m)|, Payload(m));
    DecodedIff(Payload(m), m);
  }

  /** Different messages: neither payload starts with the other. */
  lemma PayloadsApart(a: Message, b: Message)
    requires WellFormed(a) && WellFormed(b) && Payload(a) <= Payload(b)
    ensures a == b
  {
    DecodedIff(Payload(b), a);
    DecodedIff(Payload(b), b);
  }
}
