/**
 The encoders and the decoder of src/raft_rpc.c over byte buffers, with their cursors.
 */
module RpcCodec {
  import opened Machine
  import opened Wire
  import opened Rpc

  // ---------------------------------------------------------------- encode

  /** A buffer with the header and the type byte in place. */
  method FrameAlloc(kind: u8, payloadSize: nat) returns (buf: array<u8>)
    requires 5 + payloadSize < U32_END
    ensures fresh(buf) && buf.Length == 5 + payloadSize
    ensures buf[..5] == Be32(1 + payloadSize) + [kind]
  {
    buf := new u8[5 + payloadSize](_ => 0);
    Copy(buf, 0, Be32(1 + payloadSize));
    Copy(buf, 4, [kind]);
    assert buf[..0] == [];
  }

  /** Writes field k of the list where the first k end. */
  method W32(buf: array<u8>, p: nat, v: u32, ghost head: Bytes, ghost fs: seq<Field>, ghost k: nat) returns (q: nat)
    requires k < |fs| && fs[k] == Narrow(v)
    requires p + 4 <= buf.Length && buf[..p] == head + Encoded(fs[..k])
    modifies buf
    ensures q == p + 4 && buf[..q] == head + Encoded(fs[..k + 1])
  {
    Copy(buf, p, Be32(v));
    EncodedTake(fs, k);
    Assoc(head, Encoded(fs[..k]), Be32(v));
    q := p + 4;
  }

  method W64(buf: array<u8>, p: nat, v: u64, ghost head: Bytes, ghost fs: seq<Field>, ghost k: nat) returns (q: nat)
    requires k < |fs| && fs[k] == Wide(v)
    requires p + 8 <= buf.Length && buf[..p] == head + Encoded(fs[..k])
    modifies buf
    ensures q == p + 8 && buf[..q] == head + Encoded(fs[..k + 1])
  {
    Copy(buf, p, Be32(v / 0x1_0000_0000));
    Copy(buf, p + 4, Be32(v % 0x1_0000_0000));
    EncodedTake(fs, k);
    Assoc(head + Encoded(fs[..k]), Be32(v / 0x1_0000_0000), Be32(v % 0x1_0000_0000));
    Assoc(head, Encoded(fs[..k]), Be64(v));
    q := p + 8;
  }

  lemma EncodedTake(fs: seq<Field>, k: nat)
    requires k < |fs|
    ensures Encoded(fs[..k + 1]) == Encoded(fs[..k]) + FieldBytes(fs[k])
  {
    assert fs[..k + 1] == fs[..k] + [fs[k]];
    EncodedSnoc(fs[..k], fs[k]);
  }

  lemma Start(head: Bytes, fs: seq<Field>)
    ensures head == head + Encoded(fs[..0])
  {
  }

  /** Header, type byte and all the fields make the frame of a message without entries. */
  lemma Finished(bytes: Bytes, m: Message, head: Bytes)
    requires WellFormed(m) && !m.AppendReq?
    requires head == Be32(1 + Size(FieldLayout(Kind(m)))) + [Kind(m)]
    requires bytes == head + Encoded(Fields(m)[..|Fields(m)|])
    ensures bytes == Frame(m)
  {
    hide FieldLayout, Encoded;
    FieldsFit(m);
    EncodedSize(Fields(m));
    assert Fields(m)[..|Fields(m)|] == Fields(m);
    assert Body(m) == Encoded(Fields(m));
    Assoc(Be32(|Payload(m)|), [Kind(m)], Encoded(Fields(m)));
  }

  method EncodeVoteReq(term: s64, candidate: s32, lastIdx: s64, lastTerm: s64) returns (buf: array<u8>)
    ensures fresh(buf) && buf[..] == Frame(VoteReq(term, candidate, lastIdx, lastTerm))
  {
    hide Encoded, Be32, Be64;
    ghost var m := VoteReq(term, candidate, lastIdx, lastTerm);
    ghost var fs := Fields(m);
    LayoutSizes();
    buf := FrameAlloc(1, 28);
    ghost var head := buf[..5];
    Start(head, fs);
    var p := W64(buf, 5, U64(term), head, fs, 0);
    p := W32(buf, p, U32(candidate), head, fs, 1);
    p := W64(buf, p, U64(lastIdx), head, fs, 2);
    p := W64(buf, p, U64(lastTerm), head, fs, 3);
    Finished(buf[..p], m, head);
  }

  method EncodeVoteResp(term: s64, granted: s32) returns (buf: array<u8>)
    ensures fresh(buf) && buf[..] == Frame(VoteResp(term, granted))
  {
    hide Encoded, Be32, Be64;
    ghost var m := VoteResp(term, granted);
    ghost var fs := Fields(m);
    LayoutSizes();
    buf := FrameAlloc(2, 12);
    ghost var head := buf[..5];
    Start(head, fs);
    var p := W64(buf, 5, U64(term), head, fs, 0);
    p := W32(buf, p, U32(granted), head, fs, 1);
    Finished(buf[..p], m, head);
  }

  method EncodeAppendResp(term: s64, success: s32, currentIdx: s64, firstIdx: s64) returns (buf: array<u8>)
    ensures fresh(buf) && buf[..] == Frame(AppendResp(term, success, currentIdx, firstIdx))
  {
    hide Encoded, Be32, Be64;
    ghost var m := AppendResp(term, success, currentIdx, firstIdx);
    ghost var fs := Fields(m);
    LayoutSizes();
    buf := FrameAlloc(4, 28);
    ghost var head := buf[..5];
    Start(head, fs);
    var p := W64(buf, 5, U64(term), head, fs, 0);
    p := W32(buf, p, U32(success), head, fs, 1);
    p := W64(buf, p, U64(currentIdx), head, fs, 2);
    p := W64(buf, p, U64(firstIdx), head, fs, 3);
    Finished(buf[..p], m, head);
  }

  method EncodeIdent(node: u32) returns (buf: array<u8>)
    ensures fresh(buf) && buf[..] == Frame(Ident(node))
  {
    hide Encoded, Be32, Be64;
    ghost var m := Ident(node);
    ghost var fs := Fields(m);
    LayoutSizes();
    buf := FrameAlloc(5, 4);
    ghost var head := buf[..5];
    Start(head, fs);
    var p := W32(buf, 5, node, head, fs, 0);
    Finished(buf[..p], m, head);
  }

  lemma EntriesTake(es: seq<Entry>, i: nat)
    requires StorableAll(es) && i < |es|
    ensures EntriesBytes(es[..i + 1]) == EntriesBytes(es[..i]) + EntryBytes(es[i])
    ensures |EntryBytes(es[i])| == 20 + |es[i].data|
    ensures |EntriesBytes(es[..i])| + |EntryBytes(es[i])| <= |EntriesBytes(es)|
  {
    hide EntryBytes;
    EntriesAppend(es[..i], [es[i]]);
    EntriesAppend(es[..i], es[i..]);
    assert es[..i] + [es[i]] == es[..i + 1] && es[..i] + es[i..] == es;
    assert es[i..][0] == es[i];
    EntrySize(es[i]);
    assert EntriesBytes([es[i]]) == EntryBytes(es[i]) + EntriesBytes([]) by {
      assert [es[i]][1..] == [];
    }
  }

  lemma EntrySize(e: Entry)
    requires Storable(e)
    ensures |EntryBytes(e)| == 20 + |e.data|
  {
    hide Encoded;
    EntryFieldsFit(e);
  }

  lemma {:induction false} EntriesAppend(a: seq<Entry>, b: seq<Entry>)
    requires StorableAll(a) && StorableAll(b)
    ensures EntriesBytes(a + b) == EntriesBytes(a) + EntriesBytes(b)
  {
    hide EntryBytes;
    if a == [] {
      assert a + b == b;
    } else {
      EntriesAppend(a[1..], b);
      assert (a + b)[1..] == a[1..] + b;
      Assoc(EntryBytes(a[0]), EntriesBytes(a[1..]), EntriesBytes(b));
    }
  }

  method EncodeAppendReq(term: s64, prevIdx: s64, prevTerm: s64, commit: s64, count: s32, entries: array<Entry>)
      returns (buf: array<u8>)
    requires entries.Length == Max(0, count) && StorableAll(entries[..])
    requires 41 + |EntriesBytes(entries[..])| < U32_END
    ensures fresh(buf) && buf[..] == Frame(AppendReq(term, prevIdx, prevTerm, commit, count, entries[..]))
  {
    hide Encoded, EntryBytes, EntriesBytes, Be32, Be64, StorableAll;
    var size := EntriesSize(entries);
    ghost var es := entries[..];
    ghost var m := AppendReq(term, prevIdx, prevTerm, commit, count, es);
    ghost var fs := Fields(m);
    LayoutSizes();
    buf := FrameAlloc(3, 36 + size);
    ghost var head := buf[..5];
    Start(head, fs);
    var p := W64(buf, 5, U64(term), head, fs, 0);
    p := W64(buf, p, U64(prevIdx), head, fs, 1);
    p := W64(buf, p, U64(prevTerm), head, fs, 2);
    p := W64(buf, p, U64(commit), head, fs, 3);
    p := W32(buf, p, U32(count), head, fs, 4);
    p := WriteEntries(buf, p, entries);
    FinishedAppend(buf[..p], m, head);
  }

  lemma FinishedAppend(bytes: Bytes, m: Message, head: Bytes)
    requires WellFormed(m) && m.AppendReq?
    requires head == Be32(37 + |EntriesBytes(m.entries)|) + [3]
    requires bytes == head + Encoded(Fields(m)[..5]) + EntriesBytes(m.entries)
    ensures bytes == Frame(m)
  {
    hide FieldLayout, Encoded;
    FieldsFit(m);
    EncodedSize(Fields(m));
    LayoutSizes();
    assert Fields(m)[..5] == Fields(m);
    Assoc(head, Encoded(Fields(m)), EntriesBytes(m.entries));
    Assoc(Be32(|Payload(m)|), [3], Body(m));
  }

  /** The first pass over the entries, in 32 bits. */
  method EntriesSize(entries: array<Entry>) returns (size: nat)
    requires StorableAll(entries[..]) && |EntriesBytes(entries[..])| < U32_END
    ensures size == |EntriesBytes(entries[..])|
  {
    hide EntryBytes;
    size := 0;
    for i := 0 to entries.Length
      invariant size == |EntriesBytes(entries[..][..i])|
    {
      EntriesTake(entries[..], i);
      size := (size + 8 + 4 + 4 + 4 + |entries[i].data|) % U32_END;
    }
    assert entries[..][..entries.Length] == entries[..];
  }

  lemma NoEntries(es: seq<Entry>, before: Bytes)
    requires StorableAll(es)
    ensures es[..0] == [] && EntriesBytes([]) == [] && before + [] == before
  {
  }

  method WriteEntry(buf: array<u8>, start: nat, e: Entry) returns (p: nat)
    requires Storable(e) && start + |EntryBytes(e)| <= buf.Length
    modifies buf
    ensures p == start + |EntryBytes(e)| && buf[..p] == old(buf[..start]) + EntryBytes(e)
  {
    hide Encoded, Be32, Be64;
    ghost var fs, before := EntryFields(e), buf[..start];
    EntrySize(e);
    Start(before, fs);
    p := W64(buf, start, U64(e.term), before, fs, 0);
    p := W32(buf, p, U32(e.id), before, fs, 1);
    p := W32(buf, p, U32(e.kind), before, fs, 2);
    p := W32(buf, p, |e.data|, before, fs, 3);
    assert fs[..4] == fs;
    Assoc(before, Encoded(fs), e.data);
    if |e.data| > 0 {
      Copy(buf, p, e.data);
      p := p + |e.data|;
    }
  }

  method WriteEntries(buf: array<u8>, start: nat, entries: array<Entry>) returns (p: nat)
    requires StorableAll(entries[..]) && start + |EntriesBytes(entries[..])| <= buf.Length
    modifies buf
    ensures p == start + |EntriesBytes(entries[..])|
    ensures buf[..p] == old(buf[..start]) + EntriesBytes(entries[..])
  {
    hide Encoded, EntryBytes, EntryFields;
    ghost var es, before := entries[..], buf[..start];
    p := start;
    NoEntries(es, before);
    for i := 0 to entries.Length
      invariant p == start + |EntriesBytes(es[..i])| <= buf.Length
      invariant buf[..p] == before + EntriesBytes(es[..i])
    {
      EntriesTake(es, i);
      p := WriteEntry(buf, p, entries[i]);
      Assoc(before, EntriesBytes(es[..i]), EntryBytes(es[i]));
    }
    assert es[..entries.Length] == es;
  }

  // ---------------------------------------------------------------- decode

  /** Reads the next field after those of a layout; base is where the fields start. */
  method R64(data: array<u8>, p: nat, ghost len: nat, ghost base: nat, ghost layout: Layout)
      returns (v: u64, q: nat)
    requires base <= p && p + 8 <= len <= data.Length && p == base + Size(layout)
    ensures q == p + 8 && Size(layout + [true]) == q - base
    ensures ReadFields(layout + [true], data[base..len]) == ReadFields(layout, data[base..len]) + [Wide(v)]
  {
    hide FromBe32, FromBe64;
    SizeSnoc(layout, true);
    ghost var d := data[base..len];
    assert d[p - base..] == data[p..len];
    assert Init(layout + [true]) == layout;
    var hi: u32 := FromBe32(data[p..p + 4]);
    var lo: u32 := FromBe32(data[p + 4..p + 8]);
    ghost var rest := data[p..len];
    SliceSlice(data[..], p, len, 0, 4);
    SliceSlice(data[..], p, len, 4, 8);
    assert rest == data[..][p..len];
    TwoWords(rest, data[p..p + 4], data[p + 4..p + 8]);
    v := JoinWords(hi, lo);
    q := p + 8;
  }

  method R32(data: array<u8>, p: nat, ghost len: nat, ghost base: nat, ghost layout: Layout)
      returns (v: u32, q: nat)
    requires base <= p && p + 4 <= len <= data.Length && p == base + Size(layout)
    ensures q == p + 4 && Size(layout + [false]) == q - base
    ensures ReadFields(layout + [false], data[base..len]) == ReadFields(layout, data[base..len]) + [Narrow(v)]
  {
    hide FromBe32;
    SizeSnoc(layout, false);
    ghost var d := data[base..len];
    assert d[p - base..] == data[p..len];
    assert Init(layout + [false]) == layout;
    v := FromBe32(data[p..p + 4]);
    OneWord(data[p..len], data[p..p + 4]);
    q := p + 4;
  }

  function JoinWords(hi: u32, lo: u32): u64 {
    hi * 0x1_0000_0000 + lo
  }

  lemma OneWord(d: Bytes, w: Bytes)
    requires |d| >= 4 && w == d[..4]
    ensures FromBe32(d) == FromBe32(w)
  {
    assert w[..4] == d[..4];
  }

  lemma TwoWords(d: Bytes, hi: Bytes, lo: Bytes)
    requires |d| >= 8 && hi == d[..4] && lo == d[4..8]
    ensures FromBe64(d) == JoinWords(FromBe32(hi), FromBe32(lo))
  {
    OneWord(d, hi);
    assert d[4..][..4] == lo;
    OneWord(d[4..], lo);
  }

  /** One entry at the cursor, or nothing when the bytes before len run out. */
  method DecodeEntry(data: array<u8>, base: nat, len: nat) returns (e: Option<Entry>, q: nat)
    requires base <= len <= data.Length
    ensures e.Some? ==> base <= q <= len && ReadEntry(data[base..len]) == Some((e.value, data[q..len]))
    ensures e.None? ==> ReadEntry(data[base..len]) == None
  {
    hide ReadFields;
    EntryLayoutSize();
    ghost var d := data[base..len];
    var rem := len - base;
    if rem < 20 {
      return None, base;
    }
    NoLayout(d);
    var term, p := R64(data, base, len, base, []);
    var id: u32, kind: u32, dlen: u32;
    id, p := R32(data, p, len, base, [true]);
    kind, p := R32(data, p, len, base, [true, false]);
    dlen, p := R32(data, p, len, base, [true, false, false]);
    rem := rem - 20;
    ghost var fs := ReadFields(ENTRY_LAYOUT, d);
    assert fs == [Wide(term), Narrow(id), Narrow(kind), Narrow(dlen)];
    if rem < dlen {
      return None, base;
    }
    SliceSlice(data[..], base, len, 20, 20 + dlen);
    SliceDrop(data[..], base, len, 20 + dlen);
    assert d == data[..][base..len];
    e := Some(Entry(S64(term), S32(id), S32(kind), data[p..p + dlen]));
    q := p + dlen;
  }

  lemma NoLayout(d: Bytes)
    ensures Size([]) == 0 && ReadFields([], d) == []
    ensures [] + [true] == [true] && [true] + [false] == [true, false]
    ensures [true, false] + [false] == [true, false, false]
    ensures [true, false, false] + [false] == ENTRY_LAYOUT
  {
  }

  /** The entries of an append, up to n of them; the source frees what it has on failure. */
  method DecodeEntries(data: array<u8>, base: nat, len: nat, n: nat) returns (es: Option<seq<Entry>>)
    requires base <= len <= data.Length
    ensures es == ReadEntries(data[base..len], n)
  {
    hide ReadEntry;
    var entries: seq<Entry> := [];
    var p := base;
    NothingJoined(ReadEntries(data[base..len], n));
    for i := 0 to n
      invariant base <= p <= len
      invariant ReadEntries(data[base..len], n) == Joined(entries, ReadEntries(data[p..len], n - i))
    {
      var e;
      ghost var left := ReadEntries(data[p..len], n - i);
      e, p := DecodeEntry(data, p, len);
      if e.None? {
        return None;
      }
      ghost var tail := ReadEntries(data[p..len], n - i - 1);
      assert left == if tail.None? then None else Some([e.value] + tail.value);
      JoinedStep(entries, e.value, tail);
      entries := entries + [e.value];
    }
    es := Some(entries);
    assert entries + [] == entries;
  }

  function Joined(done: seq<Entry>, rest: Option<seq<Entry>>): Option<seq<Entry>> {
    if rest.None? then None else Some(done + rest.value)
  }

  lemma NothingJoined(rest: Option<seq<Entry>>)
    ensures Joined([], rest) == rest
  {
    assert rest.Some? ==> [] + rest.value == rest.value;
  }

  lemma JoinedStep(done: seq<Entry>, e: Entry, tail: Option<seq<Entry>>)
    ensures Joined(done, if tail.None? then None else Some([e] + tail.value)) == Joined(done + [e], tail)
  {
    if tail.Some? {
      Assoc(done, [e], tail.value);
    }
  }

  /** Fields read and entries read make the decoded message. */
  lemma DecodedParts(d: Bytes, kind: u8, fs: seq<Field>, body: Bytes)
    requires d != [] && d[0] == kind && d[1..] == body && 1 <= kind <= 5
    requires |body| >= Size(FieldLayout(kind)) && fs == ReadFields(FieldLayout(kind), body)
    ensures var es := ReadEntries(body[Size(FieldLayout(kind))..], CountOf(kind, fs));
            Decoded(d) == if es.None? then None else Some(Make(kind, fs, es.value))
  {
    hide ReadFields, ReadEntries;
  }

  lemma NoneToRead(d: Bytes)
    ensures ReadEntries(d, 0) == Some([])
  {
  }

  /** raft_rpc_decode: nothing past len matters. */
  method Decode(data: array<u8>, len: nat) returns (r: Option<Message>)
    requires len <= data.Length
    ensures r == Decoded(data[..len])
  {
    hide ReadFields, ReadEntries;
    if len < 1 {
      return None;
    }
    var kind, rem := data[0], len - 1;
    ghost var d, body := data[..len], data[1..len];
    assert d[1..] == body;
    LayoutSizes();
    if kind == 1 && rem >= 28 {
      r := DecodeVoteReq(data, len);
    } else if kind == 2 && rem >= 12 {
      r := DecodeVoteResp(data, len);
    } else if kind == 3 && rem >= 36 {
      r := DecodeAppendReq(data, len);
    } else if kind == 4 && rem >= 28 {
      r := DecodeAppendResp(data, len);
    } else if kind == 5 && rem >= 4 {
      r := DecodeIdent(data, len);
    } else {
      r := None;
    }
  }

  method DecodeVoteReq(data: array<u8>, len: nat) returns (r: Option<Message>)
    requires 29 <= len <= data.Length && data[0] == 1
    ensures r == Decoded(data[..len])
  {
    hide ReadFields, ReadEntries, Decoded, S64, S32, Size;
    ghost var body := data[1..len];
    NoLayout(body);
    LayoutSizes();
    var term, p := R64(data, 1, len, 1, []);
    var candidate, lastIdx, lastTerm;
    candidate, p := R32(data, p, len, 1, [true]);
    lastIdx, p := R64(data, p, len, 1, [true, false]);
    assert [true, false] + [true] == [true, false, true];
    lastTerm, p := R64(data, p, len, 1, [true, false, true]);
    assert [true, false, true] + [true] == FieldLayout(1);
    ghost var fs := [Wide(term), Narrow(candidate), Wide(lastIdx), Wide(lastTerm)];
    assert ReadFields(FieldLayout(1), body) == fs;
    DecodedParts(data[..len], 1, fs, body);
    NoneToRead(body[28..]);
    r := Some(VoteReq(S64(term), S32(candidate), S64(lastIdx), S64(lastTerm)));
  }

  method DecodeVoteResp(data: array<u8>, len: nat) returns (r: Option<Message>)
    requires 13 <= len <= data.Length && data[0] == 2
    ensures r == Decoded(data[..len])
  {
    hide ReadFields, ReadEntries, Decoded, S64, S32, Size;
    ghost var body := data[1..len];
    NoLayout(body);
    LayoutSizes();
    var term, p := R64(data, 1, len, 1, []);
    var granted;
    granted, p := R32(data, p, len, 1, [true]);
    ghost var fs := [Wide(term), Narrow(granted)];
    assert ReadFields(FieldLayout(2), body) == fs;
    DecodedParts(data[..len], 2, fs, body);
    NoneToRead(body[12..]);
    r := Some(VoteResp(S64(term), S32(granted)));
  }

  method DecodeAppendResp(data: array<u8>, len: nat) returns (r: Option<Message>)
    requires 29 <= len <= data.Length && data[0] == 4
    ensures r == Decoded(data[..len])
  {
    hide ReadFields, ReadEntries, Decoded, S64, S32, Size;
    ghost var body := data[1..len];
    NoLayout(body);
    LayoutSizes();
    var term, p := R64(data, 1, len, 1, []);
    var success, currentIdx, firstIdx;
    success, p := R32(data, p, len, 1, [true]);
    currentIdx, p := R64(data, p, len, 1, [true, false]);
    assert [true, false] + [true] == [true, false, true];
    firstIdx, p := R64(data, p, len, 1, [true, false, true]);
    assert [true, false, true] + [true] == FieldLayout(4);
    ghost var fs := [Wide(term), Narrow(success), Wide(currentIdx), Wide(firstIdx)];
    assert ReadFields(FieldLayout(4), body) == fs;
    DecodedParts(data[..len], 4, fs, body);
    NoneToRead(body[28..]);
    r := Some(AppendResp(S64(term), S32(success), S64(currentIdx), S64(firstIdx)));
  }

  method DecodeIdent(data: array<u8>, len: nat) returns (r: Option<Message>)
    requires 5 <= len <= data.Length && data[0] == 5
    ensures r == Decoded(data[..len])
  {
    hide ReadFields, ReadEntries, Decoded, S64, S32, Size;
    ghost var body := data[1..len];
    NoLayout(body);
    LayoutSizes();
    var node, p := R32(data, 1, len, 1, []);
    assert [] + [false] == FieldLayout(5);
    ghost var fs := [Narrow(node)];
    assert ReadFields(FieldLayout(5), body) == fs;
    DecodedParts(data[..len], 5, fs, body);
    NoneToRead(body[4..]);
    r := Some(Ident(node));
  }

  method DecodeAppendReq(data: array<u8>, len: nat) returns (r: Option<Message>)
    requires 37 <= len <= data.Length && data[0] == 3
    ensures r == Decoded(data[..len])
  {
    hide ReadFields, ReadEntries, Decoded, S64, S32, Size;
    ghost var body := data[1..len];
    NoLayout(body);
    LayoutSizes();
    var term, p := R64(data, 1, len, 1, []);
    var prevIdx, prevTerm, commit, count;
    assert [true] + [true] == [true, true];
    prevIdx, p := R64(data, p, len, 1, [true]);
    assert [true, true] + [true] == [true, true, true];
    prevTerm, p := R64(data, p, len, 1, [true, true]);
    assert [true, true, true] + [true] == [true, true, true, true];
    commit, p := R64(data, p, len, 1, [true, true, true]);
    assert [true, true, true, true] + [false] == FieldLayout(3);
    count, p := R32(data, p, len, 1, [true, true, true, true]);
    ghost var fs := [Wide(term), Wide(prevIdx), Wide(prevTerm), Wide(commit), Narrow(count)];
    assert ReadFields(FieldLayout(3), body) == fs;
    DecodedParts(data[..len], 3, fs, body);
    assert body[36..] == data[p..len];
    if S32(count) > 0 {
      var es := DecodeEntries(data, p, len, S32(count));
      if es.None? {
        return None;
      }
      r := Some(AppendReq(S64(term), S64(prevIdx), S64(prevTerm), S64(commit), S32(count), es.value));
    } else {
      NoneToRead(body[36..]);
      r := Some(AppendReq(S64(term), S64(prevIdx), S64(prevTerm), S64(commit), S32(count), []));
    }
  }
}
