/**
 Network-order integers and the byte buffers they are written to: the cursor helpers shared
 by the batch codec, the raft messages and the frame headers.
 */
module Wire {
  import opened Machine

  type Bytes = seq<u8>

  function Pow256(n: nat): nat {
    if n == 0 then 1 else 256 * Pow256(n - 1)
  }

  /** The n low-order bytes of v, most significant first. */
  function BigEndian(v: nat, n: nat): (r: Bytes)
    ensures |r| == n
  {
    if n == 0 then [] else BigEndian(v / 256, n - 1) + [v % 256]
  }

  function Number(b: Bytes): nat {
    if b == [] then 0 else Number(Init(b)) * 256 + Last(b)
  }

  lemma {:induction false} NumberOfBigEndian(v: nat, n: nat)
    requires v < Pow256(n)
    ensures Number(BigEndian(v, n)) == v
  {
    if n > 0 {
      assert v / 256 < Pow256(n - 1);
      NumberOfBigEndian(v / 256, n - 1);
      assert Init(BigEndian(v, n)) == BigEndian(v / 256, n - 1);
    }
  }

  lemma {:induction false} BigEndianOfNumber(b: Bytes)
    ensures BigEndian(Number(b), |b|) == b && Number(b) < Pow256(|b|)
  {
    if b != [] {
      BigEndianOfNumber(Init(b));
      var v := Number(b);
      assert v / 256 == Number(Init(b)) && v % 256 == Last(b);
      assert b == Init(b) + [Last(b)];
    }
  }

  lemma Pow256Values()
    ensures Pow256(4) == U32_END
  {
    assert Pow256(1) == 256;
    assert Pow256(2) == 0x1_0000;
    assert Pow256(3) == 0x100_0000;
  }

  /** The low 32 bits, as htonl of a cast to uint32_t leaves them. */
  function Be32(v: nat): (r: Bytes)
    ensures |r| == 4
  {
    BigEndian(v, 4)
  }

  /** The most significant byte first. */
  lemma Be32Bytes(a: u8, b: u8, c: u8, d: u8)
    ensures Be32(a * 0x100_0000 + b * 0x1_0000 + c * 0x100 + d) == [a, b, c, d]
  {
    var v := a * 0x100_0000 + b * 0x1_0000 + c * 0x100 + d;
    assert v / 256 == a * 0x1_0000 + b * 0x100 + c && v / 256 / 256 == a * 0x100 + b && v / 256 / 256 / 256 == a;
    assert BigEndian(0, 0) == [];
    assert BigEndian(a, 1) == BigEndian(a / 256, 0) + [a];
    assert BigEndian(a * 0x100 + b, 2) == BigEndian(a, 1) + [b];
    assert BigEndian(a * 0x1_0000 + b * 0x100 + c, 3) == BigEndian(a * 0x100 + b, 2) + [c];
    assert BigEndian(v, 4) == BigEndian(v / 256, 3) + [d];
  }

  function FromBe32(b: Bytes): u32
    requires |b| >= 4
  {
    BigEndianOfNumber(b[..4]);
    Pow256Values();
    Number(b[..4])
  }

  /** Decoding undoes encoding, whatever follows. */
  lemma Be32RoundTrip(v: u32, rest: Bytes)
    ensures FromBe32(Be32(v) + rest) == v
    ensures (Be32(v) + rest)[4..] == rest
  {
    Pow256Values();
    NumberOfBigEndian(v, 4);
    assert (Be32(v) + rest)[..4] == Be32(v);
  }

  /** Encoding undoes decoding: every four bytes are the encoding of what they decode to. */
  lemma Be32Onto(b: Bytes)
    requires |b| >= 4
    ensures Be32(FromBe32(b)) == b[..4]
  {
    BigEndianOfNumber(b[..4]);
  }

  /** The high word first, then the low word. */
  function Be64(v: nat): (r: Bytes)
    ensures |r| == 8
  {
    Be32(v / 0x1_0000_0000) + Be32(v % 0x1_0000_0000)
  }

  lemma Be64Bytes(a: u8, b: u8, c: u8, d: u8, e: u8, f: u8, g: u8, h: u8)
    ensures Be64((a * 0x100_0000 + b * 0x1_0000 + c * 0x100 + d) * 0x1_0000_0000 +
                 (e * 0x100_0000 + f * 0x1_0000 + g * 0x100 + h)) == [a, b, c, d, e, f, g, h]
  {
    hide Be32;
    Be32Bytes(a, b, c, d);
    Be32Bytes(e, f, g, h);
    var high, low := a * 0x100_0000 + b * 0x1_0000 + c * 0x100 + d, e * 0x100_0000 + f * 0x1_0000 + g * 0x100 + h;
    assert (high * 0x1_0000_0000 + low) / 0x1_0000_0000 == high && (high * 0x1_0000_0000 + low) % 0x1_0000_0000 == low;
  }

  function FromBe64(b: Bytes): u64
    requires |b| >= 8
  {
    FromBe32(b) * 0x1_0000_0000 + FromBe32(b[4..])
  }

  lemma Be64RoundTrip(v: u64, rest: Bytes)
    ensures FromBe64(Be64(v) + rest) == v
    ensures (Be64(v) + rest)[8..] == rest
  {
    var hi, lo := v / 0x1_0000_0000, v % 0x1_0000_0000;
    assert Be64(v) + rest == Be32(hi) + (Be32(lo) + rest);
    Be32RoundTrip(hi, Be32(lo) + rest);
    Be32RoundTrip(lo, rest);
  }

  lemma Be64Onto(b: Bytes)
    requires |b| >= 8
    ensures Be64(FromBe64(b)) == b[..8]
  {
    var hi, lo := FromBe32(b), FromBe32(b[4..]);
    Be32Onto(b);
    Be32Onto(b[4..]);
    assert FromBe64(b) / 0x1_0000_0000 == hi && FromBe64(b) % 0x1_0000_0000 == lo;
    assert b[..8] == b[..4] + b[4..][..4];
  }

  /** memcpy at a cursor. */
  method Copy(buf: array<u8>, p: nat, bs: Bytes)
    requires p + |bs| <= buf.Length
    modifies buf
    ensures buf[..p] == old(buf[..p])
    ensures buf[p..p + |bs|] == bs
    ensures buf[p + |bs|..] == old(buf[p + |bs|..])
    ensures buf[..p + |bs|] == old(buf[..p]) + bs
  {
    for i := 0 to |bs|
      invariant buf[..p] == old(buf[..p])
      invariant buf[p..p + i] == bs[..i]
      invariant buf[p + |bs|..] == old(buf[p + |bs|..])
    {
      buf[p + i] := bs[i];
    }
  }

  /** The same, moving the cursor. */
  method Append(buf: array<u8>, p: nat, bs: Bytes) returns (q: nat)
    requires p + |bs| <= buf.Length
    modifies buf
    ensures q == p + |bs| && buf[..q] == old(buf[..p]) + bs
  {
    Copy(buf, p, bs);
    q := p + |bs|;
  }
}
