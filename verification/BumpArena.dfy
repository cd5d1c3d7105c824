/**
 The bump allocator of src/qjs_snap.c. Blocks lie back to back from the start of the arena,
 each an eight-byte size header and its bytes, rounded up to 16. Nothing is ever freed; only the
 last block can change its size in place.
 */
module BumpArena {
  import opened Machine
  import opened Bits
  import opened Wire

  const SIZE: nat := 10 * 1024 * 1024
  const HEADER: nat := 8

  /** (sizeof header + size + 15) & ~15, in 64 bits. */
  function Need(size: u64): nat {
    And((HEADER + size + 15) % U64_END, U64_END - 16)
  }

  /** The space a block takes. */
  function Extent(size: nat): (r: nat)
    ensures r % 16 == 0 && HEADER + size <= r < HEADER + size + 16
  {
    HEADER + size + 15 - (HEADER + size + 15) % 16
  }

  /** No sum of the allocator wraps around for this request. */
  predicate NoWrap(used: nat, size: u64) {
    used + HEADER + size + 15 < U64_END
  }

  lemma NeedRounds(size: u64)
    ensures Need(size) == (HEADER + size + 15) % U64_END - (HEADER + size + 15) % U64_END % 16
  {
    hide Pow2;
    PowerValues();
    HighMaskRounds((HEADER + size + 15) % U64_END, 64, 4);
  }

  /** The 64-bit test of the allocator reserves room for the block exactly when nothing wraps. */
  lemma ReservesIff(used: nat, size: u64)
    requires used % 16 == 0 && used <= SIZE
    ensures (used + Need(size)) % U64_END == used + Extent(size) <==> NoWrap(used, size)
    ensures NoWrap(used, size) ==> Need(size) == Extent(size)
  {
    hide Need;
    NeedRounds(size);
    var sum := HEADER + size + 15;
    Bits.ModBelow(sum % U64_END, U64_END);
    if sum < U64_END {
      Bits.ModBelow(sum, U64_END);
      assert Need(size) == Extent(size);
      if used + Need(size) >= U64_END {
        assert !NoWrap(used, size);
        assert (used + Need(size)) % U64_END == used + Need(size) - U64_END;
      } else {
        Bits.ModBelow(used + Need(size), U64_END);
        NothingBetween(used, sum);
      }
    } else {
      assert sum % U64_END == sum - U64_END < 32;
      assert Need(size) < 32;
    }
  }

  /** And so does the test for count objects of a size, exactly when neither the product nor a sum
      wraps around. */
  lemma CallocReservesIff(used: nat, count: u64, size: u64)
    requires used % 16 == 0 && used <= SIZE
    ensures (used + Need(count * size % U64_END)) % U64_END == used + Extent(count * size) <==>
            used + HEADER + count * size + 15 < U64_END
  {
    hide Need;
    var product := count * size;
    Product(count, size);
    if product < U64_END {
      Bits.ModBelow(product, U64_END);
      ReservesIff(used, product);
    } else {
      assert used + Extent(product) >= U64_END;
    }
  }

  lemma Product(count: nat, size: nat)
    ensures count * size >= 0
  {
  }

  /** A request near 2^64 wraps to the smallest block and is granted. */
  lemma HugeRequestIsGranted()
    ensures (0 + Need(U64_MAX)) % U64_END <= SIZE && Need(U64_MAX) == 16
  {
    hide Need;
    NeedRounds(U64_MAX);
  }

  lemma NothingBetween(used: nat, sum: nat)
    requires used % 16 == 0 && used + (sum - sum % 16) < U64_END
    ensures used + sum < U64_END
  {
    assert U64_END % 16 == 0;
    assert (sum - sum % 16) % 16 == 0;
    assert (used + (sum - sum % 16)) % 16 == 0;
  }

  // A header: where the block starts and how many bytes the caller asked for.
  datatype Block = Block(off: nat, size: nat)

  /** The blocks lie back to back from 0 to used. */
  predicate Tiled(blocks: seq<Block>, used: nat) {
    if blocks == [] then used == 0
    else Last(blocks).off + Extent(Last(blocks).size) == used && Tiled(Init(blocks), Last(blocks).off)
  }

  lemma {:induction false} TiledAligns(blocks: seq<Block>, used: nat)
    requires Tiled(blocks, used)
    ensures used % 16 == 0
    ensures forall i :: 0 <= i < |blocks| ==> blocks[i].off % 16 == 0
    ensures forall i :: 0 <= i < |blocks| ==> blocks[i].off + Extent(blocks[i].size) <= used
  {
    if blocks != [] {
      TiledAligns(Init(blocks), Last(blocks).off);
    }
  }

  /** Earlier blocks end before later ones start. */
  lemma {:induction false} TiledApart(blocks: seq<Block>, used: nat, i: nat, j: nat)
    requires Tiled(blocks, used) && i < j < |blocks|
    ensures blocks[i].off + Extent(blocks[i].size) <= blocks[j].off
  {
    if j < |blocks| - 1 {
      TiledApart(Init(blocks), Last(blocks).off, i, j);
    } else {
      TiledAligns(Init(blocks), Last(blocks).off);
      assert Init(blocks)[i] == blocks[i];
    }
  }

  /** Every byte below used belongs to exactly one block. */
  lemma {:induction false} TiledCovers(blocks: seq<Block>, used: nat, at: nat)
    requires Tiled(blocks, used)
    ensures at < used <==>
            exists i :: 0 <= i < |blocks| && blocks[i].off <= at < blocks[i].off + Extent(blocks[i].size)
    ensures forall i, j :: 0 <= i < j < |blocks| ==>
              !(blocks[i].off <= at < blocks[i].off + Extent(blocks[i].size) && blocks[j].off <= at)
  {
    TiledAligns(blocks, used);
    forall i, j | 0 <= i < j < |blocks|
      ensures blocks[i].off + Extent(blocks[i].size) <= blocks[j].off
    {
      TiledApart(blocks, used, i, j);
    }
    if blocks != [] && at < used {
      var n := |blocks| - 1;
      if blocks[n].off <= at {
        assert blocks[n].off <= at < blocks[n].off + Extent(blocks[n].size);
      } else {
        TiledCovers(Init(blocks), blocks[n].off, at);
        var i :| 0 <= i < n && Init(blocks)[i].off <= at < Init(blocks)[i].off + Extent(Init(blocks)[i].size);
        assert blocks[i].off <= at < blocks[i].off + Extent(blocks[i].size);
      }
    }
  }

  /** The diff over 8-byte slots sees every used byte. */
  lemma SlotsMissNothing(blocks: seq<Block>, used: nat)
    requires Tiled(blocks, used)
    ensures used / 8 * 8 == used
  {
    hide Extent;
    TiledAligns(blocks, used);
    EightDivides(used);
  }

  lemma EightDivides(n: nat)
    requires n % 16 == 0
    ensures n / 8 * 8 == n
  {
  }

  // ---------------------------------------------------------------- what memory says

  /** Each header in memory holds the size of its block. */
  predicate Headed(mem: Bytes, blocks: seq<Block>) {
    forall i :: 0 <= i < |blocks| ==>
      blocks[i].size < U64_END && blocks[i].off + HEADER <= |mem| &&
      mem[blocks[i].off..blocks[i].off + HEADER] == Be64(blocks[i].size)
  }

  predicate Consistent(mem: Bytes, blocks: seq<Block>, used: nat) {
    |mem| == SIZE && used <= SIZE && Tiled(blocks, used) && Headed(mem, blocks)
  }

  function Payload(mem: Bytes, b: Block): (r: Bytes)
    requires b.off + HEADER + b.size <= |mem|
    ensures |r| == b.size
  {
    mem[b.off + HEADER..b.off + HEADER + b.size]
  }

  function Edited(b: Bytes, k: nat, v: u8): Bytes
    requires k < |b|
  {
    b[..k] + [v] + b[k + 1..]
  }

  lemma Fits(mem: Bytes, blocks: seq<Block>, used: nat, i: nat)
    requires Consistent(mem, blocks, used) && i < |blocks|
    ensures blocks[i].off + HEADER + blocks[i].size <= used <= |mem|
  {
    TiledAligns(blocks, used);
  }

  /** The bytes of every block: what the users of the allocator see. */
  ghost function Views(mem: Bytes, blocks: seq<Block>, used: nat): (r: seq<Bytes>)
    requires Consistent(mem, blocks, used)
    ensures |r| == |blocks|
    ensures forall i :: 0 <= i < |blocks| ==>
              blocks[i].off + HEADER + blocks[i].size <= |mem| && r[i] == Payload(mem, blocks[i])
  {
    assert forall i :: 0 <= i < |blocks| ==> blocks[i].off + HEADER + blocks[i].size <= |mem| by {
      forall i | 0 <= i < |blocks|
        ensures blocks[i].off + HEADER + blocks[i].size <= |mem|
      {
        Fits(mem, blocks, used, i);
      }
    }
    seq(|blocks|, i requires 0 <= i < |blocks| => Payload(mem, blocks[i]))
  }

  /** Appending a block with a header at the end leaves every other block alone. */
  lemma Appended(mem: Bytes, after: Bytes, blocks: seq<Block>, used: nat, size: u64)
    requires Consistent(mem, blocks, used) && used + Extent(size) <= SIZE == |after|
    requires after[..used] == mem[..used] && after[used..used + HEADER] == Be64(size)
    ensures Consistent(after, blocks + [Block(used, size)], used + Extent(size))
    ensures Views(after, blocks + [Block(used, size)], used + Extent(size)) ==
            Views(mem, blocks, used) + [after[used + HEADER..used + HEADER + size]]
  {
    hide Be64, Tiled;
    var b := Block(used, size);
    TiledSnoc(blocks, used, size);
    forall i | 0 <= i < |blocks|
      ensures after[blocks[i].off..blocks[i].off + HEADER] == mem[blocks[i].off..blocks[i].off + HEADER]
      ensures blocks[i].off + HEADER + blocks[i].size <= used
      ensures Payload(after, blocks[i]) == Payload(mem, blocks[i])
    {
      Fits(mem, blocks, used, i);
      SameSlice(mem, after, used, blocks[i].off, blocks[i].off + HEADER);
      SameSlice(mem, after, used, blocks[i].off + HEADER, blocks[i].off + HEADER + blocks[i].size);
    }
    assert Consistent(after, blocks + [b], used + Extent(size));
  }

  lemma TiledSnoc(blocks: seq<Block>, used: nat, size: nat)
    requires Tiled(blocks, used)
    ensures Tiled(blocks + [Block(used, size)], used + Extent(size))
  {
    hide Extent;
    assert Init(blocks + [Block(used, size)]) == blocks;
  }

  lemma SameSlice(a: Bytes, b: Bytes, n: nat, i: nat, j: nat)
    requires n <= |a| && n <= |b| && a[..n] == b[..n] && i <= j <= n
    ensures a[i..j] == b[i..j]
  {
    assert a[i..j] == a[..n][i..j];
    assert b[i..j] == b[..n][i..j];
  }

  /** Resizing the last block in place: the others stay, and the bytes it had before stay too. */
  lemma Resized(mem: Bytes, after: Bytes, blocks: seq<Block>, used: nat, size: u64)
    requires Consistent(mem, blocks, used) && blocks != []
    requires Last(blocks).off + Extent(size) <= SIZE == |after|
    requires var off := Last(blocks).off;
             after[..off] == mem[..off] && after[off..off + HEADER] == Be64(size) &&
             after[off + HEADER..] == mem[off + HEADER..]
    ensures var off := Last(blocks).off;
            var resized := Init(blocks) + [Block(off, size)];
            Consistent(after, resized, off + Extent(size)) &&
            Views(after, resized, off + Extent(size)) ==
              Init(Views(mem, blocks, used)) + [mem[off + HEADER..off + HEADER + size]]
  {
    hide Extent, Views, Headed, Tiled;
    var off := Last(blocks).off;
    Fits(mem, blocks, used, |blocks| - 1);
    Dropped(mem, blocks, used);
    Appended(mem, after, Init(blocks), off, size);
    DropSlice(mem, off + HEADER, size);
    DropSlice(after, off + HEADER, size);
  }

  lemma DropSlice(mem: Bytes, at: nat, n: nat)
    requires at + n <= |mem|
    ensures mem[at..at + n] == mem[at..][..n]
  {
  }

  lemma Dropped(mem: Bytes, blocks: seq<Block>, used: nat)
    requires Consistent(mem, blocks, used) && blocks != []
    ensures Consistent(mem, Init(blocks), Last(blocks).off)
    ensures Views(mem, Init(blocks), Last(blocks).off) == Init(Views(mem, blocks, used))
  {
    hide Extent;
    Fits(mem, blocks, used, |blocks| - 1);
  }

  /** Writing inside one block changes that block only, and no header. */
  lemma Stored(mem: Bytes, blocks: seq<Block>, used: nat, i: nat, k: nat, v: u8)
    requires Consistent(mem, blocks, used) && i < |blocks| && k < blocks[i].size
    ensures blocks[i].off + HEADER + k < |mem|
    ensures var after := mem[blocks[i].off + HEADER + k := v];
            Consistent(after, blocks, used) &&
            Views(after, blocks, used) ==
              Views(mem, blocks, used)[i := Edited(Views(mem, blocks, used)[i], k, v)]
  {
    hide Extent, Edited, Tiled, Payload, Be64;
    Fits(mem, blocks, used, i);
    var after: Bytes := mem[blocks[i].off + HEADER + k := v];
    assert |after| == |mem|;
    forall j | 0 <= j < |blocks|
      ensures blocks[j].off + HEADER + blocks[j].size <= |mem|
      ensures after[blocks[j].off..blocks[j].off + HEADER] == mem[blocks[j].off..blocks[j].off + HEADER]
      ensures Payload(after, blocks[j]) ==
              if j == i then Edited(Payload(mem, blocks[j]), k, v) else Payload(mem, blocks[j])
    {
      StoredOne(mem, blocks, used, i, k, v, j);
    }
    assert Consistent(after, blocks, used);
  }

  lemma StoredOne(mem: Bytes, blocks: seq<Block>, used: nat, i: nat, k: nat, v: u8, j: nat)
    requires Consistent(mem, blocks, used) && i < |blocks| && j < |blocks| && k < blocks[i].size
    ensures blocks[i].off + HEADER + k < |mem| && blocks[j].off + HEADER + blocks[j].size <= |mem|
    ensures var after: Bytes := mem[blocks[i].off + HEADER + k := v];
            after[blocks[j].off..blocks[j].off + HEADER] == mem[blocks[j].off..blocks[j].off + HEADER] &&
            Payload(after, blocks[j]) ==
              if j == i then Edited(Payload(mem, blocks[j]), k, v) else Payload(mem, blocks[j])
  {
    hide Extent, Edited, Tiled, Headed;
    var off, at := blocks[j].off, blocks[i].off + HEADER + k;
    Fits(mem, blocks, used, i);
    Fits(mem, blocks, used, j);
    if j < i {
      TiledApart(blocks, used, j, i);
    } else if i < j {
      TiledApart(blocks, used, i, j);
    }
    Patched(mem, at, v, off, off + HEADER);
    Patched(mem, at, v, off + HEADER, off + HEADER + blocks[j].size);
  }

  lemma Patched(mem: Bytes, at: nat, v: u8, lo: nat, hi: nat)
    requires at < |mem| && lo <= hi <= |mem|
    ensures mem[at := v][lo..hi] == if lo <= at < hi then Edited(mem[lo..hi], at - lo, v) else mem[lo..hi]
  {
  }

  /** Only the last block ends where the used part ends. */
  lemma EndsAtUsedIff(blocks: seq<Block>, used: nat, i: nat)
    requires Tiled(blocks, used) && i < |blocks|
    ensures blocks[i].off + Extent(blocks[i].size) == used <==> i == |blocks| - 1
  {
    if i < |blocks| - 1 {
      TiledApart(blocks, used, i, |blocks| - 1);
    }
  }

  /** The size of a block fits the arena, so its 64-bit extent is its extent. */
  lemma StoredTotal(mem: Bytes, blocks: seq<Block>, used: nat, i: nat)
    requires Consistent(mem, blocks, used) && i < |blocks|
    ensures blocks[i].size < U64_END && Need(blocks[i].size) == Extent(blocks[i].size)
  {
    hide Need;
    Fits(mem, blocks, used, i);
    ReservesIff(0, blocks[i].size);
  }

  /** used + (new - old), both modulo 2^64, is where the resized last block ends. */
  lemma GrowthIs(off: nat, taken: nat, used: nat, size: u64)
    requires used == off + taken && used <= SIZE && off % 16 == 0 && NoWrap(used, size)
    ensures (used + (Need(size) - taken) % U64_END) % U64_END == off + Extent(size)
  {
    hide Need;
    ReservesIff(off, size);
    var n := Need(size);
    if n >= taken {
      Bits.ModBelow(n - taken, U64_END);
      Bits.ModBelow(used + (n - taken), U64_END);
    } else {
      assert (n - taken) % U64_END == n - taken + U64_END;
      assert (used + (n - taken + U64_END)) % U64_END == off + n;
    }
  }

  /** The same bytes up to the shorter length. */
  predicate Agree(a: Bytes, b: Bytes) {
    a[..Min(|a|, |b|)] == b[..Min(|a|, |b|)]
  }

  lemma AgreeSlices(mem: Bytes, at: nat, n: nat, m: nat)
    requires at + n <= |mem| && at + m <= |mem|
    ensures Agree(mem[at..at + m], mem[at..at + n])
  {
  }

  /** After copying the common part to the new block, old and new agree. */
  lemma CopiedAgree(mem: Bytes, headed: Bytes, after: Bytes, p: nat, n: nat, q: nat, m: nat, end: nat)
    requires p + n <= end <= |mem| && end <= |headed| && headed[..end] == mem[..end]
    requires q + m <= |after| && after[q..q + Min(n, m)] == headed[p..p + Min(n, m)]
    ensures Agree(after[q..q + m], mem[p..p + n])
  {
    SameSlice(mem, headed, end, p, p + Min(n, m));
    assert after[q..q + m][..Min(n, m)] == after[q..q + Min(n, m)];
    assert mem[p..p + n][..Min(n, m)] == mem[p..p + Min(n, m)];
  }

  lemma HeaderOfLast(mem: Bytes, blocks: seq<Block>, used: nat)
    requires Consistent(mem, blocks, used) && blocks != []
    ensures Last(blocks).off + HEADER + Last(blocks).size <= |mem|
    ensures mem[Last(blocks).off..Last(blocks).off + HEADER] == Be64(Last(blocks).size)
  {
    Fits(mem, blocks, used, |blocks| - 1);
  }

  /** Two memories that agree below p agree on what lies below p. */
  lemma Below(a: Bytes, b: Bytes, p: nat, off: nat)
    requires off + HEADER == p <= |a| && p <= |b| && a[..p] == b[..p]
    ensures a[..off] == b[..off] && a[off..p] == b[off..p]
  {
    SameSlice(a, b, p, 0, off);
    SameSlice(a, b, p, off, p);
  }

  // ---------------------------------------------------------------- the allocator

  class Arena {
    const data: array<u8>
    var used: nat
    ghost var blocks: seq<Block>

    ghost predicate Valid()
      reads this, data
    {
      Consistent(data[..], blocks, used)
    }

    ghost function View(): seq<Bytes>
      requires Valid()
      reads this, data
    {
      Views(data[..], blocks, used)
    }

    constructor (data: array<u8>)
      requires data.Length == SIZE
      ensures Valid() && this.data == data && blocks == [] && View() == []
    {
      this.data := data;
      used := 0;
      blocks := [];
    }

    method Malloc(size: u64) returns (p: Option<nat>)
      requires Valid() && NoWrap(used, size)
      modifies this, data
      ensures Valid()
      ensures p.Some? <==> old(used) + Extent(size) <= 10 * 1024 * 1024
      ensures p.None? ==> blocks == old(blocks) && used == old(used) && data[..] == old(data[..])
      ensures p.Some? ==>
                p.value == old(used) + HEADER && blocks == old(blocks) + [Block(old(used), size)] &&
                data[..old(used)] == old(data[..used]) &&
                View() == old(View()) + [data[p.value..p.value + size]]
    {
      hide Need, Extent, NoWrap, Views, Headed, Tiled;
      ghost var mem := data[..];
      TiledAligns(blocks, used);
      ReservesIff(used, size);
      var need := Need(size);
      if (used + need) % U64_END > SIZE {
        return None;
      }
      var off := used;
      used := used + need;
      Copy(data, off, Be64(size));
      Appended(mem, data[..], blocks, off, size);
      blocks := blocks + [Block(off, size)];
      p := Some(off + HEADER);
    }

    /** The size in the header of a block is the size it was asked for. */
    method UsableSize(ghost i: nat, p: nat) returns (size: u64)
      requires Valid() && i < |blocks| && p == blocks[i].off + HEADER
      ensures size == blocks[i].size == |View()[i]|
    {
      Fits(data[..], blocks, used, i);
      var header := data[p - HEADER..p];
      assert header == data[..][p - HEADER..p];
      Be64RoundTrip(blocks[i].size, []);
      assert Be64(blocks[i].size) + [] == Be64(blocks[i].size);
      size := FromBe64(header);
    }

    method Calloc(count: u64, size: u64) returns (p: Option<nat>)
      requires Valid() && count * size < U64_END && NoWrap(used, count * size)
      modifies this, data
      ensures Valid()
      ensures p.Some? <==> old(used) + Extent(count * size) <= SIZE
      ensures p.None? ==> blocks == old(blocks) && used == old(used) && data[..] == old(data[..])
      ensures p.Some? ==>
                p.value == old(used) + HEADER && blocks == old(blocks) + [Block(old(used), count * size)] &&
                |View()| == |old(View())| + 1 && View()[..|old(View())|] == old(View()) &&
                |Last(View())| == count * size && forall k :: 0 <= k < count * size ==> Last(View())[k] == 0
    {
      hide Need, Extent, NoWrap, Views, Headed, Tiled;
      ghost var mem := data[..];
      ghost var off := used;
      var total := count * size % U64_END;
      Bits.ModBelow(count * size, U64_END);
      p := Malloc(total);
      if p.Some? {
        ghost var headed := data[..];
        HeaderOfLast(headed, blocks, used);
        Copy(data, p.value, Zeros(total));
        Below(headed, data[..], p.value, off);
        Appended(mem, data[..], old(blocks), off, total);
        assert data[..][p.value..p.value + total] == Zeros(total);
        assert View() == old(View()) + [Zeros(total)];
      }
    }

    method Free(p: Option<nat>)
      ensures data[..] == old(data[..]) && blocks == old(blocks) && used == old(used)
    {
    }

    /** What a caller may do with its own block. */
    method Store(ghost i: nat, p: nat, k: nat, v: u8)
      requires Valid() && i < |blocks| && k < blocks[i].size && p == blocks[i].off + HEADER
      modifies data
      ensures Valid() && View() == old(View())[i := Edited(old(View())[i], k, v)]
    {
      Stored(data[..], blocks, used, i, k, v);
      ghost var mem := data[..];
      data[p + k] := v;
      assert data[..] == mem[p + k := v];
    }

    /** used + (new total - old total), in 64 bits. */
    method Grown(header: nat, oldSize: u64, size: u64) returns (end: nat)
      requires Valid() && blocks != [] && Last(blocks) == Block(header, oldSize) && NoWrap(used, size)
      ensures end == header + Extent(size)
    {
      hide Need, NoWrap, Extent, Headed, Tiled;
      StoredTotal(data[..], blocks, used, |blocks| - 1);
      EndsAtUsedIff(blocks, used, |blocks| - 1);
      TiledAligns(blocks, used);
      var oldTotal := Need(oldSize);
      var delta := (Need(size) - oldTotal) % U64_END;
      GrowthIs(header, oldTotal, used, size);
      end := (used + delta) % U64_END;
    }

    /** Growing or shrinking the last block where it is. */
    method ResizeLast(header: nat, size: u64) returns (ok: bool)
      requires Valid() && blocks != [] && header == Last(blocks).off && NoWrap(used, size)
      modifies this, data
      ensures Valid()
      ensures ok == (header + Extent(size) <= SIZE)
      ensures !ok ==> blocks == old(blocks) && used == old(used) && data[..] == old(data[..])
      ensures ok ==>
                blocks == old(Init(blocks)) + [Block(header, size)] &&
                |View()| == |old(View())| && Init(View()) == old(Init(View())) &&
                Agree(Last(View()), old(Last(View())))
    {
      hide Need, NoWrap, Extent, Views, Headed, Tiled, Agree, Be64;
      ghost var mem, was := data[..], blocks;
      ghost var b := Last(blocks);
      Fits(mem, blocks, used, |blocks| - 1);
      var oldSize := UsableSize(|blocks| - 1, header + HEADER);
      ghost var end := used;
      var grown := Grown(header, oldSize, size);
      if grown > SIZE {
        return false;
      }
      used := grown;
      Copy(data, header, Be64(size));
      ghost var after := data[..];
      assert after[..header] == mem[..header] && after[header + HEADER..] == mem[header + HEADER..];
      Resized(mem, after, was, end, size);
      AgreeSlices(mem, header + HEADER, b.size, size);
      blocks := Init(was) + [Block(header, size)];
      ok := true;
    }

    /** A copy of block i in a new block of the given size. */
    method Move(ghost i: nat, p: nat, oldSize: u64, size: u64) returns (q: Option<nat>)
      requires Valid() && i < |blocks| && p == blocks[i].off + HEADER && oldSize == blocks[i].size
      requires NoWrap(used, size)
      modifies this, data
      ensures Valid()
      ensures q.Some? <==> old(used) + Extent(size) <= SIZE
      ensures q.None? ==> blocks == old(blocks) && used == old(used) && data[..] == old(data[..])
      ensures q.Some? ==>
                q.value == old(used) + HEADER && blocks == old(blocks) + [Block(old(used), size)] &&
                Init(View()) == old(View()) && Agree(Last(View()), old(View())[i])
    {
      hide Need, Extent, NoWrap, Views, Headed, Tiled, Agree;
      ghost var mem, was, end := data[..], blocks, used;
      Fits(mem, was, used, i);
      q := Malloc(size);
      if q.Some? {
        var n := Min(oldSize, size);
        ghost var headed := data[..];
        HeaderOfLast(headed, blocks, used);
        Copy(data, q.value, data[p..p + n]);
        ghost var after := data[..];
        Below(headed, after, q.value, end);
        Appended(mem, after, was, end, size);
        CopiedAgree(mem, headed, after, p, oldSize, q.value, size, end);
      }
    }

    /** The pointer is null or that of the block of the given number. */
    ghost predicate Names(p: Option<nat>, i: nat)
      requires Valid()
      reads this, data
    {
      p.Some? ==> i < |blocks| && p.value == blocks[i].off + HEADER
    }

    /** A null pointer allocates; the last block is resized where it is; any other block is copied
        to a new one. Every block other than the resized one keeps its bytes, and the result holds
        the bytes of the old block up to the shorter length. */
    method Realloc(p: Option<nat>, size: u64, ghost i: nat) returns (q: Option<nat>)
      requires Valid() && Names(p, i) && NoWrap(used, size)
      modifies this, data
      ensures Valid()
      ensures q.None? ==> blocks == old(blocks) && used == old(used) && data[..] == old(data[..])
      ensures var last := p.Some? && i == |old(blocks)| - 1;
              var start := if last then old(blocks)[i].off else old(used);
              q.Some? <==> !(p.Some? && size == 0) && start + Extent(size) <= SIZE
      ensures q.Some? ==>
                blocks != [] && q.value == Last(blocks).off + HEADER && Last(blocks).size == size &&
                (p.Some? ==> Agree(Last(View()), old(View())[i])) &&
                if p.Some? && i == |old(blocks)| - 1
                then q == p && |blocks| == |old(blocks)| && Init(View()) == Init(old(View()))
                else |blocks| == |old(blocks)| + 1 && Init(View()) == old(View())
    {
      hide Need, Extent, NoWrap, Views, Headed, Tiled, Agree;
      if p.None? {
        q := Malloc(size);
        return;
      }
      if size == 0 {
        return None;
      }
      ghost var mem, was, end := data[..], blocks, used;
      StoredTotal(mem, was, used, i);
      EndsAtUsedIff(was, used, i);
      var oldSize := UsableSize(i, p.value);
      var header := p.value - HEADER;
      if header + Need(oldSize) == used {
        var ok := ResizeLast(header, size);
        return if ok then p else None;
      }
      q := Move(i, p.value, oldSize, size);
    }
  }

  function Zeros(n: nat): (r: Bytes)
    ensures |r| == n
  {
    seq(n, _ => 0)
  }
}
