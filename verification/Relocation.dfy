/**
 The relocatable snapshot of src/qjs_snap.c. The initialiser runs at two addresses; the two
 images are compared word by word, the words that moved with the address are marked in a
 bitmap, and a restore patches the marked words of a copy. Words that differ for any other
 reason are volatile: they are zeroed in the snapshot and reseeded by every restore.
 */
module Relocation {
  import opened Machine
  import opened Bits

  const MAX_VOLATILE: nat := 8
  const CONTEXT_BYTES: nat := 1024

  // ---------------------------------------------------------------- the images

  datatype Kind = Same | Pointer | Volatile

  function Plus(v: u64, delta: u64): u64 {
    (v + delta) % U64_END
  }

  function Distance(from: u64, to: u64): u64 {
    (to - from) % U64_END
  }

  lemma Modular(a: u64, b: u64)
    ensures Plus(a, b) == if a + b < U64_END then a + b else a + b - U64_END
    ensures Distance(a, b) == if a <= b then b - a else b - a + U64_END
  {
  }

  function KindOf(a: u64, b: u64, delta: u64): Kind {
    if a == b then Same else if Distance(a, b) == delta then Pointer else Volatile
  }

  /** Byte offsets of the first n slots that are volatile, ascending. */
  function VolatileOffsets(a: seq<u64>, b: seq<u64>, delta: u64, n: nat): seq<nat>
    requires n <= |a| == |b|
  {
    if n == 0 then []
    else
      VolatileOffsets(a, b, delta, n - 1) +
      (if KindOf(a[n - 1], b[n - 1], delta) == Volatile then [8 * (n - 1)] else [])
  }

  /** Every offset lies in the first KiB of the context. */
  predicate InContext(offsets: seq<nat>, context: nat, used: nat) {
    forall i :: 0 <= i < |offsets| ==> context <= offsets[i] < Min(context + CONTEXT_BYTES, used)
  }

  // ---------------------------------------------------------------- the bitmap

  predicate Words64(bitmap: seq<nat>) {
    forall i :: 0 <= i < |bitmap| ==> bitmap[i] < Pow2(64)
  }

  predicate Marked(bitmap: seq<nat>, slot: nat) {
    slot / 64 < |bitmap| && Bit(bitmap[slot / 64], slot % 64)
  }

  lemma OneInWord(n: nat)
    requires n < 64
    ensures Pow2(n) < Pow2(64)
  {
    Pow2Mono(n + 1, 64);
  }

  lemma MarkedAfter(bitmap: seq<nat>, slot: nat, after: seq<nat>, other: nat)
    requires slot / 64 < |bitmap|
    requires after == bitmap[slot / 64 := Or(bitmap[slot / 64], Pow2(slot % 64))]
    ensures Marked(after, other) <==> Marked(bitmap, other) || other == slot
  {
    hide Or, Pow2, Bit;
    OrBits(bitmap[slot / 64], Pow2(slot % 64), other % 64);
    ShiftedOne(slot % 64, other % 64);
    assert other == slot <==> other / 64 == slot / 64 && other % 64 == slot % 64;
  }

  /** Or-ing 1 << (slot % 64) into its word marks that slot and no other. */
  lemma MarkOne(bitmap: seq<nat>, slot: nat, after: seq<nat>)
    requires Words64(bitmap) && slot / 64 < |bitmap|
    requires after == bitmap[slot / 64 := Or(bitmap[slot / 64], Pow2(slot % 64))]
    ensures Words64(after)
    ensures forall other: nat :: Marked(after, other) <==> Marked(bitmap, other) || other == slot
  {
    hide Or, Pow2, Bit, Marked;
    OneInWord(slot % 64);
    OrBound(bitmap[slot / 64], Pow2(slot % 64), 64);
    forall other: nat
      ensures Marked(after, other) <==> Marked(bitmap, other) || other == slot
    {
      MarkedAfter(bitmap, slot, after, other);
    }
  }

  lemma NoMarks(bitmap: seq<nat>)
    requires forall i :: 0 <= i < |bitmap| ==> bitmap[i] == 0
    ensures Words64(bitmap) && forall s: nat :: !Marked(bitmap, s)
  {
    forall s: nat
      ensures !Marked(bitmap, s)
    {
      ZeroHasNoBits(s % 64);
    }
  }

  /** __builtin_ctzll: the number of the lowest set bit. */
  function LowestBit(w: nat): (r: nat)
    requires w > 0
    ensures Bit(w, r) && forall k: nat :: k < r ==> !Bit(w, k)
  {
    if w % 2 == 1 then 0
    else LowestBit(w / 2) + 1
  }

  // ---------------------------------------------------------------- snapshot and arena

  // What a snapshot holds, as a value.
  datatype Frozen = Frozen(data: seq<u64>, bitmap: seq<nat>, offsets: seq<nat>, oldBase: u64)

  class Arena {
    const base: u64
    var words: array<u64>
    var used: nat

    constructor (base: u64, words: array<u64>)
      ensures this.base == base && this.words == words && used == 0
    {
      this.base := base;
      this.words := words;
      used := 0;
    }

    /** The used part, one number a word; the allocator keeps `used` a multiple of 16. */
    ghost predicate Valid()
      reads this
    {
      used % 16 == 0 && used / 8 <= words.Length
    }

    ghost function Image(): seq<u64>
      requires Valid()
      reads this, words
    {
      words[..used / 8]
    }
  }

  class Snapshot {
    var data: array<u64>
    var bitmap: array<nat>
    var offsets: array<nat>
    var volatileCount: nat
    var oldBase: u64
    var rtOffset: nat
    var ctxOffset: nat

    constructor ()
      ensures fresh(data) && fresh(bitmap) && fresh(offsets)
    {
      data := new u64[0];
      bitmap := new nat[0];
      offsets := new nat[MAX_VOLATILE];
      volatileCount := 0;
      oldBase := 0;
      rtOffset, ctxOffset := 0, 0;
    }

    ghost function Value(): Frozen
      requires volatileCount <= offsets.Length
      reads this, data, bitmap, offsets
    {
      Frozen(data[..], bitmap[..], offsets[..volatileCount], oldBase)
    }
  }

  /** Each mark and each volatile offset names a word of the data. */
  ghost predicate Sound(f: Frozen) {
    Words64(f.bitmap) &&
    (forall s: nat :: Marked(f.bitmap, s) ==> s < |f.data|) &&
    (forall i :: 0 <= i < |f.offsets| ==> f.offsets[i] % 8 == 0 && f.offsets[i] / 8 < |f.data|)
  }

  /** What the comparison of two images must produce. */
  ghost predicate Freezes(f: Frozen, a: seq<u64>, b: seq<u64>, baseA: u64, baseB: u64)
    requires |a| == |b|
  {
    var delta := Distance(baseA, baseB);
    Words64(f.bitmap) && f.oldBase == baseA && |f.data| == |a| &&
    f.offsets == VolatileOffsets(a, b, delta, |a|) &&
    (forall s: nat :: Marked(f.bitmap, s) <==> s < |a| && KindOf(a[s], b[s], delta) == Pointer) &&
    forall s :: 0 <= s < |a| ==> f.data[s] == if KindOf(a[s], b[s], delta) == Volatile then 0 else a[s]
  }

  datatype Outcome = Created | Refused | Aborted

  /** What the initialiser reports at one address. */
  datatype Report = Report(code: int, rtOffset: nat, ctxOffset: nat)

  /** The verdict on a pair of images. */
  function Verdict(ra: Report, rb: Report, usedA: nat, usedB: nat, volatiles: seq<nat>): Outcome {
    if ra.code != 0 || rb.code != 0 then Refused
    else if usedA != usedB || ra.rtOffset != rb.rtOffset || ra.ctxOffset != rb.ctxOffset then Refused
    else if |volatiles| > MAX_VOLATILE then Refused
    else if |volatiles| <= 2 && InContext(volatiles, ra.ctxOffset, usedA) then Created
    else Aborted
  }

  /** The loop over the slots. The offsets of the first eight volatile slots are kept; more than
      eight are an error. */
  method Compare(a: array<u64>, b: array<u64>, delta: u64, bitmap: array<nat>, offsets: array<nat>)
      returns (count: nat, errors: nat)
    requires a != b && bitmap != offsets && a.Length == b.Length
    requires bitmap.Length == (a.Length + 63) / 64 && offsets.Length == MAX_VOLATILE
    requires forall i :: 0 <= i < bitmap.Length ==> bitmap[i] == 0
    modifies a, bitmap, offsets
    ensures var all := VolatileOffsets(old(a[..]), b[..], delta, a.Length);
            count + errors == |all| && count == Min(|all|, MAX_VOLATILE) && offsets[..count] == all[..count]
    ensures Words64(bitmap[..])
    ensures forall s: nat :: Marked(bitmap[..], s) <==>
              s < a.Length && KindOf(old(a[s]), b[s], delta) == Pointer
    ensures errors == 0 ==> forall s :: 0 <= s < a.Length ==>
              a[s] == if KindOf(old(a[s]), b[s], delta) == Volatile then 0 else old(a[s])
  {
    hide Marked, Or, Pow2, KindOf;
    ghost var was := a[..];
    ghost var other := b[..];
    count, errors := 0, 0;
    NoMarks(bitmap[..]);
    for i := 0 to a.Length
      invariant b[..] == other
      invariant forall s :: i <= s < a.Length ==> a[s] == was[s]
      invariant count + errors == |VolatileOffsets(was, other, delta, i)|
      invariant count == Min(count + errors, MAX_VOLATILE)
      invariant offsets[..count] == VolatileOffsets(was, other, delta, i)[..count]
      invariant Words64(bitmap[..])
      invariant forall s: nat :: Marked(bitmap[..], s) <==>
                  s < i && KindOf(was[s], other[s], delta) == Pointer
      invariant errors == 0 ==> forall s :: 0 <= s < i ==>
                  a[s] == if KindOf(was[s], other[s], delta) == Volatile then 0 else was[s]
    {
      var va, vb := a[i], b[i];
      assert va == was[i] && vb == other[i];
      KindMeans(va, vb, delta);
      ghost var before := VolatileOffsets(was, other, delta, i);
      assert VolatileOffsets(was, other, delta, i + 1) ==
             before + (if KindOf(va, vb, delta) == Volatile then [8 * i] else []);
      ghost var bm: seq<nat> := bitmap[..];
      if va != vb {
        if Distance(va, vb) == delta {
          var w: nat := Or(bitmap[i / 64], Pow2(i % 64));
          bitmap[i / 64] := w;
          assert bitmap[..] == bm[i / 64 := w];
          MarkOne(bm, i, bitmap[..]);
          assert forall s: nat :: Marked(bitmap[..], s) <==> Marked(bm, s) || s == i;
        } else if count < MAX_VOLATILE {
          ghost var kept := offsets[..count];
          offsets[count] := 8 * i;
          assert offsets[..count + 1] == kept + [8 * i];
          assert kept == before;
          count := count + 1;
          a[i] := 0;
          assert bitmap[..] == bm;
        } else {
          errors := errors + 1;
        }
      }
    }
  }

  lemma KindMeans(a: u64, b: u64, delta: u64)
    ensures KindOf(a, b, delta) == Same <==> a == b
    ensures KindOf(a, b, delta) == Pointer <==> a != b && Distance(a, b) == delta
  {
  }

  method Copied(words: array<u64>, n: nat) returns (copy: array<u64>)
    requires n <= words.Length
    ensures fresh(copy) && copy.Length == n && copy[..] == words[..n]
  {
    copy := new u64[n](i requires 0 <= i < n reads words => words[i]);
  }

  method AllInContext(offsets: array<nat>, count: nat, context: nat, used: nat) returns (ok: bool)
    requires count <= offsets.Length
    ensures ok == InContext(offsets[..count], context, used)
  {
    var contextEnd := Min(context + CONTEXT_BYTES, used);
    for i := 0 to count
      invariant forall j :: 0 <= j < i ==> context <= offsets[j] < contextEnd
    {
      if offsets[i] < context || offsets[i] >= contextEnd {
        assert !(context <= offsets[..count][i] < contextEnd);
        return false;
      }
    }
    ok := true;
  }

  /** Copies of the two images, compared. */
  method Diff(first: Arena, second: Arena)
      returns (data: array<u64>, bitmap: array<nat>, offsets: array<nat>, count: nat, errors: nat)
    requires first.Valid() && second.Valid() && first.used == second.used
    ensures fresh(data) && fresh(bitmap) && fresh(offsets)
    ensures data.Length == first.used / 8 && count <= offsets.Length
    ensures var all := Unsteady(first.Image(), second.Image(), first.base, second.base);
            errors == Max(0, |all| - MAX_VOLATILE) &&
            (errors == 0 ==>
               offsets[..count] == all &&
               Freezes(Frozen(data[..], bitmap[..], offsets[..count], first.base),
                       first.Image(), second.Image(), first.base, second.base))
  {
    hide VolatileOffsets, KindOf, Distance, Marked;
    var slots := first.used / 8;
    data := Copied(first.words, slots);
    var b := Copied(second.words, slots);
    bitmap := new nat[(slots + 63) / 64](_ => 0);
    offsets := new nat[MAX_VOLATILE];
    ghost var imageA := first.Image();
    assert data[..] == imageA;
    assert forall s :: 0 <= s < slots ==> data[s] == imageA[s];
    count, errors := Compare(data, b, Distance(first.base, second.base), bitmap, offsets);
  }

  /** qjs_snap_create, after the initialiser ran in both arenas. */
  method Create(first: Arena, second: Arena, ra: Report, rb: Report, snap: Snapshot) returns (out: Outcome)
    requires first.Valid() && second.Valid()
    modifies snap
    ensures out == Verdict(ra, rb, first.used, second.used,
                           Unsteady(first.Image(), second.Image(), first.base, second.base))
    ensures out == Created ==>
              fresh(snap.data) && fresh(snap.bitmap) && fresh(snap.offsets) &&
              snap.volatileCount <= snap.offsets.Length && |first.Image()| == |second.Image()| &&
              Freezes(snap.Value(), first.Image(), second.Image(), first.base, second.base) &&
              snap.data.Length == first.used / 8 &&
              snap.rtOffset == ra.rtOffset && snap.ctxOffset == ra.ctxOffset
  {
    hide VolatileOffsets, InContext, Freezes;
    if ra.code != 0 || rb.code != 0 {
      return Refused;
    }
    if first.used != second.used || ra.rtOffset != rb.rtOffset || ra.ctxOffset != rb.ctxOffset {
      return Refused;
    }
    ghost var imageA, imageB := first.Image(), second.Image();
    ghost var all := Unsteady(imageA, imageB, first.base, second.base);
    var a, bitmap, offsets, count, errors := Diff(first, second);
    if errors > 0 {
      return Refused;
    }
    var inside := AllInContext(offsets, count, ra.ctxOffset, first.used);
    if !inside {
      return Aborted;
    }
    if count > 2 {
      return Aborted;
    }
    snap.data, snap.bitmap, snap.offsets, snap.volatileCount := a, bitmap, offsets, count;
    snap.oldBase, snap.rtOffset, snap.ctxOffset := first.base, ra.rtOffset, ra.ctxOffset;
    assert snap.Value() == Frozen(a[..], bitmap[..], all, first.base);
    out := Created;
  }

  /** The volatile offsets of two images; none when they differ in length. */
  function Unsteady(a: seq<u64>, b: seq<u64>, baseA: u64, baseB: u64): seq<nat> {
    if |a| == |b| then VolatileOffsets(a, b, Distance(baseA, baseB), |a|) else []
  }

  // ---------------------------------------------------------------- restore

  function Relocated(data: seq<u64>, bitmap: seq<nat>, delta: u64): (r: seq<u64>)
    ensures |r| == |data|
  {
    seq(|data|, s requires 0 <= s < |data| => if Marked(bitmap, s) then Plus(data[s], delta) else data[s])
  }

  // A clock reading.
  datatype Time = Time(sec: nat, usec: nat)

  /** gettimeofday in microseconds, modulo 2^64, never 0. */
  function Seed(now: Time): (r: u64)
    ensures r != 0
  {
    var s: u64 := (now.sec * 1_000_000 + now.usec) % U64_END;
    if s == 0 then 1 else s
  }

  /** The first n volatile slots reseeded, one clock reading each. */
  /** A seed is the time it was taken at: seconds and microseconds read back, and a later time gives
      a larger seed. Only the very first instant is moved, to one microsecond. */
  lemma SeedTellsTime(now: Time, later: Time)
    requires now.usec < 1_000_000 && later.usec < 1_000_000
    requires now.sec * 1_000_000 + now.usec < U64_END && later.sec * 1_000_000 + later.usec < U64_END
    requires now.sec > 0 || now.usec > 0
    ensures Seed(now) / 1_000_000 == now.sec && Seed(now) % 1_000_000 == now.usec
    ensures later.sec > now.sec || (later.sec == now.sec && later.usec > now.usec) ==> Seed(later) > Seed(now)
    ensures Seed(Time(0, 0)) == 1
  {
  }

  function Seeded(words: seq<u64>, offsets: seq<nat>, clock: seq<Time>, n: nat): (r: seq<u64>)
    requires n <= |offsets| && n <= |clock|
    requires forall i :: 0 <= i < |offsets| ==> offsets[i] / 8 < |words|
    ensures |r| == |words|
  {
    if n == 0 then words
    else Seeded(words, offsets, clock, n - 1)[offsets[n - 1] / 8 := Seed(clock[n - 1])]
  }

  /** The image a snapshot restores to at an address. */
  ghost function Thaw(f: Frozen, base: u64, clock: seq<Time>): (r: seq<u64>)
    requires Sound(f) && |f.offsets| <= |clock|
    ensures |r| == |f.data|
  {
    Seeded(Relocated(f.data, f.bitmap, Distance(f.oldBase, base)), f.offsets, clock, |f.offsets|)
  }

  /** The walk over the set bits of every bitmap word. */
  method RelocateInPlace(words: array<u64>, bitmap: array<nat>, delta: u64, n: nat)
    requires n <= words.Length && Words64(bitmap[..])
    requires forall s: nat :: Marked(bitmap[..], s) ==> s < n
    modifies words
    ensures words[..n] == Relocated(old(words[..n]), bitmap[..], delta)
    ensures words[n..] == old(words[n..])
  {
    hide Bit, Pow2, And;
    ghost var was := words[..];
    ghost var bm := bitmap[..];
    for i := 0 to bitmap.Length
      invariant bitmap[..] == bm
      invariant forall s :: 0 <= s < words.Length ==>
                  words[s] == if Marked(bm, s) && s / 64 < i then Plus(was[s], delta) else was[s]
    {
      var word := bitmap[i];
      assert word == bm[i];
      while word != 0
        invariant bitmap[..] == bm && 0 <= word < Pow2(64)
        invariant forall k: nat :: Bit(word, k) ==> Bit(bm[i], k)
        invariant forall s :: 0 <= s < words.Length ==>
                    words[s] == if Marked(bm, s) && (s / 64 < i || (s / 64 == i && !Bit(word, s % 64)))
                                then Plus(was[s], delta) else was[s]
        decreases word
      {
        var bit := LowestBit(word);
        InWord(word, bit);
        var slot := 64 * i + bit;
        assert slot / 64 == i && slot % 64 == bit;
        assert Marked(bm, slot);
        words[slot] := Plus(words[slot], delta);
        ClearLowest(word, bit);
        word := And(word, word - 1);
      }
      forall k: nat
        ensures !Bit(0, k)
      {
        ZeroHasNoBits(k);
      }
    }
  }

  lemma InWord(word: nat, bit: nat)
    requires word < Pow2(64) && Bit(word, bit)
    ensures bit < 64
  {
    if bit >= 64 {
      BitsBelow(word, 64, bit);
    }
  }

  /** One clock reading a volatile slot. */
  method Reseed(words: array<u64>, n: nat, offsets: array<nat>, count: nat, clock: seq<Time>)
    requires n <= words.Length && count <= offsets.Length && count <= |clock|
    requires forall i :: 0 <= i < count ==> offsets[i] / 8 < n
    modifies words
    ensures words[..n] == Seeded(old(words[..n]), offsets[..count], clock, count)
    ensures words[n..] == old(words[n..])
  {
    hide Seed;
    ghost var offs, was, rest := offsets[..count], words[..n], words[n..];
    for i := 0 to count
      invariant offsets[..count] == offs
      invariant words[..n] == Seeded(was, offs, clock, i)
      invariant words[n..] == rest
    {
      assert offsets[i] == offs[i];
      words[offsets[i] / 8] := Seed(clock[i]);
    }
  }

  /** qjs_snap_restore: the arena holds the image for its own address, whatever it held before. */
  method Restore(snap: Snapshot, arena: Arena, clock: seq<Time>) returns (rt: u64, ctx: u64)
    requires snap.volatileCount <= snap.offsets.Length && snap.volatileCount <= |clock|
    requires Sound(snap.Value()) && snap.data.Length % 2 == 0
    requires snap.data.Length <= arena.words.Length && arena.words != snap.data
    modifies arena`used, arena.words
    ensures arena.Valid() && arena.used == 8 * snap.data.Length
    ensures arena.Image() == Thaw(snap.Value(), arena.base, clock)
    ensures arena.words[snap.data.Length..] == old(arena.words[snap.data.Length..])
    ensures rt == Plus(arena.base, snap.rtOffset % U64_END) && ctx == Plus(arena.base, snap.ctxOffset % U64_END)
  {
    hide Marked, Distance, Seed;
    ghost var f := snap.Value();
    var words, n := arena.words, snap.data.Length;
    ghost var rest := words[n..];
    forall i | 0 <= i < n {
      words[i] := snap.data[i];
    }
    assert words[..n] == f.data && words[n..] == rest;
    assert snap.bitmap[..] == f.bitmap && snap.offsets[..snap.volatileCount] == f.offsets;
    arena.used := 8 * n;
    var delta := Distance(snap.oldBase, arena.base);
    if delta != 0 {
      RelocateInPlace(words, snap.bitmap, delta, n);
    } else {
      NoDistance(f.data, f.bitmap);
    }
    Reseed(words, n, snap.offsets, snap.volatileCount, clock);
    rt := Plus(arena.base, snap.rtOffset % U64_END);
    ctx := Plus(arena.base, snap.ctxOffset % U64_END);
  }

  lemma NoDistance(data: seq<u64>, bitmap: seq<nat>)
    ensures Relocated(data, bitmap, 0) == data
  {
  }

  // ---------------------------------------------------------------- what it means

  /** How one word of the initialiser's image depends on the address it runs at. */
  datatype Word = Const(v: u64) | Relative(offset: u64) | Unsteadily

  function Eval(w: Word, base: u64): u64
    requires !w.Unsteadily?
  {
    if w.Const? then w.v else Plus(w.offset, base)
  }

  /** The image is one the initialiser can build at the address. */
  predicate Built(layout: seq<Word>, base: u64, image: seq<u64>) {
    |image| == |layout| &&
    forall s :: 0 <= s < |layout| && !layout[s].Unsteadily? ==> image[s] == Eval(layout[s], base)
  }

  /** Two different addresses tell constants, pointers and volatile words apart, and a word seen
      as a pointer or a constant can be computed at every address. */
  lemma KindTells(w: Word, baseA: u64, baseB: u64, a: u64, b: u64, base: u64)
    requires baseA != baseB && !w.Unsteadily?
    requires a == Eval(w, baseA) && b == Eval(w, baseB)
    ensures KindOf(a, b, Distance(baseA, baseB)) == if w.Const? then Same else Pointer
    ensures Eval(w, base) == if w.Const? then a else Plus(a, Distance(baseA, base))
  {
    hide Plus, Distance;
    Modular(a, b);
    Modular(baseA, baseB);
    Modular(baseA, base);
    Modular(a, Distance(baseA, base));
    if w.Relative? {
      Modular(w.offset, baseA);
      Modular(w.offset, baseB);
      Modular(w.offset, base);
    }
  }

  /** A word is volatile exactly when no constant and no pointer explains both values. */
  lemma VolatileIff(a: u64, b: u64, baseA: u64, baseB: u64)
    requires baseA != baseB
    ensures KindOf(a, b, Distance(baseA, baseB)) == Volatile <==>
            forall w: Word :: !w.Unsteadily? ==> !(Eval(w, baseA) == a && Eval(w, baseB) == b)
  {
    hide Plus, Distance;
    if KindOf(a, b, Distance(baseA, baseB)) == Same {
      assert Eval(Const(a), baseA) == a && Eval(Const(a), baseB) == b;
    } else if KindOf(a, b, Distance(baseA, baseB)) == Pointer {
      var w := Relative(Distance(baseA, a));
      Modular(baseA, a);
      Modular(a, b);
      Modular(baseA, baseB);
      Modular(w.offset, baseA);
      Modular(w.offset, baseB);
      assert Eval(w, baseA) == a && Eval(w, baseB) == b;
    } else {
      forall w: Word | !w.Unsteadily?
        ensures !(Eval(w, baseA) == a && Eval(w, baseB) == b)
      {
        if Eval(w, baseA) == a && Eval(w, baseB) == b {
          KindTells(w, baseA, baseB, a, b, baseA);
        }
      }
    }
  }

  lemma {:induction false} OffsetsListVolatiles(a: seq<u64>, b: seq<u64>, delta: u64, n: nat, s: nat)
    requires n <= |a| == |b|
    ensures 8 * s in VolatileOffsets(a, b, delta, n) <==> s < n && KindOf(a[s], b[s], delta) == Volatile
    ensures forall off :: off in VolatileOffsets(a, b, delta, n) ==> off % 8 == 0 && off / 8 < n
  {
    if n > 0 {
      OffsetsListVolatiles(a, b, delta, n - 1, s);
    }
  }

  /** The slots that moved neither with the address nor not at all. */
  ghost function UnsteadySlots(a: seq<u64>, b: seq<u64>, baseA: u64, baseB: u64, n: nat): set<nat>
    requires n <= |a| == |b|
  {
    set s: nat | s < n && a[s] != b[s] && (b[s] - a[s]) % U64_END != (baseB - baseA) % U64_END
  }

  lemma {:induction false} OffsetsCount(a: seq<u64>, b: seq<u64>, baseA: u64, baseB: u64, n: nat)
    requires n <= |a| == |b|
    ensures |VolatileOffsets(a, b, Distance(baseA, baseB), n)| == |UnsteadySlots(a, b, baseA, baseB, n)|
  {
    if n > 0 {
      OffsetsCount(a, b, baseA, baseB, n - 1);
      var most, all := UnsteadySlots(a, b, baseA, baseB, n - 1), UnsteadySlots(a, b, baseA, baseB, n);
      if KindOf(a[n - 1], b[n - 1], Distance(baseA, baseB)) == Volatile {
        assert all == most + {n - 1};
      } else {
        assert all == most;
      }
    } else {
      assert UnsteadySlots(a, b, baseA, baseB, 0) == {};
    }
  }

  /** When two runs of the initialiser give a snapshot, and when the program aborts: they must agree
      on everything they report, at most eight slots may be volatile, and a snapshot is made of
      them if they are at most two, both in the first 1024 bytes from the context on. */
  lemma VerdictIff(ra: Report, rb: Report, a: seq<u64>, b: seq<u64>, baseA: u64, baseB: u64)
    ensures var v := Verdict(ra, rb, 8 * |a|, 8 * |b|, Unsteady(a, b, baseA, baseB));
            var alike := ra.code == 0 && rb.code == 0 && |a| == |b| &&
                         ra.rtOffset == rb.rtOffset && ra.ctxOffset == rb.ctxOffset;
            (v == Created <==>
               alike && |UnsteadySlots(a, b, baseA, baseB, |a|)| <= 2 &&
               forall s :: s in UnsteadySlots(a, b, baseA, baseB, |a|) ==>
                 ra.ctxOffset <= 8 * s < ra.ctxOffset + 1024) &&
            (v == Refused <==> !alike || |UnsteadySlots(a, b, baseA, baseB, |a|)| > 8)
  {
    if |a| == |b| {
      var offsets, slots := Unsteady(a, b, baseA, baseB), UnsteadySlots(a, b, baseA, baseB, |a|);
      OffsetsCount(a, b, baseA, baseB, |a|);
      forall s: nat
        ensures 8 * s in offsets <==> s in slots
      {
        OffsetsListVolatiles(a, b, Distance(baseA, baseB), |a|, s);
      }
      OffsetsListVolatiles(a, b, Distance(baseA, baseB), |a|, 0);
      if InContext(offsets, ra.ctxOffset, 8 * |a|) {
        forall s | s in slots
          ensures ra.ctxOffset <= 8 * s < ra.ctxOffset + 1024
        {
          assert 8 * s in offsets;
        }
      }
      if forall s :: s in slots ==> ra.ctxOffset <= 8 * s < ra.ctxOffset + 1024 {
        forall i | 0 <= i < |offsets|
          ensures ra.ctxOffset <= offsets[i] < Min(ra.ctxOffset + CONTEXT_BYTES, 8 * |a|)
        {
          assert offsets[i] in offsets && offsets[i] == 8 * (offsets[i] / 8);
          assert offsets[i] / 8 in slots;
        }
      }
    }
  }

  predicate Ascending(v: seq<nat>) {
    forall i, j :: 0 <= i < j < |v| ==> v[i] < v[j]
  }

  lemma {:induction false} OffsetsAscend(a: seq<u64>, b: seq<u64>, delta: u64, n: nat)
    requires n <= |a| == |b|
    ensures Ascending(VolatileOffsets(a, b, delta, n))
  {
    if n > 0 {
      OffsetsAscend(a, b, delta, n - 1);
      OffsetsListVolatiles(a, b, delta, n - 1, 0);
      var v := VolatileOffsets(a, b, delta, n - 1);
      assert forall i :: 0 <= i < |v| ==> v[i] in v;
    }
  }

  lemma FrozenIsSound(f: Frozen, a: seq<u64>, b: seq<u64>, baseA: u64, baseB: u64)
    requires |a| == |b| && Freezes(f, a, b, baseA, baseB)
    ensures Sound(f)
  {
    OffsetsListVolatiles(a, b, Distance(baseA, baseB), |a|, 0);
    assert forall i :: 0 <= i < |f.offsets| ==> f.offsets[i] in f.offsets;
  }

  /** Seeding writes the listed words and leaves the others. */
  lemma {:induction false} SeededAt(words: seq<u64>, offsets: seq<nat>, clock: seq<Time>, n: nat)
    requires n <= |offsets| && n <= |clock|
    requires forall i :: 0 <= i < |offsets| ==> offsets[i] % 8 == 0 && offsets[i] / 8 < |words|
    requires Ascending(offsets)
    ensures var r := Seeded(words, offsets, clock, n);
            (forall i :: 0 <= i < n ==> r[offsets[i] / 8] == Seed(clock[i])) &&
            (forall s :: 0 <= s < |words| && 8 * s !in offsets[..n] ==> r[s] == words[s])
  {
    hide Seed, Ascending, Seeded;
    if n == 0 {
      NothingSeeded(words, offsets, clock);
    } else {
      SeededAt(words, offsets, clock, n - 1);
      SeededNext(words, offsets, clock, n);
      OneSlotWritten(Seeded(words, offsets, clock, n - 1), words, offsets, clock, n);
    }
  }

  lemma NothingSeeded(words: seq<u64>, offsets: seq<nat>, clock: seq<Time>)
    requires forall i :: 0 <= i < |offsets| ==> offsets[i] / 8 < |words|
    ensures Seeded(words, offsets, clock, 0) == words
  {
  }

  lemma OneSlotWritten(before: seq<u64>, words: seq<u64>, offsets: seq<nat>, clock: seq<Time>, n: nat)
    requires 0 < n <= |offsets| && n <= |clock| && |before| == |words| && Ascending(offsets)
    requires forall i :: 0 <= i < |offsets| ==> offsets[i] % 8 == 0 && offsets[i] / 8 < |words|
    requires forall i :: 0 <= i < n - 1 ==> before[offsets[i] / 8] == Seed(clock[i])
    requires forall s :: 0 <= s < |words| && 8 * s !in offsets[..n - 1] ==> before[s] == words[s]
    ensures var r := before[offsets[n - 1] / 8 := Seed(clock[n - 1])];
            (forall i :: 0 <= i < n ==> r[offsets[i] / 8] == Seed(clock[i])) &&
            (forall s :: 0 <= s < |words| && 8 * s !in offsets[..n] ==> r[s] == words[s])
  {
    hide Seed, Ascending;
    var last := offsets[n - 1];
    var r := before[last / 8 := Seed(clock[n - 1])];
    assert offsets[..n] == offsets[..n - 1] + [last];
    forall i | 0 <= i < n
      ensures r[offsets[i] / 8] == Seed(clock[i])
    {
      if i < n - 1 {
        AscendingAt(offsets, i, n - 1);
        SlotsDiffer(offsets[i], last);
      }
    }
    forall s | 0 <= s < |words| && 8 * s !in offsets[..n]
      ensures r[s] == words[s]
    {
      assert last in offsets[..n];
      SlotsDiffer(8 * s, last);
    }
  }

  lemma SeededNext(words: seq<u64>, offsets: seq<nat>, clock: seq<Time>, n: nat)
    requires 0 < n <= |offsets| && n <= |clock|
    requires forall i :: 0 <= i < |offsets| ==> offsets[i] / 8 < |words|
    ensures Seeded(words, offsets, clock, n) ==
            Seeded(words, offsets, clock, n - 1)[offsets[n - 1] / 8 := Seed(clock[n - 1])]
  {
  }

  lemma AscendingAt(v: seq<nat>, i: nat, j: nat)
    requires Ascending(v) && i < j < |v|
    ensures v[i] < v[j]
  {
  }

  lemma SlotsDiffer(a: nat, b: nat)
    requires a % 8 == 0 && b % 8 == 0 && a != b
    ensures a / 8 != b / 8
  {
  }

  /** The value of every word after a restore, from the two images alone. */
  lemma ThawAt(f: Frozen, a: seq<u64>, b: seq<u64>, baseA: u64, baseB: u64, base: u64, clock: seq<Time>)
    requires |a| == |b| && Freezes(f, a, b, baseA, baseB) && |f.offsets| <= |clock|
    ensures Sound(f)
    ensures var out, delta := Thaw(f, base, clock), Distance(baseA, baseB);
            (forall s :: 0 <= s < |a| ==>
               (KindOf(a[s], b[s], delta) == Same ==> out[s] == a[s]) &&
               (KindOf(a[s], b[s], delta) == Pointer ==> out[s] == Plus(a[s], Distance(baseA, base))) &&
               (KindOf(a[s], b[s], delta) == Volatile <==> 8 * s in f.offsets)) &&
            (forall i :: 0 <= i < |f.offsets| ==> out[f.offsets[i] / 8] == Seed(clock[i]))
  {
    hide KindOf, Distance, Marked, Seed, Plus;
    FrozenIsSound(f, a, b, baseA, baseB);
    var delta := Distance(baseA, baseB);
    OffsetsAscend(a, b, delta, |a|);
    var moved := Relocated(f.data, f.bitmap, Distance(baseA, base));
    SeededAt(moved, f.offsets, clock, |f.offsets|);
    assert f.offsets[..|f.offsets|] == f.offsets;
    forall s | 0 <= s < |a|
      ensures KindOf(a[s], b[s], delta) == Volatile <==> 8 * s in f.offsets
    {
      OffsetsListVolatiles(a, b, delta, |a|, s);
    }
  }

  /** Restoring at any address gives the image the initialiser builds there: every word that is a
      constant or a pointer is exact, and the words found volatile hold a nonzero seed. */
  lemma RestoreRebuilds(f: Frozen, layout: seq<Word>, a: seq<u64>, b: seq<u64>, baseA: u64, baseB: u64,
                        base: u64, clock: seq<Time>)
    requires Built(layout, baseA, a) && Built(layout, baseB, b) && baseA != baseB
    requires Freezes(f, a, b, baseA, baseB) && |f.offsets| <= |clock|
    ensures Sound(f) && Built(layout, base, Thaw(f, base, clock))
    ensures forall i :: 0 <= i < |f.offsets| ==>
              layout[f.offsets[i] / 8].Unsteadily? && Thaw(f, base, clock)[f.offsets[i] / 8] == Seed(clock[i])
  {
    hide KindOf, Distance, Eval, Plus, Seed;
    ThawAt(f, a, b, baseA, baseB, base, clock);
    OffsetsListVolatiles(a, b, Distance(baseA, baseB), |a|, 0);
    forall s | 0 <= s < |layout| && !layout[s].Unsteadily?
      ensures Thaw(f, base, clock)[s] == Eval(layout[s], base) && 8 * s !in f.offsets
    {
      KindTells(layout[s], baseA, baseB, a[s], b[s], base);
    }
    forall i | 0 <= i < |f.offsets|
      ensures layout[f.offsets[i] / 8].Unsteadily?
    {
      assert f.offsets[i] in f.offsets;
    }
  }

  /** Restoring where the second run was made gives the second image back, seeds aside: the
      snapshot keeps no preference for the first address. */
  lemma SecondImageReturns(f: Frozen, a: seq<u64>, b: seq<u64>, baseA: u64, baseB: u64, clock: seq<Time>)
    requires |a| == |b| && Freezes(f, a, b, baseA, baseB) && |f.offsets| <= |clock|
    ensures Sound(f)
    ensures forall s :: 0 <= s < |a| && 8 * s !in f.offsets ==>
              Thaw(f, baseA, clock)[s] == a[s] && Thaw(f, baseB, clock)[s] == b[s]
  {
    hide KindOf, Distance, Plus, Thaw, Seed;
    ThawAt(f, a, b, baseA, baseB, baseA, clock);
    ThawAt(f, a, b, baseA, baseB, baseB, clock);
    forall s | 0 <= s < |a| && 8 * s !in f.offsets
      ensures Thaw(f, baseA, clock)[s] == a[s] && Thaw(f, baseB, clock)[s] == b[s]
    {
      KindMeans(a[s], b[s], Distance(baseA, baseB));
      if KindOf(a[s], b[s], Distance(baseA, baseB)) == Pointer {
        PointerToEither(a[s], b[s], baseA, baseB);
      }
    }
  }

  /** Which of two addresses was first does not matter for any restore. */
  lemma OrderOfRunsIsIrrelevant(f: Frozen, g: Frozen, a: seq<u64>, b: seq<u64>, baseA: u64, baseB: u64,
                                base: u64, clock: seq<Time>)
    requires |a| == |b| && Freezes(f, a, b, baseA, baseB) && Freezes(g, b, a, baseB, baseA)
    requires |f.offsets| <= |clock|
    ensures Sound(f) && Sound(g) && f.offsets == g.offsets && Thaw(f, base, clock) == Thaw(g, base, clock)
  {
    hide KindOf, Distance, Plus, Thaw, Seed, Sound, Freezes, VolatileOffsets;
    SameOffsets(a, b, baseA, baseB, |a|);
    FrozenShape(f, a, b, baseA, baseB);
    FrozenShape(g, b, a, baseB, baseA);
    ThawAt(f, a, b, baseA, baseB, base, clock);
    ThawAt(g, b, a, baseB, baseA, base, clock);
    var x, y := Thaw(f, base, clock), Thaw(g, base, clock);
    forall s | 0 <= s < |a|
      ensures x[s] == y[s]
    {
      KindSwaps(a[s], b[s], baseA, baseB);
      KindMeans(a[s], b[s], Distance(baseA, baseB));
      if KindOf(a[s], b[s], Distance(baseA, baseB)) == Pointer {
        PointerFromEither(a[s], b[s], baseA, baseB, base);
      } else if 8 * s in f.offsets {
        var i :| 0 <= i < |f.offsets| && f.offsets[i] == 8 * s;
        assert x[f.offsets[i] / 8] == y[g.offsets[i] / 8];
      }
    }
  }

  lemma FrozenShape(f: Frozen, a: seq<u64>, b: seq<u64>, baseA: u64, baseB: u64)
    requires |a| == |b| && Freezes(f, a, b, baseA, baseB)
    ensures f.offsets == VolatileOffsets(a, b, Distance(baseA, baseB), |a|) && |f.data| == |a|
  {
  }

  lemma KindSwaps(a: u64, b: u64, baseA: u64, baseB: u64)
    ensures KindOf(a, b, Distance(baseA, baseB)) == KindOf(b, a, Distance(baseB, baseA))
  {
    hide Distance;
    Modular(a, b);
    Modular(b, a);
    Modular(baseA, baseB);
    Modular(baseB, baseA);
  }

  /** A pointer moves to the same place from either image. */
  lemma PointerFromEither(a: u64, b: u64, baseA: u64, baseB: u64, base: u64)
    requires KindOf(a, b, Distance(baseA, baseB)) == Pointer
    ensures Plus(a, Distance(baseA, base)) == Plus(b, Distance(baseB, base))
  {
    hide Plus, Distance;
    Modular(a, b);
    Modular(baseA, baseB);
    Modular(baseA, base);
    Modular(baseB, base);
    Modular(a, Distance(baseA, base));
    Modular(b, Distance(baseB, base));
  }

  lemma PointerToEither(a: u64, b: u64, baseA: u64, baseB: u64)
    requires KindOf(a, b, Distance(baseA, baseB)) == Pointer
    ensures Plus(a, Distance(baseA, baseB)) == b && Plus(a, Distance(baseA, baseA)) == a
  {
    hide Plus, Distance;
    Modular(a, b);
    Modular(baseA, baseB);
    Modular(baseA, baseA);
    Modular(a, Distance(baseA, baseB));
    Modular(a, Distance(baseA, baseA));
  }

  lemma {:induction false} SameOffsets(a: seq<u64>, b: seq<u64>, baseA: u64, baseB: u64, n: nat)
    requires n <= |a| == |b|
    ensures VolatileOffsets(a, b, Distance(baseA, baseB), n) == VolatileOffsets(b, a, Distance(baseB, baseA), n)
  {
    if n > 0 {
      SameOffsets(a, b, baseA, baseB, n - 1);
      KindSwaps(a[n - 1], b[n - 1], baseA, baseB);
    }
  }
}
