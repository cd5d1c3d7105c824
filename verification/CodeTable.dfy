/**
 The open-addressing table of src/code_store.c: linear probing over a power-of-two number of
 slots, doubled when more than 70 per cent are taken. It refines a finite map.
 */
module CodeTable {
  import opened Machine
  import opened Bits

  type Path = p: seq<u8> | 0 !in p witness []

  // One stored file: compiled bytecode with the hash of its source, or a static file.
  datatype Entry = Entry(path: Path, data: seq<u8>, sourceHash: string, isStatic: bool)

  type Slot = Option<Entry>

  /** FNV-1a over the bytes of the path, in 32 bits. */
  function Fnv1a(p: Path): u32 {
    FnvFrom(2166136261, p)
  }

  function FnvFrom(h: u32, p: seq<u8>): u32
    decreases |p|
  {
    if p == [] then h
    else FnvFrom(Xor(h, p[0]) * 16777619 % U32_END, p[1..])
  }

  // ---------------------------------------------------------------- probing

  /** FNV-1a byte by byte: the hash of a longer path is that of the shorter one, with the next byte
      xor-ed in and then multiplied. */
  lemma FnvSnoc(p: Path, c: u8)
    requires c != 0
    ensures Fnv1a([]) == 0x811C_9DC5
    ensures Fnv1a(p + [c]) == Xor(Fnv1a(p), c) * 0x100_0193 % 0x1_0000_0000
  {
    FnvFromSnoc(2166136261, p, c);
  }

  lemma {:induction false} FnvFromSnoc(h: u32, p: seq<u8>, c: u8)
    ensures FnvFrom(h, p + [c]) == Xor(FnvFrom(h, p), c) * 16777619 % U32_END
    decreases |p|
  {
    if p == [] {
      assert p + [c] == [c] && [c][1..] == [];
      assert FnvFrom(Xor(h, c) * 16777619 % U32_END, []) == Xor(h, c) * 16777619 % U32_END;
    } else {
      FnvFromSnoc(Xor(h, p[0]) * 16777619 % U32_END, p[1..], c);
      assert (p + [c])[0] == p[0] && (p + [c])[1..] == p[1..] + [c];
    }
  }

  /** The published value for the one-letter path "a". */
  lemma FnvOfA()
    ensures Fnv1a([97]) == 0xE40C_292C
  {
    hide Fnv1a, Xor;
    assert [] + [97] == [97];
    FnvSnoc([], 97);
    XorOfLetter();
    assert 0x811C_9DA4 * 0x100_0193 % 0x1_0000_0000 == 0xE40C_292C;
  }

  lemma XorUnfold(x: nat, y: nat)
    ensures Xor(x, y) ==
            if x == 0 then y else if y == 0 then x else 2 * Xor(x / 2, y / 2) + (x % 2 + y % 2) % 2
  {
  }

  lemma XorOdd(a: nat, b: nat)
    requires b > 0
    ensures Xor(2 * a + 1, b) == 2 * Xor(a, b / 2) + if b % 2 == 0 then 1 else 0
  {
    hide Xor;
    var x := 2 * a + 1;
    assert x / 2 == a && x % 2 == 1;
    XorUnfold(x, b);
  }

  lemma XorEven(a: nat, b: nat)
    requires a > 0 && b > 0
    ensures Xor(2 * a, b) == 2 * Xor(a, b / 2) + b % 2
  {
    hide Xor;
    var x := 2 * a;
    assert x / 2 == a && x % 2 == 0;
    XorUnfold(x, b);
  }

  lemma XorOfLetter()
    ensures Xor(0x811C_9DC5, 97) == 0x811C_9DA4
  {
    hide Xor;
    XorOdd(0x408E_4EE2, 97);
    XorEven(0x2047_2771, 48);
    XorOdd(0x1023_93B8, 24);
    XorEven(0x811_C9DC, 12);
    XorEven(0x408_E4EE, 6);
    XorEven(0x204_7277, 3);
    XorOdd(0x102_393B, 1);
    XorUnfold(0x102_393B, 0);
  }

  predicate Capacity(cap: nat) {
    16 <= cap <= U32_END && exists n: nat :: n <= 32 && cap == Pow2(n)
  }

  /** The source's masking, in 32 bits. */
  function Wrap(x: nat, cap: nat): nat
    requires cap > 0
  {
    And(x % U32_END, (cap - 1) % U32_END)
  }

  lemma WrapIsMod(x: nat, cap: nat)
    requires Capacity(cap) && x <= U32_END
    ensures Wrap(x, cap) == x % cap
  {
    var n := Exponent(cap);
    WrapPower(x, n);
  }

  ghost function Exponent(cap: nat): (n: nat)
    requires Capacity(cap)
    ensures n <= 32 && cap == Pow2(n)
  {
    var n: nat :| n <= 32 && cap == Pow2(n);
    n
  }

  lemma WrapPower(x: nat, n: nat)
    requires n <= 32 && Pow2(n) <= U32_END && x <= U32_END
    ensures Wrap(x, Pow2(n)) == x % Pow2(n)
  {
    hide Pow2, And;
    ModBelow(Pow2(n) - 1, U32_END);
    MaskIsMod(x % U32_END, n);
    if x == U32_END {
      PowerOfTwoDivides(n);
    } else {
      ModBelow(x, U32_END);
    }
  }

  lemma PowerOfTwoDivides(n: nat)
    requires n <= 32
    ensures U32_END % Pow2(n) == 0 && 0 % Pow2(n) == 0
  {
    hide Pow2;
    PowerValues();
    Pow2Add(n, 32 - n);
    DivModUnique(U32_END, Pow2(n), Pow2(32 - n), 0);
    DivModUnique(0, Pow2(n), 0, 0);
  }

  /** The k-th slot probed from home. */
  function At(home: nat, k: nat, cap: nat): nat
    requires home < cap && k <= cap
  {
    if home + k < cap then home + k else home + k - cap
  }

  /** How many probes from home to slot i. */
  function Dist(home: nat, i: nat, cap: nat): (d: nat)
    requires home < cap && i < cap
    ensures d < cap && At(home, d, cap) == i
  {
    if home <= i then i - home else i - home + cap
  }

  lemma NextProbe(home: nat, k: nat, cap: nat)
    requires Capacity(cap) && home < cap && k < cap
    ensures Wrap(At(home, k, cap) + 1, cap) == At(home, k + 1, cap)
    ensures At(home, k, cap) < cap && Dist(home, At(home, k, cap), cap) == k
  {
    hide Wrap, Capacity;
    var x := At(home, k, cap) + 1;
    assert cap <= U32_END by { CapacityBound(cap); }
    WrapIsMod(x, cap);
    if x < cap {
      ModBelow(x, cap);
    } else {
      DivModUnique(cap, cap, 1, 0);
    }
  }

  lemma CapacityBound(cap: nat)
    requires Capacity(cap)
    ensures 16 <= cap <= U32_END
  {
  }

  function Home(p: Path, cap: nat): (h: nat)
    requires Capacity(cap)
    ensures h < cap
  {
    WrapIsMod(Fnv1a(p), cap);
    Wrap(Fnv1a(p), cap)
  }

  // ---------------------------------------------------------------- the invariant

  /** Every entry is reached from its home without crossing an empty slot. */
  /** A path's first slot is its hash modulo the capacity. */
  lemma HomeIsHash(p: Path, cap: nat)
    requires Capacity(cap)
    ensures Home(p, cap) == Fnv1a(p) % cap
  {
    WrapIsMod(Fnv1a(p), cap);
  }

  predicate Reachable(slots: seq<Slot>)
    requires Capacity(|slots|)
  {
    forall i, k :: 0 <= i < |slots| && slots[i].Some? &&
                   0 <= k < Dist(Home(slots[i].value.path, |slots|), i, |slots|) ==>
      slots[At(Home(slots[i].value.path, |slots|), k, |slots|)].Some?
  }

  /** The paths of a slot sequence, each once. */
  ghost predicate Distinct(slots: seq<Slot>) {
    forall i, j :: 0 <= i < j < |slots| && slots[i].Some? && slots[j].Some? ==>
      slots[i].value.path != slots[j].value.path
  }

  /** The slots hold exactly the entries of the map, each path once. */
  ghost predicate Holds(slots: seq<Slot>, dict: map<Path, Entry>) {
    (forall i :: 0 <= i < |slots| && slots[i].Some? ==>
       slots[i].value.path in dict && dict[slots[i].value.path] == slots[i].value) &&
    (forall p :: p in dict ==> exists i :: 0 <= i < |slots| && slots[i].Some? && slots[i].value.path == p) &&
    Distinct(slots)
  }

  function Taken(slots: seq<Slot>): (r: nat)
    ensures r <= |slots|
  {
    if slots == [] then 0 else Taken(Init(slots)) + if Last(slots).Some? then 1 else 0
  }

  lemma {:induction false} FreeSlot(slots: seq<Slot>)
    requires Taken(slots) < |slots|
    ensures exists i :: 0 <= i < |slots| && slots[i].None?
  {
    if Last(slots).Some? {
      FreeSlot(Init(slots));
      var i :| 0 <= i < |slots| - 1 && Init(slots)[i].None?;
      assert slots[i].None?;
    }
  }

  lemma {:induction false} TakenUpdate(slots: seq<Slot>, i: nat, e: Entry)
    requires i < |slots|
    ensures Taken(slots[i := Some(e)]) == Taken(slots) + if slots[i].None? then 1 else 0
  {
    var after := slots[i := Some(e)];
    if i == |slots| - 1 {
      assert Init(after) == Init(slots);
    } else {
      TakenUpdate(Init(slots), i, e);
      assert Init(after) == Init(slots)[i := Some(e)];
    }
  }

  /** What probing from home has found out: the first k slots are taken by other paths. */
  predicate Probed(slots: seq<Slot>, p: Path, k: nat)
    requires Capacity(|slots|) && k <= |slots|
  {
    forall j :: 0 <= j < k ==>
      var s := slots[At(Home(p, |slots|), j, |slots|)]; s.Some? && s.value.path != p
  }

  /** A probe that reaches an empty slot, or comes all the way round, proves the path absent. */
  lemma ProbedAbsent(slots: seq<Slot>, p: Path, k: nat)
    requires Capacity(|slots|) && Reachable(slots) && k <= |slots| && Probed(slots, p, k)
    requires k == |slots| || slots[At(Home(p, |slots|), k, |slots|)].None?
    ensures forall i :: 0 <= i < |slots| && slots[i].Some? ==> slots[i].value.path != p
  {
    hide Capacity, Home, Reachable, Probed;
    forall i | 0 <= i < |slots| && slots[i].Some?
      ensures slots[i].value.path != p
    {
      var d := Dist(Home(p, |slots|), i, |slots|);
      if d < k {
        ProbedAt(slots, p, k, d);
      } else if k < d {
        ReachableAt(slots, i, p, k);
      }
    }
  }

  lemma ProbedAt(slots: seq<Slot>, p: Path, k: nat, j: nat)
    requires Capacity(|slots|) && j < k <= |slots| && Probed(slots, p, k)
    ensures var s := slots[At(Home(p, |slots|), j, |slots|)]; s.Some? && s.value.path != p
  {
  }

  lemma ReachableAt(slots: seq<Slot>, i: nat, p: Path, k: nat)
    requires Capacity(|slots|) && Reachable(slots) && i < |slots| && k < Dist(Home(p, |slots|), i, |slots|)
    ensures slots[i].Some? && slots[i].value.path == p ==> slots[At(Home(p, |slots|), k, |slots|)].Some?
  {
  }

  /** Filling the empty slot a probe stopped at keeps every entry reachable. */
  lemma PlacedReachable(slots: seq<Slot>, e: Entry, k: nat, i: nat)
    requires Capacity(|slots|) && Reachable(slots) && k < |slots| && Probed(slots, e.path, k)
    requires i == At(Home(e.path, |slots|), k, |slots|)
    ensures Reachable(slots[i := Some(e)])
  {
    hide Capacity, Home, Probed;
    var after := slots[i := Some(e)];
    forall j, m | 0 <= j < |slots| && after[j].Some? &&
                  0 <= m < Dist(Home(after[j].value.path, |slots|), j, |slots|)
      ensures after[At(Home(after[j].value.path, |slots|), m, |slots|)].Some?
    {
      if j == i {
        NextProbe(Home(e.path, |slots|), k, |slots|);
        ProbedAt(slots, e.path, k, m);
      } else {
        ReachableAt(slots, j, slots[j].value.path, m);
      }
    }
  }

  lemma PlacedHolds(slots: seq<Slot>, dict: map<Path, Entry>, e: Entry, i: nat)
    requires Holds(slots, dict) && i < |slots| && slots[i].None? && e.path !in dict
    ensures Holds(slots[i := Some(e)], dict[e.path := e])
  {
    var after, more := slots[i := Some(e)], dict[e.path := e];
    forall p | p in more
      ensures exists j :: 0 <= j < |after| && after[j].Some? && after[j].value.path == p
    {
      if p == e.path {
        assert after[i].Some?;
      } else {
        var j :| 0 <= j < |slots| && slots[j].Some? && slots[j].value.path == p;
        assert after[j] == slots[j];
      }
    }
  }

  /** Overwriting the entry of a path keeps the probe sequences as they are. */
  lemma OverwrittenHolds(slots: seq<Slot>, dict: map<Path, Entry>, e: Entry, i: nat)
    requires Holds(slots, dict) && i < |slots| && slots[i].Some? && slots[i].value.path == e.path
    ensures Holds(slots[i := Some(e)], dict[e.path := e])
  {
    var after, more := slots[i := Some(e)], dict[e.path := e];
    forall p | p in more
      ensures exists j :: 0 <= j < |after| && after[j].Some? && after[j].value.path == p
    {
      var j :| 0 <= j < |slots| && slots[j].Some? && slots[j].value.path == p;
      assert after[j].Some? && after[j].value.path == p;
    }
  }

  lemma OverwrittenReachable(slots: seq<Slot>, e: Entry, i: nat)
    requires Capacity(|slots|) && Reachable(slots)
    requires i < |slots| && slots[i].Some? && slots[i].value.path == e.path
    ensures Reachable(slots[i := Some(e)])
  {
    hide Capacity, Home;
    var after := slots[i := Some(e)];
    forall j, m | 0 <= j < |slots| && after[j].Some? &&
                  0 <= m < Dist(Home(after[j].value.path, |slots|), j, |slots|)
      ensures after[At(Home(after[j].value.path, |slots|), m, |slots|)].Some?
    {
      ReachableAt(slots, j, slots[j].value.path, m);
    }
  }

  lemma Empty(n: nat, slots: seq<Slot>)
    requires |slots| == n && forall i :: 0 <= i < n ==> slots[i] == None
    ensures Holds(slots, map[]) && Taken(slots) == 0
    ensures Capacity(n) ==> Reachable(slots)
  {
    NoneTaken(slots);
  }

  lemma {:induction false} NoneTaken(slots: seq<Slot>)
    requires forall i :: 0 <= i < |slots| ==> slots[i] == None
    ensures Taken(slots) == 0
  {
    if slots != [] {
      NoneTaken(Init(slots));
    }
  }

  // ---------------------------------------------------------------- the table

  ghost predicate Shape(slots: seq<Slot>, count: nat, dict: map<Path, Entry>) {
    Capacity(|slots|) && Reachable(slots) && Holds(slots, dict) &&
    Taken(slots) == count == |dict| && count < |slots|
  }

  lemma Placed(slots: seq<Slot>, count: nat, dict: map<Path, Entry>, e: Entry, k: nat, i: nat)
    requires Shape(slots, count, dict) && count + 1 < |slots| && e.path !in dict
    requires k < |slots| && Probed(slots, e.path, k) && i == At(Home(e.path, |slots|), k, |slots|) < |slots|
    requires slots[i].None?
    ensures Shape(slots[i := Some(e)], count + 1, dict[e.path := e])
  {
    hide Capacity, Home, Reachable, Holds, Probed;
    PlacedReachable(slots, e, k, i);
    PlacedHolds(slots, dict, e, i);
    TakenUpdate(slots, i, e);
  }

  lemma Overwritten(slots: seq<Slot>, count: nat, dict: map<Path, Entry>, e: Entry, i: nat)
    requires Shape(slots, count, dict) && i < |slots| && slots[i].Some? && slots[i].value.path == e.path
    ensures Shape(slots[i := Some(e)], count, dict[e.path := e])
  {
    hide Capacity, Home, Reachable, Holds;
    OverwrittenReachable(slots, e, i);
    OverwrittenHolds(slots, dict, e, i);
    TakenUpdate(slots, i, e);
    SameSize(slots, dict, e, i);
  }

  /** Walks from home to the first empty slot; the path is known to be absent. */
  lemma HeldElsewhere(slots: seq<Slot>, dict: map<Path, Entry>, i: nat, p: Path)
    requires Holds(slots, dict) && i < |slots| && slots[i].Some? && p !in dict
    ensures slots[i].value.path != p
  {
  }

  method Place(entries: array<Slot>, e: Entry, ghost dict: map<Path, Entry>)
    requires Shape(entries[..], |dict|, dict) && e.path !in dict && |dict| + 1 < entries.Length
    modifies entries
    ensures Shape(entries[..], |dict| + 1, dict[e.path := e])
  {
    hide Capacity, Home, Reachable, Wrap, Holds;
    ghost var slots := entries[..];
    var cap := entries.Length;
    FreeSlot(slots);
    ghost var free :| 0 <= free < cap && slots[free].None?;
    ghost var home := Home(e.path, cap);
    ghost var k := 0;
    var idx := Home(e.path, cap);
    while entries[idx].Some?
      invariant entries[..] == slots && k <= Dist(home, free, cap)
      invariant idx == At(home, k, cap) < cap
      invariant Probed(slots, e.path, k)
      decreases cap - k
    {
      HeldElsewhere(slots, dict, idx, e.path);
      NextProbe(home, k, cap);
      idx := Wrap(idx + 1, cap);
      k := k + 1;
    }
    assert slots[idx].None?;
    entries[idx] := Some(e);
    assert entries[..] == slots[idx := Some(e)];
    Placed(slots, |dict|, dict, e, k, idx);
  }

  lemma Doubles(cap: nat)
    requires Capacity(cap) && cap * 2 <= U32_END
    ensures Capacity(cap * 2)
  {
    hide Pow2;
    var n := Exponent(cap);
    Pow2Step(n + 1);
    assert cap * 2 == Pow2(n + 1);
    if n == 32 {
      PowerValues();
    }
  }

  lemma Powers16And64()
    ensures Capacity(16) && Capacity(64)
  {
    hide Pow2;
    PowerValues();
    Pow2Step(5);
    Pow2Step(6);
    assert Pow2(4) == 16 && Pow2(6) == 64;
  }

  /** The map of the first i slots extends to that of the first i + 1. */
  lemma NextSlot(slots: seq<Slot>, i: nat, dict: map<Path, Entry>)
    requires i < |slots| && Distinct(slots) && Holds(slots[..i], dict)
    ensures slots[i].Some? ==> slots[i].value.path !in dict
    ensures Holds(slots[..i + 1], if slots[i].Some? then dict[slots[i].value.path := slots[i].value] else dict)
    ensures Taken(slots[..i + 1]) == Taken(slots[..i]) + if slots[i].Some? then 1 else 0
  {
    var before, after := slots[..i], slots[..i + 1];
    assert Init(after) == before && Last(after) == slots[i];
    assert forall j :: 0 <= j < i ==> before[j] == after[j];
    if slots[i].Some? {
      forall j | 0 <= j < i && before[j].Some?
        ensures before[j].value.path != slots[i].value.path
      {
        assert before[j] == slots[j];
      }
      AbsentFromMap(before, dict, slots[i].value.path);
    }
    var more := if slots[i].Some? then dict[slots[i].value.path := slots[i].value] else dict;
    forall p | p in more
      ensures exists j :: 0 <= j < |after| && after[j].Some? && after[j].value.path == p
    {
      if p in dict {
        var j :| 0 <= j < i && before[j].Some? && before[j].value.path == p;
        assert after[j].Some? && after[j].value.path == p;
      } else {
        assert after[i].Some? && after[i].value.path == p;
      }
    }
  }

  lemma HoldsUnique(slots: seq<Slot>, a: map<Path, Entry>, b: map<Path, Entry>)
    requires Holds(slots, a) && Holds(slots, b)
    ensures a == b
  {
    assert forall p :: p in a ==> p in b && a[p] == b[p];
    assert forall p :: p in b ==> p in a;
  }

  class HashTable {
    var entries: array<Slot>
    var count: nat
    var treeHash: string
    ghost var dict: map<Path, Entry>

    ghost predicate Valid()
      reads this, entries
    {
      Shape(entries[..], count, dict)
    }

    constructor (capacity: nat)
      requires Capacity(Max(capacity, 16))
      ensures Valid() && fresh(entries) && entries.Length == Max(capacity, 16)
      ensures dict == map[] && treeHash == ""
    {
      var cap := if capacity < 16 then 16 else capacity;
      entries := new Slot[cap](_ => None);
      count, treeHash, dict := 0, "", map[];
      new;
      Empty(cap, entries[..]);
    }

    /** The entry last inserted for the path, or nothing. */
    method Find(path: Path) returns (r: Option<Entry>)
      requires Valid()
      ensures r == if path in dict then Some(dict[path]) else None
    {
      hide Capacity, Home, Reachable, Wrap;
      if count == 0 {
        return None;
      }
      ghost var slots := entries[..];
      var cap := entries.Length;
      ghost var home := Home(path, cap);
      var idx := Home(path, cap);
      for i := 0 to cap
        invariant idx == At(home, i, cap) < cap
        invariant Probed(slots, path, i)
      {
        var s := entries[idx];
        assert s == slots[idx];
        if s.None? {
          ProbedAbsent(slots, path, i);
          return None;
        }
        if s.value.path == path {
          return s;
        }
        NextProbe(home, i, cap);
        idx := Wrap(idx + 1, cap);
      }
      ProbedAbsent(slots, path, cap);
      r := None;
    }

    method Grow()
      requires Valid() && entries.Length * 2 <= U32_END
      modifies this
      ensures Valid() && fresh(entries) && entries.Length == old(entries.Length) * 2
      ensures dict == old(dict) && count == old(count) && treeHash == old(treeHash)
    {
      hide Capacity, Reachable, Holds;
      ghost var slots := entries[..];
      var cap := entries.Length;
      Doubles(cap);
      var bigger := new Slot[cap * 2](_ => None);
      Empty(cap * 2, bigger[..]);
      ghost var moved: map<Path, Entry> := map[];
      NothingMoved(slots, dict);
      for i := 0 to cap
        invariant entries[..] == slots
        invariant Holds(slots[..i], moved) && Taken(slots[..i]) == |moved|
        invariant Shape(bigger[..], |moved|, moved)
        modifies bigger
      {
        NextSlot(slots, i, moved);
        var s := entries[i];
        assert s == slots[i];
        if s.Some? {
          Place(bigger, s.value, moved);
          moved := moved[s.value.path := s.value];
        }
      }
      assert slots[..cap] == slots;
      HoldsUnique(slots, moved, dict);
      entries := bigger;
    }

    /** Walks to the slot of the path or, when it has none, to the first empty slot. */
    method Probe(path: Path) returns (idx: nat, ghost k: nat)
      requires Valid()
      ensures k < entries.Length && idx == At(Home(path, entries.Length), k, entries.Length) < entries.Length
      ensures Probed(entries[..], path, k)
      ensures entries[idx].None? || entries[idx].value.path == path
    {
      hide Capacity, Home, Reachable, Wrap, Holds;
      ghost var slots := entries[..];
      var cap := entries.Length;
      FreeSlot(slots);
      ghost var free :| 0 <= free < cap && slots[free].None?;
      ghost var home := Home(path, cap);
      idx, k := Home(path, cap), 0;
      while entries[idx].Some? && entries[idx].value.path != path
        invariant k <= Dist(home, free, cap) && idx == At(home, k, cap) < cap
        invariant Probed(slots, path, k)
        decreases cap - k
      {
        NextProbe(home, k, cap);
        idx := Wrap(idx + 1, cap);
        k := k + 1;
      }
    }

    method Insert(path: Path, data: seq<u8>, sourceHash: Option<string>, isStatic: bool)
      requires Valid() && (count * 10 > entries.Length * 7 ==> entries.Length * 2 <= U32_END)
      modifies this, entries
      ensures Valid() && (entries == old(entries) || fresh(entries))
      ensures dict == old(dict)[path := Stored(path, data, sourceHash, isStatic)]
      ensures treeHash == old(treeHash)
      ensures entries.Length == old(entries.Length) * if old(count) * 10 > old(entries.Length) * 7 then 2 else 1
    {
      hide Capacity, Home, Reachable, Holds, Probed;
      if count * 10 > entries.Length * 7 {
        Grow();
      }
      Roomy();
      ghost var slots := entries[..];
      var e := Stored(path, data, sourceHash, isStatic);
      var idx, k := Probe(path);
      if entries[idx].Some? {
        assert slots[idx].Some?;
        entries[idx] := Some(e);
        assert entries[..] == slots[idx := Some(e)];
        Overwritten(slots, count, dict, e, idx);
        dict := dict[path := e];
        return;
      }
      assert slots[idx].None?;
      ProbedAbsent(slots, path, k);
      AbsentFromMap(slots, dict, path);
      entries[idx] := Some(e);
      assert entries[..] == slots[idx := Some(e)];
      Placed(slots, count, dict, e, k, idx);
      count, dict := count + 1, dict[path := e];
    }

    /** After the growth test at least one slot stays free beyond the next insertion. */
    lemma Roomy()
      requires Valid() && count * 10 <= entries.Length * 7
      ensures count + 1 < entries.Length
    {
      CapacityBound(entries.Length);
    }
  }

  /** What an insertion stores: no hash is the empty hash. */
  function Stored(path: Path, data: seq<u8>, sourceHash: Option<string>, isStatic: bool): Entry {
    Entry(path, data, if sourceHash.Some? then sourceHash.value else "", isStatic)
  }

  lemma NothingMoved(slots: seq<Slot>, dict: map<Path, Entry>)
    requires Holds(slots, dict)
    ensures Distinct(slots) && slots[..0] == [] && Holds([], map[])
  {
  }

  lemma SameSize(slots: seq<Slot>, dict: map<Path, Entry>, e: Entry, i: nat)
    requires Holds(slots, dict) && i < |slots| && slots[i].Some? && slots[i].value.path == e.path
    ensures |dict[e.path := e]| == |dict|
  {
    assert dict[e.path := e].Keys == dict.Keys;
  }

  lemma AbsentFromMap(slots: seq<Slot>, dict: map<Path, Entry>, p: Path)
    requires Holds(slots, dict)
    requires forall i :: 0 <= i < |slots| && slots[i].Some? ==> slots[i].value.path != p
    ensures p !in dict
  {
  }
}
