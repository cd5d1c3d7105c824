/**
 The bounded queue between the workers and the raft thread: a power-of-two ring of slots and
 two 64-bit counters. A push is four accesses to shared memory: it loads the tail, loads the
 head, fills a slot and stores the tail. What a push does to the queue is said here for each
 access by itself, whatever other producers do in between.
 */
module ProposalQueue {
  import opened Machine
  import opened Bits
  import opened KvStore

  const LOG_CAP: nat := 12
  const QUEUE_CAP: nat := 4096

  /** The slot a counter stands for: counter & (QUEUE_CAP - 1). */
  function Slot(counter: nat): (r: nat)
    ensures r == counter % QUEUE_CAP < QUEUE_CAP
  {
    PowerValues();
    MaskIsMod(counter, LOG_CAP);
    And(counter, QUEUE_CAP - 1)
  }

  lemma SlotsApart(head: nat, i: nat, j: nat)
    requires i < j < QUEUE_CAP
    ensures Slot(head + i) != Slot(head + j)
  {
    var q := (head + i) / QUEUE_CAP;
    assert head + i == q * QUEUE_CAP + Slot(head + i);
    assert head + j == (head + j) / QUEUE_CAP * QUEUE_CAP + Slot(head + j);
  }

  // ---- the shared memory as a value ----

  const BLANK: WriteSet := WriteSet(0, [])

  type Slots = s: seq<WriteSet> | |s| == QUEUE_CAP witness seq(QUEUE_CAP, _ => BLANK)

  datatype Ring = Ring(slots: Slots, head: nat, tail: nat)

  const EMPTY_RING: Ring := Ring(seq(QUEUE_CAP, _ => BLANK), 0, 0)

  /** The write-sets between head and tail, oldest first. */
  function Queued(r: Ring): (q: seq<WriteSet>)
    ensures |q| == Max(r.tail - r.head, 0)
    ensures forall i :: 0 <= i < |q| ==> q[i] == r.slots[Slot(r.head + i)]
  {
    seq(Max(r.tail - r.head, 0), i requires 0 <= i => r.slots[Slot(r.head + i)])
  }

  predicate InOrder(r: Ring) {
    r.head <= r.tail <= r.head + QUEUE_CAP
  }

  /** tail - head < QUEUE_CAP in unsigned arithmetic: a head already past a stale tail makes the
      difference huge. */
  predicate HasRoom(r: Ring, at: nat) {
    r.head <= at < r.head + QUEUE_CAP
  }

  function Fill(r: Ring, at: nat, ws: WriteSet): Ring {
    r.(slots := r.slots[Slot(at) := ws])
  }

  function StoreTail(r: Ring, at: nat): Ring {
    r.(tail := at + 1)
  }

  function Take(r: Ring): Ring {
    r.(head := r.head + 1)
  }

  /** A whole push, when nothing else happens meanwhile. */
  function Append(r: Ring, ws: WriteSet): Ring {
    StoreTail(Fill(r, r.tail, ws), r.tail)
  }

  /** The slot is not one that is queued, unless it already holds the write-set. */
  predicate FillsFree(r: Ring, at: nat, ws: WriteSet) {
    forall i :: 0 <= i < |Queued(r)| && Slot(r.head + i) == Slot(at) ==> Queued(r)[i] == ws
  }

  /** Filling a slot leaves the queue as it is exactly when the slot is free. */
  lemma FillKeepsIff(r: Ring, at: nat, ws: WriteSet)
    ensures Queued(Fill(r, at, ws)) == Queued(r) <==> FillsFree(r, at, ws)
  {
    hide Slot;
    var before, after := Queued(r), Queued(Fill(r, at, ws));
    assert forall i :: 0 <= i < |before| ==> after[i] == if Slot(r.head + i) == Slot(at) then ws else before[i];
    if after == before {
      forall i | 0 <= i < |before| && Slot(r.head + i) == Slot(at)
        ensures before[i] == ws
      {
        assert after[i] == ws;
      }
    }
  }

  /** The tail still is what was loaded, and the slot still holds what was written. */
  predicate StoresOwn(r: Ring, at: nat, ws: WriteSet) {
    at == r.tail && r.slots[Slot(at)] == ws
  }

  /** Storing the tail appends the write-set exactly when no other producer stored a tail since
      this one loaded it, or filled the slot since this one did. */
  lemma StoreAppendsIff(r: Ring, at: nat, ws: WriteSet)
    requires r.head <= r.tail
    ensures Queued(StoreTail(r, at)) == Queued(r) + [ws] <==> StoresOwn(r, at, ws)
  {
    hide Slot;
    var before, after := Queued(r), Queued(StoreTail(r, at));
    if at == r.tail {
      assert after[|before|] == r.slots[Slot(at)];
      assert after == before + [r.slots[Slot(at)]];
      assert (before + [ws])[|before|] == ws;
    } else {
      assert |after| != |before| + 1;
    }
  }

  lemma TakeFirst(r: Ring)
    requires Queued(r) != []
    ensures Queued(r) == [r.slots[Slot(r.head)]] + Queued(Take(r))
  {
    hide Slot;
    var q, rest := Queued(r), Queued(Take(r));
    forall i | 0 <= i < |rest|
      ensures rest[i] == q[i + 1]
    {
      assert Take(r).head + i == r.head + (i + 1);
    }
  }

  /** A push that nothing interrupts appends. */
  lemma AppendIs(r: Ring, ws: WriteSet)
    requires InOrder(r) && HasRoom(r, r.tail)
    ensures FillsFree(r, r.tail, ws) && StoresOwn(Fill(r, r.tail, ws), r.tail, ws)
    ensures InOrder(Append(r, ws)) && Queued(Append(r, ws)) == Queued(r) + [ws]
  {
    FreeAtTail(r, ws);
    FillKeepsIff(r, r.tail, ws);
    StoreAppendsIff(Fill(r, r.tail, ws), r.tail, ws);
  }

  lemma FreeAtTail(r: Ring, ws: WriteSet)
    requires InOrder(r) && HasRoom(r, r.tail)
    ensures FillsFree(r, r.tail, ws)
  {
    hide Slot;
    forall i | 0 <= i < |Queued(r)|
      ensures Slot(r.head + i) == Slot(r.tail) ==> Queued(r)[i] == ws
    {
      SlotsApart(r.head, i, r.tail - r.head);
    }
  }

  /** Two producers that load the same tail: whatever the queue holds, one write-set survives, the
      one that filled the slot last, and the other is gone. */
  lemma TwoLoadsKeepOne(r: Ring, a: WriteSet, b: WriteSet)
    requires InOrder(r) && HasRoom(r, r.tail)
    ensures var at := r.tail;
            Queued(StoreTail(StoreTail(Fill(Fill(r, at, a), at, b), at), at)) == Queued(r) + [b]
  {
    var at := r.tail;
    assert Fill(Fill(r, at, a), at, b) == Fill(r, at, b);
    AppendIs(r, b);
  }

  // ---- producers that loaded the same tail ----

  datatype Access =
    | Filling(ws: WriteSet)
    | Storing
    | Taking

  datatype Played = Played(ring: Ring, taken: seq<WriteSet>)

  /** What the accesses leave, in the order they come in, when each producer has loaded the tail at. */
  function Play(r: Ring, at: nat, accesses: seq<Access>): (p: Played) {
    if accesses == [] then Played(r, []) else
      var p := Play(r, at, Init(accesses));
      match Last(accesses)
      case Filling(ws) => p.(ring := Fill(p.ring, at, ws))
      case Storing => p.(ring := StoreTail(p.ring, at))
      case Taking =>
        if Queued(p.ring) == [] then p
        else Played(Take(p.ring), p.taken + [p.ring.slots[Slot(p.ring.head)]])
  }

  /** No tail is stored before some slot is filled. */
  predicate FillsFirst(accesses: seq<Access>) {
    forall i :: 0 <= i < |accesses| && accesses[i].Storing? ==> exists j :: 0 <= j < i && accesses[j].Filling?
  }

  /** However many producers load the same tail, and in whatever order they then fill the slot and
      store the tail, with or without takes in between: exactly one of their write-sets is taken or
      queued in the end, behind what was queued before, and all others are gone. */
  lemma SameTailKeepsOne(r: Ring, accesses: seq<Access>)
    requires InOrder(r) && HasRoom(r, r.tail) && FillsFirst(accesses) && Storing in accesses
    ensures var p := Play(r, r.tail, accesses);
            exists x :: Filling(x) in accesses && p.taken + Queued(p.ring) == Queued(r) + [x]
  {
    SameTail(r, accesses);
  }

  ghost predicate OneKept(r: Ring, p: Played, accesses: seq<Access>) {
    if Storing in accesses then
      p.ring.tail == r.tail + 1 &&
      exists x :: Filling(x) in accesses && p.taken + Queued(p.ring) == Queued(r) + [x]
    else
      p.ring.tail == r.tail && p.taken + Queued(p.ring) == Queued(r) &&
      ((exists j :: 0 <= j < |accesses| && accesses[j].Filling?) ==>
         Filling(p.ring.slots[Slot(r.tail)]) in accesses)
  }

  lemma {:induction false} SameTail(r: Ring, accesses: seq<Access>)
    requires InOrder(r) && HasRoom(r, r.tail) && FillsFirst(accesses)
    ensures var p := Play(r, r.tail, accesses);
            r.head <= p.ring.head <= p.ring.tail && OneKept(r, p, accesses)
  {
    hide Slot, Queued;
    LengthOf(r);
    if accesses != [] {
      var before := Init(accesses);
      assert accesses == before + [Last(accesses)];
      assert FillsFirst(before) by {
        assert forall i :: 0 <= i < |before| ==> before[i] == accesses[i];
      }
      SameTail(r, before);
      var p := Play(r, r.tail, before);
      LengthOf(p.ring);
      match Last(accesses)
      case Filling(ws) => FillKeepsOne(r, p, before, ws);
      case Storing =>
        assert accesses[|before|].Storing?;
        StoreKeepsOne(r, p, before);
      case Taking =>
        if Queued(p.ring) != [] {
          TakeKeepsOne(r, p, before);
        } else {
          OneKeptFrame(r, p, p, before);
        }
    }
  }

  lemma FillKeepsOne(r: Ring, p: Played, before: seq<Access>, ws: WriteSet)
    requires InOrder(r) && HasRoom(r, r.tail) && r.head <= p.ring.head <= p.ring.tail && OneKept(r, p, before)
    ensures OneKept(r, p.(ring := Fill(p.ring, r.tail, ws)), before + [Filling(ws)])
  {
    hide Slot, Queued;
    var q := Fill(p.ring, r.tail, ws);
    assert Filling(ws) in before + [Filling(ws)];
    if Storing in before {
      if p.ring.head <= r.tail {
        RefilledLast(p.ring, r.tail, ws);
        var x :| Filling(x) in before && p.taken + Queued(p.ring) == Queued(r) + [x];
        LengthOf(p.ring);
        InitOfSum(p.taken, Queued(p.ring));
        InitOfSum(Queued(r), [x]);
        assert p.taken + Init(Queued(p.ring)) == Queued(r);
        assert p.taken + (Init(Queued(p.ring)) + [ws]) == p.taken + Init(Queued(p.ring)) + [ws];
        assert p.taken + Queued(q) == Queued(r) + [ws];
      } else {
        FillKeepsIff(p.ring, r.tail, ws);
        LengthOf(p.ring);
      }
    } else {
      FreeAtTail(p.ring, ws);
      FillKeepsIff(p.ring, r.tail, ws);
    }
  }

  lemma InitOfSum<T>(a: seq<T>, b: seq<T>)
    requires b != []
    ensures a + b != [] && Init(a + b) == a + Init(b)
  {
  }

  lemma RefilledLast(q: Ring, at: nat, ws: WriteSet)
    requires q.head <= at < q.head + QUEUE_CAP && q.tail == at + 1
    ensures Queued(q) != [] && Queued(Fill(q, at, ws)) == Init(Queued(q)) + [ws]
  {
    hide Slot;
    var before, after := Queued(q), Queued(Fill(q, at, ws));
    forall i | 0 <= i < |before| - 1
      ensures after[i] == before[i]
    {
      SlotsApart(q.head, i, at - q.head);
    }
    assert q.head + (|before| - 1) == at;
    assert after[|before| - 1] == ws;
  }

  lemma StoreKeepsOne(r: Ring, p: Played, before: seq<Access>)
    requires InOrder(r) && HasRoom(r, r.tail) && r.head <= p.ring.head <= p.ring.tail && OneKept(r, p, before)
    requires exists j :: 0 <= j < |before| && before[j].Filling?
    ensures OneKept(r, p.(ring := StoreTail(p.ring, r.tail)), before + [Storing])
  {
  }

  lemma TakeKeepsOne(r: Ring, p: Played, before: seq<Access>)
    requires OneKept(r, p, before) && Queued(p.ring) != []
    ensures var first := p.ring.slots[Slot(p.ring.head)];
            OneKept(r, Played(Take(p.ring), p.taken + [first]), before + [Taking])
  {
    hide Slot, Queued, OneKept;
    var first := p.ring.slots[Slot(p.ring.head)];
    TakeFirst(p.ring);
    Assoc(p.taken, [first], Queued(Take(p.ring)));
    OneKeptFrame(r, p, Played(Take(p.ring), p.taken + [first]), before);
  }

  /** Taking adds nothing to the fills and stores. */
  lemma OneKeptFrame(r: Ring, p: Played, q: Played, before: seq<Access>)
    requires OneKept(r, p, before) && q.ring.tail == p.ring.tail && q.ring.slots == p.ring.slots
    requires q.taken + Queued(q.ring) == p.taken + Queued(p.ring)
    ensures OneKept(r, q, before + [Taking])
  {
    hide Slot, Queued;
    var after := before + [Taking];
    assert Storing in after <==> Storing in before;
    assert forall x :: Filling(x) in before ==> Filling(x) in after;
    assert forall j :: 0 <= j < |after| && after[j].Filling? ==> j < |before| && before[j].Filling?;
  }

  // ---- the queue in memory ----

  class Queue {
    const slots: array<WriteSet>
    var head: nat
    var tail: nat

    ghost predicate Valid()
      reads this
    {
      slots.Length == QUEUE_CAP
    }

    ghost function View(): Ring
      requires Valid()
      reads this, slots
    {
      Ring(slots[..], head, tail)
    }

    constructor ()
      ensures Valid() && View() == EMPTY_RING && fresh(slots)
    {
      slots := new WriteSet[QUEUE_CAP](_ => BLANK);
      head, tail := 0, 0;
      new;
      assert slots[..] == EMPTY_RING.slots;
    }

    /** The second load of a push, and its test. */
    method RoomAt(at: nat) returns (ok: bool)
      requires Valid() && at < U64_END && head < U64_END - QUEUE_CAP
      ensures ok == HasRoom(View(), at)
    {
      ok := (at - head) % U64_END < QUEUE_CAP;
    }

    method FillSlot(at: nat, ws: WriteSet)
      requires Valid()
      modifies slots
      ensures Valid() && View() == Fill(old(View()), at, ws)
    {
      slots[Slot(at)] := ws;
    }

    method StoreTailAt(at: nat)
      requires Valid()
      modifies this`tail
      ensures Valid() && View() == StoreTail(old(View()), at)
    {
      tail := at + 1;
    }

    /** pq_push by a lone producer: appends, or refuses a full ring. */
    method Push(ws: WriteSet) returns (ok: bool)
      requires Valid() && InOrder(View()) && tail < U64_END - QUEUE_CAP
      modifies this`tail, slots
      ensures Valid() && InOrder(View()) && head == old(head)
      ensures ok == (|old(Queued(View()))| < 4096)
      ensures Queued(View()) == if ok then old(Queued(View())) + [ws] else old(Queued(View()))
    {
      hide Slot, Queued;
      ghost var before := View();
      LengthOf(before);
      var at := tail;
      ok := RoomAt(at);
      if ok {
        AppendIs(before, ws);
        FillSlot(at, ws);
        StoreTailAt(at);
      }
    }

    /** pq_pop: takes the oldest write-set, if there is one. */
    method Pop() returns (ws: Option<WriteSet>)
      requires Valid()
      modifies this`head
      ensures Valid() && tail == old(tail)
      ensures ws.None? <==> old(Queued(View())) == []
      ensures ws.Some? ==> View() == Take(old(View())) && old(Queued(View())) == [ws.value] + Queued(View())
      ensures ws.None? ==> View() == old(View())
    {
      hide Slot, Queued;
      ghost var before := View();
      LengthOf(before);
      if head >= tail {
        return None;
      }
      TakeFirst(before);
      ws := Some(slots[Slot(head)]);
      head := head + 1;
    }
  }

  lemma LengthOf(r: Ring)
    ensures |Queued(r)| == Max(r.tail - r.head, 0)
  {
  }
}
