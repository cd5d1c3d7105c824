/**
 The two ends of a connection in src/raft_net.c, over their buffers: the ring of queued sends
 with its 32-bit counters, and the receive buffer that frames are cut from.
 */
module RaftNet {
  import opened Machine
  import opened Wire
  import opened Framing
  import opened RaftLink

  /** The ring slot of a 32-bit counter. */
  function Slot(counter: nat): (r: nat)
    ensures r < MAX_SEND_QUEUE
  {
    counter % U32_END % MAX_SEND_QUEUE
  }

  /** send_tail - send_head, in 32 bits. */
  function Between(head: u32, tail: u32): nat {
    (tail - head) % U32_END
  }

  function Up(counter: u32): u32 {
    (counter + 1) % U32_END
  }

  /** 256 divides 2^32, so the slots stay apart when the counters wrap around. */
  lemma SlotIs(counter: nat)
    ensures Slot(counter) == counter % MAX_SEND_QUEUE
  {
    var q, r := counter / U32_END, counter % U32_END;
    assert counter == MAX_SEND_QUEUE * (q * 0x100_0000) + r;
    assert counter % MAX_SEND_QUEUE == r % MAX_SEND_QUEUE;
  }

  lemma Around(i: nat)
    ensures (U32_END + i) % MAX_SEND_QUEUE == i % MAX_SEND_QUEUE
  {
    assert U32_END == MAX_SEND_QUEUE * 0x100_0000;
  }

  lemma SlotsApart(head: nat, i: nat, j: nat)
    requires i < j < MAX_SEND_QUEUE
    ensures Slot(head + i) != Slot(head + j)
  {
    hide Slot;
    SlotIs(head + i);
    SlotIs(head + j);
  }

  /** The slot a counter further on, from either side of the wrap-around. */
  lemma SlotWraps(head: u32, i: nat)
    ensures Slot(Up(head) + i) == Slot(head + (i + 1))
  {
    hide Slot;
    SlotIs(Up(head) + i);
    SlotIs(head + (i + 1));
    if head == U32_END - 1 {
      Around(i);
    }
  }

  lemma TailSlot(head: u32, tail: u32)
    ensures Slot(tail) == Slot(head + Between(head, tail))
  {
    hide Slot;
    SlotIs(tail);
    SlotIs(head + Between(head, tail));
    if head > tail {
      assert head + Between(head, tail) == tail + U32_END;
      Around(tail);
    }
  }

  lemma BetweenSteps(head: u32, tail: u32)
    ensures Between(head, tail) == 0 <==> head == tail
    ensures Between(head, tail) < U32_END - 1 ==> Between(head, Up(tail)) == Between(head, tail) + 1
    ensures head != tail ==> Between(Up(head), tail) == Between(head, tail) - 1
  {
    assert Between(head, tail) == if head <= tail then tail - head else tail - head + U32_END;
  }

  class Sender {
    const queue: array<Item>
    var head: u32
    var tail: u32
    var connected: bool

    function Count(): nat
      reads this
    {
      Between(head, tail)
    }

    ghost predicate Valid()
      reads this
    {
      queue.Length == MAX_SEND_QUEUE && Count() <= MAX_SEND_QUEUE
    }

    ghost function Contents(): (r: seq<Item>)
      requires Valid()
      reads this, queue
      ensures |r| == Count()
    {
      seq(Count(), i requires 0 <= i < Count() && queue.Length == MAX_SEND_QUEUE
                   reads this, queue => queue[Slot(head + i)])
    }

    constructor (at: u32)
      ensures Valid() && fresh(queue) && Contents() == [] && !connected
      ensures head == at && tail == at
    {
      queue := new Item[MAX_SEND_QUEUE](_ => Item([], 0));
      head, tail := at, at;
      connected := false;
    }

    /** raft_net_send: refused when not connected or when 256 frames are queued. */
    method Send(data: Bytes) returns (ok: bool)
      requires Valid()
      modifies this, queue
      ensures Valid() && connected == old(connected)
      ensures ok == (old(connected) && |old(Contents())| < MAX_SEND_QUEUE)
      ensures Contents() == if ok then old(Contents()) + [Item(data, 0)] else old(Contents())
    {
      if !connected || Count() >= MAX_SEND_QUEUE {
        return false;
      }
      Enqueue(Item(data, 0));
      ok := true;
    }

    /** The connection is up: the identification frame goes first. */
    method Connected(ident: Bytes)
      requires Valid() && Contents() == []
      modifies this, queue
      ensures Valid() && connected && Contents() == [Item(ident, 0)]
    {
      connected := true;
      Enqueue(Item(ident, 0));
    }

    method Enqueue(item: Item)
      requires Valid() && Count() < MAX_SEND_QUEUE
      modifies this`tail, queue
      ensures Valid() && Contents() == old(Contents()) + [item]
    {
      hide Slot, Between, Up;
      ghost var n, was := Count(), Contents();
      TailSlot(head, tail);
      BetweenSteps(head, tail);
      queue[Slot(tail)] := item;
      tail := Up(tail);
      forall i | 0 <= i < n
        ensures queue[Slot(head + i)] == was[i]
      {
        SlotsApart(head, i, n);
      }
    }

    /** The kernel took res bytes of the head, or the connection failed. */
    method Completed(res: int)
      requires Valid() && Contents() != [] && Contents()[0].sent + res <= |Contents()[0].data|
      modifies this, queue
      ensures Valid()
      ensures res > 0 ==> Contents() == Taken(old(Contents()), res) && connected == old(connected)
      ensures res <= 0 ==> Contents() == [] && !connected
    {
      hide Slot, Between, Up;
      if res <= 0 {
        Disconnect();
        return;
      }
      ghost var was := Contents();
      var item := queue[Slot(head)];
      assert item == was[0] == queue[Slot(head + 0)];
      AddSent(item.(sent := item.sent + res));
      if item.sent + res >= |item.data| {
        Advance();
      }
    }

    method AddSent(item: Item)
      requires Valid() && Contents() != []
      modifies queue
      ensures Valid() && Contents() == [item] + old(Contents())[1..]
    {
      hide Slot, Between, Up;
      ghost var was, n := Contents(), Count();
      queue[Slot(head)] := item;
      forall i | 0 <= i < n
        ensures queue[Slot(head + i)] == if i == 0 then item else was[i]
      {
        if i > 0 {
          SlotsApart(head, 0, i);
        }
      }
    }

    /** The head is done. */
    method Advance()
      requires Valid() && Contents() != []
      modifies this`head
      ensures Valid() && Contents() == old(Contents())[1..]
    {
      hide Slot, Between, Up;
      ghost var was, n := Contents(), Count();
      BetweenSteps(head, tail);
      ghost var before := head;
      head := Up(head);
      ghost var now := Contents();
      forall i | 0 <= i < |now|
        ensures now[i] == was[i + 1]
      {
        SlotWraps(before, i);
        assert was[i + 1] == queue[Slot(before + (i + 1))];
      }
    }

    /** Whatever was queued is dropped. */
    method Disconnect()
      requires Valid()
      modifies this
      ensures Valid() && Contents() == [] && !connected
    {
      hide Between, Up;
      connected := false;
      while head != tail
        invariant Valid() && !connected
        decreases Count()
      {
        BetweenSteps(head, tail);
        head := Up(head);
      }
      BetweenSteps(head, tail);
    }
  }

  const NOBODY: u32 := 0xFFFF_FFFF

  class Receiver {
    const buf: array<u8>
    const peerCount: u32
    var len: nat
    var identifiedAs: u32

    ghost predicate Valid()
      reads this
    {
      buf.Length == RECV_BUF_SIZE && len <= RECV_BUF_SIZE
    }

    ghost function View(): Rx
      requires Valid()
      reads this, buf
    {
      Rx(if identifiedAs == NOBODY then None else Some(identifiedAs), buf[..len])
    }

    constructor (peerCount: u32)
      ensures Valid() && fresh(buf) && this.peerCount == peerCount && View() == Rx(None, [])
    {
      buf := new u8[RECV_BUF_SIZE](_ => 0);
      this.peerCount := peerCount;
      len, identifiedAs := 0, NOBODY;
    }

    /** memmove of what follows the first n bytes to the front. */
    method Shift(n: nat)
      requires Valid() && n <= len
      modifies this`len, buf
      ensures Valid() && buf[..len] == old(buf[n..len])
    {
      var remaining := len - n;
      if remaining > 0 {
        Copy(buf, 0, buf[n..len]);
      }
      len := remaining;
    }

    /** Delivers every complete frame, oldest first, and keeps the rest. */
    method ProcessRecvBuf() returns (out: seq<Bytes>)
      requires Valid() && Plausible(buf[..len])
      modifies this`len, buf
      ensures Valid()
      ensures out == Payloads(old(buf[..len])) && buf[..len] == Left(old(buf[..len]))
    {
      hide Payloads, Left, Plausible, FromBe32, First, Rest, Whole;
      ghost var was := buf[..len];
      out := [];
      while len >= HEADER
        invariant Valid() && Plausible(buf[..len])
        invariant Payloads(was) == out + Payloads(buf[..len]) && Left(was) == Left(buf[..len])
        decreases len
      {
        ghost var s := buf[..len];
        var payloadLen := FromBe32(buf[..HEADER]);
        SameHeader(s, buf[..HEADER]);
        Round(was, out, s);
        var frameTotal := (HEADER + payloadLen) % U32_END;
        if len < frameTotal {
          break;
        }
        ghost var payload, rest := s[HEADER..frameTotal], s[frameTotal..];
        assert frameTotal == HEADER + FromBe32(s) && Plausible(rest);
        assert buf[HEADER..frameTotal] == payload && buf[frameTotal..len] == rest;
        out := out + [buf[HEADER..HEADER + payloadLen]];
        Shift(frameTotal);
        assert buf[..len] == rest;
      }
      CutMeans(buf[..len]);
      WholeMeans(buf[..len]);
      assert out + [] == out;
    }

    /** A completed receive of a nonempty chunk. */
    method Received(chunk: Bytes) returns (out: seq<Bytes>)
      requires Valid() && 0 < |chunk| && len + |chunk| <= RECV_BUF_SIZE
      requires Plausible(buf[..len] + chunk)
      modifies this, buf
      ensures Valid() && (View(), out) == RaftLink.Received(old(View()), chunk, peerCount)
    {
      ghost var start := View();
      Copy(buf, len, chunk);
      len := len + |chunk|;
      ghost var s := buf[..len];
      assert s == start.buf + chunk;
      if identifiedAs == NOBODY && len >= HEADER {
        Identify();
      }
      out := [];
      if identifiedAs != NOBODY {
        out := ProcessRecvBuf();
      }
    }

    /** The first frame of an accepted connection, when complete, says who the peer is. */
    method Identify()
      requires Valid() && len >= HEADER && identifiedAs == NOBODY && Plausible(buf[..len])
      modifies this, buf
      ensures Valid() && Plausible(buf[..len])
      ensures var was := old(buf[..len]);
              View() == if StartsWithIdent(was) then Rx(Claimed(was, peerCount), Rest(was)) else Rx(None, was)
    {
      hide FromBe32, First, Rest, Plausible, StartsWithIdent, Claimed;
      ghost var s := buf[..len];
      var payloadLen := FromBe32(buf[..HEADER]);
      SameHeader(s, buf[..HEADER]);
      CutMeans(s);
      IdentMeans(s, peerCount);
      var frameTotal := (HEADER + payloadLen) % U32_END;
      if len >= frameTotal && payloadLen >= 5 {
        if buf[HEADER] == 5 {
          var sender := FromBe32(buf[HEADER + 1..HEADER + 5]);
          assert buf[HEADER + 1..HEADER + 5] == s[HEADER + 1..HEADER + 5];
          assert StartsWithIdent(s);
          ghost var rest := Rest(s);
          assert buf[frameTotal..len] == s[frameTotal..] == rest;
          if sender < peerCount {
            identifiedAs := sender;
          }
          assert View() == Rx(Claimed(s, peerCount), s);
          Shift(frameTotal);
          assert buf[..len] == rest;
        }
      }
    }

    /** A failed receive drops what was buffered. */
    method Disconnect()
      requires Valid()
      modifies this`len
      ensures Valid() && View() == old(View()).(buf := [])
    {
      len := 0;
    }
  }

  lemma CutMeans(s: Bytes)
    ensures Whole(s) ==>
              Payloads(s) == [First(s)] + Payloads(Rest(s)) && Left(s) == Left(Rest(s)) &&
              First(s) == s[HEADER..HEADER + FromBe32(s)] && Rest(s) == s[HEADER + FromBe32(s)..] &&
              (Plausible(s) ==> Plausible(Rest(s)))
    ensures !Whole(s) ==> Payloads(s) == [] && Left(s) == s
    ensures Plausible(s) && |s| >= HEADER ==> HEADER + FromBe32(s) < U32_END
  {
  }

  /** One round of the receive loop. */
  lemma Round(was: Bytes, done: seq<Bytes>, s: Bytes)
    requires Plausible(s) && |s| >= HEADER
    requires Payloads(was) == done + Payloads(s) && Left(was) == Left(s)
    ensures HEADER + FromBe32(s) < U32_END
    ensures if |s| < HEADER + FromBe32(s) then !Whole(s)
            else
              var payload, rest := s[HEADER..HEADER + FromBe32(s)], s[HEADER + FromBe32(s)..];
              Payloads(was) == done + [payload] + Payloads(rest) && Left(was) == Left(rest) && Plausible(rest)
  {
    hide Payloads, Left, Plausible, FromBe32, First, Rest;
    CutMeans(s);
    if Whole(s) {
      Assoc(done, [First(s)], Payloads(Rest(s)));
    }
  }

  lemma WholeMeans(s: Bytes)
    ensures |s| < HEADER ==> !Whole(s)
  {
  }

  lemma IdentMeans(s: Bytes, peerCount: u32)
    requires |s| >= HEADER
    ensures StartsWithIdent(s) <==> |s| >= HEADER + FromBe32(s) && FromBe32(s) >= 5 && s[HEADER] == 5
    ensures StartsWithIdent(s) ==>
              var sender := FromBe32(s[HEADER + 1..HEADER + 5]);
              Claimed(s, peerCount) == if sender < peerCount then Some(sender) else None
  {
    hide FromBe32;
    if StartsWithIdent(s) {
      SliceSlice(s, HEADER, HEADER + FromBe32(s), 1, 5);
      assert First(s)[1..][..HEADER] == First(s)[1..5];
      SameHeader(First(s)[1..], s[HEADER + 1..HEADER + 5]);
    }
  }

  lemma SameHeader(s: Bytes, header: Bytes)
    requires |s| >= HEADER && |header| >= HEADER && s[..HEADER] == header[..HEADER]
    ensures FromBe32(s) == FromBe32(header)
  {
  }
}
