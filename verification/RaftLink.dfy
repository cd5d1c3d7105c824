/**
 One outbound connection of src/raft_net.c as a state machine: frames are queued, the kernel
 takes any part of the head of the queue, the bytes travel in order, and the peer receives them
 in chunks of any size that its buffer has room for.
 */
module RaftLink {
  import opened Machine
  import opened Wire
  import opened Framing
  import Rpc

  const MAX_SEND_QUEUE: nat := 256

  // A queued frame and how much of it the kernel has taken.
  datatype Item = Item(data: Bytes, sent: nat)

  // The accepting side: who the sender is, once known, and the bytes not yet cut.
  datatype Rx = Rx(ident: Option<u32>, buf: Bytes)

  datatype Link = Link(node: u32, peerCount: u32,
                       queue: seq<Item>, wire: Bytes, rx: Rx,
                       pushed: seq<Bytes>, seen: Bytes, delivered: seq<(u32, Bytes)>)

  datatype Event = Push(payload: Bytes) | Sent(n: nat) | Arrive(n: nat)

  function IdentPayload(node: u32): Bytes {
    Rpc.Payload(Rpc.Ident(node))
  }

  function Start(node: u32, peerCount: u32): Link {
    Link(node, peerCount, [Item(Frame(IdentPayload(node)), 0)], [], Rx(None, []), [], [], [])
  }

  predicate Enabled(l: Link, e: Event) {
    match e
    case Push(p) => |l.queue| < MAX_SEND_QUEUE && HEADER + |p| <= RECV_BUF_SIZE
    case Sent(n) => l.queue != [] && 0 < n && l.queue[0].sent + n <= |l.queue[0].data|
    case Arrive(n) => 0 < n <= |l.wire| && |l.rx.buf| + n <= RECV_BUF_SIZE
  }

  /** The queue after the kernel took n bytes of its head. */
  function Taken(queue: seq<Item>, n: nat): seq<Item>
    requires queue != []
  {
    var item := queue[0].(sent := queue[0].sent + n);
    if item.sent >= |item.data| then queue[1..] else [item] + queue[1..]
  }

  /** Whether the buffer starts with a complete identification frame. */
  predicate StartsWithIdent(buf: Bytes) {
    Whole(buf) && |First(buf)| >= 5 && First(buf)[0] == 5
  }

  function Claimed(buf: Bytes, peerCount: u32): Option<u32>
    requires StartsWithIdent(buf)
  {
    var sender := FromBe32(First(buf)[1..]);
    if sender < peerCount then Some(sender) else None
  }

  /** The handling of one completed receive. */
  function Received(rx: Rx, chunk: Bytes, peerCount: u32): (Rx, seq<Bytes>) {
    var buf := rx.buf + chunk;
    var mid := if rx.ident.None? && StartsWithIdent(buf) then Rx(Claimed(buf, peerCount), Rest(buf))
               else Rx(rx.ident, buf);
    if mid.ident.Some? then (Rx(mid.ident, Left(mid.buf)), Payloads(mid.buf)) else (mid, [])
  }

  /** The bytes start with a frame that says: I am this node. */
  ghost predicate Introduces(buf: Bytes, sender: u32, extra: Bytes, rest: Bytes) {
    5 + |extra| < U32_END && buf == Be32(5 + |extra|) + ([5] + (Be32(sender) + extra)) + rest
  }

  /** Until the first frame introduces a known node nothing is delivered, and exactly such a frame
      identifies the sender. */
  lemma IdentifiedIff(b: Bytes, chunk: Bytes, peerCount: u32, sender: u32)
    ensures var (rx, out) := Received(Rx(None, b), chunk, peerCount);
            (rx.ident == Some(sender) <==>
               sender < peerCount && exists extra, rest :: Introduces(b + chunk, sender, extra, rest)) &&
            (rx.ident.None? ==> out == [])
  {
    hide Whole, First, Rest, FromBe32, Payloads, Left;
    var buf := b + chunk;
    if StartsWithIdent(buf) {
      FrameThenRest(buf);
      var p, rest := First(buf), Rest(buf);
      Be32Onto(p[1..]);
      assert p == [5] + (p[1..][..4] + p[5..]);
      WholeSize(buf);
      assert Introduces(buf, FromBe32(p[1..]), p[5..], rest);
    }
    if extra, rest :| Introduces(buf, sender, extra, rest) {
      var p := [5] + (Be32(sender) + extra);
      FrameFirst(p, rest);
      Be32RoundTrip(sender, extra);
      assert p[1..] == Be32(sender) + extra;
    }
  }

  lemma WholeSize(s: Bytes)
    requires Whole(s)
    ensures |First(s)| < U32_END
  {
  }

  function Tagged(sender: u32, ps: seq<Bytes>): (r: seq<(u32, Bytes)>)
    ensures |r| == |ps|
  {
    seq(|ps|, i requires 0 <= i < |ps| => (sender, ps[i]))
  }

  function Next(l: Link, e: Event): Link
    requires Enabled(l, e)
  {
    match e
    case Push(p) => l.(queue := l.queue + [Item(Frame(p), 0)], pushed := l.pushed + [p])
    case Sent(n) =>
      l.(queue := Taken(l.queue, n),
         wire := l.wire + l.queue[0].data[l.queue[0].sent..l.queue[0].sent + n])
    case Arrive(n) =>
      var (rx, out) := Received(l.rx, l.wire[..n], l.peerCount);
      l.(wire := l.wire[n..], rx := rx, seen := l.seen + l.wire[..n],
         delivered := l.delivered + if rx.ident.Some? then Tagged(rx.ident.value, out) else [])
  }

  predicate Runs(node: u32, peerCount: u32, es: seq<Event>)
    decreases |es|, 0
  {
    es == [] || (Runs(node, peerCount, Init(es)) && Enabled(After(node, peerCount, Init(es)), Last(es)))
  }

  function After(node: u32, peerCount: u32, es: seq<Event>): Link
    requires Runs(node, peerCount, es)
    decreases |es|, 1
  {
    if es == [] then Start(node, peerCount) else Next(After(node, peerCount, Init(es)), Last(es))
  }

  // ---------------------------------------------------------------- what is conserved

  function Unsent(queue: seq<Item>): Bytes
    requires forall i :: 0 <= i < |queue| ==> queue[i].sent <= |queue[i].data|
  {
    if queue == [] then [] else Unsent(Init(queue)) + Last(queue).data[Last(queue).sent..]
  }

  predicate Queued(queue: seq<Item>) {
    forall i :: 0 <= i < |queue| ==> queue[i].sent < |queue[i].data|
  }

  function All(l: Link): seq<Bytes> {
    [IdentPayload(l.node)] + l.pushed
  }

  /** What the receiver is after some bytes of the stream, whatever the chunks were. */
  function RxAfter(seen: Bytes, node: u32): Rx {
    if Whole(seen) then Rx(Some(node), Left(Rest(seen))) else Rx(None, seen)
  }

  function DeliveredAfter(seen: Bytes, node: u32): seq<(u32, Bytes)> {
    if Whole(seen) then Tagged(node, Payloads(Rest(seen))) else []
  }

  predicate Inv(l: Link) {
    l.node < l.peerCount && Fit(All(l)) && Queued(l.queue) &&
    Stream(All(l)) == l.seen + l.wire + Unsent(l.queue) &&
    l.rx == RxAfter(l.seen, l.node) && l.delivered == DeliveredAfter(l.seen, l.node)
  }

  lemma IdentShape(node: u32)
    ensures IdentPayload(node) == [5] + Be32(node) && |IdentPayload(node)| == 5
  {
    assert Rpc.Fields(Rpc.Ident(node)) == [Rpc.Narrow(node)];
    Rpc.EncodedSnoc([], Rpc.Narrow(node));
    assert [] + [Rpc.Narrow(node)] == [Rpc.Narrow(node)];
    assert Rpc.Encoded([Rpc.Narrow(node)]) == Be32(node);
  }

  lemma UnsentSnoc(queue: seq<Item>, x: Item)
    requires Queued(queue) && x.sent < |x.data|
    ensures Queued(queue + [x]) && Unsent(queue + [x]) == Unsent(queue) + x.data[x.sent..]
  {
    assert Init(queue + [x]) == queue;
  }

  lemma {:induction false} UnsentUncons(queue: seq<Item>)
    requires Queued(queue) && queue != []
    ensures Unsent(queue) == queue[0].data[queue[0].sent..] + Unsent(queue[1..])
  {
    if |queue| == 1 {
      assert Init(queue) == [] && queue[1..] == [];
    } else {
      UnsentUncons(Init(queue));
      assert Init(queue)[1..] == Init(queue[1..]) && Last(queue[1..]) == Last(queue);
      Assoc(queue[0].data[queue[0].sent..], Unsent(Init(queue[1..])), Last(queue).data[Last(queue).sent..]);
    }
  }

  /** What the kernel takes is what the queue loses. */
  lemma TakenConserves(queue: seq<Item>, n: nat)
    requires Queued(queue) && queue != [] && 0 < n && queue[0].sent + n <= |queue[0].data|
    ensures Queued(Taken(queue, n))
    ensures Unsent(queue) == queue[0].data[queue[0].sent..queue[0].sent + n] + Unsent(Taken(queue, n))
  {
    hide Unsent, Frame;
    var item, tail := queue[0], queue[1..];
    var chunk, rest := item.data[item.sent..item.sent + n], item.data[item.sent + n..];
    SplitAt(item.data, item.sent, n);
    UnsentUncons(queue);
    Assoc(chunk, rest, Unsent(tail));
    if item.sent + n < |item.data| {
      MoreToSend(item.(sent := item.sent + n), tail);
    } else {
      assert rest == [] && [] + Unsent(tail) == Unsent(tail);
    }
  }

  lemma MoreToSend(item: Item, tail: seq<Item>)
    requires Queued(tail) && item.sent < |item.data|
    ensures Queued([item] + tail) && Unsent([item] + tail) == item.data[item.sent..] + Unsent(tail)
  {
    hide Unsent;
    assert ([item] + tail)[1..] == tail;
    UnsentUncons([item] + tail);
  }

  lemma SplitAt(d: Bytes, i: nat, n: nat)
    requires i + n <= |d|
    ensures d[i..] == d[i..i + n] + d[i + n..]
  {
  }

  /** Receiving a chunk more is what receiving everything at once would give. */
  lemma ReceivedIs(seen: Bytes, chunk: Bytes, node: u32, peerCount: u32, ps: seq<Bytes>)
    requires node < peerCount && Fit([IdentPayload(node)] + ps)
    requires seen + chunk <= Stream([IdentPayload(node)] + ps)
    ensures var (rx, out) := Received(RxAfter(seen, node), chunk, peerCount);
            rx == RxAfter(seen + chunk, node) &&
            DeliveredAfter(seen + chunk, node) ==
              DeliveredAfter(seen, node) + if rx.ident.Some? then Tagged(rx.ident.value, out) else []
  {
    hide Frame, Whole, First, Rest;
    if Whole(seen) {
      WholeAppend(seen, chunk);
      CutAppend(Rest(seen), chunk);
      TaggedAppend(node, Payloads(Rest(seen)), Payloads(Left(Rest(seen)) + chunk));
    } else if Whole(seen + chunk) {
      FirstIsIdent(seen + chunk, node, ps);
      assert Tagged(node, Payloads(Rest(seen + chunk))) == [] + Tagged(node, Payloads(Rest(seen + chunk)));
    } else {
    }
  }

  lemma TaggedAppend(node: u32, a: seq<Bytes>, b: seq<Bytes>)
    ensures Tagged(node, a + b) == Tagged(node, a) + Tagged(node, b)
  {
  }

  lemma FirstIsIdent(s: Bytes, node: u32, ps: seq<Bytes>)
    requires Fit([IdentPayload(node)] + ps) && s <= Stream([IdentPayload(node)] + ps) && Whole(s)
    ensures StartsWithIdent(s) && First(s) == IdentPayload(node) && FromBe32(First(s)[1..]) == node
  {
    var all := [IdentPayload(node)] + ps;
    CutPrefix(all, s);
    assert Payloads(s)[0] == First(s);
    IdentShape(node);
    Be32RoundTrip(node, []);
    assert First(s)[1..] == Be32(node) + [];
  }

  // ---------------------------------------------------------------- every step keeps it

  lemma PushKeepsInv(l: Link, p: Bytes)
    requires Inv(l) && Enabled(l, Push(p))
    ensures Inv(Next(l, Push(p)))
  {
    hide Frame, Unsent, RxAfter, DeliveredAfter;
    FrameNotEmpty(p);
    UnsentSnoc(l.queue, Item(Frame(p), 0));
    assert Frame(p)[0..] == Frame(p);
    assert All(Next(l, Push(p))) == All(l) + [p];
    StreamAppend(All(l), [p]);
    StreamOne(p);
    Assoc(l.seen + l.wire, Unsent(l.queue), Frame(p));
  }

  lemma FrameNotEmpty(p: Bytes)
    ensures |Frame(p)| == HEADER + |p|
  {
  }

  lemma SentKeepsInv(l: Link, n: nat)
    requires Inv(l) && Enabled(l, Sent(n))
    ensures Inv(Next(l, Sent(n)))
  {
    hide Frame, Unsent, RxAfter, DeliveredAfter, Stream, Taken;
    TakenConserves(l.queue, n);
    var chunk := l.queue[0].data[l.queue[0].sent..l.queue[0].sent + n];
    Assoc(l.seen, l.wire, chunk);
    Assoc(l.seen + l.wire, chunk, Unsent(Taken(l.queue, n)));
  }

  lemma ArriveKeepsInv(l: Link, n: nat)
    requires Inv(l) && Enabled(l, Arrive(n))
    ensures Inv(Next(l, Arrive(n)))
  {
    hide Frame, Unsent, RxAfter, DeliveredAfter, Stream, Received;
    var chunk, rest := l.wire[..n], l.wire[n..];
    assert l.wire == chunk + rest;
    Assoc(l.seen, chunk, rest);
    Assoc(l.seen + chunk, rest, Unsent(l.queue));
    ReceivedIs(l.seen, chunk, l.node, l.peerCount, l.pushed);
  }

  /** What the receive loop relies on holds whenever bytes arrive: no frame size wraps around. */
  lemma ArriveIsSafe(l: Link, n: nat)
    requires Inv(l) && Enabled(l, Arrive(n))
    ensures Plausible(l.rx.buf + l.wire[..n])
  {
    hide Frame, Stream, Unsent, Plausible, First, Rest, Whole;
    var chunk := l.wire[..n];
    assert l.wire == chunk + l.wire[n..];
    Assoc(l.seen, chunk, l.wire[n..]);
    Assoc(l.seen + chunk, l.wire[n..], Unsent(l.queue));
    PlausiblePrefix(All(l), l.seen + chunk);
    PlausibleLeft(l.seen, chunk);
    LeftOfRest(l.seen);
  }

  lemma LeftOfRest(s: Bytes)
    ensures Left(s) == if Whole(s) then Left(Rest(s)) else s
  {
  }

  lemma {:induction false} RunKeepsInv(node: u32, peerCount: u32, es: seq<Event>)
    requires Runs(node, peerCount, es) && node < peerCount
    ensures Inv(After(node, peerCount, es))
    ensures After(node, peerCount, es).node == node && After(node, peerCount, es).peerCount == peerCount
  {
    hide Inv;
    if es == [] {
      StartInv(node, peerCount);
    } else {
      RunKeepsInv(node, peerCount, Init(es));
      var l := After(node, peerCount, Init(es));
      var e := Last(es);
      if e.Push? {
        PushKeepsInv(l, e.payload);
      } else if e.Sent? {
        SentKeepsInv(l, e.n);
      } else {
        ArriveKeepsInv(l, e.n);
      }
    }
  }

  lemma StartInv(node: u32, peerCount: u32)
    requires node < peerCount
    ensures Inv(Start(node, peerCount))
  {
    var l := Start(node, peerCount);
    IdentShape(node);
    FrameNotEmpty(IdentPayload(node));
    UnsentSnoc([], Item(Frame(IdentPayload(node)), 0));
    assert [] + l.queue == l.queue;
    assert Frame(IdentPayload(node))[0..] == Frame(IdentPayload(node));
    assert All(l) == [IdentPayload(node)];
    StreamOne(IdentPayload(node));
  }

  // ---------------------------------------------------------------- end to end

  /** Whatever the partial sends and the chunks were, the peer has been handed a prefix of the
      queued payloads, in order, once each, every one under the sender's own number; the
      identification frame is not among them. */
  lemma DeliveredInOrder(node: u32, peerCount: u32, es: seq<Event>)
    requires Runs(node, peerCount, es) && node < peerCount
    ensures var l := After(node, peerCount, es);
            l.delivered <= Tagged(node, l.pushed)
  {
    RunKeepsInv(node, peerCount, es);
    DeliveredPrefix(After(node, peerCount, es));
  }

  lemma DeliveredPrefix(l: Link)
    requires Inv(l)
    ensures l.delivered <= Tagged(l.node, l.pushed)
    ensures l.seen == Stream(All(l)) ==> l.delivered == Tagged(l.node, l.pushed)
  {
    hide Frame, Unsent, Stream;
    CutPrefix(All(l), l.seen);
    if Whole(l.seen) {
      assert Payloads(l.seen) == [First(l.seen)] + Payloads(Rest(l.seen));
      assert Payloads(Rest(l.seen)) == Payloads(l.seen)[1..];
      assert l.pushed == All(l)[1..];
    }
  }

  /** Once nothing is queued and nothing is on the way, everything has been delivered. */
  lemma QuietMeansDelivered(node: u32, peerCount: u32, es: seq<Event>)
    requires Runs(node, peerCount, es) && node < peerCount
    requires After(node, peerCount, es).queue == [] && After(node, peerCount, es).wire == []
    ensures var l := After(node, peerCount, es);
            l.delivered == Tagged(node, l.pushed) && l.rx == Rx(Some(node), [])
  {
    hide Frame, Stream, First, Rest;
    RunKeepsInv(node, peerCount, es);
    var l := After(node, peerCount, es);
    assert Unsent([]) == [];
    assert l.seen + [] + [] == l.seen;
    assert l.seen == Stream(All(l));
    DeliveredPrefix(l);
    CutPrefix(All(l), l.seen);
    assert Payloads(l.seen) == All(l);
  }

  /** Until then the kernel can take a byte or the peer can receive one. */
  lemma NeverStuck(node: u32, peerCount: u32, es: seq<Event>)
    requires Runs(node, peerCount, es) && node < peerCount
    ensures var l := After(node, peerCount, es);
            (l.queue == [] && l.wire == []) || Enabled(l, Sent(1)) || Enabled(l, Arrive(1))
  {
    RunKeepsInv(node, peerCount, es);
    var l := After(node, peerCount, es);
    RoomToReceive(All(l), l.seen);
    if Whole(l.seen) {
      assert Left(l.seen) == Left(Rest(l.seen));
    }
    assert |l.rx.buf| < RECV_BUF_SIZE;
  }

  /** Bytes still to be taken count twice, bytes on the way once. */
  function Weight(l: Link): nat
    requires Queued(l.queue)
  {
    2 * |Unsent(l.queue)| + |l.wire|
  }

  /** And each such step brings the end nearer: without new pushes a run is finite. */
  lemma StepsShrink(l: Link, e: Event)
    requires Inv(l) && Enabled(l, e) && !e.Push?
    ensures Queued(Next(l, e).queue) && Weight(Next(l, e)) < Weight(l)
  {
    if e.Sent? {
      TakenConserves(l.queue, e.n);
    }
  }

  /** Raft messages pushed as frames are the messages the peer decodes. */
  lemma MessagesArrive(node: u32, peerCount: u32, es: seq<Event>, ms: seq<Rpc.Message>)
    requires Runs(node, peerCount, es) && node < peerCount
    requires |ms| == |After(node, peerCount, es).pushed|
    requires forall i :: 0 <= i < |ms| ==>
               Rpc.WellFormed(ms[i]) && After(node, peerCount, es).pushed[i] == Rpc.Payload(ms[i])
    ensures var out := After(node, peerCount, es).delivered;
            |out| <= |ms| &&
            forall i :: 0 <= i < |out| ==> out[i].0 == node && Rpc.Decoded(out[i].1) == Some(ms[i])
  {
    DeliveredInOrder(node, peerCount, es);
    var l := After(node, peerCount, es);
    forall i | 0 <= i < |l.delivered|
      ensures l.delivered[i].0 == node && Rpc.Decoded(l.delivered[i].1) == Some(ms[i])
    {
      assert l.delivered[i] == Tagged(node, l.pushed)[i];
      Rpc.DecodedIff(l.delivered[i].1, ms[i]);
    }
  }
}
