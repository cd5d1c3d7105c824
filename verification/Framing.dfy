/**
 Frames on a byte stream, as src/raft_net.c cuts them: a four-byte length and that many bytes.
 What a receiver delivers does not depend on how the stream was chunked.
 */
module Framing {
  import opened Machine
  import opened Wire

  const HEADER: nat := 4
  const RECV_BUF_SIZE: nat := 256 * 1024

  function Frame(p: Bytes): Bytes {
    Be32(|p|) + p
  }

  function Stream(ps: seq<Bytes>): Bytes {
    if ps == [] then [] else Stream(Init(ps)) + Frame(Last(ps))
  }

  predicate Whole(s: Bytes) {
    |s| >= HEADER && |s| >= HEADER + FromBe32(s)
  }

  function First(s: Bytes): Bytes
    requires Whole(s)
  {
    s[HEADER..HEADER + FromBe32(s)]
  }

  function Rest(s: Bytes): (r: Bytes)
    requires Whole(s)
    ensures |r| < |s|
  {
    s[HEADER + FromBe32(s)..]
  }

  /** The payloads of the frames that are complete. */
  function Payloads(s: Bytes): seq<Bytes>
    decreases |s|
  {
    if Whole(s) then [First(s)] + Payloads(Rest(s)) else []
  }

  /** The bytes of the frame that is not complete yet. */
  function Left(s: Bytes): (r: Bytes)
    ensures |r| <= |s| && !Whole(r)
    decreases |s|
  {
    if Whole(s) then Left(Rest(s)) else s
  }

  lemma HeaderOf(a: Bytes, b: Bytes)
    requires |a| >= HEADER
    ensures FromBe32(a + b) == FromBe32(a)
  {
    assert (a + b)[..4] == a[..4];
  }

  lemma WholeAppend(a: Bytes, b: Bytes)
    requires Whole(a)
    ensures Whole(a + b) && First(a + b) == First(a) && Rest(a + b) == Rest(a) + b
  {
    HeaderOf(a, b);
  }

  /** Cutting in two steps is cutting at once. */
  lemma {:induction false} CutAppend(a: Bytes, b: Bytes)
    ensures Payloads(a + b) == Payloads(a) + Payloads(Left(a) + b)
    ensures Left(a + b) == Left(Left(a) + b)
    decreases |a|
  {
    hide FromBe32, First, Rest;
    if Whole(a) {
      WholeAppend(a, b);
      CutAppend(Rest(a), b);
    }
  }

  lemma FrameFirst(p: Bytes, rest: Bytes)
    requires |p| < U32_END
    ensures Whole(Frame(p) + rest) && First(Frame(p) + rest) == p && Rest(Frame(p) + rest) == rest
  {
    Assoc(Be32(|p|), p, rest);
    Be32RoundTrip(|p|, p + rest);
    assert (Frame(p) + rest)[HEADER..] == p + rest;
    DropLeft(p, rest);
  }

  lemma {:induction false} StreamAppend(a: seq<Bytes>, b: seq<Bytes>)
    ensures Stream(a + b) == Stream(a) + Stream(b)
  {
    hide Frame;
    if b == [] {
      assert a + b == a;
    } else {
      StreamAppend(a, Init(b));
      assert Init(a + b) == a + Init(b);
      Assoc(Stream(a), Stream(Init(b)), Frame(Last(b)));
    }
  }

  lemma StreamOne(p: Bytes)
    ensures Stream([p]) == Frame(p)
  {
    assert Init([p]) == [];
  }

  predicate Sendable(ps: seq<Bytes>) {
    forall i :: 0 <= i < |ps| ==> |ps[i]| < U32_END
  }

  predicate Fit(ps: seq<Bytes>) {
    forall i :: 0 <= i < |ps| ==> HEADER + |ps[i]| <= RECV_BUF_SIZE
  }

  lemma Uncons(ps: seq<Bytes>)
    requires ps != []
    ensures Stream(ps) == Frame(ps[0]) + Stream(ps[1..])
  {
    assert ps == [ps[0]] + ps[1..];
    StreamAppend([ps[0]], ps[1..]);
    StreamOne(ps[0]);
  }

  /** Of a stream of frames, exactly the payloads come out. */
  lemma {:induction false} CutStream(ps: seq<Bytes>, rest: Bytes)
    requires Sendable(ps)
    ensures Payloads(Stream(ps) + rest) == ps + Payloads(rest)
    ensures Left(Stream(ps) + rest) == Left(rest)
  {
    hide Frame, First, Rest, Whole;
    if ps == [] {
      assert Stream(ps) + rest == rest;
    } else {
      Uncons(ps);
      Assoc(Frame(ps[0]), Stream(ps[1..]), rest);
      FrameFirst(ps[0], Stream(ps[1..]) + rest);
      CutStream(ps[1..], rest);
      assert [ps[0]] + ps[1..] == ps;
      Assoc([ps[0]], ps[1..], Payloads(rest));
    }
  }

  /** Nothing is lost: the delivered frames and the rest are the stream. */
  lemma {:induction false} Rebuilt(s: Bytes)
    ensures s == Stream(Payloads(s)) + Left(s)
    decreases |s|
  {
    hide Stream, Whole, First, Rest, Frame;
    if Whole(s) {
      Rebuilt(Rest(s));
      var ps := Payloads(s);
      assert ps[1..] == Payloads(Rest(s));
      Uncons(ps);
      FrameThenRest(s);
      Assoc(Frame(First(s)), Stream(ps[1..]), Left(s));
    } else {
      assert Stream([]) + s == s by {
        StreamEmpty();
      }
    }
  }

  lemma StreamEmpty()
    ensures Stream([]) == []
  {
  }

  lemma FrameThenRest(s: Bytes)
    requires Whole(s)
    ensures s == Frame(First(s)) + Rest(s)
  {
    Be32Onto(s);
  }

  /** A prefix of a stream of frames delivers a prefix of the payloads, and what is left is less
      than one frame of the stream. */
  lemma {:induction false} CutPrefix(ps: seq<Bytes>, s: Bytes)
    requires Sendable(ps) && s <= Stream(ps)
    ensures Payloads(s) <= ps
    ensures Left(s) == [] || (|Payloads(s)| < |ps| && |Left(s)| < HEADER + |ps[|Payloads(s)|]|)
    ensures s == Stream(ps) ==> Payloads(s) == ps && Left(s) == []
  {
    hide First, Rest;
    if ps == [] {
    } else {
      Uncons(ps);
      var head := Frame(ps[0]);
      FrameFirst(ps[0], []);
      assert head + [] == head;
      if |head| <= |s| {
        var tail := s[|head|..];
        assert s == head + tail && tail <= Stream(ps[1..]);
        FrameFirst(ps[0], tail);
        CutPrefix(ps[1..], tail);
        assert Payloads(s) == [ps[0]] + Payloads(tail);
      } else {
        assert s == head[..|s|];
        PartialFrame(ps[0], s);
      }
    }
  }

  lemma PartialFrame(p: Bytes, s: Bytes)
    requires |p| < U32_END && |s| < HEADER + |p| && s == Frame(p)[..|s|]
    ensures !Whole(s)
  {
    if |s| >= HEADER {
      Be32RoundTrip(|p|, p);
      assert s[..4] == Frame(p)[..4];
    }
  }

  /** With frames that fit the buffer there is always room for another byte, so a receive that
      is asked for is never one of zero bytes. */
  lemma RoomToReceive(ps: seq<Bytes>, s: Bytes)
    requires Fit(ps) && s <= Stream(ps)
    ensures |Left(s)| < RECV_BUF_SIZE
  {
    CutPrefix(ps, s);
  }

  /** The buffer of 256 KiB can fill up without a complete frame if and only if some frame does not
      fit. */
  lemma StallsIff(ps: seq<Bytes>)
    requires Sendable(ps)
    ensures (exists n :: 0 <= n <= |Stream(ps)| && |Left(Stream(ps)[..n])| == 262144) <==>
            exists i :: 0 <= i < |ps| && 4 + |ps[i]| > 262144
  {
    hide Stream, Left;
    if Fit(ps) {
      forall n | 0 <= n <= |Stream(ps)|
        ensures |Left(Stream(ps)[..n])| != RECV_BUF_SIZE
      {
        RoomToReceive(ps, Stream(ps)[..n]);
      }
    } else {
      var i :| 0 <= i < |ps| && HEADER + |ps[i]| > RECV_BUF_SIZE;
      var n := FillsUp(ps, i);
    }
  }

  lemma FillsUp(ps: seq<Bytes>, i: nat) returns (n: nat)
    requires Sendable(ps) && i < |ps| && HEADER + |ps[i]| > RECV_BUF_SIZE
    ensures n <= |Stream(ps)| && |Left(Stream(ps)[..n])| == RECV_BUF_SIZE
  {
    hide Stream;
    var before, part := Stream(ps[..i]), Frame(ps[i])[..RECV_BUF_SIZE];
    assert ps == ps[..i] + ps[i..];
    StreamAppend(ps[..i], ps[i..]);
    Uncons(ps[i..]);
    CutStream(ps[..i], part);
    PartialFrame(ps[i], part);
    n := |before| + RECV_BUF_SIZE;
    assert Stream(ps)[..n] == before + part;
  }

  /** The size of the first frame as the receive loop computes it. */
  function FrameTotal(s: Bytes): nat
    requires |s| >= HEADER
  {
    (HEADER + FromBe32(s)) % U32_END
  }

  /** The exact limit of the 32-bit frame size: a frame that the receive loop takes for complete lies
      within what was received if and only if its size does not wrap around. A header from 2^32 - 4
      on is always taken for complete, and its payload never lies within. */
  lemma TakenLiesWithinIff(s: Bytes)
    requires HEADER <= |s| <= RECV_BUF_SIZE
    ensures (|s| >= FrameTotal(s) ==> Whole(s)) <==> HEADER + FromBe32(s) < U32_END
    ensures HEADER + FromBe32(s) >= U32_END ==> |s| >= FrameTotal(s) && !Whole(s)
  {
  }

  /** And only one header holds the receive loop up for good: at 2^32 - 4 the size wraps to zero, so
      a round delivers a payload and leaves the buffer as it was. */
  lemma NoProgressIff(s: Bytes)
    requires HEADER <= |s| <= RECV_BUF_SIZE
    ensures |s| >= FrameTotal(s) && s[FrameTotal(s)..] == s <==> FromBe32(s) == U32_END - HEADER
    ensures FrameTotal(s) == 0 <==> FromBe32(s) == U32_END - HEADER
  {
    hide FromBe32;
    assert s[0..] == s;
  }

  /** No header in sight makes the 32-bit frame size wrap around. */
  predicate Plausible(s: Bytes)
    decreases |s|
  {
    |s| >= HEADER ==> HEADER + FromBe32(s) < U32_END && (Whole(s) ==> Plausible(Rest(s)))
  }

  lemma HeaderSays(p: Bytes, rest: Bytes)
    requires |p| < U32_END
    ensures |Frame(p) + rest| >= HEADER && FromBe32(Frame(p) + rest) == |p|
  {
    Assoc(Be32(|p|), p, rest);
    Be32RoundTrip(|p|, p + rest);
  }

  /** Nothing a peer sends in frames that fit ever does. */
  lemma {:induction false} PlausiblePrefix(ps: seq<Bytes>, s: Bytes)
    requires Fit(ps) && s <= Stream(ps)
    ensures Plausible(s)
  {
    hide First, Frame;
    if ps != [] && |s| >= HEADER {
      Uncons(ps);
      HeaderSays(ps[0], Stream(ps[1..]));
      assert s[..4] == Stream(ps)[..4];
      if Whole(s) {
        FrameFirst(ps[0], Stream(ps[1..]));
        var n := HEADER + |ps[0]|;
        assert Rest(s) == s[n..] && Stream(ps)[n..] == Stream(ps[1..]);
        PlausiblePrefix(ps[1..], Rest(s));
      }
    }
  }

  lemma {:induction false} PlausibleLeft(a: Bytes, b: Bytes)
    requires Plausible(a + b)
    ensures Plausible(Left(a) + b)
    decreases |a|
  {
    hide First, Rest, FromBe32;
    if Whole(a) {
      WholeAppend(a, b);
      PlausibleLeft(Rest(a), b);
    }
  }
}
