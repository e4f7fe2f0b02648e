/** The client object: one connection, a deadline per call, a reset on any failure
    (src/client/client.cc). Each method is one call made while holding the mutex. */
module Client {
  import opened Bytes
  import opened Framing
  import MsgPack
  import opened Protocol
  import E = Endpoint

  const COMMIT_WRITE_MS: nat := 50

  function Remaining(deadline: int, now: int): (ms: nat)
    ensures ms * E.MS <= Max(0, deadline - now)
  {
    if deadline <= now then 0 else (deadline - now) / E.MS
  }

  datatype Taken = Taken(body: bytes, rest: bytes)

  /** The first whole frame of a stream, if its length is one the client accepts. */
  function FirstFrame(stream: bytes): (r: Option<Taken>)
  {
    if |stream| < HEADER_BYTES then None else
    match ReadFrameLength(stream[..HEADER_BYTES])
    case None => None
    case Some(n) =>
      if |stream| < HEADER_BYTES + n then None
      else Some(Taken(stream[HEADER_BYTES..HEADER_BYTES + n], stream[HEADER_BYTES + n..]))
  }

  /** What the reader makes of any frame, of a body of any length, at the front of a stream:
      the body if it is within the cap; if only its length modulo 2^32 is, that many bytes of
      it, the others left to be read as the next frame; else it gives up. */
  lemma FirstOfAnyFrame(body: bytes, rest: bytes)
    ensures var n := |body| % U32_SIZE;
            FirstFrame(EncodeFrame(body) + rest) ==
            if 0 < n <= MAX_FRAME_BODY then Some(Taken(body[..n], body[n..] + rest)) else None
    ensures FirstFrame(EncodeFrame(body) + rest) == Some(Taken(body, rest)) <==> 0 < |body| <= MAX_FRAME_BODY
  {
    var frame, n := EncodeFrame(body), |body| % U32_SIZE;
    LengthIsCut(body);
    hide EncodeFrame, ReadFrameLength;
    var s := frame + rest;
    assert s[..HEADER_BYTES] == frame[..HEADER_BYTES] && s[HEADER_BYTES..] == body + rest;
    if 0 < n <= MAX_FRAME_BODY {
      assert s[HEADER_BYTES..HEADER_BYTES + n] == body[..n] && s[HEADER_BYTES + n..] == body[n..] + rest;
      assert n == |body| ==> body[..n] == body && body[n..] == [] && [] + rest == rest;
      assert n < |body| ==> |body[..n]| != |body|;
    }
  }

  /** A framed body within the cap is the first frame of the stream it heads. */
  lemma FirstOfFrames(body: bytes, rest: bytes)
    requires 0 < |body| <= MAX_FRAME_BODY
    ensures FirstFrame(EncodeFrame(body) + rest) == Some(Taken(body, rest))
  {
    FirstOfAnyFrame(body, rest);
    hide FirstFrame, EncodeFrame;
  }

  // ---- When a call goes through --------------------------------------------

  /** A write or read under what is left of the deadline. */
  function Within(dir: E.Direction, net: E.Net, deadline: int, size: nat, avail: nat): (t: E.Transfer)
  {
    E.TransferOf(dir, net, net.now + Remaining(deadline, net.now) * E.MS, size, avail)
  }

  /** The first frame of the stream is whole, and is read in time. */
  predicate Received(net: E.Net, deadline: int, stream: bytes)
  {
    FirstFrame(stream).Some? &&
    var h := Within(E.Reading, net, deadline, HEADER_BYTES, |stream|);
    h.ok && Within(E.Reading, h.net, deadline, |FirstFrame(stream).value.body|, |stream| - HEADER_BYTES).ok
  }

  /** A frame of `size` bytes is written and the first frame of the stream is read, in time. */
  predicate Exchanged(net: E.Net, deadline: int, size: nat, stream: bytes)
  {
    var w := Within(E.Writing, net, deadline, size, size);
    w.ok && Received(w.net, deadline, stream)
  }

  lemma PieceWithin(dir: E.Direction, net: E.Net, deadline: int, size: nat, avail: nat,
                    piece: seq<E.Answer>, rest: seq<E.Answer>)
    requires net.script == piece + rest && size <= avail && E.Carries(dir, piece, size)
    requires net.now + E.Elapsed(piece) + 2 * E.MS <= deadline <= net.now + E.INT_MAX * E.MS
    ensures Within(dir, net, deadline, size, avail) == E.Transfer(true, size, E.Net(net.now + E.Elapsed(piece), rest))
  {
    var mine := net.now + Remaining(deadline, net.now) * E.MS;
    assert deadline - E.MS < mine <= deadline;
    hide E.TransferOf, E.Carries, E.Elapsed, E.Timely, Remaining;
    E.EarlyIsTimely(piece, net.now, mine);
    E.PieceMoves(dir, net, mine, size, avail, piece, rest);
  }

  /** However the frame is taken and the reply arrives, in pieces of any sizes and with any
      interruptions: if the last byte is there two milliseconds before the deadline, both go
      through. */
  lemma InTimeGoesThrough(net: E.Net, deadline: int, size: nat, stream: bytes, write: seq<E.Answer>,
                          header: seq<E.Answer>, body: seq<E.Answer>, rest: seq<E.Answer>)
    requires net.script == write + (header + (body + rest)) && FirstFrame(stream).Some?
    requires E.Carries(E.Writing, write, size) && E.Carries(E.Reading, header, HEADER_BYTES)
    requires E.Carries(E.Reading, body, |FirstFrame(stream).value.body|)
    requires net.now + E.Elapsed(write) + E.Elapsed(header) + E.Elapsed(body) + 2 * E.MS <= deadline
    requires deadline <= net.now + E.INT_MAX * E.MS
    ensures Exchanged(net, deadline, size, stream)
  {
    hide E.Carries, E.Elapsed, Within, Received, FirstFrame;
    PieceWithin(E.Writing, net, deadline, size, size, write, header + (body + rest));
    ReceivedInTime(E.Net(net.now + E.Elapsed(write), header + (body + rest)), deadline, stream, header, body, rest);
  }

  lemma ReceivedInTime(net: E.Net, deadline: int, stream: bytes,
                       header: seq<E.Answer>, body: seq<E.Answer>, rest: seq<E.Answer>)
    requires net.script == header + (body + rest) && FirstFrame(stream).Some?
    requires E.Carries(E.Reading, header, HEADER_BYTES)
    requires E.Carries(E.Reading, body, |FirstFrame(stream).value.body|)
    requires net.now + E.Elapsed(header) + E.Elapsed(body) + 2 * E.MS <= deadline <= net.now + E.INT_MAX * E.MS
    ensures Received(net, deadline, stream)
  {
    hide E.Carries, E.Elapsed, Within, FirstFrame, E.TransferOf, Remaining;
    FirstFrameSize(stream);
    var n, net' := |FirstFrame(stream).value.body|, E.Net(net.now + E.Elapsed(header), body + rest);
    PieceWithin(E.Reading, net, deadline, HEADER_BYTES, |stream|, header, body + rest);
    PieceWithin(E.Reading, net', deadline, n, |stream| - HEADER_BYTES, body, rest);
  }

  lemma FirstFrameSize(stream: bytes)
    requires FirstFrame(stream).Some?
    ensures var t := FirstFrame(stream).value; |stream| == HEADER_BYTES + |t.body| + |t.rest|
  {
  }

  /** The first frame of `stream` was taken, and `reply` is what it decodes to. */
  predicate Took(stream: bytes, inbound: bytes, reply: Option<Message>)
  {
    && FirstFrame(stream).Some? && reply == Decode(FirstFrame(stream).value.body)
    && inbound == FirstFrame(stream).value.rest
  }

  predicate SentWhole(before: bytes, after: bytes, m: Message)
  {
    Sendable(m) && after == before + EncodeFrame(Body(m))
  }

  predicate SentPart(before: bytes, after: bytes, m: Message)
  {
    Sendable(m) && before <= after <= before + EncodeFrame(Body(m))
  }

  /** With a connection, `m` goes out and the first frame of `stream` comes in and decodes. */
  predicate Completes(connected: bool, net: E.Net, deadline: int, m: Message, stream: bytes)
  {
    && connected && Sendable(m) && Exchanged(net, deadline, |EncodeFrame(Body(m))|, stream)
    && Decode(FirstFrame(stream).value.body).Some?
  }

  class DafengClient {
    const world: E.World
    var conn: E.UnixConnection?
    var nextId: u32

    ghost predicate Valid()
      reads this, conn
    {
      conn != null ==> conn.world == world && conn.open
    }

    constructor (world: E.World)
      ensures Valid() && conn == null && nextId == 1 && this.world == world
    {
      this.world, conn, nextId := world, null, 1;
    }

    /** The stream still to come on the connection a call will use: the live one's, or
        that of a new one, if connecting gives one. */
    ghost function Stream(peer: Option<bytes>): (s: bytes)
      reads this, conn
    {
      if conn != null then conn.inbound else if peer.Some? then peer.value else []
    }

    /** EnsureConnectedLocked; `peer` is what connecting would give. */
    method EnsureConnected(peer: Option<bytes>) returns (ok: bool)
      requires Valid()
      modifies this`conn
      ensures Valid() && ok == (old(conn) != null || peer.Some?)
      ensures ok <==> conn != null
      ensures old(conn) != null ==> conn == old(conn)
      ensures ok && old(conn) == null ==> fresh(conn) && conn.inbound == peer.value && conn.outbound == []
    {
      if conn != null { return true; }
      match peer {
        case None => conn := null; return false;
        case Some(stream) => conn := new E.UnixConnection(world, stream); return true;
      }
    }

    /** ResetLocked */
    method Reset()
      requires Valid()
      modifies this`conn, conn
      ensures Valid() && conn == null
      ensures old(conn) != null ==> old(conn).outbound == old(conn.outbound) && !old(conn).open
    {
      if conn != null { conn.Close(); }
      conn := null;
    }

    /** Writes one frame. On failure the connection is dropped. */
    method SendFrame(m: Message, timeoutMs: nat) returns (ok: bool)
      requires Valid() && conn != null && Sendable(m)
      modifies this`conn, conn, world
      ensures Valid()
      ensures ok ==> conn == old(conn) && conn.inbound == old(conn.inbound)
                     && conn.outbound == old(conn.outbound) + EncodeFrame(Body(m))
      ensures !ok ==> conn == null
      ensures !ok ==> old(conn.outbound) <= old(conn).outbound < old(conn.outbound) + EncodeFrame(Body(m))
      ensures old(world.now) <= world.now <= old(world.now) + timeoutMs * E.MS
      ensures var size := |EncodeFrame(Body(m))|;
              var t := E.TransferOf(E.Writing, old(world.View()), old(world.now) + timeoutMs * E.MS, size, size);
              ok == t.ok && world.View() == t.net
    {
      hide E.TransferOf;
      var body := EncodeBody(m);
      var frame := EncodeFrame(body);
      var buf := new byte[|frame|](i requires 0 <= i < |frame| => frame[i]);
      assert buf[..|frame|] == frame;
      ok := conn.WriteAll(buf, |frame|, timeoutMs);
      if !ok { Reset(); }
    }

    /** Reads one frame under what is left of the deadline and decodes it. */
    method ReceiveReply(deadline: int) returns (reply: Option<Message>)
      requires Valid() && conn != null
      modifies this`conn, conn, world
      ensures Valid()
      ensures reply.Some? ==>
        && conn == old(conn) && FirstFrame(old(conn.inbound)).Some?
        && reply == Decode(FirstFrame(old(conn.inbound)).value.body)
        && conn.inbound == FirstFrame(old(conn.inbound)).value.rest
        && conn.outbound == old(conn.outbound)
      ensures reply.None? ==> conn == null && old(conn).outbound == old(conn.outbound)
      ensures old(world.now) <= world.now <= Max(old(world.now), deadline)
      ensures reply.Some? <==>
        Received(old(world.View()), deadline, old(conn.inbound))
        && Decode(FirstFrame(old(conn.inbound)).value.body).Some?
    {
      hide Decode, E.TransferOf;
      var stream := conn.inbound;
      var header := new byte[HEADER_BYTES](_ => 0);
      var ok := conn.ReadFull(header, HEADER_BYTES, Remaining(deadline, world.now));
      if !ok { Reset(); return None; }
      assert header[..] == header[..HEADER_BYTES];
      var len := ReadFrameLength(header[..]);
      if len.None? { Reset(); return None; }
      assert stream[..HEADER_BYTES] == header[..];
      var body := new byte[len.value](_ => 0);
      ok := conn.ReadFull(body, len.value, Remaining(deadline, world.now));
      if !ok { Reset(); return None; }
      assert body[..] == body[..len.value];
      assert stream[HEADER_BYTES..][..len.value] == stream[HEADER_BYTES..HEADER_BYTES + len.value];
      assert stream[HEADER_BYTES..][len.value..] == stream[HEADER_BYTES + len.value..];
      reply := Decode(body[..]);
      if reply.None? { Reset(); }
    }

    /** One frame out and one frame in. */
    method Exchange(m: Message, deadline: int) returns (reply: Option<Message>)
      requires Valid() && conn != null && Sendable(m)
      modifies this`conn, conn, world
      ensures Valid()
      ensures reply.Some? ==>
        conn == old(conn) && Took(old(conn.inbound), conn.inbound, reply)
        && SentWhole(old(conn.outbound), conn.outbound, m)
      ensures reply.None? ==> conn == null && SentPart(old(conn.outbound), old(conn).outbound, m)
      ensures old(world.now) <= world.now <= Max(old(world.now), deadline)
      ensures reply.Some? <==>
        && Exchanged(old(world.View()), deadline, |EncodeFrame(Body(m))|, old(conn.inbound))
        && Decode(FirstFrame(old(conn.inbound)).value.body).Some?
    {
      hide Decode, Body, Sendable, FirstFrame, EncodeFrame, E.TransferOf, Received;
      var sent := SendFrame(m, Remaining(deadline, world.now));
      if !sent { return None; }
      reply := ReceiveReply(deadline);
    }

    /** One request and its reply: wait for the mutex, connect if need be, number the request,
        send it, take one frame and decode it. `lockedFor` is the time spent waiting and
        connecting, which the deadline does not bound. */
    method Call(m: Message, timeoutMs: nat, lockedFor: nat, peer: Option<bytes>)
      returns (reply: Option<Message>, id: u32)
      requires Valid() && Sendable(m)
      modifies this`conn, this`nextId, conn, world
      ensures Valid() && id == old(nextId)
      ensures nextId == if old(conn) != null || peer.Some? then (old(nextId) + 1) % U32_SIZE else old(nextId)
      ensures reply.Some? ==>
        && conn != null && (if old(conn) != null then conn == old(conn) else fresh(conn))
        && Took(old(Stream(peer)), conn.inbound, reply)
        && SentWhole(if old(conn) != null then old(conn.outbound) else [], conn.outbound, Numbered(m, id))
      ensures reply.None? ==> conn == null
      ensures reply.None? && old(conn) != null ==>
        SentPart(old(conn.outbound), old(conn).outbound, Numbered(m, id))
      ensures old(world.now) + lockedFor <= world.now <= old(world.now) + Max(lockedFor, timeoutMs * E.MS)
      ensures reply.Some? <==>
        Completes(old(conn) != null || peer.Some?, E.Net(old(world.now) + lockedFor, old(world.script)),
                  old(world.now) + timeoutMs * E.MS, Numbered(m, id), old(Stream(peer)))
    {
      hide Decode, Body, Sendable, FirstFrame, Numbered, EncodeFrame, Exchanged, SentWhole, SentPart, Took, NeedsReply;
      RenumberedSendable(m, nextId);
      id := nextId;
      var deadline := world.now + timeoutMs * E.MS;
      world.now := world.now + lockedFor;
      var connected := EnsureConnected(peer);
      if !connected { return None, id; }
      var numbered := Numbered(m, nextId);
      nextId := (nextId + 1) % U32_SIZE;
      reply := Exchange(numbered, deadline);
    }

    /** Rerank, GetStats and Ping: the reply must be of the right kind, and for the last two
        carry the id of the call; otherwise the connection is dropped. */
    method Request(m: Message, timeoutMs: nat, lockedFor: nat, peer: Option<bytes>)
      returns (reply: Option<Message>, id: u32)
      requires Valid() && Sendable(m) && NeedsReply(m)
      modifies this`conn, this`nextId, conn, world
      ensures Valid() && id == old(nextId)
      ensures nextId == if old(conn) != null || peer.Some? then (old(nextId) + 1) % U32_SIZE else old(nextId)
      ensures reply.Some? ==>
        && Accepts(Numbered(m, id), reply.value)
        && conn != null && (if old(conn) != null then conn == old(conn) else fresh(conn))
        && Took(old(Stream(peer)), conn.inbound, reply)
        && SentWhole(if old(conn) != null then old(conn.outbound) else [], conn.outbound, Numbered(m, id))
      ensures reply.None? ==> conn == null
      ensures reply.None? && old(conn) != null ==>
        SentPart(old(conn.outbound), old(conn).outbound, Numbered(m, id))
      ensures old(world.now) + lockedFor <= world.now <= old(world.now) + Max(lockedFor, timeoutMs * E.MS)
      ensures reply.Some? <==>
        Completes(old(conn) != null || peer.Some?, E.Net(old(world.now) + lockedFor, old(world.script)),
                  old(world.now) + timeoutMs * E.MS, Numbered(m, id), old(Stream(peer)))
        && Accepts(Numbered(m, id), Decode(FirstFrame(old(Stream(peer))).value.body).value)
    {
      hide Decode, Body, Sendable, FirstFrame, EncodeFrame, Exchanged;
      reply, id := Call(m, timeoutMs, lockedFor, peer);
      if reply.Some? && !Accepts(Numbered(m, id), reply.value) {
        Reset();
        reply := None;
      }
    }

    /** Fire and forget: a frame is written whole, or the connection is dropped. */
    method RecordCommit(code: bytes, text: bytes, ctx: bytes, lockedFor: nat, peer: Option<bytes>)
      requires Valid() && Sendable(CommitEvent(code, text, ctx))
      modifies this`conn, conn, world
      ensures Valid() && nextId == old(nextId)
      ensures conn != null ==>
        && (old(conn) != null ==> conn == old(conn)) && conn.inbound == old(Stream(peer))
        && conn.outbound == (if old(conn) != null then old(conn.outbound) else [])
                            + EncodeFrame(Body(CommitEvent(code, text, ctx)))
      ensures conn == null && old(conn) != null ==>
        old(conn.outbound) <= old(conn).outbound < old(conn.outbound) + EncodeFrame(Body(CommitEvent(code, text, ctx)))
      ensures world.now <= old(world.now) + lockedFor + COMMIT_WRITE_MS * E.MS
      ensures conn != null <==>
        && (old(conn) != null || peer.Some?)
        && var size, start := |EncodeFrame(Body(CommitEvent(code, text, ctx)))|, old(world.now) + lockedFor;
           E.TransferOf(E.Writing, E.Net(start, old(world.script)), start + COMMIT_WRITE_MS * E.MS, size, size).ok
    {
      hide Body, Sendable, EncodeFrame, E.TransferOf;
      world.now := world.now + lockedFor;
      var connected := EnsureConnected(peer);
      if !connected { return; }
      var sent := SendFrame(CommitEvent(code, text, ctx), COMMIT_WRITE_MS);
    }
  }

  /** The client's check: a rerank reply of any id; a pong or stats reply of the call's own id. */
  lemma AcceptsExactlyWhen(call: Message, reply: Message)
    ensures Accepts(call, reply) <==>
            || (call.RerankRequest? && reply.RerankResponse?)
            || (call.Ping? && reply == Pong(call.id))
            || (call.StatsRequest? && reply.StatsResponse? && reply.id == call.id)
    ensures NeedsReply(call) <==> exists r :: Accepts(call, r)
  {
    match call
    case RerankRequest(id, _, _, _, _) => assert Accepts(call, RerankResponse(id, [], [], 0, 0));
    case Ping(id) => assert Accepts(call, Pong(id));
    case StatsRequest(id) => assert Accepts(call, StatsResponse(id, 0, 0, 0, 0, 0, 0, 0, 0));
    case _ =>
  }

  /** Numbering a request sets its id and nothing else; other messages stay as they are. */
  lemma NumberedKeeps(m: Message, id: u32)
    ensures var n := Numbered(m, id);
            && (m.RerankRequest? ==> n.RerankRequest? && n.id == id && n.code == m.code && n.ctx == m.ctx)
            && (m.RerankRequest? ==> n.candidates == m.candidates && n.app == m.app)
            && (m.Ping? ==> n == Ping(id)) && (m.StatsRequest? ==> n == StatsRequest(id))
            && (!NeedsReply(m) ==> n == m)
  {
  }

  lemma RenumberedPairs(m: Message, id: u32)
    requires NeedsReply(m)
    ensures |Pairs(m)| > 2 && Pairs(Numbered(m, id)) == Pairs(m)[2 := Field(KEY_ID, MsgPack.Int(id))]
  {
    hide Each;
    var ps, qs := Pairs(m), Pairs(Numbered(m, id));
    match m {
      case RerankRequest(_, _, _, _, _) =>
        assert |ps| == |qs| == 7 && ps[0] == qs[0] && ps[1] == qs[1] && ps[3] == qs[3]
               && ps[4] == qs[4] && ps[5] == qs[5] && ps[6] == qs[6];
      case Ping(_) => assert |ps| == |qs| == 3 && ps[0] == qs[0] && ps[1] == qs[1];
      case StatsRequest(_) => assert |ps| == |qs| == 3 && ps[0] == qs[0] && ps[1] == qs[1];
    }
  }

  lemma RenumberedSendable(m: Message, id: u32)
    requires Sendable(m)
    ensures Sendable(Numbered(m, id))
  {
    if NeedsReply(m) {
      RenumberedPairs(m, id);
      assert MsgPack.PairPackable(Field(KEY_ID, MsgPack.Int(id)));
      EachPackable(Pairs(m));
      hide Pairs, MsgPack.PairPackable, NeedsReply, Numbered;
      AllPairs(Pairs(Numbered(m, id)));
    }
  }

  lemma {:induction false} AllPairs(ps: seq<MsgPack.Pair>)
    requires forall i :: 0 <= i < |ps| ==> MsgPack.PairPackable(ps[i])
    ensures MsgPack.PairsPackable(ps)
  {
    if ps == [] {
    } else {
      AllPairs(ps[1..]);
    }
  }
}
