/** The server's side of one connection as the code runs it: receive, decode, count, answer
    (src/daemon/server.cc). What other workers do to the shared counters meanwhile is the
    subject of module Counters. */
module Server {
  import opened Bytes
  import opened Framing
  import MsgPack
  import opened Protocol
  import E = Endpoint
  import opened Client
  import Counters

  const IDLE_READ_MS: nat := 60_000
  const BODY_READ_MS: nat := 5_000
  const WRITE_MS: nat := 5_000
  const SECOND: int := 1_000_000_000

  /** The counters. */
  datatype Totals = Totals(
    reranks: u64, pings: u64, commits: u64, errors: u64, latencySum: u64, latencyMax: u32, version: byte)

  /** A message taken from the stream, what was sent back for it, and when it was handled. */
  datatype Handled = Handled(msg: Message, answer: Option<Message>, at: int)

  /** The reranking service; its answer may depend on when it is asked. */
  type Reranker = (Message, nat) -> Message

  ghost predicate RerankerOk(rerank: Reranker)
  {
    forall m: Message, n: nat :: m.RerankRequest? ==>
      rerank(m, n).RerankResponse? && rerank(m, n).id == m.id && Sendable(rerank(m, n))
  }

  function Plus(a: u64, b: nat): (c: u64)
  {
    (a + b) % U64_SIZE
  }

  function StatsReply(t: Totals, id: u32, uptime: u64): (m: Message)
  {
    StatsResponse(id, t.reranks, t.pings, t.commits, t.errors, t.latencySum, t.latencyMax, t.version, uptime)
  }

  /** Whole seconds between two times, in 64 bits. */
  function Seconds(since: int, now: int): (s: u64)
  {
    (now - since) / SECOND % U64_SIZE
  }

  /** `h.answer` is the right answer to `h.msg`, the n-th message, of a server that was started
      at `start` and whose counters are `t`. */
  predicate Right(t: Totals, rerank: Reranker, start: int, n: nat, h: Handled)
  {
    match h.msg
    case RerankRequest(_, _, _, _, _) => h.answer == Some(rerank(h.msg, n))
    case Ping(id) => h.answer == Some(Pong(id))
    case StatsRequest(id) => h.answer == Some(StatsReply(t, id, Seconds(start, h.at)))
    case _ => h.answer == None
  }

  function After(t: Totals, h: Handled): (t': Totals)
  {
    match h.msg
    case RerankRequest(_, _, _, _, _) =>
      if h.answer.None? || !h.answer.value.RerankResponse? then t else
      t.(reranks := Plus(t.reranks, 1), latencySum := Plus(t.latencySum, h.answer.value.latencyUs),
         latencyMax := Max(t.latencyMax, h.answer.value.latencyUs), version := h.answer.value.modelVersion)
    case Ping(_) => t.(pings := Plus(t.pings, 1))
    case CommitEvent(_, _, _) => t.(commits := Plus(t.commits, 1))
    case StatsRequest(_) => t
    case _ => t.(errors := Plus(t.errors, 1))
  }

  function TotalsAfter(t: Totals, hs: seq<Handled>): (t': Totals)
  {
    if hs == [] then t else After(TotalsAfter(t, hs[..|hs| - 1]), hs[|hs| - 1])
  }

  predicate AllRight(t: Totals, rerank: Reranker, start: int, hs: seq<Handled>)
  {
    hs == [] || (AllRight(t, rerank, start, hs[..|hs| - 1])
                 && Right(TotalsAfter(t, hs[..|hs| - 1]), rerank, start, |hs| - 1, hs[|hs| - 1]))
  }

  /** The messages that were handled. */
  function MessagesOf(hs: seq<Handled>): (ms: seq<Message>)
    ensures |ms| == |hs|
  {
    seq(|hs|, i requires 0 <= i < |hs| => hs[i].msg)
  }

  lemma CommitsNext(hs: seq<Handled>, h: Handled)
    ensures Commits(MessagesOf(hs + [h])) == Commits(MessagesOf(hs)) + if h.msg.CommitEvent? then [h.msg] else []
  {
    assert MessagesOf(hs + [h])[..|hs|] == MessagesOf(hs) && MessagesOf(hs + [h])[|hs|] == h.msg;
  }

  /** The bytes of one answer. */
  function Sent(h: Handled): (s: bytes)
  {
    if h.answer.Some? && Sendable(h.answer.value) then EncodeFrame(Body(h.answer.value)) else []
  }

  /** The bytes of the answers, in order. */
  function AnswerBytes(hs: seq<Handled>): (s: bytes)
  {
    if hs == [] then [] else AnswerBytes(hs[..|hs| - 1]) + Sent(hs[|hs| - 1])
  }

  // ---- Messages of a stream ------------------------------------------------

  /** What follows the first n frames. */
  function Skip(s: bytes, n: nat): (r: Option<bytes>)
  {
    if n == 0 then Some(s) else
    match Skip(s, n - 1)
    case None => None
    case Some(mid) => (match FirstFrame(mid) case None => None case Some(t) => Some(t.rest))
  }

  function MessageAt(s: bytes, n: nat): (m: Option<Message>)
  {
    match Skip(s, n)
    case None => None
    case Some(mid) => (match FirstFrame(mid) case None => None case Some(t) => Decode(t.body))
  }

  /** `hs` handles the first messages of `s`, in order. */
  ghost predicate InOrder(s: bytes, hs: seq<Handled>)
  {
    forall i :: 0 <= i < |hs| ==> MessageAt(s, i) == Some(hs[i].msg)
  }

  lemma Unsnoc(hs: seq<Handled>, h: Handled)
    ensures (hs + [h])[..|hs|] == hs && (hs + [h])[|hs|] == h
  {
  }

  lemma HandledNext(s: bytes, hs: seq<Handled>, rest: bytes, h: Handled, rest': bytes)
    requires InOrder(s, hs) && Skip(s, |hs|) == Some(rest)
    requires FirstFrame(rest).Some? && FirstFrame(rest).value.rest == rest'
             && Decode(FirstFrame(rest).value.body) == Some(h.msg)
    ensures InOrder(s, hs + [h]) && Skip(s, |hs| + 1) == Some(rest')
  {
    hide FirstFrame, Decode;
    Unsnoc(hs, h);
    assert MessageAt(s, |hs|) == Some(h.msg);
    hide MessageAt, Skip;
    assert forall i :: 0 <= i < |hs| ==> (hs + [h])[i] == hs[i];
  }

  lemma SmallPackable(m: Message)
    requires m.Pong? || m.StatsResponse?
    ensures Sendable(m)
  {
    var ps := Pairs(m);
    assert forall i :: 0 <= i < |ps| ==> MsgPack.PairPackable(ps[i]);
    hide Pairs, MsgPack.PairPackable;
    AllPairs(ps);
  }

  // ---- Taking and answering in time ----------------------------------------

  /** The first frame of the stream is whole, is read in time, and decodes. */
  predicate Takes(net: E.Net, stream: bytes)
  {
    FirstFrame(stream).Some? &&
    var h := HeaderRead(net, stream);
    h.ok && BodyRead(h.net, stream).ok && Decode(FirstFrame(stream).value.body).Some?
  }

  function HeaderRead(net: E.Net, stream: bytes): (t: E.Transfer)
  {
    E.TransferOf(E.Reading, net, net.now + IDLE_READ_MS * E.MS, HEADER_BYTES, |stream|)
  }

  function BodyRead(net: E.Net, stream: bytes): (t: E.Transfer)
    requires FirstFrame(stream).Some?
  {
    E.TransferOf(E.Reading, net, net.now + BODY_READ_MS * E.MS,
                 |FirstFrame(stream).value.body|, |stream| - HEADER_BYTES)
  }

  /** When the message at the front of the stream has been taken. */
  function AfterTaking(net: E.Net, stream: bytes): (net': E.Net)
    requires FirstFrame(stream).Some?
  {
    BodyRead(HeaderRead(net, stream).net, stream).net
  }

  /** Writing `size` bytes of an answer; no bytes, if there is none. */
  function ReplyWritten(net: E.Net, size: nat): (t: E.Transfer)
  {
    E.TransferOf(E.Writing, net, net.now + WRITE_MS * E.MS, size, size)
  }

  /** Where a worker stands between messages: the network, and what it has still to read. */
  datatype Spot = Spot(net: E.Net, rest: bytes)

  function Next(spot: Spot, h: Handled): (spot': Spot)
  {
    match FirstFrame(spot.rest)
    case None => spot
    case Some(t) => Spot(ReplyWritten(AfterTaking(spot.net, spot.rest), |Sent(h)|).net, t.rest)
  }

  /** Where it stands once it has handled `hs` and written their answers. */
  function SpotAt(spot: Spot, hs: seq<Handled>): (spot': Spot)
  {
    if hs == [] then spot else Next(SpotAt(spot, hs[..|hs| - 1]), hs[|hs| - 1])
  }

  /** The last answer was written whole. */
  predicate LastOut(spot: Spot, hs: seq<Handled>)
  {
    hs == [] ||
    var at := SpotAt(spot, hs[..|hs| - 1]);
    FirstFrame(at.rest).Some? && ReplyWritten(AfterTaking(at.net, at.rest), |Sent(hs[|hs| - 1])|).ok
  }

  /** Each message was taken in time, and handled when it was taken; each answer before the
      last was written whole. */
  predicate KeptUp(spot: Spot, hs: seq<Handled>)
  {
    hs == [] ||
    var init, h := hs[..|hs| - 1], hs[|hs| - 1];
    var at := SpotAt(spot, init);
    KeptUp(spot, init) && LastOut(spot, init) && Takes(at.net, at.rest) && h.at == AfterTaking(at.net, at.rest).now
  }

  /** The worker had a reason to end here: an answer it could not write whole, or no message
      that could be taken. */
  predicate EndsHere(spot: Spot, hs: seq<Handled>)
  {
    LastOut(spot, hs) ==> !Takes(SpotAt(spot, hs).net, SpotAt(spot, hs).rest)
  }

  lemma NothingKept(spot: Spot)
    ensures KeptUp(spot, []) && LastOut(spot, []) && SpotAt(spot, []) == spot
  {
  }

  lemma NothingWritten(net: E.Net)
    ensures ReplyWritten(net, 0).ok && ReplyWritten(net, 0).net == net
  {
    E.TransferNone(E.Writing, net, net.now + WRITE_MS * E.MS, 0);
  }

  lemma OneMore(spot: Spot, hs: seq<Handled>, h: Handled, at: Spot)
    requires KeptUp(spot, hs) && LastOut(spot, hs) && SpotAt(spot, hs) == at
    requires Takes(at.net, at.rest) && h.at == AfterTaking(at.net, at.rest).now
    ensures KeptUp(spot, hs + [h]) && SpotAt(spot, hs + [h]) == Next(at, h)
    ensures LastOut(spot, hs + [h]) <==> ReplyWritten(AfterTaking(at.net, at.rest), |Sent(h)|).ok
  {
    hide FirstFrame, AfterTaking, ReplyWritten, Decode, HeaderRead, BodyRead, Sent;
    Unsnoc(hs, h);
  }

  // ---- The server ----------------------------------------------------------

  class Server {
    const startTime: int
    var rerankCount: u64
    var pingCount: u64
    var commitCount: u64
    var errorCount: u64
    var latencySum: u64
    var latencyMax: u32
    var modelVersion: byte
    /** What the commit logger has been given. */
    var log: seq<Message>

    function View(): (t: Totals)
      reads this
    {
      Totals(rerankCount, pingCount, commitCount, errorCount, latencySum, latencyMax, modelVersion)
    }

    constructor (now: int)
      ensures startTime == now && log == [] && View() == Totals(0, 0, 0, 0, 0, 0, 0)
    {
      startTime := now;
      rerankCount, pingCount, commitCount, errorCount := 0, 0, 0, 0;
      latencySum, latencyMax, modelVersion, log := 0, 0, 0, [];
    }

    method GetStats(now: int) returns (s: Message)
      ensures s == StatsReply(View(), 0, Seconds(startTime, now))
    {
      s := StatsResponse(0, rerankCount, pingCount, commitCount, errorCount, latencySum, latencyMax, modelVersion,
                         Seconds(startTime, now));
    }

    /** The compare-and-swap loop. `spurious` lists the exchanges that fail for no reason. */
    method RaiseMax(latency: u32, spurious: seq<bool>)
      modifies this`latencyMax
      ensures latencyMax == Max(old(latencyMax), latency)
    {
      var prevMax := latencyMax;
      var left := spurious;
      while latency > prevMax
        invariant latencyMax == old(latencyMax) == prevMax
                  || (latencyMax == latency == prevMax && latency > old(latencyMax))
        decreases |left|, latency > prevMax
      {
        var fails := left != [] && left[0];
        if left != [] { left := left[1..]; }
        if latencyMax == prevMax && !fails {
          latencyMax := latency;
          prevMax := latency;
        } else {
          prevMax := latencyMax;
        }
      }
    }

    /** Takes one message off the connection; None closes it. */
    method Receive(conn: E.UnixConnection) returns (msg: Option<Message>)
      modifies conn`inbound, conn.world
      ensures conn.open == old(conn.open)
      ensures msg.Some? ==>
        && FirstFrame(old(conn.inbound)).Some?
        && msg == Decode(FirstFrame(old(conn.inbound)).value.body)
        && conn.inbound == FirstFrame(old(conn.inbound)).value.rest
        && |conn.inbound| < |old(conn.inbound)|
      ensures conn.open ==> (msg.Some? <==> Takes(old(conn.world.View()), old(conn.inbound)))
      ensures conn.open && msg.Some? ==> conn.world.View() == AfterTaking(old(conn.world.View()), old(conn.inbound))
    {
      hide Decode, E.TransferOf;
      var stream := conn.inbound;
      var header := new byte[HEADER_BYTES](_ => 0);
      var ok := conn.ReadFull(header, HEADER_BYTES, IDLE_READ_MS);
      if !ok { return None; }
      assert header[..] == header[..HEADER_BYTES];
      var len := ReadFrameLength(header[..]);
      if len.None? { return None; }
      assert stream[..HEADER_BYTES] == header[..];
      var body := new byte[len.value](_ => 0);
      ok := conn.ReadFull(body, len.value, BODY_READ_MS);
      if !ok { return None; }
      assert body[..] == body[..len.value];
      assert stream[HEADER_BYTES..][..len.value] == stream[HEADER_BYTES..HEADER_BYTES + len.value];
      assert stream[HEADER_BYTES..][len.value..] == stream[HEADER_BYTES + len.value..];
      msg := Decode(body[..]);
    }

    /** Counts a message and makes its reply; commits go to the logger and get none. */
    method Answer(msg: Message, rerank: Reranker, n: nat, spurious: seq<bool>, now: int)
      returns (reply: Option<Message>)
      requires RerankerOk(rerank)
      modifies this
      ensures Right(old(View()), rerank, startTime, n, Handled(msg, reply, now))
      ensures View() == After(old(View()), Handled(msg, reply, now))
      ensures log == if msg.CommitEvent? then old(log) + [msg] else old(log)
      ensures reply.Some? ==> Sendable(reply.value)
    {
      hide Sendable;
      reply := None;
      match msg {
        case RerankRequest(_, _, _, _, _) =>
          var resp := rerank(msg, n);
          rerankCount := Plus(rerankCount, 1);
          latencySum := Plus(latencySum, resp.latencyUs);
          RaiseMax(resp.latencyUs, spurious);
          modelVersion := resp.modelVersion;
          reply := Some(resp);
        case Ping(id) =>
          SmallPackable(Pong(id));
          pingCount := Plus(pingCount, 1);
          reply := Some(Pong(id));
        case CommitEvent(_, _, _) =>
          log := log + [msg];
          commitCount := Plus(commitCount, 1);
        case StatsRequest(id) =>
          var stats := GetStats(now);
          reply := Some(StatsResponse(id, stats.reranks, stats.pings, stats.commits, stats.errors, stats.latencySum,
                                      stats.latencyMax, stats.statsVersion, stats.uptime));
          SmallPackable(reply.value);
        case _ =>
          errorCount := Plus(errorCount, 1);
      }
    }

    /** Writes one reply frame. */
    method Reply(conn: E.UnixConnection, m: Message) returns (ok: bool)
      requires Sendable(m) && conn.open
      modifies conn`outbound, conn.world
      ensures conn.open
      ensures ok ==> conn.outbound == old(conn.outbound) + EncodeFrame(Body(m))
      ensures !ok ==> old(conn.outbound) <= conn.outbound < old(conn.outbound) + EncodeFrame(Body(m))
      ensures ok == ReplyWritten(old(conn.world.View()), |EncodeFrame(Body(m))|).ok
      ensures conn.world.View() == ReplyWritten(old(conn.world.View()), |EncodeFrame(Body(m))|).net
    {
      hide Sendable, Body, E.TransferOf;
      var body := EncodeBody(m);
      var frame := EncodeFrame(body);
      var buf := new byte[|frame|](i requires 0 <= i < |frame| => frame[i]);
      assert buf[..|frame|] == frame;
      ok := conn.WriteAll(buf, |frame|, WRITE_MS);
    }

    /** One turn of the loop. None: nothing was taken, or nothing that decodes. `more` says
        whether the connection is kept. */
    method HandleOne(conn: E.UnixConnection, rerank: Reranker, n: nat, spurious: seq<bool>)
      returns (more: bool, ghost h: Option<Handled>)
      requires RerankerOk(rerank) && conn.open
      modifies this, conn`inbound, conn`outbound, conn.world
      ensures conn.open
      ensures h.None? ==> !more && View() == old(View()) && log == old(log) && conn.outbound == old(conn.outbound)
      ensures h.Some? ==>
        && FirstFrame(old(conn.inbound)).Some?
        && Decode(FirstFrame(old(conn.inbound)).value.body) == Some(h.value.msg)
        && conn.inbound == FirstFrame(old(conn.inbound)).value.rest && |conn.inbound| < |old(conn.inbound)|
        && Right(old(View()), rerank, startTime, n, h.value) && View() == After(old(View()), h.value)
        && log == (if h.value.msg.CommitEvent? then old(log) + [h.value.msg] else old(log))
        && (more ==> conn.outbound == old(conn.outbound) + Sent(h.value))
        && old(conn.outbound) <= conn.outbound <= old(conn.outbound) + Sent(h.value)
      ensures h.Some? <==> Takes(old(conn.world.View()), old(conn.inbound))
      ensures h.Some? ==>
        && h.value.at == AfterTaking(old(conn.world.View()), old(conn.inbound)).now
        && more == ReplyWritten(AfterTaking(old(conn.world.View()), old(conn.inbound)), |Sent(h.value)|).ok
        && Spot(conn.world.View(), conn.inbound) == Next(old(Spot(conn.world.View(), conn.inbound)), h.value)
    {
      hide RerankerOk, Right, After, FirstFrame, Decode, Sendable, Body, EncodeFrame, Takes, AfterTaking, E.TransferOf;
      more, h := false, None;
      var msg := Receive(conn);
      if msg.None? { return; }
      var reply := Answer(msg.value, rerank, n, spurious, conn.world.now);
      h := Some(Handled(msg.value, reply, conn.world.now));
      if reply.None? {
        assert conn.outbound + [] == conn.outbound;
        NothingWritten(conn.world.View());
        more := true;
      } else {
        more := Reply(conn, reply.value);
      }
    }

    /** The worker's loop, for whatever reason it ends: it has handled the first messages of
        the stream in order, counted each, logged the commits among them, answered each as it
        should, and written the frames of the answers, the last of them perhaps not whole. */
    method HandleConnection(conn: E.UnixConnection, rerank: Reranker, spurious: seq<bool>)
      returns (ghost hs: seq<Handled>)
      requires RerankerOk(rerank)
      modifies this, conn`inbound, conn`outbound, conn.world
      ensures InOrder(old(conn.inbound), hs)
      ensures AllRight(old(View()), rerank, startTime, hs) && View() == TotalsAfter(old(View()), hs)
      ensures log == old(log) + Commits(MessagesOf(hs))
      ensures Written(old(conn.outbound), hs, conn.outbound)
      ensures old(conn.open) ==>
        var start := old(Spot(conn.world.View(), conn.inbound));
        KeptUp(start, hs) && EndsHere(start, hs)
    {
      hide RerankerOk, Right, After, FirstFrame, Decode, Sent, InOrder, Skip, Written, Takes, AfterTaking,
        ReplyWritten, Next,
        KeptUp, LastOut;
      ghost var start := Spot(conn.world.View(), conn.inbound);
      NothingKept(start);
      hs := [];
      var n := 0;
      NothingHandled(conn.inbound);
      assert log + [] == log && conn.outbound + [] == conn.outbound;
      AllWritten(conn.outbound, hs);
      while conn.open
        invariant n == |hs| && InOrder(old(conn.inbound), hs) && Skip(old(conn.inbound), n) == Some(conn.inbound)
        invariant AllRight(old(View()), rerank, startTime, hs) && View() == TotalsAfter(old(View()), hs)
        invariant log == old(log) + Commits(MessagesOf(hs))
        invariant conn.outbound == old(conn.outbound) + AnswerBytes(hs)
        invariant Written(old(conn.outbound), hs, conn.outbound)
        invariant KeptUp(start, hs) && LastOut(start, hs)
        invariant SpotAt(start, hs) == Spot(conn.world.View(), conn.inbound)
        decreases |conn.inbound|
      {
        ghost var rest := conn.inbound;
        var more;
        ghost var h;
        more, h := HandleOne(conn, rerank, n, spurious);
        if h.Some? {
          HandledNext(old(conn.inbound), hs, rest, h.value, conn.inbound);
          CountedNext(old(View()), rerank, startTime, old(log), old(conn.outbound), hs, h.value);
          LastWritten(old(conn.outbound), hs, h.value, conn.outbound);
          OneMore(start, hs, h.value, SpotAt(start, hs));
          hs := hs + [h.value];
        }
        if !more { break; }
        n := n + 1;
      }
    }
  }

  /** All answers are on the stream after `s`, the last perhaps not whole. */
  predicate Written(s: bytes, hs: seq<Handled>, out: bytes)
  {
    if hs == [] then out == s else s + AnswerBytes(hs[..|hs| - 1]) <= out <= s + AnswerBytes(hs)
  }

  lemma AllWritten(s: bytes, hs: seq<Handled>)
    ensures Written(s, hs, s + AnswerBytes(hs))
  {
    hide Sent;
    assert s + [] == s;
  }

  lemma LastWritten(s: bytes, hs: seq<Handled>, h: Handled, out: bytes)
    requires s + AnswerBytes(hs) <= out <= s + AnswerBytes(hs) + Sent(h)
    ensures Written(s, hs + [h], out)
  {
    hide Sent;
    Unsnoc(hs, h);
    assert s + (AnswerBytes(hs) + Sent(h)) == s + AnswerBytes(hs) + Sent(h);
  }

  lemma NothingHandled(s: bytes)
    ensures InOrder(s, []) && Skip(s, 0) == Some(s)
  {
  }

  lemma CountedNext(t: Totals, rerank: Reranker, start: int, log: seq<Message>, out: bytes,
                    hs: seq<Handled>, h: Handled)
    requires AllRight(t, rerank, start, hs) && Right(TotalsAfter(t, hs), rerank, start, |hs|, h)
    ensures AllRight(t, rerank, start, hs + [h]) && TotalsAfter(t, hs + [h]) == After(TotalsAfter(t, hs), h)
    ensures log + Commits(MessagesOf(hs + [h])) ==
            log + Commits(MessagesOf(hs)) + if h.msg.CommitEvent? then [h.msg] else []
    ensures out + AnswerBytes(hs + [h]) == out + AnswerBytes(hs) + Sent(h)
  {
    hide Right, After, Sent;
    CommitsNext(hs, h);
    hide Commits;
    Unsnoc(hs, h);
  }

  // ---- What the counters say -----------------------------------------------

  datatype Kind = Rerank | Pinged | Commit | Unexpected | Stats

  function KindOf(m: Message): (k: Kind)
  {
    if m.RerankRequest? then Rerank else if m.Ping? then Pinged else if m.CommitEvent? then Commit
    else if m.StatsRequest? then Stats else Unexpected
  }

  function HowMany(hs: seq<Handled>, k: Kind): (n: nat)
  {
    if hs == [] then 0 else HowMany(hs[..|hs| - 1], k) + if KindOf(hs[|hs| - 1].msg) == k then 1 else 0
  }

  /** The latencies of the answers to rerank requests. */
  function Latencies(hs: seq<Handled>): (ls: seq<u32>)
  {
    if hs == [] then []
    else
      var h := hs[|hs| - 1];
      Latencies(hs[..|hs| - 1]) +
      if h.msg.RerankRequest? && h.answer.Some? && h.answer.value.RerankResponse?
      then [h.answer.value.latencyUs] else []
  }

  lemma PlusPlus(a: u64, n: nat, m: nat)
    ensures Plus(Plus(a, n), m) == Plus(a, n + m)
  {
  }

  lemma SumSnoc(ls: seq<u32>, l: u32)
    ensures Counters.SumOf(ls + [l]) == Counters.SumOf(ls) + l
  {
    assert (ls + [l])[..|ls|] == ls;
  }

  function One(k: Kind, m: Message): (n: nat)
  {
    if KindOf(m) == k then 1 else 0
  }

  lemma AfterCounts(t: Totals, rerank: Reranker, start: int, n: nat, h: Handled)
    requires RerankerOk(rerank) && Right(t, rerank, start, n, h)
    ensures var t' := After(t, h);
            && t'.reranks == Plus(t.reranks, One(Rerank, h.msg)) && t'.pings == Plus(t.pings, One(Pinged, h.msg))
            && t'.commits == Plus(t.commits, One(Commit, h.msg)) && t'.errors == Plus(t.errors, One(Unexpected, h.msg))
  {
    hide Sendable;
  }

  /** `t'` is `t` with the numbers of messages of each kind added. */
  ghost predicate CountsRight(t: Totals, t': Totals, hs: seq<Handled>)
  {
    && t'.reranks == Plus(t.reranks, HowMany(hs, Rerank)) && t'.pings == Plus(t.pings, HowMany(hs, Pinged))
    && t'.commits == Plus(t.commits, HowMany(hs, Commit)) && t'.errors == Plus(t.errors, HowMany(hs, Unexpected))
  }

  lemma CountsStep(t: Totals, t1: Totals, hs: seq<Handled>, h: Handled, rerank: Reranker, start: int, n: nat)
    requires CountsRight(t, t1, hs) && RerankerOk(rerank) && Right(t1, rerank, start, n, h)
    ensures CountsRight(t, After(t1, h), hs + [h])
  {
    AfterCounts(t1, rerank, start, n, h);
    hide Plus, After, Right, RerankerOk;
    Unsnoc(hs, h);
    PlusPlus(t.reranks, HowMany(hs, Rerank), One(Rerank, h.msg));
    PlusPlus(t.pings, HowMany(hs, Pinged), One(Pinged, h.msg));
    PlusPlus(t.commits, HowMany(hs, Commit), One(Commit, h.msg));
    PlusPlus(t.errors, HowMany(hs, Unexpected), One(Unexpected, h.msg));
  }

  /** The message counters are the numbers of messages of each kind. */
  lemma {:induction false} CountersCount(t: Totals, rerank: Reranker, start: int, hs: seq<Handled>)
    requires RerankerOk(rerank) && AllRight(t, rerank, start, hs)
    ensures CountsRight(t, TotalsAfter(t, hs), hs)
    decreases |hs|
  {
    hide RerankerOk, Right, After;
    if hs == [] {
      NothingCounted(t);
    } else {
      hide CountsRight;
      var init, h := hs[..|hs| - 1], hs[|hs| - 1];
      assert hs == init + [h];
      CountersCount(t, rerank, start, init);
      CountsStep(t, TotalsAfter(t, init), init, h, rerank, start, |init|);
    }
  }

  lemma NothingCounted(t: Totals)
    ensures CountsRight(t, t, [])
  {
  }

  /** The log grows by as many commits as are counted. */
  lemma {:induction false} CommitsCounted(hs: seq<Handled>)
    ensures |Commits(MessagesOf(hs))| == HowMany(hs, Commit)
    decreases |hs|
  {
    if hs == [] {
      assert MessagesOf(hs) == [];
    } else {
      var init, h := hs[..|hs| - 1], hs[|hs| - 1];
      assert hs == init + [h];
      CommitsCounted(init);
      CommitsNext(init, h);
    }
  }

  lemma AfterLatency(t: Totals, rerank: Reranker, start: int, n: nat, h: Handled)
    requires RerankerOk(rerank) && Right(t, rerank, start, n, h)
    ensures h.msg.RerankRequest? ==>
      && h.answer.Some? && h.answer.value.RerankResponse?
      && After(t, h).latencySum == Plus(t.latencySum, h.answer.value.latencyUs)
      && After(t, h).latencyMax == Max(t.latencyMax, h.answer.value.latencyUs)
    ensures !h.msg.RerankRequest? ==> After(t, h).latencySum == t.latencySum && After(t, h).latencyMax == t.latencyMax
  {
    hide Sendable;
  }

  /** The latency sum and maximum are those of the answers to rerank requests. */
  ghost predicate LatenciesRight(t: Totals, t': Totals, ls: seq<u32>)
  {
    && t'.latencySum == Plus(t.latencySum, Counters.SumOf(ls))
    && t'.latencyMax >= t.latencyMax && (t'.latencyMax == t.latencyMax || t'.latencyMax in ls)
    && forall l :: l in ls ==> l <= t'.latencyMax
  }

  lemma LatenciesStep(t: Totals, t1: Totals, ls: seq<u32>, l: u32, t2: Totals)
    requires LatenciesRight(t, t1, ls)
    requires t2.latencySum == Plus(t1.latencySum, l) && t2.latencyMax == Max(t1.latencyMax, l)
    ensures LatenciesRight(t, t2, ls + [l])
  {
    hide Plus, Counters.SumOf;
    PlusPlus(t.latencySum, Counters.SumOf(ls), l);
    SumSnoc(ls, l);
  }

  lemma {:induction false} LatenciesCount(t: Totals, rerank: Reranker, start: int, hs: seq<Handled>)
    requires RerankerOk(rerank) && AllRight(t, rerank, start, hs)
    ensures |Latencies(hs)| == HowMany(hs, Rerank) && LatenciesRight(t, TotalsAfter(t, hs), Latencies(hs))
    decreases |hs|
  {
    if hs == [] {
      PlusNothing(t.latencySum);
    } else {
      var init, h := hs[..|hs| - 1], hs[|hs| - 1];
      LatenciesCount(t, rerank, start, init);
      AfterLatency(TotalsAfter(t, init), rerank, start, |init|, h);
      LatenciesNext(hs);
      hide Plus, RerankerOk, Right, After, Counters.SumOf, Latencies;
      if h.msg.RerankRequest? {
        LatenciesStep(t, TotalsAfter(t, init), Latencies(init), h.answer.value.latencyUs, TotalsAfter(t, hs));
      }
    }
  }

  lemma LatenciesNext(hs: seq<Handled>)
    requires hs != []
    ensures var init, h := hs[..|hs| - 1], hs[|hs| - 1];
            && (h.msg.RerankRequest? && h.answer.Some? && h.answer.value.RerankResponse? ==>
                  Latencies(hs) == Latencies(init) + [h.answer.value.latencyUs])
            && (!h.msg.RerankRequest? ==> Latencies(hs) == Latencies(init))
  {
  }

  lemma PlusNothing(a: u64)
    ensures Plus(a, 0) == a
  {
  }

  predicate IsA(m: Message, k: Kind)
  {
    match k
    case Rerank => m.RerankRequest?
    case Pinged => m.Ping?
    case Commit => m.CommitEvent?
    case Stats => m.StatsRequest?
    case Unexpected => m.RerankResponse? || m.Pong? || m.Error? || m.StatsResponse?
  }

  /** The places of one kind of message among the first `n`. */
  function Places(hs: seq<Handled>, n: nat, k: Kind): (ps: set<nat>)
    requires n <= |hs|
  {
    set i: nat | i < n && IsA(hs[i].msg, k)
  }

  /** The tally of a kind is the number of its messages. */
  lemma {:induction false} HowManyIs(hs: seq<Handled>, n: nat, k: Kind)
    requires n <= |hs|
    ensures HowMany(hs[..n], k) == |Places(hs, n, k)|
    decreases n
  {
    if n == 0 {
    } else {
      hide HowMany, IsA, KindOf, Places;
      HowManyIs(hs, n - 1, k);
      HowManyNext(hs, n - 1, k);
      PlacesNext(hs, n - 1, k);
    }
  }

  lemma PlacesNext(hs: seq<Handled>, n: nat, k: Kind)
    requires n < |hs|
    ensures |Places(hs, n + 1, k)| == |Places(hs, n, k)| + if IsA(hs[n].msg, k) then 1 else 0
  {
    hide IsA;
    assert Places(hs, n + 1, k) == Places(hs, n, k) + if IsA(hs[n].msg, k) then {n} else {};
  }

  lemma HowManyNext(hs: seq<Handled>, n: nat, k: Kind)
    requires n < |hs|
    ensures HowMany(hs[..n + 1], k) == HowMany(hs[..n], k) + if IsA(hs[n].msg, k) then 1 else 0
  {
    assert hs[..n + 1][..n] == hs[..n];
  }

  /** The counters are left alone by what is not of their kind, and the version is the last
      rerank answer's. */
  predicate VersionRight(t: Totals, t': Totals, hs: seq<Handled>)
  {
    if exists j :: 0 <= j < |hs| && hs[j].msg.RerankRequest?
    then exists j | 0 <= j < |hs| :: IsLastRerank(hs, j) && t'.version == hs[j].answer.value.modelVersion
    else t'.version == t.version
  }

  predicate IsLastRerank(hs: seq<Handled>, j: nat)
    requires j < |hs|
  {
    && hs[j].msg.RerankRequest? && hs[j].answer.Some? && hs[j].answer.value.RerankResponse?
    && forall k :: j < k < |hs| ==> !hs[k].msg.RerankRequest?
  }

  lemma AfterVersion(t: Totals, rerank: Reranker, start: int, n: nat, h: Handled)
    requires RerankerOk(rerank) && Right(t, rerank, start, n, h)
    ensures h.msg.RerankRequest? ==>
      h.answer.Some? && h.answer.value.RerankResponse? && After(t, h).version == h.answer.value.modelVersion
    ensures !h.msg.RerankRequest? ==> After(t, h).version == t.version
  {
    hide Sendable;
  }

  lemma {:induction false} VersionIsLast(t: Totals, rerank: Reranker, start: int, hs: seq<Handled>)
    requires RerankerOk(rerank) && AllRight(t, rerank, start, hs)
    ensures VersionRight(t, TotalsAfter(t, hs), hs)
    decreases |hs|
  {
    hide RerankerOk, Right, After;
    if hs == [] {
    } else {
      var init, n := hs[..|hs| - 1], |hs| - 1;
      VersionIsLast(t, rerank, start, init);
      AfterVersion(TotalsAfter(t, init), rerank, start, n, hs[n]);
      if hs[n].msg.RerankRequest? {
        assert IsLastRerank(hs, n);
      } else if exists j :: 0 <= j < |init| && init[j].msg.RerankRequest? {
        var j :| 0 <= j < |init| && IsLastRerank(init, j)
                 && TotalsAfter(t, init).version == init[j].answer.value.modelVersion;
        assert IsLastRerank(hs, j);
      }
    }
  }

  lemma {:induction false} RightAt(t: Totals, rerank: Reranker, start: int, hs: seq<Handled>, i: nat)
    requires AllRight(t, rerank, start, hs) && i < |hs|
    ensures AllRight(t, rerank, start, hs[..i]) && Right(TotalsAfter(t, hs[..i]), rerank, start, i, hs[i])
    decreases |hs|
  {
    hide Right;
    if i == |hs| - 1 {
    } else {
      RightAt(t, rerank, start, hs[..|hs| - 1], i);
      assert hs[..|hs| - 1][..i] == hs[..i];
    }
  }

  /** What an answer to a StatsRequest says, field by field: the request's id; how many messages
      of each kind came before it, on top of what there was; the sum and maximum of the
      latencies of the rerank answers before it, and the version of the last of them; the whole
      seconds since the start. */
  lemma StatsAnswerSays(t: Totals, rerank: Reranker, start: int, hs: seq<Handled>, i: nat)
    requires RerankerOk(rerank) && AllRight(t, rerank, start, hs) && i < |hs| && hs[i].msg.StatsRequest?
    ensures hs[i].answer.Some? && hs[i].answer.value.StatsResponse?
    ensures var a, before := hs[i].answer.value, hs[..i];
            && a.id == hs[i].msg.id
            && a.reranks == Plus(t.reranks, |Places(hs, i, Rerank)|)
            && a.pings == Plus(t.pings, |Places(hs, i, Pinged)|)
            && a.commits == Plus(t.commits, |Places(hs, i, Commit)|)
            && a.errors == Plus(t.errors, |Places(hs, i, Unexpected)|)
            && a.latencySum == Plus(t.latencySum, Counters.SumOf(Latencies(before)))
            && a.latencyMax >= t.latencyMax && (a.latencyMax == t.latencyMax || a.latencyMax in Latencies(before))
            && (forall l :: l in Latencies(before) ==> l <= a.latencyMax)
            && VersionRight(t, t.(version := a.statsVersion), before)
            && (0 <= hs[i].at - start < U64_SIZE * SECOND ==>
                  a.uptime * SECOND <= hs[i].at - start < (a.uptime + 1) * SECOND)
  {
    hide TotalsAfter, AllRight, RerankerOk, Right, After, Seconds, HowMany, Latencies,
      Counters.SumOf, Plus, IsLastRerank, Places;
    RightAt(t, rerank, start, hs, i);
    var before := hs[..i];
    StatsAnswerIs(TotalsAfter(t, before), rerank, start, i, hs[i]);
    WholeSeconds(start, hs[i].at);
    CountersCount(t, rerank, start, before);
    LatenciesCount(t, rerank, start, before);
    VersionIsLast(t, rerank, start, before);
    HowManyIs(hs, i, Rerank);
    HowManyIs(hs, i, Pinged);
    HowManyIs(hs, i, Commit);
    HowManyIs(hs, i, Unexpected);
  }

  lemma WholeSeconds(since: int, now: int)
    ensures 0 <= now - since < U64_SIZE * SECOND ==>
      Seconds(since, now) * SECOND <= now - since < (Seconds(since, now) + 1) * SECOND
  {
  }

  lemma StatsAnswerIs(t: Totals, rerank: Reranker, start: int, n: nat, h: Handled)
    requires Right(t, rerank, start, n, h) && h.msg.StatsRequest?
    ensures h.answer == Some(StatsReply(t, h.msg.id, Seconds(start, h.at)))
  {
  }

  // ---- With a client at the other end --------------------------------------

  ghost predicate Deliverable(ms: seq<Message>)
  {
    forall i :: 0 <= i < |ms| ==> Sendable(ms[i]) && |Body(ms[i])| <= MAX_FRAME_BODY
  }

  lemma WithinCap(ms: seq<Message>, k: nat)
    requires Deliverable(ms) && k < |ms|
    ensures BodiesOf(WireBody, ms)[k] == Body(ms[k]) && 0 < |BodiesOf(WireBody, ms)[k]| <= MAX_FRAME_BODY
  {
    assert BodiesOf(WireBody, ms)[k] == WireBody(ms[k]) == Body(ms[k]);
    hide Body, Sendable;
  }

  lemma {:induction false} SkipSent(ms: seq<Message>, n: nat)
    requires Deliverable(ms) && n <= |ms|
    ensures Skip(Frames(BodiesOf(WireBody, ms)), n) == Some(Frames(BodiesOf(WireBody, ms)[n..]))
    decreases n
  {
    hide Sendable, Body, FirstFrame, EncodeFrame, Frames;
    if n == 0 {
    } else {
      SkipSent(ms, n - 1);
      FramesNext(BodiesOf(WireBody, ms), n - 1);
      WithinCap(ms, n - 1);
      FirstOfFrames(BodiesOf(WireBody, ms)[n - 1], Frames(BodiesOf(WireBody, ms)[n..]));
    }
  }

  lemma FramesNext(bs: seq<bytes>, n: nat)
    requires n < |bs|
    ensures Frames(bs[n..]) == EncodeFrame(bs[n]) + Frames(bs[n + 1..])
  {
    assert bs[n..][1..] == bs[n + 1..];
  }

  lemma MessageSent(ms: seq<Message>, n: nat)
    requires Deliverable(ms) && n <= |ms|
    ensures MessageAt(Frames(BodiesOf(WireBody, ms)), n) == if n < |ms| then Some(ms[n]) else None
  {
    SkipSent(ms, n);
    hide Skip, Body, EncodeFrame, Sendable, Decode;
    if n < |ms| {
      FramesNext(BodiesOf(WireBody, ms), n);
      hide FirstFrame, Frames;
      WithinCap(ms, n);
      FirstOfFrames(BodiesOf(WireBody, ms)[n], Frames(BodiesOf(WireBody, ms)[n + 1..]));
      DecodeBody(ms[n]);
    } else {
      assert BodiesOf(WireBody, ms)[n..] == [];
    }
  }

  /** From a client's frames the worker handles a prefix of the messages sent, in order, and
      logs exactly the commits of that prefix. */
  lemma HandlesWhatWasSent(ms: seq<Message>, hs: seq<Handled>)
    requires Deliverable(ms) && InOrder(Frames(BodiesOf(WireBody, ms)), hs)
    ensures |hs| <= |ms| && forall i :: 0 <= i < |hs| ==> hs[i].msg == ms[i]
  {
    hide MessageAt, Frames, Body, Sendable;
    if |hs| > |ms| {
      assert MessageAt(Frames(BodiesOf(WireBody, ms)), |ms|) == Some(hs[|ms|].msg);
      MessageSent(ms, |ms|);
    }
    forall i | 0 <= i < |hs|
      ensures |hs| <= |ms| ==> hs[i].msg == ms[i]
    {
      if i < |ms| { MessageSent(ms, i); }
    }
  }

  // ---- When the messages are all handled -----------------------------------

  /** What happens while one message is read and its answer written. */
  datatype Turn = Turn(header: seq<E.Answer>, body: seq<E.Answer>, reply: seq<E.Answer>)

  function Whole(turn: Turn): (piece: seq<E.Answer>)
  {
    turn.header + (turn.body + turn.reply)
  }

  function Script(turns: seq<Turn>): (script: seq<E.Answer>)
  {
    if turns == [] then [] else Whole(turns[0]) + Script(turns[1..])
  }

  /** The bytes come in pieces of any sizes with any interruptions, and each of the three
      transfers ends a millisecond before its time is up. */
  predicate InTime(turn: Turn, bodySize: nat, replySize: nat)
  {
    && E.Carries(E.Reading, turn.header, HEADER_BYTES) && E.Elapsed(turn.header) + E.MS <= IDLE_READ_MS * E.MS
    && E.Carries(E.Reading, turn.body, bodySize) && E.Elapsed(turn.body) + E.MS <= BODY_READ_MS * E.MS
    && E.Carries(E.Writing, turn.reply, replySize) && E.Elapsed(turn.reply) + E.MS <= WRITE_MS * E.MS
  }

  lemma PieceInTime(dir: E.Direction, net: E.Net, ms: nat, size: nat, avail: nat,
                    piece: seq<E.Answer>, rest: seq<E.Answer>)
    requires net.script == piece + rest && size <= avail && ms <= E.INT_MAX
    requires E.Carries(dir, piece, size) && E.Elapsed(piece) + E.MS <= ms * E.MS
    ensures E.TransferOf(dir, net, net.now + ms * E.MS, size, avail) ==
            E.Transfer(true, size, E.Net(net.now + E.Elapsed(piece), rest))
  {
    hide E.TransferOf, E.Carries, E.Elapsed, E.Timely;
    E.EarlyIsTimely(piece, net.now, net.now + ms * E.MS);
    E.PieceMoves(dir, net, net.now + ms * E.MS, size, avail, piece, rest);
  }

  /** A frame that comes in time is taken. */
  lemma TakesInTime(net: E.Net, stream: bytes, turn: Turn, replySize: nat, rest: seq<E.Answer>)
    requires FirstFrame(stream).Some? && Decode(FirstFrame(stream).value.body).Some?
    requires net.script == Whole(turn) + rest && InTime(turn, |FirstFrame(stream).value.body|, replySize)
    ensures Takes(net, stream) && AfterTaking(net, stream).script == turn.reply + rest
    ensures ReplyWritten(AfterTaking(net, stream), replySize).ok
    ensures ReplyWritten(AfterTaking(net, stream), replySize).net.script == rest
  {
    hide FirstFrame, Decode, E.TransferOf, E.Carries, E.Elapsed;
    FirstFrameSize(stream);
    var n := |FirstFrame(stream).value.body|;
    assert net.script == turn.header + (turn.body + (turn.reply + rest));
    PieceInTime(E.Reading, net, IDLE_READ_MS, HEADER_BYTES, |stream|, turn.header, turn.body + (turn.reply + rest));
    var n1 := HeaderRead(net, stream).net;
    PieceInTime(E.Reading, n1, BODY_READ_MS, n, |stream| - HEADER_BYTES, turn.body, turn.reply + rest);
    var n2 := AfterTaking(net, stream);
    PieceInTime(E.Writing, n2, WRITE_MS, replySize, replySize, turn.reply, rest);
  }

  /** While the turns are in time the worker stands behind as many frames as it has handled. */
  lemma {:induction false} StandsAt(spot: Spot, ms: seq<Message>, hs: seq<Handled>, turns: seq<Turn>,
                                    rest: seq<E.Answer>,
                                    k: nat)
    requires Deliverable(ms) && |turns| == |ms| && k <= |hs| && k <= |ms|
    requires spot.rest == Frames(BodiesOf(WireBody, ms)) && spot.net.script == Script(turns) + rest
    requires forall j :: 0 <= j < k ==> InTime(turns[j], |Body(ms[j])|, |Sent(hs[j])|)
    ensures SpotAt(spot, hs[..k]).rest == Frames(BodiesOf(WireBody, ms)[k..])
    ensures SpotAt(spot, hs[..k]).net.script == Script(turns[k..]) + rest
    ensures k > 0 ==> LastOut(spot, hs[..k])
    decreases k
  {
    hide Frames, InTime, Sent, Body, Sendable, E.TransferOf, Takes, ReplyWritten, AfterTaking, FirstFrame,
      Script, Decode;
    if k == 0 {
      assert turns[0..] == turns && BodiesOf(WireBody, ms)[0..] == BodiesOf(WireBody, ms);
    } else {
      StandsAt(spot, ms, hs, turns, rest, k - 1);
      var at := SpotAt(spot, hs[..k - 1]);
      assert hs[..k][..k - 1] == hs[..k - 1];
      FrameAhead(ms, k - 1);
      ScriptNext(turns, k - 1, rest);
      TakesInTime(at.net, at.rest, turns[k - 1], |Sent(hs[k - 1])|, Script(turns[k..]) + rest);
    }
  }

  lemma ScriptNext(turns: seq<Turn>, k: nat, rest: seq<E.Answer>)
    requires k < |turns|
    ensures Script(turns[k..]) + rest == Whole(turns[k]) + (Script(turns[k + 1..]) + rest)
  {
    assert turns[k..][1..] == turns[k + 1..];
    hide Whole;
    assert Whole(turns[k]) + Script(turns[k + 1..]) + rest == Whole(turns[k]) + (Script(turns[k + 1..]) + rest);
  }

  /** The next frame of a stream of frames is the next message's. */
  lemma FrameAhead(ms: seq<Message>, k: nat)
    requires Deliverable(ms) && k < |ms|
    ensures var bs := BodiesOf(WireBody, ms);
            FirstFrame(Frames(bs[k..])) == Some(Taken(Body(ms[k]), Frames(bs[k + 1..])))
    ensures Decode(Body(ms[k])).Some?
  {
    hide Sendable, Body, FirstFrame, EncodeFrame, Frames, Decode;
    var bs := BodiesOf(WireBody, ms);
    WithinCap(ms, k);
    FramesNext(bs, k);
    FirstOfFrames(bs[k], Frames(bs[k + 1..]));
    DecodeBody(ms[k]);
  }

  /** If what happens splits into turns that are in time, the worker handles every message that
      was sent, and writes every answer. */
  lemma AllHandled(spot: Spot, ms: seq<Message>, hs: seq<Handled>, turns: seq<Turn>, rest: seq<E.Answer>)
    requires Deliverable(ms) && |turns| == |ms|
    requires spot.rest == Frames(BodiesOf(WireBody, ms)) && spot.net.script == Script(turns) + rest
    requires KeptUp(spot, hs) && EndsHere(spot, hs) && InOrder(spot.rest, hs)
    requires forall j :: 0 <= j < |ms| ==> InTime(turns[j], |Body(ms[j])|, if j < |hs| then |Sent(hs[j])| else 0)
    ensures |hs| == |ms| && LastOut(spot, hs)
  {
    hide Frames, Sent, Body, Sendable, E.TransferOf, Takes, ReplyWritten, AfterTaking, FirstFrame,
      Script, Decode, InTime, SpotAt,
      InOrder, KeptUp;
    HandlesWhatWasSent(ms, hs);
    var k := |hs|;
    assert hs[..k] == hs;
    StandsAt(spot, ms, hs, turns, rest, k);
    if k == 0 { NothingKept(spot); }
    if k < |ms| {
      var at := SpotAt(spot, hs);
      FrameAhead(ms, k);
      ScriptNext(turns, k, rest);
      TakesInTime(at.net, at.rest, turns[k], 0, Script(turns[k + 1..]) + rest);
    }
  }
}
