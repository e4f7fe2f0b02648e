/** The client and server objects take steps of the conversation model: what a Request and a
    turn of the worker's loop do to the byte streams is what runs of its actions do. */
module Conformance {
  import opened Bytes
  import opened Framing
  import opened Protocol
  import opened Ipc
  import opened IpcResults
  import C = Client
  import E = Endpoint
  import S = Server

  lemma RunFromSnoc(s: State, acts: seq<Action>, a: Action)
    ensures RunFrom(Dafeng(), s, acts + [a]) == Apply(Dafeng(), RunFrom(Dafeng(), s, acts), a)
  {
    assert (acts + [a])[..|acts|] == acts;
  }

  lemma {:induction false} RunFromConcat(s: State, acts: seq<Action>, more: seq<Action>)
    ensures RunFrom(Dafeng(), s, acts + more) == RunFrom(Dafeng(), RunFrom(Dafeng(), s, acts), more)
    decreases |more|
  {
    hide Apply;
    if more == [] {
      assert acts + more == acts;
    } else {
      RunFromConcat(s, acts, more[..|more| - 1]);
      assert (acts + more)[..|acts + more| - 1] == acts + more[..|more| - 1];
    }
  }

  /** A run goes on as a run. */
  lemma RunsGoOn(acts: seq<Action>, more: seq<Action>)
    ensures Execute(Dafeng(), acts + more) == RunFrom(Dafeng(), Execute(Dafeng(), acts), more)
  {
    hide RunFrom, Dafeng;
    RunFromConcat(INIT, acts, more);
  }

  lemma RunOfOne(s: State, a: Action)
    ensures RunFrom(Dafeng(), s, []) == s && RunFrom(Dafeng(), s, [a]) == Apply(Dafeng(), s, a)
  {
    RunFromSnoc(s, [], a);
    assert [] + [a] == [a];
  }

  lemma RunOfTwo(s: State, a: Action, b: Action)
    ensures RunFrom(Dafeng(), s, [a, b]) == Apply(Dafeng(), Apply(Dafeng(), s, a), b)
  {
    RunFromSnoc(s, [], a);
    RunFromSnoc(s, [a], b);
    assert [] + [a] == [a] && [a] + [b] == [a, b];
  }

  // ---- One frame, read as the code reads it --------------------------------

  /** What FirstFrame found: a header that says the body's length, then the body. */
  lemma FrameParts(stream: bytes, body: bytes, rest: bytes)
    requires C.FirstFrame(stream) == Some(C.Taken(body, rest))
    ensures 0 < |body| && |stream| == HEADER_BYTES + |body| + |rest|
    ensures ReadFrameLength(stream[..HEADER_BYTES]) == Some(|body|)
    ensures stream[HEADER_BYTES..HEADER_BYTES + |body|] == body && stream[HEADER_BYTES + |body|..] == rest
  {
  }

  /** The reader takes the header in one read and the body in another. */
  lemma TwoFeeds(stream: bytes, body: bytes, rest: bytes)
    requires C.FirstFrame(stream) == Some(C.Taken(body, rest))
    ensures Want(Head([])) == HEADER_BYTES <= |stream|
    ensures Feed(Head([]), stream[..HEADER_BYTES]) == More(Load(|body|, []))
    ensures Want(Load(|body|, [])) == |body| > 0 && Feed(Load(|body|, []), body) == Whole(body)
  {
    FrameParts(stream, body, rest);
    assert [] + stream[..HEADER_BYTES] == stream[..HEADER_BYTES] && [] + body == body;
  }

  lemma WholeFeed(body: bytes)
    requires body != []
    ensures ReaderOk(Load(|body|, [])) && Want(Load(|body|, [])) == |body|
            && Feed(Load(|body|, []), body) == Whole(body)
  {
    assert [] + body == body;
  }

  lemma Window(s: bytes, from: nat, n: nat)
    requires from + n <= |s|
    ensures s[from..][..n] == s[from..from + n] && s[from..][n..] == s[from + n..]
  {
  }

  // ---- The client ----------------------------------------------------------

  lemma BeganIs(s: State, i: nat, m: Message)
    requires s.phase.Idle? && Current(s) == Some(i) && FromClient(m) && OnWire(Dafeng(), Numbered(m, s.nextId))
    ensures var call := Numbered(m, s.nextId);
            Apply(Dafeng(), s, Begin(m, true)) ==
            s.(conns := s.conns[i := s.conns[i].(sent := s.conns[i].sent + [call])], phase := Writing(call, 0),
               nextId := if NeedsReply(m) then (s.nextId + 1) % U32_SIZE else s.nextId)
  {
    hide OnWire, Dafeng, Numbered;
  }

  lemma WroteIs(s: State, i: nat, call: Message, p: nat)
    requires s.phase == Writing(call, 0) && Current(s) == Some(i) && s.conns[i].sent != []
    requires Sendable(call) && 0 < p <= |EncodeFrame(Body(call))|
    ensures var frame := EncodeFrame(Body(call));
            Apply(Dafeng(), s, ClientWrite(p)) ==
            s.(conns := s.conns[i := s.conns[i].(up := s.conns[i].up + frame[..p])],
               phase := if p < |frame| then Writing(call, p) else if NeedsReply(call) then Awaiting(call, Head([]))
                        else Idle,
               done := if p < |frame| || NeedsReply(call) then s.done
                       else s.done + [Posted(i, |s.conns[i].sent| - 1, call)])
  {
    hide Body, EncodeFrame, Sendable;
    assert EncodeFrame(Body(call))[0..p] == EncodeFrame(Body(call))[..p];
  }

  lemma GaveUpIs(s: State, i: nat)
    requires !s.phase.Idle? && Current(s) == Some(i) && s.conns[i].sent != []
    ensures Apply(Dafeng(), s, ClientGivesUp) ==
            s.(conns := s.conns[i := s.conns[i].(clientOpen := false)], cur := None, phase := Idle,
               done := s.done + [Failed(i, |s.conns[i].sent| - 1,
                                         if s.phase.Writing? then s.phase.call else s.phase.waiter)])
  {
    hide Dafeng;
  }

  /** Begin and one whole write: the numbered frame is on the stream and the call waits. */
  lemma SendIsRun(s: State, i: nat, m: Message)
    requires s.phase.Idle? && Current(s) == Some(i) && NeedsReply(m) && OnWire(Dafeng(), Numbered(m, s.nextId))
    ensures var call := Numbered(m, s.nextId);
            var frame := EncodeFrame(Body(call));
            RunFrom(Dafeng(), s, [Begin(m, true), ClientWrite(|frame|)]) ==
            s.(conns := s.conns[i := s.conns[i].(up := s.conns[i].up + frame, sent := s.conns[i].sent + [call])],
               phase := Awaiting(call, Head([])), nextId := (s.nextId + 1) % U32_SIZE)
  {
    var call := Numbered(m, s.nextId);
    var frame := EncodeFrame(Body(call));
    var c := s.conns[i];
    NeedsReplyStays(m, s.nextId);
    hide Body, EncodeFrame, Apply, RunFrom, Numbered, Sendable;
    RunOfTwo(s, Begin(m, true), ClientWrite(|frame|));
    BeganIs(s, i, m);
    var c1 := c.(sent := c.sent + [call]);
    StillCurrent(s, Apply(Dafeng(), s, Begin(m, true)), i);
    WroteIs(Apply(Dafeng(), s, Begin(m, true)), i, call, |frame|);
    assert frame[..|frame|] == frame;
    PutTwice(s.conns, i, c1, c1.(up := c.up + frame));
  }

  lemma NeedsReplyStays(m: Message, id: u32)
    ensures NeedsReply(Numbered(m, id)) <==> NeedsReply(m)
  {
  }

  /** The state a reply leads to: answered if the client accepts it, given up otherwise. */
  function Received(s: State, i: nat, body: bytes): (s': State)
    requires s.phase.Awaiting? && i < |s.conns| && s.conns[i].sent != []
  {
    var c := s.conns[i];
    TakeReply(Dafeng(), s.(conns := s.conns[i := c.(downRead := c.downRead + HEADER_BYTES + |body|)],
                           phase := Awaiting(s.phase.waiter, Load(|body|, []))), i, body)
  }

  lemma ReadHeaderStep(s: State, i: nat, body: bytes, rest: bytes)
    requires s.phase.Awaiting? && s.phase.r == Head([]) && Current(s) == Some(i) && s.conns[i].sent != []
    requires s.conns[i].downRead <= |s.conns[i].down|
    requires C.FirstFrame(s.conns[i].down[s.conns[i].downRead..]) == Some(C.Taken(body, rest))
    ensures ClientReadStep(Dafeng(), s, HEADER_BYTES) ==
            s.(conns := s.conns[i := s.conns[i].(downRead := s.conns[i].downRead + HEADER_BYTES)],
               phase := Awaiting(s.phase.waiter, Load(|body|, [])))
  {
    var c := s.conns[i];
    TwoFeeds(c.down[c.downRead..], body, rest);
    Window(c.down, c.downRead, HEADER_BYTES);
    hide Feed, C.FirstFrame, Dafeng;
  }

  lemma ReadBodyStep(s: State, i: nat, body: bytes)
    requires s.phase.Awaiting? && s.phase.r == Load(|body|, []) && body != [] && Current(s) == Some(i)
             && s.conns[i].sent != []
    requires var c := s.conns[i]; c.downRead + |body| <= |c.down| && c.down[c.downRead..c.downRead + |body|] == body
    ensures ClientReadStep(Dafeng(), s, |body|) ==
            TakeReply(Dafeng(), s.(conns := s.conns[i := s.conns[i].(downRead := s.conns[i].downRead + |body|)]),
                      i, body)
  {
    WholeFeed(body);
    hide Dafeng, TakeReply, Feed, Want, ReaderOk;
  }

  /** Two reads: the first whole frame of the stream, decoded and checked. */
  lemma ReceiveIsRun(s: State, i: nat, body: bytes, rest: bytes)
    requires s.phase.Awaiting? && s.phase.r == Head([]) && Current(s) == Some(i) && s.conns[i].sent != []
    requires s.conns[i].downRead <= |s.conns[i].down|
    requires C.FirstFrame(s.conns[i].down[s.conns[i].downRead..]) == Some(C.Taken(body, rest))
    ensures RunFrom(Dafeng(), s, [ClientRead(HEADER_BYTES), ClientRead(|body|)]) == Received(s, i, body)
    ensures var c := s.conns[i];
            var at := c.downRead + HEADER_BYTES + |body|;
            at <= |c.down| && c.down[at..] == rest
  {
    hide C.FirstFrame, RunFrom, ClientReadStep, TakeReply, ReadFrameLength, Apply, Dafeng;
    var c := s.conns[i];
    var c1 := c.(downRead := c.downRead + HEADER_BYTES);
    var s1 := s.(conns := s.conns[i := c1], phase := Awaiting(s.phase.waiter, Load(|body|, [])));
    RunOfTwo(s, ClientRead(HEADER_BYTES), ClientRead(|body|));
    ApplyClientRead(s, HEADER_BYTES);
    ApplyClientRead(s1, |body|);
    ReadHeaderStep(s, i, body, rest);
    FrameParts(c.down[c.downRead..], body, rest);
    Window(c.down, c.downRead, HEADER_BYTES + |body|);
    SliceSlice(c.down, c.downRead, HEADER_BYTES, |body|);
    StillCurrent(s, s1, i);
    ReadBodyStep(s1, i, body);
    PutTwice(s.conns, i, c1, c.(downRead := c.downRead + HEADER_BYTES + |body|));
  }

  lemma ApplyClientRead(s: State, n: nat)
    ensures Apply(Dafeng(), s, ClientRead(n)) == ClientReadStep(Dafeng(), s, n)
  {
    hide ClientReadStep, Dafeng;
  }

  lemma StillCurrent(s: State, s': State, i: nat)
    requires Current(s) == Some(i) && s'.cur == s.cur && i < |s'.conns| && s'.conns[i].clientOpen
    ensures Current(s') == Some(i)
  {
  }

  /** Begin, a partial write, and giving up: any part of the frame is on the stream, the call
      failed, and the connection is closed. */
  lemma FailedSendIsRun(s: State, i: nat, m: Message, p: nat)
    requires s.phase.Idle? && Current(s) == Some(i) && FromClient(m) && OnWire(Dafeng(), Numbered(m, s.nextId))
    requires var all := |EncodeFrame(Body(Numbered(m, s.nextId)))|; p <= all && (p == all ==> NeedsReply(m))
    ensures var call := Numbered(m, s.nextId);
            var c := s.conns[i];
            var s' := RunFrom(Dafeng(), s, FailedSend(m, p));
            && s'.phase.Idle? && s'.cur.None? && i < |s'.conns|
            && s'.conns[i] ==
               c.(up := c.up + EncodeFrame(Body(call))[..p], sent := c.sent + [call], clientOpen := false)
            && s'.done == s.done + [Failed(i, |c.sent|, call)]
  {
    var call := Numbered(m, s.nextId);
    var c := s.conns[i];
    NeedsReplyStays(m, s.nextId);
    OnWireSendable(call);
    BeganIs(s, i, m);
    var b := Apply(Dafeng(), s, Begin(m, true));
    StillCurrent(s, b, i);
    hide Body, EncodeFrame, Apply, RunFrom, Numbered, Sendable, OnWire, Dafeng, NeedsReply, Current,
      FromClient, Abandon;
    RunOfOne(s, Begin(m, true));
    RunFromConcat(s, [Begin(m, true)], Abandon(p));
    AbandonIs(b, i, call, p);
  }

  /** The rest of a call that is given up after `p` bytes of its frame. */
  function Abandon(p: nat): (acts: seq<Action>)
  {
    if p == 0 then [ClientGivesUp] else [ClientWrite(p), ClientGivesUp]
  }

  function FailedSend(m: Message, p: nat): (acts: seq<Action>)
  {
    [Begin(m, true)] + Abandon(p)
  }

  lemma AbandonIs(b: State, i: nat, call: Message, p: nat)
    requires b.phase == Writing(call, 0) && Current(b) == Some(i) && b.conns[i].sent != [] && Sendable(call)
    requires var all := |EncodeFrame(Body(call))|; p <= all && (p == all ==> NeedsReply(call))
    ensures RunFrom(Dafeng(), b, Abandon(p)) ==
            b.(conns := b.conns[i := b.conns[i].(up := b.conns[i].up + EncodeFrame(Body(call))[..p],
                                                 clientOpen := false)],
               cur := None, phase := Idle, done := b.done + [Failed(i, |b.conns[i].sent| - 1, call)])
  {
    hide Body, EncodeFrame, Apply, RunFrom, Sendable, NeedsReply, Dafeng;
    var c := b.conns[i].(up := b.conns[i].up + EncodeFrame(Body(call))[..p]);
    if p == 0 {
      assert c == b.conns[i];
      RunOfOne(b, ClientGivesUp);
      GaveUpIs(b, i);
    } else {
      RunOfTwo(b, ClientWrite(p), ClientGivesUp);
      WroteIs(b, i, call, p);
      var w := Apply(Dafeng(), b, ClientWrite(p));
      StillCurrent(b, w, i);
      GaveUpIs(w, i);
      PutTwice(b.conns, i, c, c.(clientOpen := false));
    }
  }

  /** The steps of workers. */
  predicate WorkersOnly(acts: seq<Action>)
  {
    forall k :: 0 <= k < |acts| ==> acts[k].WorkerRead? || acts[k].WorkerWrite? || acts[k].WorkerHangs?
  }

  /** Nothing that belongs to the client differs. */
  ghost predicate SameClient(s: State, s': State)
  {
    && s'.phase == s.phase && s'.cur == s.cur && s'.nextId == s.nextId && s'.done == s.done && |s'.conns| == |s.conns|
    && forall i :: 0 <= i < |s.conns| ==>
         var c, c' := s.conns[i], s'.conns[i];
         c'.up == c.up && c'.sent == c.sent && c'.clientOpen == c.clientOpen
         && c'.downRead == c.downRead && c.down <= c'.down
  }

  lemma WorkerStepLeavesClient(s: State, a: Action)
    requires a.WorkerRead? || a.WorkerWrite? || a.WorkerHangs?
    ensures SameClient(s, Apply(Dafeng(), s, a))
  {
    hide Feed, Want, ReaderOk, OnWire, Answers, Dafeng, EncodeFrame;
  }

  lemma {:induction false} WorkersLeaveClient(s: State, acts: seq<Action>)
    requires WorkersOnly(acts)
    ensures SameClient(s, RunFrom(Dafeng(), s, acts))
    decreases |acts|
  {
    hide Apply;
    if acts == [] {
    } else {
      WorkersLeaveClient(s, acts[..|acts| - 1]);
      WorkerStepLeavesClient(RunFrom(Dafeng(), s, acts[..|acts| - 1]), acts[|acts| - 1]);
    }
  }

  /** The client object stands where the state's client stands: idle on connection `i`, with
      the same next id and the same bytes sent. */
  ghost predicate ClientAt(client: C.DafengClient, s: State, i: nat)
    reads client, client.conn
  {
    && client.conn != null && s.phase.Idle? && Current(s) == Some(i)
    && client.nextId == s.nextId && client.conn.outbound == s.conns[i].up
    && s.conns[i].downRead <= |s.conns[i].down|
  }

  function FrameSize(m: Message): (n: nat)
  {
    if Sendable(m) then |EncodeFrame(Body(m))| else 0
  }

  /** The run of a call that was answered, with the workers' steps in the middle. */
  function AnsweredRun(s: State, m: Message, workers: seq<Action>, body: nat): (acts: seq<Action>)
  {
    [Begin(m, true), ClientWrite(FrameSize(Numbered(m, s.nextId)))] + workers
    + [ClientRead(HEADER_BYTES), ClientRead(body)]
  }

  /** From `s` to `mid` a call went out whole on connection `i` and waits for its reply. */
  ghost predicate Midway(s: State, mid: State, i: nat, call: Message)
  {
    && i < |s.conns| && i < |mid.conns| && Sendable(call)
    && mid.phase == Awaiting(call, Head([])) && Current(mid) == Some(i)
    && mid.nextId == (s.nextId + 1) % U32_SIZE && mid.done == s.done
    && mid.conns[i].up == s.conns[i].up + EncodeFrame(Body(call)) && mid.conns[i].sent == s.conns[i].sent + [call]
    && mid.conns[i].downRead == s.conns[i].downRead && s.conns[i].down <= mid.conns[i].down
  }

  /** Idle on connection `i`, and about to send `m`. */
  ghost predicate CanSend(s: State, i: nat, m: Message)
  {
    && s.phase.Idle? && Current(s) == Some(i) && NeedsReply(m) && OnWire(Dafeng(), Numbered(m, s.nextId))
    && s.conns[i].downRead <= |s.conns[i].down|
  }

  /** The next frame that connection `i` brings the client. */
  function NextFrame(s: State, i: nat): (t: Option<C.Taken>)
  {
    if i < |s.conns| && s.conns[i].downRead <= |s.conns[i].down|
    then C.FirstFrame(s.conns[i].down[s.conns[i].downRead..]) else None
  }

  /** From `s` to `s'` one call went out on connection `i` and was answered, with `rest` left
      to read. */
  ghost predicate AnsweredIn(s: State, s': State, i: nat, call: Message, reply: Message, rest: bytes)
  {
    && i < |s.conns| && i < |s'.conns|
    && s'.phase.Idle? && Current(s') == Some(i) && s'.nextId == (s.nextId + 1) % U32_SIZE
    && s'.done == s.done + [Answered(i, |s.conns[i].sent|, call, reply)]
    && Sendable(call) && s'.conns[i].up == s.conns[i].up + EncodeFrame(Body(call))
    && s'.conns[i].sent == s.conns[i].sent + [call]
    && s'.conns[i].downRead <= |s'.conns[i].down| && s'.conns[i].down[s'.conns[i].downRead..] == rest
  }

  /** From `s` to `s'` one call went out on connection `i`, got `sent` onto the stream, and
      failed; the connection is closed. */
  ghost predicate FailedIn(s: State, s': State, i: nat, call: Message, sent: bytes)
  {
    && i < |s.conns| && i < |s'.conns|
    && s'.phase.Idle? && s'.cur.None? && !s'.conns[i].clientOpen && s'.conns[i].up == sent
    && s'.done == s.done + [Failed(i, |s.conns[i].sent|, call)]
  }

  /** The whole frame sent, and the workers' steps taken. */
  function AfterSend(s: State, m: Message, workers: seq<Action>): (mid: State)
  {
    RunFrom(Dafeng(), RunFrom(Dafeng(), s, [Begin(m, true), ClientWrite(FrameSize(Numbered(m, s.nextId)))]), workers)
  }

  /** What the client has still to read on connection `i`. */
  predicate BringsNext(s: State, i: nat, stream: bytes)
  {
    i < |s.conns| && s.conns[i].downRead <= |s.conns[i].down| && s.conns[i].down[s.conns[i].downRead..] == stream
  }

  lemma OnWireSendable(m: Message)
    requires OnWire(Dafeng(), m)
    ensures Sendable(m)
  {
    hide Sendable, Body;
  }

  /** Sent, and the workers' steps taken: the call waits, and the client's side is untouched. */
  lemma MidState(s: State, i: nat, m: Message, workers: seq<Action>)
    requires CanSend(s, i, m) && WorkersOnly(workers)
    ensures Midway(s, AfterSend(s, m, workers), i, Numbered(m, s.nextId))
  {
    var call := Numbered(m, s.nextId);
    OnWireSendable(call);
    hide Sendable, Body, EncodeFrame, Dafeng, RunFrom, WorkersOnly, OnWire, NeedsReply, Numbered;
    SendIsRun(s, i, m);
    WorkersLeaveClient(RunFrom(Dafeng(), s, [Begin(m, true), ClientWrite(|EncodeFrame(Body(call))|)]), workers);
  }

  lemma AnsweredFromMid(s: State, mid: State, i: nat, call: Message, body: bytes, rest: bytes, reply: Message)
    requires Midway(s, mid, i, call) && s.conns[i].downRead <= |s.conns[i].down|
    requires NextFrame(mid, i) == Some(C.Taken(body, rest)) && Decode(body) == Some(reply) && Accepts(call, reply)
    ensures AnsweredIn(s, RunFrom(Dafeng(), mid, [ClientRead(HEADER_BYTES), ClientRead(|body|)]), i, call, reply, rest)
  {
    hide Sendable, Body, EncodeFrame, C.FirstFrame, Accepts, Decode, Dafeng, RunFrom;
    AnsweredFrom(mid, i, body, rest, reply);
  }

  lemma AnsweredRunIs(s: State, i: nat, m: Message, workers: seq<Action>, body: bytes, rest: bytes, reply: Message)
    requires CanSend(s, i, m) && WorkersOnly(workers)
    requires NextFrame(AfterSend(s, m, workers), i) == Some(C.Taken(body, rest)) && Decode(body) == Some(reply)
    requires Accepts(Numbered(m, s.nextId), reply)
    ensures AnsweredIn(s, RunFrom(Dafeng(), s, AnsweredRun(s, m, workers, |body|)), i, Numbered(m, s.nextId), reply,
                       rest)
  {
    hide *;
    CanSendReads(s, i, m);
    MidState(s, i, m, workers);
    AnsweredRunParts(s, m, workers, |body|);
    AnsweredFromMid(s, AfterSend(s, m, workers), i, Numbered(m, s.nextId), body, rest, reply);
  }

  lemma CanSendReads(s: State, i: nat, m: Message)
    requires CanSend(s, i, m)
    ensures i < |s.conns| && s.conns[i].downRead <= |s.conns[i].down|
  {
    hide OnWire, NeedsReply, Dafeng;
  }

  lemma AnsweredFrom(s: State, i: nat, body: bytes, rest: bytes, reply: Message)
    requires s.phase.Awaiting? && s.phase.r == Head([]) && Current(s) == Some(i) && s.conns[i].sent != []
    requires s.conns[i].downRead <= |s.conns[i].down|
    requires C.FirstFrame(s.conns[i].down[s.conns[i].downRead..]) == Some(C.Taken(body, rest))
    requires Decode(body) == Some(reply) && Accepts(s.phase.waiter, reply)
    ensures var c, s' := s.conns[i], RunFrom(Dafeng(), s, [ClientRead(HEADER_BYTES), ClientRead(|body|)]);
            && s'.phase.Idle? && Current(s') == Some(i) && s'.nextId == s.nextId
            && s'.done == s.done + [Answered(i, |c.sent| - 1, s.phase.waiter, reply)]
            && s'.conns[i].up == c.up && s'.conns[i].sent == c.sent
            && s'.conns[i].downRead <= |s'.conns[i].down| && s'.conns[i].down[s'.conns[i].downRead..] == rest
  {
    hide C.FirstFrame, Accepts, Decode, RunFrom, Received, Current;
    ReceiveIsRun(s, i, body, rest);
    ReceivedAnswered(s, i, body, reply);
  }

  lemma AnsweredRunParts(s: State, m: Message, workers: seq<Action>, body: nat)
    ensures RunFrom(Dafeng(), s, AnsweredRun(s, m, workers, body)) ==
            RunFrom(Dafeng(), AfterSend(s, m, workers), [ClientRead(HEADER_BYTES), ClientRead(body)])
  {
    var sending := [Begin(m, true), ClientWrite(FrameSize(Numbered(m, s.nextId)))];
    hide RunFrom, FrameSize;
    RunFromConcat(s, sending, workers);
    RunFromConcat(s, sending + workers, [ClientRead(HEADER_BYTES), ClientRead(body)]);
  }

  lemma ReceivedAnswered(s: State, i: nat, body: bytes, reply: Message)
    requires s.phase.Awaiting? && Current(s) == Some(i) && s.conns[i].sent != []
    requires Decode(body) == Some(reply) && Accepts(s.phase.waiter, reply)
    ensures var c, s' := s.conns[i], Received(s, i, body);
            && s'.phase.Idle? && Current(s') == Some(i) && s'.nextId == s.nextId
            && s'.conns[i] == c.(downRead := c.downRead + HEADER_BYTES + |body|)
            && s'.done == s.done + [Answered(i, |c.sent| - 1, s.phase.waiter, reply)]
  {
    hide Accepts, Decode;
  }

  /** The call goes out and the first frame of the stream comes in, all before the deadline. */
  predicate GoesThrough(net: E.Net, timeoutMs: nat, lockedFor: nat, call: Message, stream: bytes)
  {
    C.Exchanged(E.Net(net.now + lockedFor, net.script), net.now + timeoutMs * E.MS, FrameSize(call), stream)
  }

  /** A Request on an idle connection is a run. If the workers' steps between make the peer's
      stream what the object is about to read, an answered call ends the run with that answer
      and the two stand at the same place again; a failed one is a run that sends as much,
      fails the call and closes the connection. */
  method RequestIsRun(client: C.DafengClient, m: Message, timeoutMs: nat, lockedFor: nat, ghost s: State, ghost i: nat,
                      ghost workers: seq<Action>)
    returns (reply: Option<Message>, ghost acts: seq<Action>)
    requires client.Valid() && ClientAt(client, s, i) && Sendable(m) && CanSend(s, i, m) && WorkersOnly(workers)
    requires BringsNext(AfterSend(s, m, workers), i, client.conn.inbound)
    modifies client`conn, client`nextId, client.conn, client.world
    ensures client.Valid()
    ensures reply.Some? ==> ClientAt(client, RunFrom(Dafeng(), s, acts), i)
    ensures reply.Some? ==>
      AnsweredIn(s, RunFrom(Dafeng(), s, acts), i, Numbered(m, s.nextId), reply.value, client.conn.inbound)
    ensures reply.None? ==> client.conn == null
    ensures reply.None? ==> FailedIn(s, RunFrom(Dafeng(), s, acts), i, Numbered(m, s.nextId), old(client.conn).outbound)
    ensures reply.Some? <==>
      && GoesThrough(old(client.world.View()), timeoutMs, lockedFor, Numbered(m, s.nextId), old(client.conn.inbound))
      && Decode(C.FirstFrame(old(client.conn.inbound)).value.body).Some?
      && Accepts(Numbered(m, s.nextId), Decode(C.FirstFrame(old(client.conn.inbound)).value.body).value)
  {
    hide Body, EncodeFrame, C.FirstFrame, Decode, Sendable, Accepts, RunFrom, Current, OnWire, NeedsReply, Numbered;
    ghost var conn, stream, was := client.conn, client.conn.inbound, client.conn.outbound;
    ghost var call := Numbered(m, s.nextId);
    OnWireSendable(call);
    var id;
    reply, id := client.Request(m, timeoutMs, lockedFor, None);
    if reply.Some? {
      ghost var t := C.FirstFrame(stream).value;
      acts := AnsweredRun(s, m, workers, |t.body|);
      AnsweredRunIs(s, i, m, workers, t.body, t.rest, reply.value);
    } else {
      ghost var p := |conn.outbound| - |was|;
      PartOf(was, conn.outbound, EncodeFrame(Body(call)));
      acts := FailedSend(m, p);
      FailedSendIsRun(s, i, m, p);
    }
  }

  /** From a state the protocol reached, the frame that comes next passes the client's checks. */
  lemma ReplyIsAccepted(before: seq<Action>, i: nat, m: Message, workers: seq<Action>, body: bytes, rest: bytes)
    requires CanSend(Execute(Dafeng(), before), i, m) && WorkersOnly(workers)
    requires NextFrame(AfterSend(Execute(Dafeng(), before), m, workers), i) == Some(C.Taken(body, rest))
    ensures Decode(body).Some? && Accepts(Numbered(m, Execute(Dafeng(), before).nextId), Decode(body).value)
  {
    var s := Execute(Dafeng(), before);
    var call := Numbered(m, s.nextId);
    var mid := AfterSend(s, m, workers);
    hide Execute, RunFrom, Dafeng, Sendable, Body, EncodeFrame, Decode, Accepts, C.FirstFrame, CanSend, Numbered,
      AfterSend,
      WorkersOnly, ClientReadStep;
    CanSendReads(s, i, m);
    MidState(s, i, m, workers);
    MidReached(before, m, workers);
    var acts := before + SentAnd(s, m, workers);
    var c := mid.conns[i];
    ReadHeaderStep(mid, i, body, rest);
    ExecuteRead(Dafeng(), acts, HEADER_BYTES);
    var c1 := c.(downRead := c.downRead + HEADER_BYTES);
    var s1 := mid.(conns := mid.conns[i := c1], phase := Awaiting(call, Load(|body|, [])));
    assert Execute(Dafeng(), acts + [ClientRead(HEADER_BYTES)]) == s1;
    FrameParts(c.down[c.downRead..], body, rest);
    SliceSlice(c.down, c.downRead, HEADER_BYTES, |body|);
    StillCurrent(mid, s1, i);
    NextCompletes(s1, i, body);
    ChecksNeverFire(acts + [ClientRead(HEADER_BYTES)], |body|);
    ExecuteRead(Dafeng(), acts + [ClientRead(HEADER_BYTES)], |body|);
    ReadBodyStep(s1, i, body);
    TakenMeansAccepted(s1.(conns := s1.conns[i := c1.(downRead := c1.downRead + |body|)]), i, body);
  }

  function SentAnd(s: State, m: Message, workers: seq<Action>): (acts: seq<Action>)
  {
    [Begin(m, true), ClientWrite(FrameSize(Numbered(m, s.nextId)))] + workers
  }

  lemma MidReached(before: seq<Action>, m: Message, workers: seq<Action>)
    ensures var s := Execute(Dafeng(), before);
            Execute(Dafeng(), before + SentAnd(s, m, workers)) == AfterSend(s, m, workers)
  {
    var s := Execute(Dafeng(), before);
    hide Execute, RunFrom, Dafeng, FrameSize, Numbered;
    RunsGoOn(before, SentAnd(s, m, workers));
    RunFromConcat(s, [Begin(m, true), ClientWrite(FrameSize(Numbered(m, s.nextId)))], workers);
  }

  lemma NextCompletes(s: State, i: nat, body: bytes)
    requires s.phase.Awaiting? && s.phase.r == Load(|body|, []) && body != [] && Current(s) == Some(i)
    requires var c := s.conns[i]; c.downRead + |body| <= |c.down| && c.down[c.downRead..c.downRead + |body|] == body
    ensures CompletesReply(s, |body|)
  {
    WholeFeed(body);
    hide Feed, Want, ReaderOk;
  }

  lemma TakenMeansAccepted(s: State, i: nat, body: bytes)
    requires s.phase.Awaiting? && Current(s) == Some(i) && s.conns[i].sent != []
    requires var s' := TakeReply(Dafeng(), s, i, body); |s'.done| == |s.done| + 1 && s'.done[|s.done|].Answered?
    ensures Decode(body).Some? && Accepts(s.phase.waiter, Decode(body).value)
  {
    hide Decode, Accepts;
  }

  /** The same from a state the protocol reached: the reply that the object returns is the one
      the server's worker computed for this very message, and every commit sent on the
      connection before it has been logged. */
  method RequestIsAnswered(client: C.DafengClient, m: Message, timeoutMs: nat, lockedFor: nat,
                           ghost before: seq<Action>, ghost i: nat, ghost workers: seq<Action>)
    returns (reply: Option<Message>, ghost acts: seq<Action>)
    requires client.Valid() && ClientAt(client, Execute(Dafeng(), before), i) && Sendable(m)
    requires CanSend(Execute(Dafeng(), before), i, m) && WorkersOnly(workers)
    requires BringsNext(AfterSend(Execute(Dafeng(), before), m, workers), i, client.conn.inbound)
    modifies client`conn, client`nextId, client.conn, client.world
    ensures client.Valid()
    ensures reply.Some? ==>
      var s, s' := Execute(Dafeng(), before), Execute(Dafeng(), before + acts);
      var n := |s.conns[i].sent|;
      && ClientAt(client, s', i) && n < |s'.conns[i].handled|
      && s'.conns[i].handled[n] == Exchange(Numbered(m, s.nextId), Some(reply.value))
      && Commits(s.conns[i].sent) <= Logged(s'.conns[i])
    ensures reply.None? ==>
      && client.conn == null
      && FailedIn(Execute(Dafeng(), before), Execute(Dafeng(), before + acts), i,
                  Numbered(m, Execute(Dafeng(), before).nextId), old(client.conn).outbound)
    ensures reply.Some? <==>
      GoesThrough(old(client.world.View()), timeoutMs, lockedFor, Numbered(m, Execute(Dafeng(), before).nextId),
                  old(client.conn.inbound))
  {
    hide Execute, RunFrom, Dafeng, Apply, Sendable, Body, EncodeFrame, AfterSend, BringsNext, CanSend, Commits, Logged,
      AnsweredIn, FailedIn, Numbered, GoesThrough, C.FirstFrame, Decode, Accepts, FrameSize, WorkersOnly;
    ghost var s := Execute(Dafeng(), before);
    ghost var net, stream := client.world.View(), client.conn.inbound;
    if GoesThrough(net, timeoutMs, lockedFor, Numbered(m, s.nextId), stream) {
      ThroughHasFrame(net, timeoutMs, lockedFor, Numbered(m, s.nextId), stream);
      BringsFrame(AfterSend(s, m, workers), i, stream);
      ReplyIsAccepted(before, i, m, workers, C.FirstFrame(stream).value.body, C.FirstFrame(stream).value.rest);
    }
    reply, acts := RequestIsRun(client, m, timeoutMs, lockedFor, s, i, workers);
    RunsGoOn(before, acts);
    if reply.Some? {
      AnsweredIsHandled(before, acts, i, Numbered(m, s.nextId), reply.value, client.conn.inbound);
    }
  }

  lemma BringsFrame(s: State, i: nat, stream: bytes)
    requires BringsNext(s, i, stream)
    ensures NextFrame(s, i) == C.FirstFrame(stream)
  {
    hide C.FirstFrame;
  }

  lemma ThroughHasFrame(net: E.Net, timeoutMs: nat, lockedFor: nat, call: Message, stream: bytes)
    requires GoesThrough(net, timeoutMs, lockedFor, call, stream)
    ensures C.FirstFrame(stream).Some?
  {
    hide C.FirstFrame, C.Within, FrameSize;
  }

  lemma AnsweredIsHandled(before: seq<Action>, acts: seq<Action>, i: nat, call: Message, reply: Message, rest: bytes)
    requires AnsweredIn(Execute(Dafeng(), before), Execute(Dafeng(), before + acts), i, call, reply, rest)
    ensures var s, s' := Execute(Dafeng(), before), Execute(Dafeng(), before + acts);
            var n := |s.conns[i].sent|;
            && i < |s'.conns| && n < |s'.conns[i].handled|
            && s'.conns[i].handled[n] == Exchange(call, Some(reply))
            && Commits(s.conns[i].sent) <= Logged(s'.conns[i])
  {
    var s, s' := Execute(Dafeng(), before), Execute(Dafeng(), before + acts);
    hide Execute, Dafeng, Sendable, Body, EncodeFrame, Current, Commits, Logged, Answers;
    assert s'.done[|s.done|] == Answered(i, |s.conns[i].sent|, call, reply);
    ReplyBelongsToCall(before + acts, |s.done|);
    AnsweredMeansLogged(before + acts, |s.done|);
    assert s'.conns[i].sent[..|s.conns[i].sent|] == s.conns[i].sent;
  }

  // ---- Commits -------------------------------------------------------------

  /** From `s` to `s'` one commit frame went out whole on connection `i`, and nothing else. */
  ghost predicate PostedIn(s: State, s': State, i: nat, m: Message)
  {
    && i < |s.conns| && Sendable(m)
    && s' == s.(conns := s.conns[i := s.conns[i].(up := s.conns[i].up + EncodeFrame(Body(m)),
                                                 sent := s.conns[i].sent + [m])],
                done := s.done + [Posted(i, |s.conns[i].sent|, m)])
  }

  /** Begin and one whole write: the commit is posted and the client idle again. */
  lemma PostIsRun(s: State, i: nat, m: Message)
    requires s.phase.Idle? && Current(s) == Some(i) && m.CommitEvent? && OnWire(Dafeng(), m)
    ensures Sendable(m)
    ensures PostedIn(s, RunFrom(Dafeng(), s, [Begin(m, true), ClientWrite(|EncodeFrame(Body(m))|)]), i, m)
  {
    OnWireSendable(m);
    var frame := EncodeFrame(Body(m));
    var c := s.conns[i];
    assert Numbered(m, s.nextId) == m && !NeedsReply(m);
    hide Body, EncodeFrame, Apply, RunFrom, Numbered, Sendable, NeedsReply;
    RunOfTwo(s, Begin(m, true), ClientWrite(|frame|));
    BeganIs(s, i, m);
    var c1 := c.(sent := c.sent + [m]);
    StillCurrent(s, Apply(Dafeng(), s, Begin(m, true)), i);
    WroteIs(Apply(Dafeng(), s, Begin(m, true)), i, m, |frame|);
    assert frame[..|frame|] == frame;
    PutTwice(s.conns, i, c1, c1.(up := c.up + frame));
  }

  /** RecordCommit on an idle connection is a run: the commit is posted and object and state
      are in step again, or a strict prefix of its frame was sent, the commit failed, and the
      connection is closed. */
  method RecordCommitIsRun(client: C.DafengClient, code: bytes, text: bytes, ctx: bytes, lockedFor: nat,
                           ghost s: State, ghost i: nat)
    returns (ghost acts: seq<Action>)
    requires client.Valid() && ClientAt(client, s, i) && Sendable(CommitEvent(code, text, ctx))
    requires OnWire(Dafeng(), CommitEvent(code, text, ctx))
    modifies client`conn, client.conn, client.world
    ensures client.Valid()
    ensures client.conn != null ==>
      && ClientAt(client, RunFrom(Dafeng(), s, acts), i)
      && PostedIn(s, RunFrom(Dafeng(), s, acts), i, CommitEvent(code, text, ctx))
      && client.conn == old(client.conn) && client.conn.inbound == old(client.conn.inbound)
    ensures client.conn == null ==>
      && FailedIn(s, RunFrom(Dafeng(), s, acts), i, CommitEvent(code, text, ctx), old(client.conn).outbound)
      && old(client.conn).outbound < s.conns[i].up + EncodeFrame(Body(CommitEvent(code, text, ctx)))
  {
    hide Body, EncodeFrame, Sendable, RunFrom, Current, OnWire;
    ghost var m := CommitEvent(code, text, ctx);
    ghost var conn, was := client.conn, client.conn.outbound;
    client.RecordCommit(code, text, ctx, lockedFor, None);
    if client.conn != null {
      acts := [Begin(m, true), ClientWrite(|EncodeFrame(Body(m))|)];
      PostIsRun(s, i, m);
      PostedKeeps(s, RunFrom(Dafeng(), s, acts), i, m);
    } else {
      ghost var p := |conn.outbound| - |was|;
      PartOf(was, conn.outbound, EncodeFrame(Body(m)));
      acts := FailedSend(m, p);
      FailedSendIsRun(s, i, m, p);
    }
  }

  lemma PostedKeeps(s: State, s': State, i: nat, m: Message)
    requires PostedIn(s, s', i, m) && Current(s) == Some(i)
    ensures Current(s') == Some(i) && s'.conns[i].up == s.conns[i].up + EncodeFrame(Body(m))
    ensures s'.phase == s.phase && s'.nextId == s.nextId
    ensures s'.conns[i].downRead == s.conns[i].downRead && s'.conns[i].down == s.conns[i].down
  {
    hide Sendable, Body, EncodeFrame;
  }

  /** From a state the protocol reached, a commit that RecordCommit gave up on is never
      handled, however the run goes on. */
  method RecordCommitOrLost(client: C.DafengClient, code: bytes, text: bytes, ctx: bytes, lockedFor: nat,
                            ghost before: seq<Action>, ghost i: nat)
    returns (ghost acts: seq<Action>)
    requires client.Valid() && ClientAt(client, Execute(Dafeng(), before), i)
    requires Sendable(CommitEvent(code, text, ctx)) && OnWire(Dafeng(), CommitEvent(code, text, ctx))
    modifies client`conn, client.conn, client.world
    ensures client.Valid()
    ensures client.conn != null ==>
      && ClientAt(client, Execute(Dafeng(), before + acts), i)
      && PostedIn(Execute(Dafeng(), before), Execute(Dafeng(), before + acts), i, CommitEvent(code, text, ctx))
    ensures client.conn == null ==>
      forall more :: NeverHandled(Execute(Dafeng(), before + acts + more), i, |Execute(Dafeng(), before).conns[i].sent|)
  {
    hide Execute, RunFrom, Dafeng, Apply, Sendable, Body, EncodeFrame, PostedIn, FailedIn, OnWire;
    acts := RecordCommitIsRun(client, code, text, ctx, lockedFor, Execute(Dafeng(), before), i);
    RunsGoOn(before, acts);
    if client.conn == null {
      forall more
        ensures NeverHandled(Execute(Dafeng(), before + acts + more), i, |Execute(Dafeng(), before).conns[i].sent|)
      {
        FailedIsLost(before, acts, more, i, CommitEvent(code, text, ctx), old(client.conn).outbound);
      }
    }
  }

  /** Connection `i` has not got as far as its message number `n`. */
  predicate NeverHandled(s: State, i: nat, n: nat)
  {
    i < |s.conns| && |s.conns[i].handled| <= n
  }

  lemma FailedIsLost(before: seq<Action>, acts: seq<Action>, more: seq<Action>, i: nat, m: Message, sent: bytes)
    requires m.CommitEvent? && FailedIn(Execute(Dafeng(), before), Execute(Dafeng(), before + acts), i, m, sent)
    ensures NeverHandled(Execute(Dafeng(), before + acts + more), i, |Execute(Dafeng(), before).conns[i].sent|)
  {
    hide Execute, Dafeng;
    var n := |Execute(Dafeng(), before).done|;
    OutcomesStay(Dafeng(), before + acts, more);
    assert Execute(Dafeng(), before + acts).done[n] == Execute(Dafeng(), before + acts + more).done[n];
    FailedCommitNotLogged(before + acts + more, n);
  }

  lemma PartOf(a: bytes, b: bytes, f: bytes)
    requires a <= b <= a + f
    ensures |b| - |a| <= |f| && b == a + f[..|b| - |a|]
  {
    assert b == (a + f)[..|b|];
  }

  // ---- The server ----------------------------------------------------------

  /** An answer the worker's code gives is one the model's worker may give. */
  lemma RightIsAnswer(t: S.Totals, rerank: S.Reranker, start: int, n: nat, h: S.Handled)
    requires S.RerankerOk(rerank) && S.Right(t, rerank, start, n, h)
    ensures if NeedsReply(h.msg) then h.answer.Some? && Answers(h.msg, h.answer.value) else h.answer == None
  {
    hide Sendable;
  }

  lemma WorkerHeaderStep(c: Conn, body: bytes, rest: bytes, r: Message)
    requires c.worker == Receiving(Head([])) && c.upRead <= |c.up|
    requires C.FirstFrame(c.up[c.upRead..]) == Some(C.Taken(body, rest))
    ensures WorkerReadConn(Dafeng(), c, HEADER_BYTES, r) ==
            c.(upRead := c.upRead + HEADER_BYTES, worker := Receiving(Load(|body|, [])))
  {
    TwoFeeds(c.up[c.upRead..], body, rest);
    Window(c.up, c.upRead, HEADER_BYTES);
    hide Feed, C.FirstFrame, Dafeng;
  }

  lemma WorkerBodyStep(c: Conn, body: bytes, r: Message)
    requires c.worker == Receiving(Load(|body|, [])) && body != []
    requires c.upRead + |body| <= |c.up| && c.up[c.upRead..c.upRead + |body|] == body
    ensures WorkerReadConn(Dafeng(), c, |body|, r) == Serve(Dafeng(), c, c.upRead + |body|, body, r)
  {
    WholeFeed(body);
    hide Dafeng, Serve, Feed, Want, ReaderOk;
  }

  /** An answer, or none, that the model's worker may give to `msg` and can frame. */
  ghost predicate Fits(msg: Message, answer: Option<Message>)
  {
    if NeedsReply(msg) then answer.Some? && Answers(msg, answer.value) && OnWire(Dafeng(), answer.value)
    else answer == None
  }

  lemma ServeAnswers(c: Conn, read: nat, body: bytes, msg: Message, answer: Option<Message>)
    requires Decode(body) == Some(msg)
    requires Fits(msg, answer)
    ensures Serve(Dafeng(), c, read, body, if answer.Some? then answer.value else Pong(0)) ==
            c.(upRead := read, handled := c.handled + [Exchange(msg, answer)],
               worker := if answer.Some? then Replying(EncodeFrame(Body(answer.value)), 0) else Receiving(Head([])))
  {
    hide Decode, Body, EncodeFrame, Answers, Sendable;
  }

  /** What the two reads make of the connection. */
  lemma HandleConn(c: Conn, body: bytes, rest: bytes, msg: Message, answer: Option<Message>)
    requires c.worker == Receiving(Head([])) && c.upRead <= |c.up|
    requires C.FirstFrame(c.up[c.upRead..]) == Some(C.Taken(body, rest)) && Decode(body) == Some(msg)
    requires Fits(msg, answer)
    ensures var at := c.upRead + HEADER_BYTES + |body|;
            var r := if answer.Some? then answer.value else Pong(0);
            && at <= |c.up| && c.up[at..] == rest
            && WorkerReadConn(Dafeng(), WorkerReadConn(Dafeng(), c, HEADER_BYTES, r), |body|, r) ==
               c.(upRead := at, handled := c.handled + [Exchange(msg, answer)],
                  worker := if answer.Some? then Replying(EncodeFrame(Body(answer.value)), 0) else Receiving(Head([])))
  {
    var r := if answer.Some? then answer.value else Pong(0);
    FrameParts(c.up[c.upRead..], body, rest);
    Window(c.up, c.upRead, HEADER_BYTES + |body|);
    hide Answers, Decode, Body, EncodeFrame, ReadFrameLength, C.FirstFrame, WorkerReadConn, Serve,
      Fits, Dafeng;
    SliceSlice(c.up, c.upRead, HEADER_BYTES, |body|);
    WorkerHeaderStep(c, body, rest, r);
    var c1 := c.(upRead := c.upRead + HEADER_BYTES, worker := Receiving(Load(|body|, [])));
    WorkerBodyStep(c1, body, r);
    ServeAnswers(c1, c.upRead + HEADER_BYTES + |body|, body, msg, answer);
  }

  lemma SliceSlice(s: bytes, from: nat, skip: nat, n: nat)
    requires from + skip + n <= |s|
    ensures s[from..][skip..skip + n] == s[from + skip..from + skip + n]
  {
  }

  /** Two reads: the worker has taken one message, and has its reply ready if there is one. */
  lemma HandleIsRun(s: State, i: nat, body: bytes, rest: bytes, msg: Message, answer: Option<Message>)
    requires i < |s.conns| && s.conns[i].worker == Receiving(Head([])) && s.conns[i].upRead <= |s.conns[i].up|
    requires C.FirstFrame(s.conns[i].up[s.conns[i].upRead..]) == Some(C.Taken(body, rest)) && Decode(body) == Some(msg)
    requires Fits(msg, answer)
    ensures var c := s.conns[i];
            var at := c.upRead + HEADER_BYTES + |body|;
            && at <= |c.up| && c.up[at..] == rest
            && RunFrom(Dafeng(), s, Taking(i, |body|, answer)) ==
               s.(conns := s.conns[i := c.(upRead := at, handled := c.handled + [Exchange(msg, answer)],
                                           worker := if answer.Some? then Replying(EncodeFrame(Body(answer.value)), 0)
                                                     else Receiving(Head([])))])
  {
    hide Answers, Decode, Body, EncodeFrame, RunFrom, C.FirstFrame, WorkerReadConn, Fits, Dafeng, Apply;
    var r := if answer.Some? then answer.value else Pong(0);
    HandleConn(s.conns[i], body, rest, msg, answer);
    RunOfTwo(s, WorkerRead(i, HEADER_BYTES, r), WorkerRead(i, |body|, r));
    var c1 := WorkerReadConn(Dafeng(), s.conns[i], HEADER_BYTES, r);
    ApplyWorkerRead(s, i, HEADER_BYTES, r);
    ApplyWorkerRead(s.(conns := s.conns[i := c1]), i, |body|, r);
    PutTwice(s.conns, i, c1, WorkerReadConn(Dafeng(), c1, |body|, r));
  }

  lemma ApplyWorkerRead(s: State, i: nat, n: nat, r: Message)
    requires i < |s.conns|
    ensures Apply(Dafeng(), s, WorkerRead(i, n, r)) ==
            s.(conns := s.conns[i := WorkerReadConn(Dafeng(), s.conns[i], n, r)])
  {
    hide WorkerReadConn, Dafeng;
  }

  lemma PutTwice(cs: seq<Conn>, i: nat, c: Conn, d: Conn)
    requires i < |cs|
    ensures cs[i := c][i := d] == cs[i := d]
  {
  }

  function Taking(i: nat, body: nat, answer: Option<Message>): (acts: seq<Action>)
  {
    var r := if answer.Some? then answer.value else Pong(0);
    [WorkerRead(i, HEADER_BYTES, r), WorkerRead(i, body, r)]
  }

  /** One write of the first `p` bytes of the reply; fewer than all, and the worker hangs up. */
  function Sending(i: nat, p: nat, all: nat): (acts: seq<Action>)
  {
    (if p == 0 then [] else [WorkerWrite(i, p)]) + if p < all then [WorkerHangs(i)] else []
  }

  lemma ReplyIsRun(s: State, i: nat, frame: bytes, p: nat)
    requires i < |s.conns| && s.conns[i].worker == Replying(frame, 0) && p <= |frame| && frame != []
    ensures RunFrom(Dafeng(), s, Sending(i, p, |frame|)) ==
            s.(conns := s.conns[i := s.conns[i].(down := s.conns[i].down + frame[..p],
                                                 worker := if p < |frame| then Hung else Receiving(Head([])))])
  {
    hide Apply, RunFrom, Dafeng;
    var c := s.conns[i];
    if p == 0 {
      RunOfOne(s, WorkerHangs(i));
      ApplyHang(s, i);
      assert [] + [WorkerHangs(i)] == [WorkerHangs(i)] && c.down + frame[..0] == c.down;
    } else {
      var c1 := c.(down := c.down + frame[..p],
                   worker := if p < |frame| then Replying(frame, p) else Receiving(Head([])));
      ApplyWorkerWrite(s, i, frame, p);
      RunOfOne(s, WorkerWrite(i, p));
      RunOfTwo(s, WorkerWrite(i, p), WorkerHangs(i));
      assert [WorkerWrite(i, p)] + [WorkerHangs(i)] == [WorkerWrite(i, p), WorkerHangs(i)];
      assert [WorkerWrite(i, p)] + [] == [WorkerWrite(i, p)];
      ApplyHang(s.(conns := s.conns[i := c1]), i);
      PutTwice(s.conns, i, c1, c1.(worker := Hung));
    }
  }

  lemma ApplyHang(s: State, i: nat)
    requires i < |s.conns|
    ensures Apply(Dafeng(), s, WorkerHangs(i)) == s.(conns := s.conns[i := s.conns[i].(worker := Hung)])
  {
    hide Dafeng;
  }

  lemma ApplyWorkerWrite(s: State, i: nat, frame: bytes, p: nat)
    requires i < |s.conns| && s.conns[i].worker == Replying(frame, 0) && 0 < p <= |frame|
    ensures Apply(Dafeng(), s, WorkerWrite(i, p)) ==
            s.(conns := s.conns[i := s.conns[i].(down := s.conns[i].down + frame[..p],
                                                 worker := if p < |frame| then Replying(frame, p)
                                                           else Receiving(Head([])))])
  {
    hide Dafeng;
    assert frame[0..p] == frame[..p];
  }

  /** The server object stands where the worker of connection `i` stands, between messages. */
  ghost predicate WorkerAt(inbound: bytes, outbound: bytes, s: State, i: nat)
  {
    && i < |s.conns| && s.conns[i].worker == Receiving(Head([]))
    && s.conns[i].upRead <= |s.conns[i].up| && inbound == s.conns[i].up[s.conns[i].upRead..]
    && outbound == s.conns[i].down
  }

  /** From `s` to `s'` the worker of connection `i` handled one message, with `inbound` left to
      read and `outbound` written in all. */
  ghost predicate ServedIn(s: State, s': State, i: nat, h: S.Handled, inbound: bytes, outbound: bytes)
  {
    && i < |s.conns| && i < |s'.conns|
    && s'.conns[i].handled == s.conns[i].handled + [Exchange(h.msg, h.answer)]
    && s'.conns[i].down == outbound
    && s'.conns[i].upRead <= |s'.conns[i].up| && s'.conns[i].up[s'.conns[i].upRead..] == inbound
  }

  /** One turn of the worker's loop is a run. If it takes a message, the same message is handled
      with the same answer and the same bytes are read and written; if the loop then goes on,
      the object and the model's worker stand at the same place again. If it takes none, the
      worker hangs up with nothing written. */
  method HandleOneIsRun(server: S.Server, conn: E.UnixConnection, rerank: S.Reranker, n: nat, spurious: seq<bool>,
                        ghost s: State, ghost i: nat)
    returns (more: bool, ghost h: Option<S.Handled>, ghost acts: seq<Action>)
    requires S.RerankerOk(rerank) && conn.open && WorkerAt(conn.inbound, conn.outbound, s, i)
    modifies server, conn`inbound, conn`outbound, conn.world
    ensures h.Some? && (h.value.answer.Some? ==> OnWire(Dafeng(), h.value.answer.value)) ==>
      ServedIn(s, RunFrom(Dafeng(), s, acts), i, h.value, conn.inbound, conn.outbound)
      && (more ==> WorkerAt(conn.inbound, conn.outbound, RunFrom(Dafeng(), s, acts), i))
    ensures h.None? ==>
      && !more && conn.outbound == s.conns[i].down
      && RunFrom(Dafeng(), s, acts) == s.(conns := s.conns[i := s.conns[i].(worker := Hung)])
  {
    hide Body, EncodeFrame, C.FirstFrame, Decode, Sendable, RunFrom, S.Right, S.After, S.RerankerOk, Answers, Apply;
    ghost var stream, was, t := conn.inbound, conn.outbound, server.View();
    more, h := server.HandleOne(conn, rerank, n, spurious);
    acts := [];
    if h.None? {
      acts := [WorkerHangs(i)];
      RunOfOne(s, WorkerHangs(i));
      ApplyHang(s, i);
    } else {
      RightIsAnswer(t, rerank, server.startTime, n, h.value);
      ghost var took := C.FirstFrame(stream).value;
      if h.value.answer.None? {
        HandleIsRun(s, i, took.body, took.rest, h.value.msg, None);
        acts := Taking(i, |took.body|, None);
        assert was + [] == was;
      } else if OnWire(Dafeng(), h.value.answer.value) {
        HandleIsRun(s, i, took.body, took.rest, h.value.msg, h.value.answer);
        ghost var frame := EncodeFrame(Body(h.value.answer.value));
        PartOf(was, conn.outbound, frame);
        ghost var p := |conn.outbound| - |was|;
        acts := Taking(i, |took.body|, h.value.answer) + Sending(i, p, |frame|);
        RunFromConcat(s, Taking(i, |took.body|, h.value.answer), Sending(i, p, |frame|));
        ReplyIsRun(RunFrom(Dafeng(), s, Taking(i, |took.body|, h.value.answer)), i, frame, p);
      }
    }
  }
}
