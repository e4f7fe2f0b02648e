/** What every step of the protocol keeps, and what holds in every run. */
module IpcSafety {
  import opened Bytes
  import opened Framing
  import opened Protocol
  import opened Ipc

  // ---- The invariant, one connection ---------------------------------------

  function Up(cd: Codec, c: Conn): (bs: seq<bytes>) { BodiesOf(cd.encode, c.sent) }

  function Down(cd: Codec, c: Conn): (bs: seq<bytes>) { BodiesOf(cd.encode, Replies(c.handled)) }

  /** What the worker handled is what was sent, in order, each answered as it must be. */
  ghost predicate HandledOk(cd: Codec, sent: seq<Message>, handled: seq<Exchange>)
  {
    && AllOnWire(cd, sent) && AllOnWire(cd, Replies(handled))
    && |handled| <= |sent|
    && forall k :: 0 <= k < |handled| ==>
         && handled[k].req == sent[k]
         && (handled[k].reply.Some? <==> NeedsReply(handled[k].req))
         && (handled[k].reply.Some? ==> Answers(handled[k].req, handled[k].reply.value))
  }

  /** The worker's end of the client's stream; what it handled had arrived whole. */
  ghost predicate UpOk(cd: Codec, c: Conn)
  {
    && |c.handled| <= |c.sent| && Frameable(Up(cd, c))
    && c.up <= Frames(Up(cd, c))
    && Offset(Up(cd, c), |c.handled|) <= |c.up|
    && match c.worker
       case Receiving(r) => Tracks(c.up, Up(cd, c), |c.handled|, c.upRead, r)
       case Replying(_, _) => Tracks(c.up, Up(cd, c), |c.handled|, c.upRead, Head([]))
       case Hung => true
  }

  /** The worker's own stream: all replies computed so far, the last one perhaps still in part. */
  ghost predicate DownOk(cd: Codec, c: Conn)
  {
    var ds := Down(cd, c);
    && Frameable(ds) && c.down <= Frames(ds)
    && match c.worker
       case Receiving(_) => c.down == Frames(ds)
       case Replying(frame, off) =>
         && ds != [] && frame == EncodeFrame(ds[|ds| - 1]) && off < |frame|
         && c.down == Frames(ds[..|ds| - 1]) + frame[..off]
       case Hung => true
  }

  ghost predicate ConnOk(cd: Codec, c: Conn)
  {
    HandledOk(cd, c.sent, c.handled) && UpOk(cd, c) && DownOk(cd, c)
  }

  /** The client's end of its live connection. Idle: every frame is written whole and
      every reply owed has been read. Awaiting: one reply is owed, for the last message. */
  ghost predicate ClientOk(cd: Codec, c: Conn, phase: Phase)
  {
    match phase
    case Idle =>
      c.up == Frames(Up(cd, c)) && Tracks(c.down, Down(cd, c), Owed(c.sent), c.downRead, Head([]))
    case Writing(call, off) =>
      && c.sent != [] && c.sent[|c.sent| - 1] == call && FromClient(call)
      && off < |EncodeFrame(cd.encode(call))|
      && c.up == Frames(BodiesOf(cd.encode, c.sent[..|c.sent| - 1])) + EncodeFrame(cd.encode(call))[..off]
      && Tracks(c.down, Down(cd, c), Owed(c.sent[..|c.sent| - 1]), c.downRead, Head([]))
    case Awaiting(call, r) =>
      && c.sent != [] && c.sent[|c.sent| - 1] == call && NeedsReply(call)
      && c.up == Frames(Up(cd, c))
      && Tracks(c.down, Down(cd, c), Owed(c.sent[..|c.sent| - 1]), c.downRead, r)
  }

  // ---- Growing one side does not disturb the other -------------------------

  lemma BodiesSnoc(cd: Codec, ms: seq<Message>, m: Message)
    ensures BodiesOf(cd.encode, ms + [m]) == BodiesOf(cd.encode, ms) + [cd.encode(m)]
  {
  }

  lemma OnWireFrameable(cd: Codec, ms: seq<Message>)
    requires AllOnWire(cd, ms)
    ensures Frameable(BodiesOf(cd.encode, ms))
  {
    var bs := BodiesOf(cd.encode, ms);
    forall k | 0 <= k < |bs|
      ensures 0 < |bs[k]| < U32_SIZE
    {
      assert OnWire(cd, ms[k]);
    }
  }

  lemma FramesGrow(bs: seq<bytes>, b: bytes)
    ensures Frames(bs) <= Frames(bs + [b])
  {
    FramesSnoc(bs, b);
  }

  lemma BeginKeeps(cd: Codec, c: Conn, call: Message)
    requires ConnOk(cd, c) && ClientOk(cd, c, Idle) && OnWire(cd, call) && FromClient(call)
    ensures var c' := c.(sent := c.sent + [call]); ConnOk(cd, c') && ClientOk(cd, c', Writing(call, 0))
  {
    hide Frames, EncodeFrame, Frameable;
    var c' := c.(sent := c.sent + [call]);
    BodiesSnoc(cd, c.sent, call);
    FramesGrow(Up(cd, c), cd.encode(call));
    assert AllOnWire(cd, c'.sent);
    OnWireFrameable(cd, c'.sent);
    assert Up(cd, c')[..|c.handled|] == Up(cd, c)[..|c.handled|];
    assert c'.sent[..|c'.sent| - 1] == c.sent;
    if !c.worker.Hung? {
      TracksGrow(c.up, Up(cd, c), |c.handled|, c.upRead,
                 if c.worker.Receiving? then c.worker.r else Head([]), c.up, Up(cd, c'));
    }
  }

  lemma PieceGrows(init: bytes, frame: bytes, off: nat, n: nat)
    requires off + n <= |frame|
    ensures init + frame[..off] + frame[off..off + n] == init + frame[..off + n]
    ensures init + frame[..off + n] <= init + frame
    ensures off + n == |frame| ==> init + frame[..off + n] == init + frame
  {
    assert frame[..off] + frame[off..off + n] == frame[..off + n];
    Joined(init, frame[..off], frame[off..off + n]);
    assert frame == frame[..off + n] + frame[off + n..];
    Joined(init, frame[..off + n], frame[off + n..]);
  }

  /** More bytes of the frame in progress. */
  lemma UpGrows(cd: Codec, c: Conn, up': bytes)
    requires UpOk(cd, c) && c.up <= up' && up' <= Frames(Up(cd, c))
    ensures UpOk(cd, c.(up := up'))
  {
    if !c.worker.Hung? {
      TracksGrow(c.up, Up(cd, c), |c.handled|, c.upRead,
                 if c.worker.Receiving? then c.worker.r else Head([]), up', Up(cd, c));
    }
  }

  /** The stream while the last message of `sent` is being written, and after. */
  lemma PartOfLast(cd: Codec, c: Conn, off: nat)
    requires c.sent != [] && off <= |EncodeFrame(cd.encode(c.sent[|c.sent| - 1]))|
    ensures var init := Frames(BodiesOf(cd.encode, c.sent[..|c.sent| - 1]));
            var frame := EncodeFrame(cd.encode(c.sent[|c.sent| - 1]));
            && Frames(Up(cd, c)) == init + frame
            && init + frame[..off] <= Frames(Up(cd, c))
  {
    hide Frames, EncodeFrame;
    var n := |c.sent| - 1;
    assert c.sent == c.sent[..n] + [c.sent[n]];
    BodiesSnoc(cd, c.sent[..n], c.sent[n]);
    FramesSnoc(BodiesOf(cd.encode, c.sent[..n]), cd.encode(c.sent[n]));
    PieceGrows(Frames(BodiesOf(cd.encode, c.sent[..n])), EncodeFrame(cd.encode(c.sent[n])), off, 0);
  }

  lemma ClientWriteKeeps(cd: Codec, c: Conn, call: Message, off: nat, n: nat)
    requires ConnOk(cd, c) && ClientOk(cd, c, Writing(call, off))
    requires 0 < n && off + n <= |EncodeFrame(cd.encode(call))|
    ensures var frame := EncodeFrame(cd.encode(call));
            var c' := c.(up := c.up + frame[off..off + n]);
            && ConnOk(cd, c')
            && (off + n < |frame| ==> ClientOk(cd, c', Writing(call, off + n)))
            && (off + n == |frame| && NeedsReply(call) ==> ClientOk(cd, c', Awaiting(call, Head([]))))
            && (off + n == |frame| && !NeedsReply(call) ==> ClientOk(cd, c', Idle))
  {
    var frame := EncodeFrame(cd.encode(call));
    var init := Frames(BodiesOf(cd.encode, c.sent[..|c.sent| - 1]));
    var c' := c.(up := c.up + frame[off..off + n]);
    hide Tracks, HandledOk, EncodeFrame, Frames;
    PartOfLast(cd, c, off + n);
    PieceGrows(init, frame, off, n);
    UpGrows(cd, c, c'.up);
  }

  // ---- The worker's steps --------------------------------------------------

  /** How far a worker's step may change its connection. */
  ghost predicate WorkerMoved(cd: Codec, c: Conn, c': Conn)
  {
    && c'.up == c.up && c'.sent == c.sent && c'.downRead == c.downRead && c'.clientOpen == c.clientOpen
    && c.down <= c'.down && c.handled <= c'.handled && Down(cd, c) <= Down(cd, c')
  }

  lemma TracksOffset(stream: bytes, bodies: seq<bytes>, k: nat, read: nat)
    requires Tracks(stream, bodies, k, read, Head([]))
    ensures k <= |bodies| && Offset(bodies, k) <= |stream|
  {
  }

  lemma WorkerHandles(cd: Codec, c: Conn, read: nat, h: Exchange, worker: Worker)
    requires Faithful(cd) && HandledOk(cd, c.sent, c.handled) && UpOk(cd, c) && DownOk(cd, c)
    requires |c.handled| < |c.sent| && h.req == c.sent[|c.handled|]
    requires h.reply.Some? <==> NeedsReply(h.req)
    requires h.reply.Some? ==> Answers(h.req, h.reply.value) && OnWire(cd, h.reply.value)
    requires Tracks(c.up, Up(cd, c), |c.handled| + 1, read, Head([]))
    requires c.worker.Receiving?
    requires worker == if h.reply.Some? then Replying(EncodeFrame(cd.encode(h.reply.value)), 0) else Receiving(Head([]))
    ensures var c' := c.(upRead := read, handled := c.handled + [h], worker := worker);
            ConnOk(cd, c') && WorkerMoved(cd, c, c')
  {
    hide Tracks, EncodeFrame, Frames, Faithful;
    var c' := c.(upRead := read, handled := c.handled + [h], worker := worker);
    TracksOffset(c.up, Up(cd, c), |c.handled| + 1, read);
    RepliesSnoc(c.handled, h);
    var rs := Replies(c.handled);
    if h.reply.Some? {
      BodiesSnoc(cd, rs, h.reply.value);
      FramesGrow(BodiesOf(cd.encode, rs), cd.encode(h.reply.value));
      assert AllOnWire(cd, rs + [h.reply.value]);
      OnWireFrameable(cd, rs + [h.reply.value]);
      assert Down(cd, c')[..|Down(cd, c')| - 1] == Down(cd, c);
      assert worker.frame[..0] == [];
    } else {
      assert rs + [] == rs;
    }
  }

  lemma ServeKeeps(cd: Codec, c: Conn, read: nat, body: bytes, reply: Message)
    requires Faithful(cd) && ConnOk(cd, c) && c.worker.Receiving? && |c.handled| < |c.sent|
    requires body == Up(cd, c)[|c.handled|] && |body| <= MAX_FRAME_BODY
    requires Tracks(c.up, Up(cd, c), |c.handled| + 1, read, Head([]))
    ensures ConnOk(cd, Serve(cd, c, read, body, reply)) && WorkerMoved(cd, c, Serve(cd, c, read, body, reply))
  {
    var m := c.sent[|c.handled|];
    assert OnWire(cd, m) && cd.decode(body) == Some(m);
    if !NeedsReply(m) {
      WorkerHandles(cd, c, read, Exchange(m, None), Receiving(Head([])));
    } else if Answers(m, reply) && OnWire(cd, reply) {
      WorkerHandles(cd, c, read, Exchange(m, Some(reply)), Replying(EncodeFrame(cd.encode(reply)), 0));
    }
  }

  lemma PartKeeps(cd: Codec, c: Conn, read: nat, r: Reader)
    requires ConnOk(cd, c) && c.worker.Receiving? && Tracks(c.up, Up(cd, c), |c.handled|, read, r)
    ensures var c' := c.(upRead := read, worker := Receiving(r)); ConnOk(cd, c') && WorkerMoved(cd, c, c')
  {
  }

  lemma HangKeeps(cd: Codec, c: Conn, read: nat)
    requires ConnOk(cd, c)
    ensures var c' := c.(upRead := read, worker := Hung); ConnOk(cd, c') && WorkerMoved(cd, c, c')
  {
  }

  lemma WorkerFed(cd: Codec, c: Conn, n: nat)
    requires ConnOk(cd, c) && c.worker.Receiving? && 0 < n <= Want(c.worker.r) && c.upRead + n <= |c.up|
    ensures match Feed(c.worker.r, c.up[c.upRead..c.upRead + n])
            case More(r) => Tracks(c.up, Up(cd, c), |c.handled|, c.upRead + n, r)
            case Bad => true
            case Whole(b) =>
              && |c.handled| < |c.sent| && b == Up(cd, c)[|c.handled|] && |b| <= MAX_FRAME_BODY
              && Tracks(c.up, Up(cd, c), |c.handled| + 1, c.upRead + n, Head([]))
  {
    hide HandledOk, DownOk;
    assert UpOk(cd, c);
    assert Tracks(c.up, Up(cd, c), |c.handled|, c.upRead, c.worker.r);
    hide Tracks, UpOk;
    FeedTracks(c.up, Up(cd, c), |c.handled|, c.upRead, c.worker.r, n);
  }

  lemma MovedRefl(cd: Codec, c: Conn)
    ensures WorkerMoved(cd, c, c)
  {
  }

  lemma WorkerReadKeeps(cd: Codec, c: Conn, n: nat, reply: Message)
    requires Faithful(cd) && ConnOk(cd, c)
    ensures ConnOk(cd, WorkerReadConn(cd, c, n, reply)) && WorkerMoved(cd, c, WorkerReadConn(cd, c, n, reply))
  {
    MovedRefl(cd, c);
    hide ConnOk, WorkerMoved, Tracks, Serve;
    if c.worker.Receiving? && ReaderOk(c.worker.r) && 0 < n <= Want(c.worker.r) && c.upRead + n <= |c.up| {
      WorkerFed(cd, c, n);
      match Feed(c.worker.r, c.up[c.upRead..c.upRead + n])
      case More(r) => PartKeeps(cd, c, c.upRead + n, r);
      case Bad => HangKeeps(cd, c, c.upRead + n);
      case Whole(b) => ServeKeeps(cd, c, c.upRead + n, b, reply);
    }
  }

  /** A reply written so far, and the whole of it. */
  lemma PartOfReply(ds: seq<bytes>, frame: bytes, off: nat, n: nat)
    requires ds != [] && frame == EncodeFrame(ds[|ds| - 1]) && off + n <= |frame|
    ensures var init := Frames(ds[..|ds| - 1]);
            && init + frame[..off] + frame[off..off + n] == init + frame[..off + n]
            && init + frame[..off + n] <= Frames(ds)
            && (off + n == |frame| ==> init + frame[..off + n] == Frames(ds))
  {
    hide Frames, EncodeFrame;
    assert ds == ds[..|ds| - 1] + [ds[|ds| - 1]];
    FramesSnoc(ds[..|ds| - 1], ds[|ds| - 1]);
    PieceGrows(Frames(ds[..|ds| - 1]), frame, off, n);
  }

  lemma WriteMoves(cd: Codec, c: Conn, n: nat)
    ensures WorkerMoved(cd, c, WorkerWriteConn(c, n))
  {
    assert Down(cd, WorkerWriteConn(c, n)) == Down(cd, c);
  }

  lemma WorkerWriteKeeps(cd: Codec, c: Conn, n: nat)
    requires ConnOk(cd, c)
    ensures ConnOk(cd, WorkerWriteConn(c, n)) && WorkerMoved(cd, c, WorkerWriteConn(c, n))
  {
    WriteMoves(cd, c, n);
    hide HandledOk, Tracks, Frames, EncodeFrame;
    if c.worker.Replying? && n > 0 && c.worker.off + n <= |c.worker.frame| {
      PartOfReply(Down(cd, c), c.worker.frame, c.worker.off, n);
    }
  }

  /** The client's reader survives whatever the worker adds to its stream. */
  lemma ClientUndisturbed(cd: Codec, c: Conn, c': Conn, phase: Phase)
    requires ClientOk(cd, c, phase) && ConnOk(cd, c')
    requires WorkerMoved(cd, c, c')
    ensures ClientOk(cd, c', phase)
  {
    var k := if phase.Idle? then Owed(c.sent) else Owed(c.sent[..|c.sent| - 1]);
    var r := if phase.Awaiting? then phase.r else Head([]);
    TracksGrow(c.down, Down(cd, c), k, c.downRead, r, c'.down, Down(cd, c'));
  }

  // ---- The client's reads --------------------------------------------------

  /** The frame an awaiting client completes is the reply its own message got:
      the worker has handled every message of the connection, that one last. */
  lemma ReplyIsOwn(cd: Codec, c: Conn, call: Message)
    requires HandledOk(cd, c.sent, c.handled) && c.sent != [] && c.sent[|c.sent| - 1] == call && NeedsReply(call)
    requires Owed(c.sent[..|c.sent| - 1]) < |Replies(c.handled)|
    ensures |c.handled| == |c.sent|
    ensures c.handled[|c.sent| - 1].reply.Some?
    ensures Replies(c.handled)[Owed(c.sent[..|c.sent| - 1])] == c.handled[|c.sent| - 1].reply.value
    ensures Accepts(call, c.handled[|c.sent| - 1].reply.value)
  {
    var n := |c.sent| - 1;
    AllHandled(cd, c, call);
    assert c.handled == c.handled[..n] + [c.handled[n]];
    assert Answers(call, c.handled[n].reply.value);
    RepliesCount(c.handled[..n], c.sent);
    hide HandledOk, Owed, Answers;
    RepliesSnoc(c.handled[..n], c.handled[n]);
  }

  lemma AllHandled(cd: Codec, c: Conn, call: Message)
    requires HandledOk(cd, c.sent, c.handled) && c.sent != [] && c.sent[|c.sent| - 1] == call && NeedsReply(call)
    requires Owed(c.sent[..|c.sent| - 1]) < |Replies(c.handled)|
    ensures |c.handled| == |c.sent|
  {
    var n, h := |c.sent| - 1, |c.handled|;
    RepliesCount(c.handled, c.sent);
    if h <= n {
      assert c.sent[..n][..h] == c.sent[..h];
      OwedPrefix(c.sent[..n], h);
      assert false;
    }
  }

  lemma ReplyCompletes(cd: Codec, c: Conn, call: Message, read: nat, body: bytes)
    requires Faithful(cd) && ConnOk(cd, c)
    requires c.sent != [] && c.sent[|c.sent| - 1] == call && NeedsReply(call) && c.up == Frames(Up(cd, c))
    requires var k := Owed(c.sent[..|c.sent| - 1]);
             && Tracks(c.down, Down(cd, c), k + 1, read, Head([]))
             && body == Down(cd, c)[k] && |body| <= MAX_FRAME_BODY
    ensures ClientOk(cd, c.(downRead := read), Idle)
    ensures |c.handled| == |c.sent| && c.handled[|c.sent| - 1].reply.Some?
    ensures cd.decode(body) == c.handled[|c.sent| - 1].reply
    ensures Accepts(call, c.handled[|c.sent| - 1].reply.value)
  {
    var init := c.sent[..|c.sent| - 1];
    ReplyIsOwn(cd, c, call);
    assert c.sent == init + [call];
    OwedSnoc(init, call);
    assert OnWire(cd, Replies(c.handled)[Owed(init)]);
  }

  lemma ReadKeepsConn(cd: Codec, c: Conn, read: nat)
    requires ConnOk(cd, c)
    ensures ConnOk(cd, c.(downRead := read))
  {
  }

  lemma ClientFed(cd: Codec, c: Conn, call: Message, r: Reader, n: nat)
    requires ConnOk(cd, c) && ClientOk(cd, c, Awaiting(call, r))
    requires 0 < n <= Want(r) && c.downRead + n <= |c.down|
    ensures var k := Owed(c.sent[..|c.sent| - 1]);
            match Feed(r, c.down[c.downRead..c.downRead + n])
            case More(r') => Tracks(c.down, Down(cd, c), k, c.downRead + n, r')
            case Bad => true
            case Whole(b) =>
              && k < |Down(cd, c)| && b == Down(cd, c)[k] && |b| <= MAX_FRAME_BODY
              && Tracks(c.down, Down(cd, c), k + 1, c.downRead + n, Head([]))
  {
    hide ConnOk, Tracks;
    FeedTracks(c.down, Down(cd, c), Owed(c.sent[..|c.sent| - 1]), c.downRead, r, n);
  }

  lemma ClientReadKeeps(cd: Codec, c: Conn, call: Message, r: Reader, n: nat)
    requires Faithful(cd) && ConnOk(cd, c) && ClientOk(cd, c, Awaiting(call, r))
    requires 0 < n <= Want(r) && c.downRead + n <= |c.down|
    ensures ConnOk(cd, c.(downRead := c.downRead + n))
    ensures match Feed(r, c.down[c.downRead..c.downRead + n])
            case More(r') => ClientOk(cd, c.(downRead := c.downRead + n), Awaiting(call, r'))
            case Bad => true
            case Whole(b) =>
              && ClientOk(cd, c.(downRead := c.downRead + n), Idle)
              && |c.handled| == |c.sent| && c.handled[|c.sent| - 1].reply.Some?
              && cd.decode(b) == c.handled[|c.sent| - 1].reply
              && Accepts(call, c.handled[|c.sent| - 1].reply.value)
  {
    hide ConnOk, Tracks, Accepts;
    ClientFed(cd, c, call, r, n);
    ReadKeepsConn(cd, c, c.downRead + n);
    match Feed(r, c.down[c.downRead..c.downRead + n])
    case More(r') =>
    case Bad =>
    case Whole(b) => ReplyCompletes(cd, c, call, c.downRead + n, b);
  }

  // ---- The invariant, the whole system -------------------------------------

  ghost predicate ConnsOk(cd: Codec, s: State)
  {
    forall i :: 0 <= i < |s.conns| ==> ConnOk(cd, s.conns[i])
  }

  /** Only the current connection is open at the client's end, and its phase fits it. */
  ghost predicate LiveOk(cd: Codec, s: State)
  {
    && (s.cur.None? ==> s.phase.Idle?)
    && (s.cur.Some? ==> s.cur.value < |s.conns| && s.conns[s.cur.value].clientOpen
                        && ClientOk(cd, s.conns[s.cur.value], s.phase))
    && forall i :: 0 <= i < |s.conns| && s.conns[i].clientOpen ==> s.cur == Some(i)
  }

  /** What is true of a connection once a call on it has ended: a reply is the one computed
      for that very message; a posted commit is whole on the stream; a failed call closed
      the connection, and a failed commit is not whole. */
  ghost predicate OutcomeOk(cd: Codec, c: Conn, o: Outcome)
  {
    && o.index < |c.sent| && c.sent[o.index] == o.call
    && match o
       case Answered(_, k, call, reply) => k < |c.handled| && c.handled[k] == Exchange(call, Some(reply))
       case Posted(_, k, call) => call.CommitEvent? && Offset(Up(cd, c), k + 1) <= |c.up|
       case Failed(_, k, call) => !c.clientOpen && (call.CommitEvent? ==> |c.up| < Offset(Up(cd, c), k + 1))
  }

  ghost predicate OutcomesOk(cd: Codec, s: State)
  {
    forall d :: 0 <= d < |s.done| ==> s.done[d].conn < |s.conns| && OutcomeOk(cd, s.conns[s.done[d].conn], s.done[d])
  }

  /** The call in progress has not ended, and no call ends twice. */
  ghost predicate EndsOnce(s: State)
  {
    && (forall d :: 0 <= d < |s.done| && s.cur == Some(s.done[d].conn) && !s.phase.Idle? && s.cur.value < |s.conns|
          ==> s.done[d].index + 1 < |s.conns[s.cur.value].sent|)
    && (forall d, e :: 0 <= d < e < |s.done| ==> (s.done[d].conn, s.done[d].index) != (s.done[e].conn, s.done[e].index))
  }

  ghost predicate Inv(cd: Codec, s: State)
  {
    ConnsOk(cd, s) && LiveOk(cd, s) && OutcomesOk(cd, s) && EndsOnce(s)
  }

  /** How any step may change a connection. */
  ghost predicate Grows(c: Conn, c': Conn)
  {
    && c.sent <= c'.sent && c.handled <= c'.handled && c.up <= c'.up
    && (!c.clientOpen ==> !c'.clientOpen && c'.sent == c.sent && c'.up == c.up)
  }

  lemma OutcomeKeeps(cd: Codec, c: Conn, c': Conn, o: Outcome)
    requires OutcomeOk(cd, c, o) && Grows(c, c')
    ensures OutcomeOk(cd, c', o)
  {
    assert Up(cd, c')[..o.index + 1] == Up(cd, c)[..o.index + 1];
  }

  lemma OutcomesKeep(cd: Codec, s: State, s': State)
    requires OutcomesOk(cd, s) && s'.done == s.done && |s.conns| <= |s'.conns|
    requires forall i :: 0 <= i < |s.conns| ==> Grows(s.conns[i], s'.conns[i])
    ensures OutcomesOk(cd, s')
  {
    forall d | 0 <= d < |s.done|
      ensures OutcomeOk(cd, s'.conns[s.done[d].conn], s.done[d])
    {
      OutcomeKeeps(cd, s.conns[s.done[d].conn], s'.conns[s.done[d].conn], s.done[d]);
    }
  }

  lemma PutConn(cd: Codec, s: State, i: nat, c': Conn)
    requires ConnsOk(cd, s) && i < |s.conns| && ConnOk(cd, c')
    ensures ConnsOk(cd, s.(conns := s.conns[i := c']))
  {
  }

  lemma PutLive(cd: Codec, s: State, i: nat, c': Conn, phase': Phase)
    requires LiveOk(cd, s) && i < |s.conns| && c'.clientOpen == s.conns[i].clientOpen
    requires s.cur == Some(i) ==> ClientOk(cd, c', phase')
    requires s.cur != Some(i) ==> phase' == s.phase
    ensures LiveOk(cd, s.(conns := s.conns[i := c'], phase := phase'))
  {
  }

  lemma PutEnds(s: State, i: nat, c': Conn, phase': Phase)
    requires EndsOnce(s) && i < |s.conns| && c'.sent == s.conns[i].sent
    requires s.phase.Idle? ==> phase'.Idle?
    ensures EndsOnce(s.(conns := s.conns[i := c'], phase := phase'))
  {
  }

  /** One connection grows while the same call stays in progress, or none is. */
  lemma ConnGrows(cd: Codec, s: State, i: nat, c': Conn, phase': Phase)
    requires Inv(cd, s) && i < |s.conns| && Grows(s.conns[i], c') && ConnOk(cd, c')
    requires c'.clientOpen == s.conns[i].clientOpen && c'.sent == s.conns[i].sent
    requires s.cur == Some(i) ==> ClientOk(cd, c', phase')
    requires s.cur != Some(i) ==> phase' == s.phase
    requires s.phase.Idle? ==> phase'.Idle?
    ensures Inv(cd, s.(conns := s.conns[i := c'], phase := phase'))
  {
    hide ConnOk, ClientOk, OutcomeOk;
    PutConn(cd, s, i, c');
    PutLive(cd, s, i, c', phase');
    PutEnds(s, i, c', phase');
    OutcomesKeep(cd, s, s.(conns := s.conns[i := c'], phase := phase'));
  }

  lemma WorkerKeepsInv(cd: Codec, s: State, i: nat, c': Conn)
    requires Inv(cd, s) && i < |s.conns| && ConnOk(cd, c') && WorkerMoved(cd, s.conns[i], c')
    ensures Inv(cd, s.(conns := s.conns[i := c']))
  {
    if s.cur == Some(i) {
      ClientUndisturbed(cd, s.conns[i], c', s.phase);
    }
    ConnGrows(cd, s, i, c', s.phase);
  }

  lemma ClosedOk(cd: Codec, c: Conn)
    requires ConnOk(cd, c)
    ensures ConnOk(cd, c.(clientOpen := false)) && Grows(c, c.(clientOpen := false))
  {
  }

  /** Closing the current connection leaves no connection open. */
  lemma CloseLive(cd: Codec, s: State, i: nat, c': Conn)
    requires LiveOk(cd, s) && s.cur == Some(i) && !c'.clientOpen
    ensures LiveOk(cd, s.(conns := s.conns[i := c'], cur := None, phase := Idle))
  {
  }

  lemma ResetKeeps(cd: Codec, s: State)
    requires Inv(cd, s) && s.phase.Idle?
    ensures Inv(cd, Reset(s))
  {
    if s.cur.Some? {
      var i := s.cur.value;
      ClosedOk(cd, s.conns[i]);
      PutConn(cd, s, i, s.conns[i].(clientOpen := false));
      CloseLive(cd, s, i, s.conns[i].(clientOpen := false));
      OutcomesKeep(cd, s, Reset(s));
    }
  }

  lemma {:induction false} OffsetLast(cd: Codec, c: Conn, off: nat)
    requires c.sent != [] && off < |EncodeFrame(cd.encode(c.sent[|c.sent| - 1]))|
    requires c.up == Frames(BodiesOf(cd.encode, c.sent[..|c.sent| - 1]))
                     + EncodeFrame(cd.encode(c.sent[|c.sent| - 1]))[..off]
    ensures |c.up| < Offset(Up(cd, c), |c.sent|)
  {
    PartOfLast(cd, c, off);
    OffsetAll(Up(cd, c));
  }

  lemma GiveUpKeeps(cd: Codec, s: State)
    requires Inv(cd, s)
    ensures Inv(cd, GiveUp(s))
    ensures !s.phase.Idle? ==>
      && Current(s).Some? && !GiveUp(s).conns[Current(s).value].clientOpen
      && GiveUp(s).phase.Idle? && GiveUp(s).cur.None?
      && GiveUp(s).done == s.done + [Failed(Current(s).value, |s.conns[Current(s).value].sent| - 1,
                                            if s.phase.Writing? then s.phase.call else s.phase.waiter)]
  {
    if !s.phase.Idle? {
      var i := s.cur.value;
      CallFails(cd, s, i, s.conns[i], if s.phase.Writing? then s.phase.call else s.phase.waiter);
      assert s.conns[i := s.conns[i]] == s.conns;
    }
  }

  lemma FreshOk(cd: Codec)
    ensures ConnOk(cd, FRESH) && ClientOk(cd, FRESH, Idle)
  {
    assert BodiesOf(cd.encode, []) == [];
    assert Up(cd, FRESH)[..0] == [];
  }

  /** A connection that is there, or a fresh one at the end of the list. */
  lemma ConnectKeeps(cd: Codec, s: State)
    requires Inv(cd, s) && s.cur.None?
    ensures Inv(cd, s.(conns := s.conns + [FRESH], cur := Some(|s.conns|)))
  {
    FreshOk(cd);
    OutcomesKeep(cd, s, s.(conns := s.conns + [FRESH]));
  }

  lemma SendOn(cd: Codec, s: State, i: nat, call: Message, nextId: u32)
    requires Inv(cd, s) && s.phase.Idle? && s.cur == Some(i) && FromClient(call) && OnWire(cd, call)
    ensures Inv(cd, s.(conns := s.conns[i := s.conns[i].(sent := s.conns[i].sent + [call])],
                       phase := Writing(call, 0), nextId := nextId))
  {
    hide ConnOk, ClientOk, OnWire, FromClient;
    var c' := s.conns[i].(sent := s.conns[i].sent + [call]);
    assert ConnOk(cd, s.conns[i]) && ClientOk(cd, s.conns[i], Idle);
    BeginKeeps(cd, s.conns[i], call);
    PutConn(cd, s, i, c');
    PutLive(cd, s, i, c', Writing(call, 0));
    SendEnds(cd, s, i, c', Writing(call, 0));
    hide OutcomeOk;
    OutcomesKeep(cd, s, s.(conns := s.conns[i := c']));
  }

  /** A call that begins is not among those that ended. */
  lemma SendEnds(cd: Codec, s: State, i: nat, c': Conn, phase': Phase)
    requires OutcomesOk(cd, s) && EndsOnce(s) && s.cur == Some(i) && i < |s.conns|
    requires |c'.sent| == |s.conns[i].sent| + 1
    ensures EndsOnce(s.(conns := s.conns[i := c'], phase := phase'))
  {
  }

  lemma CurrentIs(cd: Codec, s: State)
    requires LiveOk(cd, s)
    ensures Current(s) == s.cur
  {
  }

  lemma BeginOpen(cd: Codec, s: State, m: Message, connects: bool)
    requires Inv(cd, s) && s.phase.Idle? && Current(s).Some? && Current(s) == s.cur
    requires FromClient(m) && OnWire(cd, Numbered(m, s.nextId))
    ensures Inv(cd, BeginStep(cd, s, m, connects))
  {
    hide Inv, OnWire, Current;
    var nextId := if NeedsReply(m) then (s.nextId + 1) % U32_SIZE else s.nextId;
    SendOn(cd, s, s.cur.value, Numbered(m, s.nextId), nextId);
  }

  lemma BeginConnected(cd: Codec, s: State, m: Message)
    requires Inv(cd, s) && s.phase.Idle? && Current(s).None? && s.cur.None?
    requires FromClient(m) && OnWire(cd, Numbered(m, s.nextId))
    ensures Inv(cd, BeginStep(cd, s, m, true))
  {
    hide Inv, OnWire, Current;
    var nextId := if NeedsReply(m) then (s.nextId + 1) % U32_SIZE else s.nextId;
    ConnectKeeps(cd, s);
    SendOn(cd, s.(conns := s.conns + [FRESH], cur := Some(|s.conns|)), |s.conns|, Numbered(m, s.nextId), nextId);
  }

  lemma BeginKeepsInv(cd: Codec, s: State, m: Message, connects: bool)
    requires Inv(cd, s)
    ensures Inv(cd, BeginStep(cd, s, m, connects))
  {
    CurrentIs(cd, s);
    hide Inv, OnWire;
    if s.phase.Idle? && FromClient(m) && OnWire(cd, Numbered(m, s.nextId)) {
      if s.cur.Some? {
        BeginOpen(cd, s, m, connects);
      } else if connects {
        BeginConnected(cd, s, m);
      }
    }
  }

  lemma WrittenWhole(cd: Codec, s: State, i: nat, c': Conn, call: Message)
    requires Inv(cd, s) && s.cur == Some(i) && s.phase.Writing? && s.phase.call == call && call.CommitEvent?
    requires Grows(s.conns[i], c') && c'.sent == s.conns[i].sent && c'.clientOpen
    requires ConnOk(cd, c') && ClientOk(cd, c', Idle)
    ensures Inv(cd, s.(conns := s.conns[i := c'], phase := Idle, done := s.done + [Posted(i, |c'.sent| - 1, call)]))
  {
    OffsetAll(Up(cd, c'));
    hide Frames, EncodeFrame, Frameable, HandledOk;
    CallSucceeds(cd, s, i, c', Posted(i, |c'.sent| - 1, call));
  }

  lemma ClientWriteKeepsInv(cd: Codec, s: State, n: nat)
    requires Inv(cd, s)
    ensures Inv(cd, ClientWriteStep(cd, s, n))
  {
    hide HandledOk, UpOk, DownOk, Tracks;
    if s.phase.Writing? {
      var i := s.cur.value;
      var c := s.conns[i];
      var call, off := s.phase.call, s.phase.off;
      var frame := EncodeFrame(cd.encode(call));
      if n > 0 && off + n <= |frame| {
        ClientWriteKeeps(cd, c, call, off, n);
        var c' := c.(up := c.up + frame[off..off + n]);
        assert Grows(c, c');
        if off + n < |frame| {
          ConnGrows(cd, s, i, c', Writing(call, off + n));
        } else if NeedsReply(call) {
          ConnGrows(cd, s, i, c', Awaiting(call, Head([])));
        } else {
          WrittenWhole(cd, s, i, c', call);
        }
      }
    }
  }

  /** The call in progress ends well, its connection staying open. */
  lemma CallSucceeds(cd: Codec, s: State, i: nat, c': Conn, o: Outcome)
    requires Inv(cd, s) && s.cur == Some(i) && !s.phase.Idle?
    requires Grows(s.conns[i], c') && c'.sent == s.conns[i].sent && c'.clientOpen
    requires ConnOk(cd, c') && ClientOk(cd, c', Idle)
    requires o.conn == i && o.index + 1 == |c'.sent| && OutcomeOk(cd, c', o)
    ensures Inv(cd, s.(conns := s.conns[i := c'], phase := Idle, done := s.done + [o]))
  {
    ConnGrows(cd, s, i, c', Idle);
    OutcomeAdded(cd, s.(conns := s.conns[i := c'], phase := Idle), o);
    OnceMore(s, i, c', o);
  }

  lemma OutcomeAdded(cd: Codec, s: State, o: Outcome)
    requires OutcomesOk(cd, s) && o.conn < |s.conns| && OutcomeOk(cd, s.conns[o.conn], o)
    ensures OutcomesOk(cd, s.(done := s.done + [o]))
  {
  }

  lemma OnceMore(s: State, i: nat, c': Conn, o: Outcome)
    requires EndsOnce(s) && s.cur == Some(i) && !s.phase.Idle? && i < |s.conns|
    requires c'.sent == s.conns[i].sent && o.conn == i && o.index + 1 == |c'.sent|
    ensures EndsOnce(s.(conns := s.conns[i := c'], phase := Idle, done := s.done + [o]))
  {
  }

  lemma ReadMore(cd: Codec, s: State, i: nat, n: nat, r: Reader)
    requires Inv(cd, s) && s.cur == Some(i) && s.phase.Awaiting?
    requires var c' := s.conns[i].(downRead := n); ConnOk(cd, c') && ClientOk(cd, c', Awaiting(s.phase.waiter, r))
    ensures Inv(cd, s.(conns := s.conns[i := s.conns[i].(downRead := n)], phase := Awaiting(s.phase.waiter, r)))
  {
    ConnGrows(cd, s, i, s.conns[i].(downRead := n), Awaiting(s.phase.waiter, r));
  }

  lemma ReadReply(cd: Codec, s: State, i: nat, n: nat, body: bytes)
    requires Inv(cd, s) && s.cur == Some(i) && s.phase.Awaiting?
    requires var c' := s.conns[i].(downRead := n);
             && ConnOk(cd, c') && ClientOk(cd, c', Idle)
             && |c'.handled| == |c'.sent| > 0 && c'.handled[|c'.sent| - 1].reply.Some?
             && c'.sent[|c'.sent| - 1] == s.phase.waiter
             && cd.decode(body) == c'.handled[|c'.sent| - 1].reply
             && Accepts(s.phase.waiter, c'.handled[|c'.sent| - 1].reply.value)
    ensures Inv(cd, TakeReply(cd, s.(conns := s.conns[i := s.conns[i].(downRead := n)]), i, body))
  {
    var c' := s.conns[i].(downRead := n);
    var o := Answered(i, |c'.sent| - 1, s.phase.waiter, cd.decode(body).value);
    assert OutcomeOk(cd, c', o) by {
      assert c'.handled[|c'.sent| - 1].req == s.phase.waiter;
    }
    CallSucceeds(cd, s, i, c', o);
  }

  /** A reply above the body cap: the client gives up on it. */
  lemma ReadBad(cd: Codec, s: State, i: nat, n: nat)
    requires Inv(cd, s) && s.cur == Some(i) && s.phase.Awaiting? && ConnOk(cd, s.conns[i].(downRead := n))
    ensures Inv(cd, GiveUp(s.(conns := s.conns[i := s.conns[i].(downRead := n)])))
  {
    CallFails(cd, s, i, s.conns[i].(downRead := n), s.phase.waiter);
  }

  lemma FailureOk(cd: Codec, s: State, c: Conn, i: nat, call: Message, read: nat)
    requires !s.phase.Idle? && ClientOk(cd, c, s.phase)
    requires call == if s.phase.Writing? then s.phase.call else s.phase.waiter
    ensures c.sent != [] && OutcomeOk(cd, c.(clientOpen := false, downRead := read), Failed(i, |c.sent| - 1, call))
  {
    if s.phase.Writing? {
      OffsetLast(cd, c, s.phase.off);
    }
  }

  lemma FailureEnds(s: State, i: nat, c': Conn, o: Outcome)
    requires EndsOnce(s) && s.cur == Some(i) && !s.phase.Idle? && i < |s.conns|
    requires c'.sent == s.conns[i].sent && o.conn == i && o.index + 1 == |c'.sent|
    ensures EndsOnce(s.(conns := s.conns[i := c'], cur := None, phase := Idle, done := s.done + [o]))
  {
  }

  /** The call in progress fails, and its connection with it. */
  lemma CallFails(cd: Codec, s: State, i: nat, c': Conn, call: Message)
    requires Inv(cd, s) && s.cur == Some(i) && !s.phase.Idle?
    requires call == if s.phase.Writing? then s.phase.call else s.phase.waiter
    requires c' == s.conns[i].(downRead := c'.downRead) && ConnOk(cd, c')
    ensures Inv(cd, GiveUp(s.(conns := s.conns[i := c'])))
  {
    hide ConnOk, OutcomeOk;
    var closed := c'.(clientOpen := false);
    var s' := s.(conns := s.conns[i := closed], cur := None, phase := Idle);
    FailureOk(cd, s, s.conns[i], i, call, c'.downRead);
    var o := Failed(i, |c'.sent| - 1, call);
    ClosedOk(cd, c');
    PutConn(cd, s, i, closed);
    CloseLive(cd, s, i, closed);
    FailureEnds(s, i, closed, o);
    OutcomesKeep(cd, s, s');
    OutcomeAdded(cd, s', o);
    assert s.conns[i := c'][i := closed] == s.conns[i := closed];
  }

  lemma ClientReadKeepsInv(cd: Codec, s: State, n: nat)
    requires Faithful(cd) && Inv(cd, s)
    ensures Inv(cd, ClientReadStep(cd, s, n))
  {
    hide HandledOk, UpOk, DownOk, Tracks;
    if s.phase.Awaiting? && ReaderOk(s.phase.r) {
      var i := s.cur.value;
      var c := s.conns[i];
      if 0 < n <= Want(s.phase.r) && c.downRead + n <= |c.down| {
        ClientReadKeeps(cd, c, s.phase.waiter, s.phase.r, n);
        match Feed(s.phase.r, c.down[c.downRead..c.downRead + n])
        case More(r) => ReadMore(cd, s, i, c.downRead + n, r);
        case Whole(b) => ReadReply(cd, s, i, c.downRead + n, b);
        case Bad => ReadBad(cd, s, i, c.downRead + n);
      }
    }
  }

  lemma StepKeepsInv(cd: Codec, s: State, a: Action)
    requires Faithful(cd) && Inv(cd, s)
    ensures Inv(cd, Apply(cd, s, a))
  {
    match a
    case Begin(m, connects) => BeginKeepsInv(cd, s, m, connects);
    case ClientWrite(n) => ClientWriteKeepsInv(cd, s, n);
    case ClientRead(n) => ClientReadKeepsInv(cd, s, n);
    case ClientGivesUp => GiveUpKeeps(cd, s);
    case ClientResets => if s.phase.Idle? { ResetKeeps(cd, s); }
    case WorkerRead(i, n, reply) =>
      if i < |s.conns| {
        WorkerReadKeeps(cd, s.conns[i], n, reply);
        WorkerKeepsInv(cd, s, i, WorkerReadConn(cd, s.conns[i], n, reply));
      }
    case WorkerWrite(i, n) =>
      if i < |s.conns| {
        WorkerWriteKeeps(cd, s.conns[i], n);
        WorkerKeepsInv(cd, s, i, WorkerWriteConn(s.conns[i], n));
      }
    case WorkerHangs(i) =>
      if i < |s.conns| {
        HangKeeps(cd, s.conns[i], s.conns[i].upRead);
        WorkerKeepsInv(cd, s, i, s.conns[i].(worker := Hung));
      }
  }

  lemma {:induction false} RunsKeepInv(cd: Codec, acts: seq<Action>)
    requires Faithful(cd)
    ensures Inv(cd, Execute(cd, acts))
    decreases |acts|
  {
    if acts == [] {
    } else {
      RunsKeepInv(cd, acts[..|acts| - 1]);
      StepKeepsInv(cd, Execute(cd, acts[..|acts| - 1]), acts[|acts| - 1]);
    }
  }
}
