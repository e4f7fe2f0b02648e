/** The steps of the conversation taken apart: reads and writes in pieces of any sizes do what one
    read or write does, and how connections begin and end (src/client/client.cc,
    src/daemon/server.cc). */
module IpcChunks {
  import opened Bytes
  import opened Framing
  import opened Protocol
  import opened Ipc

  /** A reader given its bytes in two pieces comes out where it does given them at once. */
  lemma FeedSplits(r: Reader, x: bytes, y: bytes)
    requires ReaderOk(r) && 0 < |x| && 0 < |y| && |x| + |y| <= Want(r)
    ensures Feed(r, x).More? && ReaderOk(Feed(r, x).r) && Want(Feed(r, x).r) == Want(r) - |x|
    ensures Feed(Feed(r, x).r, y) == Feed(r, x + y)
  {
    match r
    case Head(got) => assert got + x + y == got + (x + y);
    case Load(_, got) => assert got + x + y == got + (x + y);
  }

  lemma SliceSplits(s: bytes, at: nat, a: nat, b: nat)
    requires at + a + b <= |s|
    ensures s[at..at + (a + b)] == s[at..at + a] + s[at + a..at + a + b]
  {
  }

  /** The client may take what the peer sends in pieces. */
  lemma ClientReadSplits(cd: Codec, s: State, a: nat, b: nat)
    requires s.phase.Awaiting? && Current(s).Some? && ReaderOk(s.phase.r) && 0 < a && 0 < b && a + b <= Want(s.phase.r)
    requires var c := s.conns[Current(s).value]; c.sent != [] && c.downRead + a + b <= |c.down|
    ensures ClientReadStep(cd, ClientReadStep(cd, s, a), b) == ClientReadStep(cd, s, a + b)
  {
    hide Feed, Want, ReaderOk, TakeReply, GiveUp, ClientReadStep, Current;
    var i := Current(s).value;
    var c, r := s.conns[i], s.phase.r;
    var x, y := c.down[c.downRead..c.downRead + a], c.down[c.downRead + a..c.downRead + a + b];
    FeedSplits(r, x, y);
    SliceSplits(c.down, c.downRead, a, b);
    var s2 := TakenTo(s, i, c.downRead + (a + b));
    var s1 := TakenTo(s, i, c.downRead + a).(phase := Awaiting(s.phase.waiter, Feed(r, x).r));
    ClientReads(cd, s, i, a);
    StillThere(s, i, c.downRead + a, Feed(r, x).r);
    ClientReads(cd, s1, i, b);
    ClientReads(cd, s, i, a + b);
    TakenAgain(s, i, c.downRead + a, c.downRead + a + b, Feed(r, x).r);
    StillThere(s, i, c.downRead + (a + b), r);
    TakeEither(cd, s2, Feed(r, x).r, i);
  }

  /** The client has taken as much of connection `i` as `read` says. */
  function TakenTo(s: State, i: nat, read: nat): (s': State)
    requires i < |s.conns|
  {
    s.(conns := s.conns[i := s.conns[i].(downRead := read)])
  }

  lemma StillThere(s: State, i: nat, read: nat, r: Reader)
    requires s.phase.Awaiting? && Current(s) == Some(i)
    ensures Current(TakenTo(s, i, read).(phase := Awaiting(s.phase.waiter, r))) == Some(i)
    ensures Current(TakenTo(s, i, read)) == Some(i)
  {
  }

  lemma TakenAgain(s: State, i: nat, read: nat, more: nat, r: Reader)
    requires s.phase.Awaiting? && i < |s.conns|
    ensures TakenTo(TakenTo(s, i, read).(phase := Awaiting(s.phase.waiter, r)), i, more) ==
            TakenTo(s, i, more).(phase := Awaiting(s.phase.waiter, r))
  {
    assert s.conns[i := s.conns[i].(downRead := read)][i := s.conns[i].(downRead := more)] ==
           s.conns[i := s.conns[i].(downRead := more)];
  }

  lemma ClientReads(cd: Codec, s: State, i: nat, n: nat)
    requires s.phase.Awaiting? && Current(s) == Some(i) && ReaderOk(s.phase.r) && 0 < n <= Want(s.phase.r)
    requires s.conns[i].sent != [] && s.conns[i].downRead + n <= |s.conns[i].down|
    ensures var c := s.conns[i];
            var s1 := TakenTo(s, i, c.downRead + n);
            ClientReadStep(cd, s, n) ==
            match Feed(s.phase.r, c.down[c.downRead..c.downRead + n])
            case More(r) => s1.(phase := Awaiting(s.phase.waiter, r))
            case Bad => GiveUp(s1)
            case Whole(body) => TakeReply(cd, s1, i, body)
  {
    hide Feed, Want, ReaderOk, TakeReply, GiveUp;
  }

  /** How much of the reply had been read does not matter once it is whole or refused. */
  lemma TakeEither(cd: Codec, s: State, r: Reader, i: nat)
    requires s.phase.Awaiting? && Current(s) == Some(i) && s.conns[i].sent != []
    ensures var s' := s.(phase := Awaiting(s.phase.waiter, r));
            GiveUp(s') == GiveUp(s) && forall body :: TakeReply(cd, s', i, body) == TakeReply(cd, s, i, body)
  {
  }

  /** So may the worker. */
  lemma WorkerReadSplits(cd: Codec, c: Conn, a: nat, b: nat, reply: Message)
    requires c.worker.Receiving? && ReaderOk(c.worker.r) && 0 < a && 0 < b && a + b <= Want(c.worker.r)
    requires c.upRead + a + b <= |c.up|
    requires Feed(c.worker.r, c.up[c.upRead..c.upRead + (a + b)]).Whole? ==> CanServe(cd, c, a + b, reply)
    ensures WorkerReadConn(cd, WorkerReadConn(cd, c, a, reply), b, reply) == WorkerReadConn(cd, c, a + b, reply)
  {
    hide Feed, Want, ReaderOk, Serve, CanServe, WorkerReadConn;
    var r, x, y := c.worker.r, c.up[c.upRead..c.upRead + a], c.up[c.upRead + a..c.upRead + a + b];
    FeedSplits(r, x, y);
    SliceSplits(c.up, c.upRead, a, b);
    var c1 := c.(upRead := c.upRead + a, worker := Receiving(Feed(r, x).r));
    WorkerReads(cd, c, r, a, reply);
    WorkerReads(cd, c, r, a + b, reply);
    WorkerReads(cd, c1, Feed(r, x).r, b, reply);
    var fed := Feed(r, x + y);
    if fed.Whole? { ServeEither(cd, c, c1, a + b, c.upRead + (a + b), fed.body, reply); }
  }

  lemma WorkerReads(cd: Codec, c: Conn, r: Reader, n: nat, reply: Message)
    requires c.worker == Receiving(r) && ReaderOk(r) && 0 < n <= Want(r) && c.upRead + n <= |c.up|
    ensures WorkerReadConn(cd, c, n, reply) ==
            match Feed(r, c.up[c.upRead..c.upRead + n])
            case More(r') => c.(upRead := c.upRead + n, worker := Receiving(r'))
            case Bad => c.(upRead := c.upRead + n, worker := Hung)
            case Whole(body) => Serve(cd, c, c.upRead + n, body, reply)
  {
    hide Feed, Want, ReaderOk, Serve;
  }

  lemma ServeEither(cd: Codec, c: Conn, c1: Conn, n: nat, read: nat, body: bytes, reply: Message)
    requires c.worker.Receiving? && ReaderOk(c.worker.r) && 0 < n <= Want(c.worker.r) && c.upRead + n <= |c.up|
    requires CanServe(cd, c, n, reply) && Feed(c.worker.r, c.up[c.upRead..c.upRead + n]) == Whole(body)
    requires c1 == c.(upRead := c1.upRead, worker := c1.worker)
    ensures Serve(cd, c1, read, body, reply) == Serve(cd, c, read, body, reply)
  {
    hide Feed, Want, ReaderOk, Answers, OnWire, NeedsReply, EncodeFrame;
  }

  /** The answer offered is one the worker may give to the body it is about to complete. */
  predicate CanServe(cd: Codec, c: Conn, n: nat, reply: Message)
    requires c.worker.Receiving? && ReaderOk(c.worker.r) && 0 < n <= Want(c.worker.r) && c.upRead + n <= |c.up|
  {
    var fed := Feed(c.worker.r, c.up[c.upRead..c.upRead + n]);
    fed.Whole? && cd.decode(fed.body).Some? && NeedsReply(cd.decode(fed.body).value) ==>
      Answers(cd.decode(fed.body).value, reply) && OnWire(cd, reply)
  }

  /** A frame may be written in pieces, by the client ... */
  lemma ClientWriteSplits(cd: Codec, s: State, a: nat, b: nat)
    requires s.phase.Writing? && Current(s).Some? && 0 < a && 0 < b
    requires s.phase.off + a + b <= |EncodeFrame(cd.encode(s.phase.call))| && s.conns[Current(s).value].sent != []
    ensures ClientWriteStep(cd, ClientWriteStep(cd, s, a), b) == ClientWriteStep(cd, s, a + b)
  {
    var i := Current(s).value;
    var c := s.conns[i];
    var frame, off := EncodeFrame(cd.encode(s.phase.call)), s.phase.off;
    hide EncodeFrame, NeedsReply;
    SliceSplits(frame, off, a, b);
    var c1 := c.(up := c.up + frame[off..off + a]);
    var s1 := ClientWriteStep(cd, s, a);
    assert s1.conns == s.conns[i := c1] && Current(s1) == Some(i);
    assert c1.up + frame[off + a..off + a + b] == c.up + frame[off..off + (a + b)];
    assert s1.conns[i := c1.(up := c.up + frame[off..off + (a + b)])] ==
           s.conns[i := c.(up := c.up + frame[off..off + (a + b)])];
  }

  /** ... and by the worker. */
  lemma WorkerWriteSplits(c: Conn, a: nat, b: nat)
    requires c.worker.Replying? && 0 < a && 0 < b && c.worker.off + a + b <= |c.worker.frame|
    ensures WorkerWriteConn(WorkerWriteConn(c, a), b) == WorkerWriteConn(c, a + b)
  {
    var frame, off := c.worker.frame, c.worker.off;
    SliceSplits(frame, off, a, b);
    assert c.down + frame[off..off + a] + frame[off + a..off + a + b] == c.down + frame[off..off + (a + b)];
  }

  /** Without a live connection, a call that gets one starts on it, behind all others; one that
      gets none changes nothing but to forget the dead one. */
  lemma BeginConnects(cd: Codec, s: State, m: Message)
    requires s.phase.Idle? && Current(s).None? && FromClient(m) && OnWire(cd, Numbered(m, s.nextId))
    ensures var call := Numbered(m, s.nextId);
            Apply(cd, s, Begin(m, true)) ==
            s.(conns := s.conns + [Conn([], 0, [], 0, true, Receiving(Head([])), [call], [])], cur := Some(|s.conns|),
               phase := Writing(call, 0), nextId := if NeedsReply(m) then (s.nextId + 1) % U32_SIZE else s.nextId)
    ensures Apply(cd, s, Begin(m, false)) == s.(cur := None)
  {
    hide OnWire, Numbered, NeedsReply;
    assert [] + [Numbered(m, s.nextId)] == [Numbered(m, s.nextId)];
    assert (s.conns + [FRESH])[|s.conns| := FRESH.(sent := FRESH.sent + [Numbered(m, s.nextId)])] ==
           s.conns + [FRESH.(sent := [] + [Numbered(m, s.nextId)])];
  }

  /** Resetting an idle client closes its connection and leaves it without one. */
  lemma ResetCloses(cd: Codec, s: State)
    requires s.phase.Idle?
    ensures var s' := Apply(cd, s, ClientResets);
            && s'.phase.Idle? && s'.cur.None? && s'.nextId == s.nextId && s'.done == s.done && |s'.conns| == |s.conns|
            && forall i :: 0 <= i < |s.conns| ==>
                 s'.conns[i] == if Current(s) == Some(i) then s.conns[i].(clientOpen := false) else s.conns[i]
  {
  }
}
