/** One client process and its connections, as steps: callers serialised by the
    client's mutex, partial writes and reads, timeouts, closes, reconnects, and a
    server worker per connection (src/client/client.cc, src/daemon/server.cc).
    Byte streams are FIFO; every scheduling choice is an argument of an action. */
module Ipc {
  import opened Bytes
  import opened Framing
  import opened Protocol

  /** What the steps need of the body codec. */
  datatype Codec = Codec(packs: Message -> bool, encode: Message -> bytes, decode: bytes -> Option<Message>)

  ghost predicate Faithful(cd: Codec)
  {
    forall m :: cd.packs(m) ==>
      cd.encode(m) != [] && (|cd.encode(m)| <= MAX_FRAME_BODY ==> cd.decode(cd.encode(m)) == Some(m))
  }

  /** Messages that have a body below the 32-bit cut of the frame length. */
  predicate OnWire(cd: Codec, m: Message)
  {
    cd.packs(m) && 0 < |cd.encode(m)| < U32_SIZE
  }

  predicate AllOnWire(cd: Codec, ms: seq<Message>)
  {
    forall i :: 0 <= i < |ms| ==> OnWire(cd, ms[i])
  }

  // ---- State ---------------------------------------------------------------

  /** A request the worker has read, and the reply it computed for it. */
  datatype Exchange = Exchange(req: Message, reply: Option<Message>)

  datatype Worker = Receiving(r: Reader) | Replying(frame: bytes, off: nat) | Hung

  /** `up` and `down` are all bytes accepted so far in each direction, `upRead` and
      `downRead` how many of them the other end has taken. `sent` lists the messages
      whose writing has begun, `handled` what the worker has done, both in order. */
  datatype Conn = Conn(up: bytes, upRead: nat, down: bytes, downRead: nat, clientOpen: bool,
                       worker: Worker, sent: seq<Message>, handled: seq<Exchange>)

  datatype Phase = Idle | Writing(call: Message, off: nat) | Awaiting(waiter: Message, r: Reader)

  /** How a call ended; `index` is the position of its message in its connection's `sent`. */
  datatype Outcome =
    | Answered(conn: nat, index: nat, call: Message, reply: Message)
    | Posted(conn: nat, index: nat, call: Message)
    | Failed(conn: nat, index: nat, call: Message)

  datatype State = State(conns: seq<Conn>, cur: Option<nat>, phase: Phase, nextId: u32, done: seq<Outcome>)

  datatype Action =
    | Begin(m: Message, connects: bool)
    | ClientWrite(n: nat)
    | ClientRead(n: nat)
    | ClientGivesUp
    | ClientResets
    | WorkerRead(i: nat, n: nat, reply: Message)
    | WorkerWrite(i: nat, n: nat)
    | WorkerHangs(i: nat)

  const INIT: State := State([], None, Idle, 1, [])
  const FRESH: Conn := Conn([], 0, [], 0, true, Receiving(Head([])), [], [])

  predicate FromClient(m: Message)
  {
    NeedsReply(m) || m.CommitEvent?
  }

  /** What a worker may answer. A rerank service is free in every field of its reply. */
  predicate Answers(req: Message, reply: Message)
  {
    match req
    case RerankRequest(_, _, _, _, _) => reply.RerankResponse?
    case Ping(id) => reply == Pong(id)
    case StatsRequest(id) => reply.StatsResponse? && reply.id == id
    case _ => false
  }

  // ---- Steps ---------------------------------------------------------------

  function Current(s: State): (r: Option<nat>)
    ensures r.Some? ==> r.value < |s.conns| && s.conns[r.value].clientOpen
  {
    if s.cur.Some? && s.cur.value < |s.conns| && s.conns[s.cur.value].clientOpen then s.cur else None
  }

  /** ResetLocked. */
  function Reset(s: State): (s': State)
  {
    match Current(s)
    case None => s.(cur := None, phase := Idle)
    case Some(i) => s.(conns := s.conns[i := s.conns[i].(clientOpen := false)], cur := None, phase := Idle)
  }

  function BeginStep(cd: Codec, s: State, m: Message, connects: bool): (s': State)
  {
    var call := Numbered(m, s.nextId);
    if !s.phase.Idle? || !FromClient(m) || !OnWire(cd, call) then s
    else if Current(s).None? && !connects then s.(cur := None)
    else
      var conns := if Current(s).Some? then s.conns else s.conns + [FRESH];
      var i := if Current(s).Some? then Current(s).value else |s.conns|;
      s.(conns := conns[i := conns[i].(sent := conns[i].sent + [call])], cur := Some(i),
         phase := Writing(call, 0),
         nextId := if NeedsReply(m) then (s.nextId + 1) % U32_SIZE else s.nextId)
  }

  function ClientWriteStep(cd: Codec, s: State, n: nat): (s': State)
  {
    if !s.phase.Writing? || Current(s).None? then s else
    var i := Current(s).value;
    var c := s.conns[i];
    var frame := EncodeFrame(cd.encode(s.phase.call));
    var off := s.phase.off;
    if n == 0 || off + n > |frame| || c.sent == [] then s else
    var s1 := s.(conns := s.conns[i := c.(up := c.up + frame[off..off + n])]);
    if off + n < |frame| then s1.(phase := Writing(s.phase.call, off + n))
    else if NeedsReply(s.phase.call) then s1.(phase := Awaiting(s.phase.call, Head([])))
    else s1.(phase := Idle, done := s.done + [Posted(i, |c.sent| - 1, s.phase.call)])
  }

  function GiveUp(s: State): (s': State)
  {
    if s.phase.Idle? || Current(s).None? then s else
    var i := Current(s).value;
    if s.conns[i].sent == [] then s else
    var call := if s.phase.Writing? then s.phase.call else s.phase.waiter;
    Reset(s).(done := s.done + [Failed(i, |s.conns[i].sent| - 1, call)])
  }

  /** A whole reply frame has arrived: decode it and check its kind, and its id where the client does. */
  function TakeReply(cd: Codec, s: State, i: nat, body: bytes): (s': State)
    requires s.phase.Awaiting? && i < |s.conns| && s.conns[i].sent != []
  {
    var reply := cd.decode(body);
    if reply.Some? && Accepts(s.phase.waiter, reply.value)
    then s.(phase := Idle, done := s.done + [Answered(i, |s.conns[i].sent| - 1, s.phase.waiter, reply.value)])
    else GiveUp(s)
  }

  function ClientReadStep(cd: Codec, s: State, n: nat): (s': State)
  {
    if !s.phase.Awaiting? || Current(s).None? || !ReaderOk(s.phase.r) then s else
    var i := Current(s).value;
    var c := s.conns[i];
    if n == 0 || n > Want(s.phase.r) || c.downRead + n > |c.down| || c.sent == [] then s else
    var s1 := s.(conns := s.conns[i := c.(downRead := c.downRead + n)]);
    match Feed(s.phase.r, c.down[c.downRead..c.downRead + n])
    case More(r) => s1.(phase := Awaiting(s.phase.waiter, r))
    case Bad => GiveUp(s1)
    case Whole(b) => TakeReply(cd, s1, i, b)
  }

  /** A whole body has arrived: decode it, do the work, start the reply if there is one. */
  function Serve(cd: Codec, c: Conn, read: nat, body: bytes, reply: Message): (c': Conn)
  {
    match cd.decode(body)
    case None => c.(upRead := read, worker := Hung)
    case Some(m) =>
      if !NeedsReply(m) then
        c.(upRead := read, worker := Receiving(Head([])), handled := c.handled + [Exchange(m, None)])
      else if Answers(m, reply) && OnWire(cd, reply) then
        c.(upRead := read, worker := Replying(EncodeFrame(cd.encode(reply)), 0),
           handled := c.handled + [Exchange(m, Some(reply))])
      else c
  }

  function WorkerReadConn(cd: Codec, c: Conn, n: nat, reply: Message): (c': Conn)
  {
    if !c.worker.Receiving? || !ReaderOk(c.worker.r) then c
    else if n == 0 || n > Want(c.worker.r) || c.upRead + n > |c.up| then c else
    match Feed(c.worker.r, c.up[c.upRead..c.upRead + n])
    case More(r) => c.(upRead := c.upRead + n, worker := Receiving(r))
    case Bad => c.(upRead := c.upRead + n, worker := Hung)
    case Whole(b) => Serve(cd, c, c.upRead + n, b, reply)
  }

  function WorkerWriteConn(c: Conn, n: nat): (c': Conn)
  {
    if !c.worker.Replying? || n == 0 || c.worker.off + n > |c.worker.frame| then c else
    var off := c.worker.off;
    var c1 := c.(down := c.down + c.worker.frame[off..off + n]);
    if off + n < |c.worker.frame| then c1.(worker := Replying(c.worker.frame, off + n))
    else c1.(worker := Receiving(Head([])))
  }

  function Apply(cd: Codec, s: State, a: Action): (s': State)
  {
    match a
    case Begin(m, connects) => BeginStep(cd, s, m, connects)
    case ClientWrite(n) => ClientWriteStep(cd, s, n)
    case ClientRead(n) => ClientReadStep(cd, s, n)
    case ClientGivesUp => GiveUp(s)
    case ClientResets => if s.phase.Idle? then Reset(s) else s
    case WorkerRead(i, n, reply) =>
      if i < |s.conns| then s.(conns := s.conns[i := WorkerReadConn(cd, s.conns[i], n, reply)]) else s
    case WorkerWrite(i, n) =>
      if i < |s.conns| then s.(conns := s.conns[i := WorkerWriteConn(s.conns[i], n)]) else s
    case WorkerHangs(i) =>
      if i < |s.conns| then s.(conns := s.conns[i := s.conns[i].(worker := Hung)]) else s
  }

  /** Any list of actions, taken in order. */
  function RunFrom(cd: Codec, s: State, acts: seq<Action>): (s': State)
  {
    if acts == [] then s else Apply(cd, RunFrom(cd, s, acts[..|acts| - 1]), acts[|acts| - 1])
  }

  /** A run: from no connection at all. */
  function Execute(cd: Codec, acts: seq<Action>): (s: State)
  {
    RunFrom(cd, INIT, acts)
  }

  // ---- Counting requests and replies ---------------------------------------

  function Owed(ms: seq<Message>): (n: nat)
    ensures n <= |ms|
  {
    if ms == [] then 0
    else Owed(ms[..|ms| - 1]) + (if NeedsReply(ms[|ms| - 1]) then 1 else 0)
  }

  function Replies(hs: seq<Exchange>): (ms: seq<Message>)
  {
    if hs == [] then []
    else Replies(hs[..|hs| - 1]) + (if hs[|hs| - 1].reply.Some? then [hs[|hs| - 1].reply.value] else [])
  }

  lemma OwedSnoc(ms: seq<Message>, m: Message)
    ensures Owed(ms + [m]) == Owed(ms) + (if NeedsReply(m) then 1 else 0)
  {
    assert (ms + [m])[..|ms|] == ms;
  }

  lemma RepliesSnoc(hs: seq<Exchange>, h: Exchange)
    ensures Replies(hs + [h]) == Replies(hs) + (if h.reply.Some? then [h.reply.value] else [])
  {
    assert (hs + [h])[..|hs|] == hs;
  }

  /** A prefix that owes as many replies as the whole leaves out only commits. */
  lemma {:induction false} OwedPrefix(ms: seq<Message>, k: nat)
    requires k <= |ms|
    ensures Owed(ms[..k]) <= Owed(ms)
    ensures Owed(ms[..k]) == Owed(ms) ==> forall j :: k <= j < |ms| ==> !NeedsReply(ms[j])
    decreases |ms|
  {
    if k == |ms| {
      assert ms[..k] == ms;
    } else {
      var init := ms[..|ms| - 1];
      assert init[..k] == ms[..k];
      OwedPrefix(init, k);
      assert forall j :: k <= j < |init| ==> ms[j] == init[j];
    }
  }

  /** The worker has computed one reply for each reply-needing message it handled. */
  lemma {:induction false} RepliesCount(hs: seq<Exchange>, ms: seq<Message>)
    requires |hs| <= |ms| && forall k :: 0 <= k < |hs| ==> hs[k].req == ms[k]
    requires forall k :: 0 <= k < |hs| ==> (hs[k].reply.Some? <==> NeedsReply(hs[k].req))
    ensures |Replies(hs)| == Owed(ms[..|hs|])
  {
    if hs == [] {
    } else {
      var n := |hs| - 1;
      RepliesCount(hs[..n], ms);
      assert ms[..n + 1] == ms[..n] + [ms[n]];
      OwedSnoc(ms[..n], ms[n]);
    }
  }
}
