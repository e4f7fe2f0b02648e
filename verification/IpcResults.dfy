/** What every run of the protocol guarantees, with the real body codec. */
module IpcResults {
  import opened Bytes
  import opened Framing
  import opened Protocol
  import opened Ipc
  import opened IpcSafety

  /** EncodeBody and DecodeBody as the steps use them. */
  function Dafeng(): (cd: Codec)
  {
    Codec((m: Message) => Sendable(m), (m: Message) => WireBody(m), (s: bytes) => Decode(s))
  }

  lemma DafengFaithful()
    ensures Faithful(Dafeng())
  {
    forall m | Dafeng().packs(m)
      ensures Dafeng().encode(m) != []
      ensures |Dafeng().encode(m)| <= MAX_FRAME_BODY ==> Dafeng().decode(Dafeng().encode(m)) == Some(m)
    {
      DecodeBody(m);
    }
  }

  lemma Reached(acts: seq<Action>)
    ensures Inv(Dafeng(), Execute(Dafeng(), acts))
  {
    DafengFaithful();
    RunsKeepInv(Dafeng(), acts);
  }

  /** A reply that Rerank, Ping or GetStats returns is the one the server computed for that
      very message of that connection, and that call ended only once. */
  lemma ReplyBelongsToCall(acts: seq<Action>, d: nat)
    requires var s := Execute(Dafeng(), acts); d < |s.done| && s.done[d].Answered?
    ensures var s := Execute(Dafeng(), acts);
            var o := s.done[d];
            && o.conn < |s.conns| && o.index < |s.conns[o.conn].handled| && o.index < |s.conns[o.conn].sent|
            && s.conns[o.conn].sent[o.index] == o.call
            && s.conns[o.conn].handled[o.index] == Exchange(o.call, Some(o.reply))
            && Answers(o.call, o.reply)
            && forall e :: 0 <= e < |s.done| && e != d ==> (s.done[e].conn, s.done[e].index) != (o.conn, o.index)
  {
    var s := Execute(Dafeng(), acts);
    Reached(acts);
    hide Execute, UpOk, DownOk, LiveOk;
    assert OutcomeOk(Dafeng(), s.conns[s.done[d].conn], s.done[d]);
    assert ConnOk(Dafeng(), s.conns[s.done[d].conn]);
  }

  lemma FramesFrom(bodies: seq<bytes>, k: nat)
    requires k <= |bodies|
    ensures Offset(bodies, k) <= |Frames(bodies)|
    ensures Frames(bodies)[Offset(bodies, k)..] == Frames(bodies[k..])
  {
    assert bodies == bodies[..k] + bodies[k..];
    FramesConcat(bodies[..k], bodies[k..]);
  }

  /** The mutex free and the connection live: the server has computed every reply owed, the
      client has read them all, and what the server has yet to handle is whole commit frames. */
  lemma IdleOwesNothing(acts: seq<Action>, i: nat)
    requires var s := Execute(Dafeng(), acts); s.phase.Idle? && Current(s) == Some(i)
    ensures var c := Execute(Dafeng(), acts).conns[i];
            var h := |c.handled|;
            && c.downRead == |c.down| && c.down == Frames(Down(Dafeng(), c))
            && |Replies(c.handled)| == Owed(c.sent)
            && h <= |c.sent| && Offset(Up(Dafeng(), c), h) <= |c.up|
            && c.up[Offset(Up(Dafeng(), c), h)..] == Frames(BodiesOf(Dafeng().encode, c.sent[h..]))
            && forall j :: h <= j < |c.sent| ==> c.sent[j].CommitEvent?
  {
    var s := Execute(Dafeng(), acts);
    var c := s.conns[i];
    Reached(acts);
    SentByClient(acts, i);
    IdleConn(Dafeng(), c);
  }

  /** Only the four client kinds are ever sent. */
  lemma {:induction false} SentByClient(acts: seq<Action>, i: nat)
    requires i < |Execute(Dafeng(), acts).conns|
    ensures forall k :: 0 <= k < |Execute(Dafeng(), acts).conns[i].sent| ==>
              FromClient(Execute(Dafeng(), acts).conns[i].sent[k])
    decreases |acts|
  {
    if acts == [] {
    } else {
      var before := Execute(Dafeng(), acts[..|acts| - 1]);
      var after := Execute(Dafeng(), acts);
      SentStep(Dafeng(), before, acts[|acts| - 1], i);
      if i < |before.conns| {
        SentByClient(acts[..|acts| - 1], i);
      }
    }
  }

  lemma SentStep(cd: Codec, s: State, a: Action, i: nat)
    requires i < |Apply(cd, s, a).conns|
    ensures var was := if i < |s.conns| then s.conns[i].sent else [];
            var now := Apply(cd, s, a).conns[i].sent;
            now == was || (exists m :: FromClient(m) && now == was + [m])
  {
    hide Feed, Want, ReaderOk, OnWire;
  }

  lemma IdleConn(cd: Codec, c: Conn)
    requires ConnOk(cd, c) && ClientOk(cd, c, Idle)
    requires forall k :: 0 <= k < |c.sent| ==> FromClient(c.sent[k])
    ensures c.downRead == |c.down| && c.down == Frames(Down(cd, c))
    ensures |Replies(c.handled)| == Owed(c.sent)
    ensures Offset(Up(cd, c), |c.handled|) <= |c.up|
    ensures c.up[Offset(Up(cd, c), |c.handled|)..] == Frames(BodiesOf(cd.encode, c.sent[|c.handled|..]))
    ensures forall j :: |c.handled| <= j < |c.sent| ==> c.sent[j].CommitEvent?
  {
    var h := |c.handled|;
    RepliesCount(c.handled, c.sent);
    assert |Down(cd, c)| == Owed(c.sent[..h]) <= |c.sent|;
    hide HandledOk, Replies;
    OwedPrefix(c.sent, h);
    OffsetAll(Down(cd, c));
    hide Owed, Frames;
    FramesFrom(Up(cd, c), h);
    assert Up(cd, c)[h..] == BodiesOf(cd.encode, c.sent[h..]);
  }

  // ---- The commit log ------------------------------------------------------

  /** What the worker of a connection has passed to the commit logger. */
  function Logged(c: Conn): (cs: seq<Message>)
  {
    Commits(seq(|c.handled|, i requires 0 <= i < |c.handled| => c.handled[i].req))
  }

  lemma {:induction false} CommitsPrefix(ms: seq<Message>, k: nat)
    requires k <= |ms|
    ensures Commits(ms[..k]) <= Commits(ms)
    decreases |ms|
  {
    if k == |ms| {
      assert ms[..k] == ms;
    } else {
      CommitsPrefix(ms[..|ms| - 1], k);
      assert ms[..|ms| - 1][..k] == ms[..k];
    }
  }

  /** The log of a connection is at all times a prefix, in order, of the commits sent on it. */
  lemma LogIsPrefix(acts: seq<Action>, i: nat)
    requires i < |Execute(Dafeng(), acts).conns|
    ensures var c := Execute(Dafeng(), acts).conns[i];
            && |c.handled| <= |c.sent| && Logged(c) == Commits(c.sent[..|c.handled|]) && Logged(c) <= Commits(c.sent)
  {
    var c := Execute(Dafeng(), acts).conns[i];
    Reached(acts);
    hide Execute, UpOk, DownOk;
    assert ConnOk(Dafeng(), c);
    assert c.sent[..|c.handled|] == seq(|c.handled|, i requires 0 <= i < |c.handled| => c.handled[i].req);
    CommitsPrefix(c.sent, |c.handled|);
  }

  /** A commit whose write failed is never handled, however the run goes on: its outcome
      stays recorded, and this holds in every run that records it. */
  lemma FailedCommitNotLogged(acts: seq<Action>, d: nat)
    requires var s := Execute(Dafeng(), acts);
             d < |s.done| && s.done[d].Failed? && s.done[d].call.CommitEvent?
    ensures var s := Execute(Dafeng(), acts);
            s.done[d].conn < |s.conns| && |s.conns[s.done[d].conn].handled| <= s.done[d].index
  {
    var s := Execute(Dafeng(), acts);
    Reached(acts);
    hide Execute, HandledOk, DownOk, LiveOk, Tracks;
    var c, k := s.conns[s.done[d].conn], s.done[d].index;
    assert OutcomeOk(Dafeng(), c, s.done[d]) && ConnOk(Dafeng(), c);
    if k < |c.handled| {
      OffsetMonotone(Up(Dafeng(), c), k + 1, |c.handled|);
    }
  }

  lemma {:induction false} OutcomesStay(cd: Codec, acts: seq<Action>, more: seq<Action>)
    ensures Execute(cd, acts).done <= Execute(cd, acts + more).done
    decreases |more|
  {
    if more == [] {
      assert acts + more == acts;
    } else {
      var n := |more| - 1;
      OutcomesStay(cd, acts, more[..n]);
      assert (acts + more)[..|acts + more| - 1] == acts + more[..n];
      OutcomeStep(cd, Execute(cd, acts + more[..n]), more[n]);
    }
  }

  lemma OutcomeStep(cd: Codec, s: State, a: Action)
    ensures s.done <= Apply(cd, s, a).done
  {
    hide Feed, Want, ReaderOk, OnWire, EncodeFrame;
  }

  /** Once a later call on the connection was answered, every earlier commit on it has been
      logged: the log starts with exactly the commits sent before that call. */
  lemma AnsweredMeansLogged(acts: seq<Action>, d: nat)
    requires var s := Execute(Dafeng(), acts); d < |s.done| && s.done[d].Answered?
    ensures var s := Execute(Dafeng(), acts);
            var o := s.done[d];
            && o.conn < |s.conns| && o.index < |s.conns[o.conn].sent|
            && Commits(s.conns[o.conn].sent[..o.index]) <= Logged(s.conns[o.conn])
  {
    var s := Execute(Dafeng(), acts);
    var o := s.done[d];
    ReplyBelongsToCall(acts, d);
    LogIsPrefix(acts, o.conn);
    var c := s.conns[o.conn];
    assert c.sent[..|c.handled|][..o.index] == c.sent[..o.index];
    CommitsPrefix(c.sent[..|c.handled|], o.index);
  }

  lemma WholeReplyAccepted(cd: Codec, s: State, i: nat, n: nat, body: bytes)
    requires Faithful(cd) && i < |s.conns| && ConnOk(cd, s.conns[i]) && s.phase.Awaiting?
    requires ClientOk(cd, s.conns[i], s.phase) && Current(s) == Some(i)
    requires var c := s.conns[i];
             && 0 < n <= Want(s.phase.r) && c.downRead + n <= |c.down|
             && Feed(s.phase.r, c.down[c.downRead..c.downRead + n]) == Whole(body)
    ensures var s' := ClientReadStep(cd, s, n);
            && s'.phase.Idle? && |s'.done| == |s.done| + 1 && s'.done[|s.done|].Answered?
            && s'.done[|s.done|].call == s.phase.waiter
  {
    hide HandledOk, UpOk, DownOk, Want, Feed;
    ClientReadKeeps(cd, s.conns[i], s.phase.waiter, s.phase.r, n);
  }

  /** A read that completes the reply frame. */
  ghost predicate CompletesReply(s: State, n: nat)
  {
    && s.phase.Awaiting? && Current(s).Some? && ReaderOk(s.phase.r)
    && var c := s.conns[Current(s).value];
       0 < n <= Want(s.phase.r) && c.downRead + n <= |c.down|
       && Feed(s.phase.r, c.down[c.downRead..c.downRead + n]).Whole?
  }

  lemma CompleteReplyAccepted(cd: Codec, s: State, n: nat)
    requires Faithful(cd) && Inv(cd, s) && CompletesReply(s, n)
    ensures var s' := ClientReadStep(cd, s, n);
            && s'.phase.Idle? && |s'.done| == |s.done| + 1 && s'.done[|s.done|].Answered?
            && s'.done[|s.done|].call == s.phase.waiter
  {
    hide ConnOk, ClientOk, Feed, Want, ReaderOk, OutcomesOk, EndsOnce, ClientReadStep, Faithful;
    var i := Current(s).value;
    var c := s.conns[i];
    WholeReplyAccepted(cd, s, i, n, Feed(s.phase.r, c.down[c.downRead..c.downRead + n]).body);
  }

  /** The client's checks on kind and id never reject a whole reply frame of this server. */
  lemma ChecksNeverFire(acts: seq<Action>, n: nat)
    requires CompletesReply(Execute(Dafeng(), acts), n)
    ensures var s := Execute(Dafeng(), acts);
            var s' := Execute(Dafeng(), acts + [ClientRead(n)]);
            && s'.phase.Idle? && |s'.done| == |s.done| + 1 && s'.done[|s.done|].Answered?
            && s'.done[|s.done|].call == s.phase.waiter
  {
    Reached(acts);
    DafengFaithful();
    ExecuteRead(Dafeng(), acts, n);
    hide Dafeng, Execute, Inv, Faithful, CompletesReply, ClientReadStep;
    CompleteReplyAccepted(Dafeng(), Execute(Dafeng(), acts), n);
  }

  lemma ExecuteRead(cd: Codec, acts: seq<Action>, n: nat)
    ensures Execute(cd, acts + [ClientRead(n)]) == ClientReadStep(cd, Execute(cd, acts), n)
  {
    assert (acts + [ClientRead(n)])[..|acts|] == acts;
  }
}
