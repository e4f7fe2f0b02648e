/** The Unix-domain connection: whole reads and writes over poll, read and write,
    under a deadline (src/common/endpoint_unix.cc). The environment is a script of
    what happens to those calls and when; times are nanoseconds of the steady clock. */
module Endpoint {
  import opened Bytes

  const MS: int := 1_000_000
  const INT_MAX: int := 0x7FFF_FFFF

  /** How a turn of the loop comes out: poll expires, fails or is interrupted, or the call
      after it returns 0, EINTR or EAGAIN, another error, or the number of bytes it moved. */
  datatype Event = Expired | PollFailed | PollInterrupted | Closed | Again | IoFailed | Moved(n: nat)

  /** Something that happens `elapsed` after what happened before it. */
  datatype Answer = Answer(elapsed: nat, event: Event)

  /** The time, and what is still to happen. */
  datatype Net = Net(now: int, script: seq<Answer>)

  datatype Waited = Waited(event: Event, net: Net)

  /** One poll of at most `budgetMs`, and what follows if it is ready. */
  function WaitOf(net: Net, budgetMs: nat): (w: Waited)
  {
    if net.script == [] then Waited(Expired, Net(net.now + budgetMs * MS, []))
    else
      var a := net.script[0];
      if a.elapsed <= budgetMs * MS then Waited(a.event, Net(net.now + a.elapsed, net.script[1..]))
      else Waited(Expired, Net(net.now + budgetMs * MS, [a.(elapsed := a.elapsed - budgetMs * MS)] + net.script[1..]))
  }

  function RemainingMs(deadline: int, now: int): (ms: nat)
    ensures ms * MS <= Max(0, deadline - now)
    ensures ms == 0 <==> deadline - now < MS
  {
    if deadline <= now then 0 else Min((deadline - now) / MS, INT_MAX)
  }

  // ---- What a whole read or write does -------------------------------------

  datatype Direction = Reading | Writing

  datatype Transfer = Transfer(ok: bool, moved: nat, net: Net)

  /** The events at which the loop gives up. A read that moves nothing does, a write does not. */
  predicate GivesUp(dir: Direction, e: Event, size: nat, avail: nat)
  {
    || e == Expired || e == PollFailed || e == IoFailed
    || (dir.Reading? && (e == Closed || (e.Moved? && Gain(e, size, avail) == 0)))
  }

  /** How many of the bytes wanted and there an event moves. */
  function Gain(e: Event, size: nat, avail: nat): (n: nat)
    ensures n <= size && n <= avail
  {
    if e.Moved? then Min(e.n, Min(size, avail)) else 0
  }

  /** Moving `size` bytes of which `avail` are there to be moved. */
  function TransferOf(dir: Direction, net: Net, deadline: int, size: nat, avail: nat): (t: Transfer)
    ensures t.moved <= size && t.moved <= avail && (t.ok <==> t.moved == size)
    decreases |net.script|
  {
    var rem := RemainingMs(deadline, net.now);
    if size == 0 then Transfer(true, 0, net)
    else if rem == 0 then Transfer(false, 0, net)
    else
      var w := WaitOf(net, rem);
      if GivesUp(dir, w.event, size, avail) then Transfer(false, 0, w.net)
      else
        var n := Gain(w.event, size, avail);
        var t := TransferOf(dir, w.net, deadline, size - n, avail - n);
        Transfer(t.ok, n + t.moved, t.net)
  }

  lemma TransferWaits(dir: Direction, net: Net, deadline: int, size: nat, avail: nat, w: Waited)
    requires size > 0 && RemainingMs(deadline, net.now) > 0 && w == WaitOf(net, RemainingMs(deadline, net.now))
    ensures TransferOf(dir, net, deadline, size, avail) ==
            if GivesUp(dir, w.event, size, avail) then Transfer(false, 0, w.net)
            else
              var n := Gain(w.event, size, avail);
              var t := TransferOf(dir, w.net, deadline, size - n, avail - n);
              Transfer(t.ok, n + t.moved, t.net)
    ensures !GivesUp(dir, w.event, size, avail) ==> |w.net.script| < |net.script|
  {
    WaitUses(net, RemainingMs(deadline, net.now));
    hide RemainingMs, WaitOf, Gain;
  }

  lemma WaitUses(net: Net, budgetMs: nat)
    ensures WaitOf(net, budgetMs).event != Expired ==> |WaitOf(net, budgetMs).net.script| < |net.script|
    ensures net.now <= WaitOf(net, budgetMs).net.now <= net.now + budgetMs * MS
  {
  }

  lemma TransferNone(dir: Direction, net: Net, deadline: int, avail: nat)
    ensures TransferOf(dir, net, deadline, 0, avail) == Transfer(true, 0, net)
  {
  }

  lemma {:induction false} TransferInTime(dir: Direction, net: Net, deadline: int, size: nat, avail: nat)
    ensures net.now <= TransferOf(dir, net, deadline, size, avail).net.now <= Max(net.now, deadline)
    decreases |net.script|
  {
    if size == 0 || RemainingMs(deadline, net.now) == 0 {
    } else {
      var w := WaitOf(net, RemainingMs(deadline, net.now));
      TransferWaits(dir, net, deadline, size, avail, w);
      WaitUses(net, RemainingMs(deadline, net.now));
      hide TransferOf, WaitOf, GivesUp, Gain, RemainingMs;
      if !GivesUp(dir, w.event, size, avail) {
        var n := Gain(w.event, size, avail);
        TransferInTime(dir, w.net, deadline, size - n, avail - n);
      }
    }
  }

  /** The first `total` bytes of the stream are in the buffer, and no others are gone. */
  predicate Filled(buf: bytes, before: bytes, stream: bytes, inbound: bytes, total: nat, size: nat)
  {
    && total <= size <= |buf| && |buf| == |before| && total <= |stream|
    && buf[..total] == stream[..total] && buf[size..] == before[size..] && inbound == stream[total..]
  }

  lemma FilledNext(buf: bytes, before: bytes, stream: bytes, inbound: bytes, total: nat, size: nat, n: nat)
    requires Filled(buf, before, stream, inbound, total, size) && n <= size - total && n <= |inbound|
    ensures Filled(buf[..total] + inbound[..n] + buf[total + n..], before, stream, inbound[n..], total + n, size)
  {
    var next := buf[..total] + inbound[..n] + buf[total + n..];
    assert next[..total + n] == stream[..total] + inbound[..n] == stream[..total + n];
    assert next[size..] == buf[size..];
  }

  lemma SentNext(sent: bytes, data: bytes, total: nat, n: nat)
    requires total + n <= |data|
    ensures sent + data[..total] + data[total..total + n] == sent + data[..total + n]
  {
    assert data[..total + n] == data[..total] + data[total..total + n];
  }

  /** `all` is what comes of going on from `net` with `done` bytes moved. */
  ghost predicate Onward(all: Transfer, done: nat, dir: Direction, net: Net, deadline: int, size: nat, avail: nat)
  {
    var t := TransferOf(dir, net, deadline, size, avail);
    all == Transfer(t.ok, done + t.moved, t.net)
  }

  lemma OnwardIdle(all: Transfer, done: nat, dir: Direction, net: Net, deadline: int, size: nat, avail: nat)
    requires Onward(all, done, dir, net, deadline, size, avail)
    requires size == 0 || RemainingMs(deadline, net.now) == 0
    ensures all == Transfer(size == 0, done, net)
  {
  }

  lemma OnwardWaits(all: Transfer, done: nat, dir: Direction, net: Net, deadline: int, size: nat, avail: nat, w: Waited)
    requires Onward(all, done, dir, net, deadline, size, avail)
    requires size > 0 && RemainingMs(deadline, net.now) > 0 && w == WaitOf(net, RemainingMs(deadline, net.now))
    ensures GivesUp(dir, w.event, size, avail) ==> all == Transfer(false, done, w.net)
    ensures !GivesUp(dir, w.event, size, avail) ==>
      var n := Gain(w.event, size, avail);
      Onward(all, done + n, dir, w.net, deadline, size - n, avail - n) && |w.net.script| < |net.script|
  {
    TransferWaits(dir, net, deadline, size, avail, w);
    hide TransferOf, RemainingMs, WaitOf, GivesUp, Gain;
  }

  /** The same, event by event, as the two loops test them. */
  lemma ReadTurn(all: Transfer, done: nat, net: Net, deadline: int, size: nat, avail: nat, w: Waited)
    requires Onward(all, done, Reading, net, deadline, size, avail)
    requires size > 0 && RemainingMs(deadline, net.now) > 0 && w == WaitOf(net, RemainingMs(deadline, net.now))
    ensures w.event.Expired? || w.event.PollFailed? || w.event.Closed? || w.event.IoFailed? ==>
      all == Transfer(false, done, w.net)
    ensures w.event.PollInterrupted? || w.event.Again? ==>
      Onward(all, done, Reading, w.net, deadline, size, avail) && |w.net.script| < |net.script|
    ensures w.event.Moved? ==>
      var n := Min(w.event.n, Min(size, avail));
      if n == 0 then all == Transfer(false, done, w.net)
      else Onward(all, done + n, Reading, w.net, deadline, size - n, avail - n) && |w.net.script| < |net.script|
  {
    hide Onward, RemainingMs, WaitOf;
    OnwardWaits(all, done, Reading, net, deadline, size, avail, w);
  }

  lemma WriteTurn(all: Transfer, done: nat, net: Net, deadline: int, size: nat, w: Waited)
    requires Onward(all, done, Writing, net, deadline, size, size)
    requires size > 0 && RemainingMs(deadline, net.now) > 0 && w == WaitOf(net, RemainingMs(deadline, net.now))
    ensures w.event.Expired? || w.event.PollFailed? || w.event.IoFailed? ==> all == Transfer(false, done, w.net)
    ensures w.event.PollInterrupted? || w.event.Again? || w.event.Closed? ==>
      Onward(all, done, Writing, w.net, deadline, size, size) && |w.net.script| < |net.script|
    ensures w.event.Moved? ==>
      var n := Min(w.event.n, size);
      Onward(all, done + n, Writing, w.net, deadline, size - n, size - n) && |w.net.script| < |net.script|
  {
    hide Onward, RemainingMs, WaitOf;
    OnwardWaits(all, done, Writing, net, deadline, size, size, w);
  }

  // ---- When it succeeds ----------------------------------------------------

  /** Nothing that makes the loop give up. */
  predicate Harmless(dir: Direction, e: Event)
  {
    match e
    case PollInterrupted => true
    case Again => true
    case Closed => dir.Writing?
    case Moved(n) => n > 0 || dir.Writing?
    case _ => false
  }

  function Volume(a: Answer): (n: nat)
  {
    if a.event.Moved? then a.event.n else 0
  }

  /** The answers move `size` bytes in pieces of any sizes, with interruptions anywhere, and
      the last of them completes it. */
  predicate Carries(dir: Direction, piece: seq<Answer>, size: nat)
    decreases piece
  {
    if size == 0 then piece == []
    else piece != [] && Harmless(dir, piece[0].event) && Carries(dir, piece[1..], size - Min(size, Volume(piece[0])))
  }

  function Elapsed(piece: seq<Answer>): (d: nat)
  {
    if piece == [] then 0 else piece[0].elapsed + Elapsed(piece[1..])
  }

  /** No wait outlasts the whole milliseconds that are left when it begins. */
  predicate Timely(piece: seq<Answer>, now: int, deadline: int)
    decreases piece
  {
    piece == [] ||
    (&& deadline - now >= MS
     && piece[0].elapsed <= Min((deadline - now) / MS, INT_MAX) * MS
     && Timely(piece[1..], now + piece[0].elapsed, deadline))
  }

  /** The first of such answers is not given up at, and leaves the others to carry what is left. */
  lemma PieceTurn(dir: Direction, net: Net, deadline: int, size: nat, avail: nat, piece: seq<Answer>)
    requires 0 < size <= avail && piece != [] && net.script != [] && net.script[0] == piece[0]
    requires Carries(dir, piece, size) && Timely(piece, net.now, deadline)
    ensures var n := Min(size, Volume(piece[0]));
            var rem := RemainingMs(deadline, net.now);
            && rem > 0 && WaitOf(net, rem) == Waited(piece[0].event, Net(net.now + piece[0].elapsed, net.script[1..]))
            && !GivesUp(dir, piece[0].event, size, avail) && Gain(piece[0].event, size, avail) == n
            && Carries(dir, piece[1..], size - n) && Timely(piece[1..], net.now + piece[0].elapsed, deadline)
            && Elapsed(piece) == piece[0].elapsed + Elapsed(piece[1..])
  {
  }

  /** Such answers, in time, make the transfer succeed, and use up exactly themselves. */
  lemma {:induction false} PieceMoves(dir: Direction, net: Net, deadline: int, size: nat, avail: nat,
                                      piece: seq<Answer>, rest: seq<Answer>)
    requires net.script == piece + rest && size <= avail
    requires Carries(dir, piece, size) && Timely(piece, net.now, deadline)
    ensures TransferOf(dir, net, deadline, size, avail) == Transfer(true, size, Net(net.now + Elapsed(piece), rest))
    decreases piece
  {
    hide *;
    CarriesNone(dir, piece, size);
    if size == 0 {
      assert piece + rest == rest;
      TransferNone(dir, net, deadline, avail);
    } else {
      PieceTurn(dir, net, deadline, size, avail, piece);
      var n := Min(size, Volume(piece[0]));
      var next := Net(net.now + piece[0].elapsed, net.script[1..]);
      assert next.script == piece[1..] + rest;
      TransferWaits(dir, net, deadline, size, avail, Waited(piece[0].event, next));
      PieceMoves(dir, next, deadline, size - n, avail - n, piece[1..], rest);
    }
  }

  lemma CarriesNone(dir: Direction, piece: seq<Answer>, size: nat)
    requires Carries(dir, piece, size)
    ensures piece == [] <==> size == 0
    ensures size == 0 ==> Elapsed(piece) == 0
  {
  }

  /** A transfer that succeeds has used up one harmless answer, in time. */
  lemma TransferUses(dir: Direction, net: Net, deadline: int, size: nat, avail: nat)
    requires size > 0 && TransferOf(dir, net, deadline, size, avail).ok
    ensures net.script != [] && Harmless(dir, net.script[0].event) && deadline - net.now >= MS
    ensures net.script[0].elapsed <= Min((deadline - net.now) / MS, INT_MAX) * MS
    ensures var n := Gain(net.script[0].event, size, avail);
            && n == Min(Volume(net.script[0]), Min(size, avail))
            && TransferOf(dir, Net(net.now + net.script[0].elapsed, net.script[1..]), deadline, size - n, avail - n).ok
  {
    var rem := RemainingMs(deadline, net.now);
    if rem > 0 { TransferWaits(dir, net, deadline, size, avail, WaitOf(net, rem)); }
  }

  lemma NoPiece(dir: Direction, now: int, deadline: int)
    ensures Carries(dir, [], 0) && Timely([], now, deadline)
  {
  }

  lemma PieceGrows(dir: Direction, a: Answer, piece: seq<Answer>, size: nat, now: int, deadline: int)
    requires size > 0 && Harmless(dir, a.event) && Carries(dir, piece, size - Min(size, Volume(a)))
    requires deadline - now >= MS && a.elapsed <= Min((deadline - now) / MS, INT_MAX) * MS
    requires Timely(piece, now + a.elapsed, deadline)
    ensures Carries(dir, [a] + piece, size) && Timely([a] + piece, now, deadline)
  {
    assert ([a] + piece)[1..] == piece;
    hide Harmless, Volume;
  }

  /** Nothing else does: what a successful transfer used up carried it, in time. */
  lemma {:induction false} MovedByPiece(dir: Direction, net: Net, deadline: int, size: nat, avail: nat) returns (k: nat)
    requires TransferOf(dir, net, deadline, size, avail).ok
    ensures size <= avail && k <= |net.script|
    ensures Carries(dir, net.script[..k], size) && Timely(net.script[..k], net.now, deadline)
    decreases |net.script|
  {
    hide TransferOf, Carries, Timely, Harmless, Volume;
    k := 0;
    NoPiece(dir, net.now, deadline);
    if size > 0 {
      TransferUses(dir, net, deadline, size, avail);
      var a := net.script[0];
      var n := Min(Volume(a), Min(size, avail));
      var next := Net(net.now + a.elapsed, net.script[1..]);
      var j := MovedByPiece(dir, next, deadline, size - n, avail - n);
      k := j + 1;
      assert [a] + next.script[..j] == net.script[..k];
      PieceGrows(dir, a, next.script[..j], size, net.now, deadline);
    }
  }

  /** A read or write succeeds if and only if the bytes are there and what happens next carries
      them in pieces of any sizes, each wait ending within the whole milliseconds left. */
  lemma SucceedsExactlyWhen(dir: Direction, net: Net, deadline: int, size: nat, avail: nat)
    ensures TransferOf(dir, net, deadline, size, avail).ok <==>
            size <= avail && exists k | 0 <= k <= |net.script| ::
              Carries(dir, net.script[..k], size) && Timely(net.script[..k], net.now, deadline)
  {
    if TransferOf(dir, net, deadline, size, avail).ok {
      var k := MovedByPiece(dir, net, deadline, size, avail);
    } else if size <= avail {
      forall k | 0 <= k <= |net.script| && Carries(dir, net.script[..k], size)
        ensures !Timely(net.script[..k], net.now, deadline)
      {
        assert net.script == net.script[..k] + net.script[k..];
        if Timely(net.script[..k], net.now, deadline) {
          PieceMoves(dir, net, deadline, size, avail, net.script[..k], net.script[k..]);
        }
      }
    }
  }

  /** What is over a millisecond before the deadline is in time. */
  lemma {:induction false} EarlyIsTimely(piece: seq<Answer>, now: int, deadline: int)
    requires now + Elapsed(piece) + MS <= deadline && Elapsed(piece) <= INT_MAX * MS
    ensures Timely(piece, now, deadline)
    decreases piece
  {
    if piece == [] {
    } else {
      assert deadline - now - MS < (deadline - now) / MS * MS;
      EarlyIsTimely(piece[1..], now + piece[0].elapsed, deadline);
    }
  }

  function SumOf(ns: seq<nat>): (n: nat)
  {
    if ns == [] then 0 else ns[0] + SumOf(ns[1..])
  }

  function InChunks(chunks: seq<nat>, waits: seq<nat>): (piece: seq<Answer>)
    requires |chunks| == |waits|
    ensures |piece| == |chunks|
  {
    seq(|chunks|, i requires 0 <= i < |chunks| => Answer(waits[i], Moved(chunks[i])))
  }

  /** The plain case: the bytes come in chunks of any positive sizes. */
  lemma {:induction false} ChunksCarry(dir: Direction, chunks: seq<nat>, waits: seq<nat>)
    requires |chunks| == |waits| && forall i :: 0 <= i < |chunks| ==> chunks[i] > 0
    ensures Carries(dir, InChunks(chunks, waits), SumOf(chunks)) && Elapsed(InChunks(chunks, waits)) == SumOf(waits)
    decreases chunks
  {
    if chunks == [] {
    } else {
      ChunksCarry(dir, chunks[1..], waits[1..]);
      assert InChunks(chunks, waits)[1..] == InChunks(chunks[1..], waits[1..]);
      assert SumOf(chunks) - Min(SumOf(chunks), chunks[0]) == SumOf(chunks[1..]);
    }
  }

  // ---- The objects ---------------------------------------------------------

  /** The clock, and what is still to happen. */
  class World {
    var now: int
    var script: seq<Answer>

    ghost function View(): (net: Net)
      reads this
    {
      Net(now, script)
    }

    constructor (now: int, script: seq<Answer>)
      ensures this.now == now && this.script == script
    {
      this.now, this.script := now, script;
    }

    method Wait(budgetMs: nat) returns (event: Event)
      modifies this
      ensures Waited(event, View()) == WaitOf(old(View()), budgetMs)
    {
      if script == [] || script[0].elapsed > budgetMs * MS {
        now := now + budgetMs * MS;
        if script != [] {
          script := [script[0].(elapsed := script[0].elapsed - budgetMs * MS)] + script[1..];
        }
        return Expired;
      }
      event := script[0].event;
      now := now + script[0].elapsed;
      script := script[1..];
    }
  }

  class UnixConnection {
    const world: World
    var open: bool
    /** Bytes the peer sends on this connection that have not been taken yet. */
    var inbound: bytes
    /** Bytes the socket has accepted from us. */
    var outbound: bytes

    constructor (world: World, stream: bytes)
      ensures this.world == world && open && inbound == stream && outbound == []
    {
      this.world, open, inbound, outbound := world, true, stream, [];
    }

    /** read(2): the next `n` bytes of the stream. */
    method Read(buf: array<byte>, at: nat, n: nat)
      requires at + n <= buf.Length && n <= |inbound|
      modifies buf, this`inbound
      ensures buf[..] == old(buf[..at]) + old(inbound)[..n] + old(buf[at + n..]) && inbound == old(inbound)[n..]
    {
      forall i | 0 <= i < n { buf[at + i] := inbound[i]; }
      inbound := inbound[n..];
    }

    /** The loop of ReadFull. */
    method ReadLoop(buf: array<byte>, size: nat, deadline: int) returns (total: nat)
      requires size <= buf.Length
      modifies buf, this`inbound, world
      ensures Filled(buf[..], old(buf[..]), old(inbound), inbound, total, size)
      ensures TransferOf(Reading, old(world.View()), deadline, size, |old(inbound)|) ==
              Transfer(total == size, total, world.View())
    {
      total := 0;
      ghost var net, stream, before := world.View(), inbound, buf[..];
      ghost var all := TransferOf(Reading, net, deadline, size, |inbound|);
      assert Onward(all, total, Reading, net, deadline, size - total, |inbound|);
      assert Filled(buf[..], before, stream, inbound, total, size);
      hide TransferOf, WaitOf, RemainingMs, GivesUp, Gain, Onward, Filled;
      while total < size
        invariant total <= size && Filled(buf[..], before, stream, inbound, total, size)
        invariant net == world.View() && Onward(all, total, Reading, net, deadline, size - total, |inbound|)
        decreases |net.script|
      {
        var rem := RemainingMs(deadline, world.now);
        if rem == 0 {
          OnwardIdle(all, total, Reading, net, deadline, size - total, |inbound|);
          return;
        }
        var event := world.Wait(rem);
        ReadTurn(all, total, net, deadline, size - total, |inbound|, Waited(event, world.View()));
        net := world.View();
        if event == Expired || event == PollFailed || event == Closed || event == IoFailed { return; }
        if event.Moved? {
          var n := Min(event.n, Min(size - total, |inbound|));
          if n == 0 { return; }
          FilledNext(buf[..], before, stream, inbound, total, size, n);
          Read(buf, total, n);
          total := total + n;
        }
      }
      OnwardIdle(all, total, Reading, net, deadline, 0, |inbound|);
    }

    /** True: the buffer holds exactly the next `size` bytes of the stream and nothing more
        was taken. False: fewer than `size` were. Either way by the deadline, and true exactly
        when the transfer succeeds. */
    method ReadFull(buf: array<byte>, size: nat, timeoutMs: nat) returns (ok: bool)
      requires size <= buf.Length
      modifies buf, this`inbound, world
      ensures open == old(open) && (ok ==> open)
      ensures old(world.now) <= world.now <= old(world.now) + timeoutMs * MS
      ensures open ==>
        var t := TransferOf(Reading, old(world.View()), old(world.now) + timeoutMs * MS, size, |old(inbound)|);
        ok == t.ok && world.View() == t.net && inbound == old(inbound)[t.moved..]
      ensures ok ==> size <= |old(inbound)| && buf[..size] == old(inbound)[..size] && inbound == old(inbound)[size..]
      ensures !ok && open ==> |old(inbound)| - size < |inbound| <= |old(inbound)|
                              && inbound == old(inbound)[|old(inbound)| - |inbound|..]
      ensures !open ==> inbound == old(inbound) && world.View() == old(world.View())
      ensures buf[size..] == old(buf[size..])
    {
      if !open { return false; }
      var deadline := world.now + timeoutMs * MS;
      TransferInTime(Reading, world.View(), deadline, size, |inbound|);
      hide TransferOf;
      var total := ReadLoop(buf, size, deadline);
      assert buf[..total] == buf[..][..total] && buf[size..] == buf[..][size..]
             && old(buf[size..]) == old(buf[..])[size..];
      return total == size;
    }

    /** The loop of WriteAll. */
    method WriteLoop(buf: array<byte>, size: nat, deadline: int) returns (total: nat)
      requires size <= buf.Length
      modifies this`outbound, world
      ensures total <= size && outbound == old(outbound) + buf[..total]
      ensures TransferOf(Writing, old(world.View()), deadline, size, size) ==
              Transfer(total == size, total, world.View())
    {
      total := 0;
      ghost var net, sent, data := world.View(), outbound, buf[..];
      ghost var all := TransferOf(Writing, net, deadline, size, size);
      assert Onward(all, total, Writing, net, deadline, size - total, size - total);
      assert sent + data[..0] == sent;
      hide TransferOf, WaitOf, RemainingMs, GivesUp, Gain, Onward;
      while total < size
        invariant total <= size && buf[..] == data && outbound == sent + data[..total]
        invariant net == world.View() && Onward(all, total, Writing, net, deadline, size - total, size - total)
        decreases |net.script|
      {
        var rem := RemainingMs(deadline, world.now);
        if rem == 0 {
          OnwardIdle(all, total, Writing, net, deadline, size - total, size - total);
          return;
        }
        var event := world.Wait(rem);
        WriteTurn(all, total, net, deadline, size - total, Waited(event, world.View()));
        net := world.View();
        if event == Expired || event == PollFailed || event == IoFailed { return; }
        if event.Moved? {
          var n := Min(event.n, size - total);
          assert buf[total..total + n] == data[total..total + n];
          SentNext(sent, data, total, n);
          outbound := outbound + buf[total..total + n];
          total := total + n;
        }
      }
      OnwardIdle(all, total, Writing, net, deadline, 0, 0);
    }

    /** True: exactly the first `size` bytes were accepted. False: a strict prefix of them.
        True exactly when the transfer succeeds. */
    method WriteAll(buf: array<byte>, size: nat, timeoutMs: nat) returns (ok: bool)
      requires size <= buf.Length
      modifies this`outbound, world
      ensures open == old(open) && (ok ==> open)
      ensures old(world.now) <= world.now <= old(world.now) + timeoutMs * MS
      ensures open ==>
        var t := TransferOf(Writing, old(world.View()), old(world.now) + timeoutMs * MS, size, size);
        ok == t.ok && world.View() == t.net && outbound == old(outbound) + buf[..t.moved]
      ensures ok ==> outbound == old(outbound) + buf[..size]
      ensures !ok && open ==> old(outbound) <= outbound < old(outbound) + buf[..size]
      ensures !open ==> outbound == old(outbound) && world.View() == old(world.View())
    {
      if !open { return false; }
      var deadline := world.now + timeoutMs * MS;
      TransferInTime(Writing, world.View(), deadline, size, size);
      hide TransferOf;
      var total := WriteLoop(buf, size, deadline);
      return total == size;
    }

    method Close()
      modifies this`open
      ensures !open
    {
      open := false;
    }
  }
}
