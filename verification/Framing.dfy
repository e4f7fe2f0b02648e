/** The 4-byte big-endian length prefix, the header/body reader both ends run,
    and what that reader makes of a byte stream cut into arbitrary pieces. */
module Framing {
  import opened Bytes

  const HEADER_BYTES: int := 4
  const MAX_FRAME_BODY: int := 0x10_0000

  /** The length is cut to 32 bits before it is written. */
  function EncodeFrame(body: bytes): (frame: bytes)
    ensures |frame| == HEADER_BYTES + |body|
  {
    BE32(|body| % U32_SIZE) + body
  }

  function ReadFrameLength(header: bytes): (len: Option<u32>)
    ensures len.Some? ==> 0 < len.value <= MAX_FRAME_BODY
  {
    if |header| < HEADER_BYTES then None else
    var n := FromBE32(header[..HEADER_BYTES]);
    if n == 0 || n > MAX_FRAME_BODY then None else Some(n)
  }

  /** The bytes a sender puts on the stream for a list of bodies. */
  function Frames(bodies: seq<bytes>): (s: bytes)
  {
    if bodies == [] then [] else EncodeFrame(bodies[0]) + Frames(bodies[1..])
  }

  /** Where frame `k` starts. */
  function Offset(bodies: seq<bytes>, k: nat): (at: nat)
    requires k <= |bodies|
  {
    |Frames(bodies[..k])|
  }

  /** Bodies the framing can tell apart: not empty, and below the 32-bit cut. */
  ghost predicate Frameable(bodies: seq<bytes>)
  {
    forall k :: 0 <= k < |bodies| ==> 0 < |bodies[k]| < U32_SIZE
  }

  // ---- The reader ----------------------------------------------------------

  /** Waiting for the rest of a header, or for the rest of a body. */
  datatype Reader = Head(got: bytes) | Load(len: nat, part: bytes)

  predicate ReaderOk(r: Reader)
  {
    match r
    case Head(got) => |got| < HEADER_BYTES
    case Load(len, part) => |part| < len
  }

  function Want(r: Reader): (n: nat)
    requires ReaderOk(r)
    ensures n > 0
  {
    match r
    case Head(got) => HEADER_BYTES - |got|
    case Load(len, part) => len - |part|
  }

  datatype Fed = More(r: Reader) | Whole(body: bytes) | Bad

  /** One read: never more than is wanted. */
  function Feed(r: Reader, chunk: bytes): (f: Fed)
    requires ReaderOk(r) && 0 < |chunk| <= Want(r)
    ensures f.More? ==> ReaderOk(f.r)
  {
    match r
    case Head(got) =>
      var h := got + chunk;
      if |h| < HEADER_BYTES then More(Head(h)) else
      (match ReadFrameLength(h) case None => Bad case Some(n) => More(Load(n, [])))
    case Load(len, part) =>
      var b := part + chunk;
      if |b| < len then More(Load(len, b)) else Whole(b)
  }

  // ---- Where the frames of a stream are ------------------------------------

  lemma {:induction false} FramesConcat(a: seq<bytes>, b: seq<bytes>)
    ensures Frames(a + b) == Frames(a) + Frames(b)
  {
    if a == [] {
      assert a + b == b;
    } else {
      assert (a + b)[0] == a[0] && (a + b)[1..] == a[1..] + b;
      FramesConcat(a[1..], b);
      Joined(EncodeFrame(a[0]), Frames(a[1..]), Frames(b));
    }
  }

  lemma FramesSnoc(bodies: seq<bytes>, body: bytes)
    ensures Frames(bodies + [body]) == Frames(bodies) + EncodeFrame(body)
  {
    FramesConcat(bodies, [body]);
    assert Frames([body]) == EncodeFrame(body) + Frames([]);
  }

  lemma OffsetNext(bodies: seq<bytes>, k: nat)
    requires k < |bodies|
    ensures Offset(bodies, k + 1) == Offset(bodies, k) + HEADER_BYTES + |bodies[k]|
  {
    assert bodies[..k + 1] == bodies[..k] + [bodies[k]];
    FramesSnoc(bodies[..k], bodies[k]);
  }

  lemma Slices(a: bytes, h: bytes, b: bytes, c: bytes)
    ensures var s := a + (h + b + c);
            s[|a|..|a| + |h|] == h && s[|a| + |h|..|a| + |h| + |b|] == b
  {
  }

  /** Frame `k` lies between its offset and the next: header, then body. */
  lemma FrameAt(bodies: seq<bytes>, k: nat)
    requires k < |bodies|
    ensures var at, len := Offset(bodies, k), |bodies[k]|;
            && Offset(bodies, k + 1) == at + HEADER_BYTES + len <= |Frames(bodies)|
            && Frames(bodies)[at..at + HEADER_BYTES] == BE32(len % U32_SIZE)
            && Frames(bodies)[at + HEADER_BYTES..at + HEADER_BYTES + len] == bodies[k]
  {
    OffsetNext(bodies, k);
    assert bodies == bodies[..k] + bodies[k..] && bodies[k..][1..] == bodies[k + 1..];
    FramesConcat(bodies[..k], bodies[k..]);
    Slices(Frames(bodies[..k]), BE32(|bodies[k]| % U32_SIZE), bodies[k], Frames(bodies[k + 1..]));
  }

  lemma OffsetAll(bodies: seq<bytes>)
    ensures Offset(bodies, |bodies|) == |Frames(bodies)|
  {
    assert bodies[..|bodies|] == bodies;
  }

  lemma {:induction false} OffsetMonotone(bodies: seq<bytes>, j: nat, k: nat)
    requires j <= k <= |bodies|
    ensures Offset(bodies, j) + HEADER_BYTES * (k - j) <= Offset(bodies, k)
    decreases k - j
  {
    if j >= k {
    } else {
      OffsetMonotone(bodies, j, k - 1);
      OffsetNext(bodies, k - 1);
    }
  }

  lemma HeaderSays(h: bytes, len: nat)
    requires 0 < len < U32_SIZE && h == BE32(len)
    ensures ReadFrameLength(h) == if len <= MAX_FRAME_BODY then Some(len) else None
  {
    BE32RoundTrip(len);
    assert h[..HEADER_BYTES] == h;
  }

  // ---- A reader in step with a stream --------------------------------------

  /** `stream` holds the frames of `bodies`, the last ones perhaps not all written;
      the reader has taken `read` bytes of it: `k` whole frames and a part of the next. */
  ghost predicate Tracks(stream: bytes, bodies: seq<bytes>, k: nat, read: nat, r: Reader)
  {
    && Frameable(bodies)
    && stream <= Frames(bodies)
    && k <= |bodies| && read <= |stream|
    && ReaderOk(r)
    && match r
       case Head(got) => read == Offset(bodies, k) + |got| && got == stream[Offset(bodies, k)..read]
       case Load(len, part) =>
         && k < |bodies| && len == |bodies[k]| <= MAX_FRAME_BODY
         && read == Offset(bodies, k) + HEADER_BYTES + |part|
         && part == stream[Offset(bodies, k) + HEADER_BYTES..read]
  }

  lemma SliceExtend(s: bytes, i: nat, j: nat, k: nat)
    requires i <= j <= k <= |s|
    ensures s[i..j] + s[j..k] == s[i..k]
  {
  }

  lemma PrefixSlice(s: bytes, t: bytes, i: nat, j: nat)
    requires s <= t && i <= j <= |s|
    ensures s[i..j] == t[i..j]
  {
  }

  /** A reader with all frames consumed can read no further. */
  lemma NothingBeyond(stream: bytes, bodies: seq<bytes>, k: nat, read: nat, r: Reader)
    requires Tracks(stream, bodies, k, read, r) && read < |stream|
    ensures k < |bodies|
  {
    OffsetAll(bodies);
  }

  lemma HeaderBytes(stream: bytes, bodies: seq<bytes>, k: nat)
    requires Frameable(bodies) && stream <= Frames(bodies) && k < |bodies|
    requires Offset(bodies, k) + HEADER_BYTES <= |stream|
    ensures stream[Offset(bodies, k)..Offset(bodies, k) + HEADER_BYTES] == BE32(|bodies[k]|)
  {
    FrameAt(bodies, k);
    PrefixSlice(stream, Frames(bodies), Offset(bodies, k), Offset(bodies, k) + HEADER_BYTES);
    assert |bodies[k]| % U32_SIZE == |bodies[k]|;
  }

  lemma HeaderRead(stream: bytes, bodies: seq<bytes>, k: nat)
    requires Frameable(bodies) && stream <= Frames(bodies) && k < |bodies|
    requires Offset(bodies, k) + HEADER_BYTES <= |stream|
    ensures ReadFrameLength(stream[Offset(bodies, k)..Offset(bodies, k) + HEADER_BYTES])
              == if |bodies[k]| <= MAX_FRAME_BODY then Some(|bodies[k]|) else None
  {
    HeaderBytes(stream, bodies, k);
    HeaderSays(stream[Offset(bodies, k)..Offset(bodies, k) + HEADER_BYTES], |bodies[k]|);
  }

  lemma FeedHead(stream: bytes, bodies: seq<bytes>, k: nat, read: nat, r: Reader, n: nat)
    requires Tracks(stream, bodies, k, read, r) && r.Head?
    requires 0 < n <= Want(r) && read + n <= |stream|
    ensures match Feed(r, stream[read..read + n])
            case More(r') => Tracks(stream, bodies, k, read + n, r')
            case Whole(_) => false
            case Bad => k < |bodies| && |bodies[k]| > MAX_FRAME_BODY
  {
    NothingBeyond(stream, bodies, k, read, r);
    var at := Offset(bodies, k);
    SliceExtend(stream, at, read, read + n);
    if read + n == at + HEADER_BYTES {
      HeaderRead(stream, bodies, k);
    }
  }

  lemma FeedLoad(stream: bytes, bodies: seq<bytes>, k: nat, read: nat, r: Reader, n: nat)
    requires Tracks(stream, bodies, k, read, r) && r.Load?
    requires 0 < n <= Want(r) && read + n <= |stream|
    ensures match Feed(r, stream[read..read + n])
            case More(r') => Tracks(stream, bodies, k, read + n, r')
            case Whole(b) => b == bodies[k] && Tracks(stream, bodies, k + 1, read + n, Head([]))
            case Bad => false
  {
    FrameAt(bodies, k);
    var from := Offset(bodies, k) + HEADER_BYTES;
    SliceExtend(stream, from, read, read + n);
    PrefixSlice(stream, Frames(bodies), from, read + n);
  }

  /** One read keeps the reader in step; a body it completes is the next body sent,
      and it gives up only at a body above the cap. */
  lemma FeedTracks(stream: bytes, bodies: seq<bytes>, k: nat, read: nat, r: Reader, n: nat)
    requires Tracks(stream, bodies, k, read, r)
    requires 0 < n <= Want(r) && read + n <= |stream|
    ensures k < |bodies|
    ensures match Feed(r, stream[read..read + n])
            case More(r') => Tracks(stream, bodies, k, read + n, r')
            case Whole(b) => b == bodies[k] && |b| <= MAX_FRAME_BODY
                       && Tracks(stream, bodies, k + 1, read + n, Head([]))
            case Bad => |bodies[k]| > MAX_FRAME_BODY
  {
    NothingBeyond(stream, bodies, k, read, r);
    if r.Head? {
      FeedHead(stream, bodies, k, read, r, n);
    } else {
      FeedLoad(stream, bodies, k, read, r, n);
    }
  }

  /** Appending to the stream, and starting another body, does not disturb the reader. */
  lemma TracksGrow(stream: bytes, bodies: seq<bytes>, k: nat, read: nat, r: Reader,
                   stream': bytes, bodies': seq<bytes>)
    requires Tracks(stream, bodies, k, read, r)
    requires stream <= stream' && bodies <= bodies' && Frameable(bodies') && stream' <= Frames(bodies')
    ensures Tracks(stream', bodies', k, read, r)
  {
    assert bodies'[..k] == bodies[..k];
  }

  // ---- Any list of bodies, any chunking, any cut ---------------------------

  /** The receive loop: bodies so far, and the reader, or None once it closed the connection. */
  datatype Run = Run(out: seq<bytes>, state: Option<Reader>)

  predicate RunOk(run: Run)
  {
    run.state.Some? ==> ReaderOk(run.state.value)
  }

  function Advance(run: Run, chunk: bytes): (run': Run)
    requires RunOk(run) && run.state.Some? && 0 < |chunk| <= Want(run.state.value)
    ensures RunOk(run')
  {
    match Feed(run.state.value, chunk)
    case More(r) => Run(run.out, Some(r))
    case Whole(b) => Run(run.out + [b], Some(Head([])))
    case Bad => Run(run.out, None)
  }

  function Receive(run: Run, s: bytes): (run': Run)
    requires RunOk(run)
    ensures RunOk(run')
    decreases |s|
  {
    if s == [] || run.state.None? then run else
    var n := Min(Want(run.state.value), |s|);
    Receive(Advance(run, s[..n]), s[n..])
  }

  function ReceiveAll(run: Run, chunks: seq<bytes>): (run': Run)
    requires RunOk(run)
    ensures RunOk(run')
    decreases chunks
  {
    if chunks == [] then run else ReceiveAll(Receive(run, chunks[0]), chunks[1..])
  }

  ghost predicate RunTracks(run: Run, stream: bytes, bodies: seq<bytes>, read: nat)
  {
    && |run.out| <= |bodies| && run.out == bodies[..|run.out|]
    && match run.state
       case Some(r) => Tracks(stream, bodies, |run.out|, read, r)
       case None => |run.out| < |bodies| && |bodies[|run.out|]| > MAX_FRAME_BODY
  }

  lemma CutSlice(s: bytes, read: nat, m: nat, n: nat, piece: bytes)
    requires m <= n && read + n <= |s| && piece == s[read..read + n]
    ensures piece[..m] == s[read..read + m]
    ensures piece[m..] == s[read + m..read + n]
  {
  }

  lemma AdvanceTracks(run: Run, stream: bytes, bodies: seq<bytes>, read: nat, n: nat)
    requires RunOk(run) && run.state.Some? && RunTracks(run, stream, bodies, read)
    requires 0 < n <= Want(run.state.value) && read + n <= |stream|
    ensures RunTracks(Advance(run, stream[read..read + n]), stream, bodies, read + n)
  {
    FeedTracks(stream, bodies, |run.out|, read, run.state.value, n);
    assert bodies[..|run.out| + 1] == bodies[..|run.out|] + [bodies[|run.out|]];
  }

  lemma {:induction false} ReceiveTracks(run: Run, stream: bytes, bodies: seq<bytes>, read: nat, to: nat, piece: bytes)
    requires RunOk(run) && RunTracks(run, stream, bodies, read)
    requires read <= to <= |stream| && piece == stream[read..to]
    ensures RunTracks(Receive(run, piece), stream, bodies, to)
    decreases |piece|
  {
    hide Frames, Tracks, Feed;
    if piece == [] || run.state.None? {
    } else {
      var m := Min(Want(run.state.value), |piece|);
      CutSlice(stream, read, m, to - read, piece);
      AdvanceTracks(run, stream, bodies, read, m);
      ReceiveTracks(Advance(run, piece[..m]), stream, bodies, read + m, to, piece[m..]);
    }
  }

  lemma FirstChunk(stream: bytes, read: nat, chunks: seq<bytes>)
    requires chunks != [] && read <= |stream| && stream[read..] == Flat(chunks)
    ensures read + |chunks[0]| <= |stream|
    ensures chunks[0] == stream[read..read + |chunks[0]|] && stream[read + |chunks[0]|..] == Flat(chunks[1..])
  {
    var n := |chunks[0]|;
    assert stream[read..] == chunks[0] + Flat(chunks[1..]);
    hide Flat;
    assert stream[read..][..n] == stream[read..read + n] && stream[read..][n..] == stream[read + n..];
  }

  lemma {:induction false} ReceiveAllTracks(run: Run, chunks: seq<bytes>, stream: bytes, bodies: seq<bytes>, read: nat)
    requires RunOk(run) && RunTracks(run, stream, bodies, read)
    requires read <= |stream| && stream[read..] == Flat(chunks)
    ensures RunTracks(ReceiveAll(run, chunks), stream, bodies, |stream|)
    decreases chunks
  {
    if chunks == [] {
    } else {
      hide Frames, RunTracks, RunOk, Receive;
      var n := |chunks[0]|;
      FirstChunk(stream, read, chunks);
      hide Flat;
      ReceiveTracks(run, stream, bodies, read, read + n, chunks[0]);
      ReceiveAllTracks(Receive(run, chunks[0]), chunks[1..], stream, bodies, read + n);
    }
  }

  const START: Run := Run([], Some(Head([])))

  lemma StartTracks(stream: bytes, bodies: seq<bytes>)
    requires Frameable(bodies) && stream <= Frames(bodies)
    ensures RunTracks(START, stream, bodies, 0)
  {
    assert bodies[..0] == [];
  }

  /** What the receive loop has when the stream ends. */
  ghost predicate CutRight(run: Run, bodies: seq<bytes>, n: nat)
  {
    && run.out <= bodies
    && (run.state.None? ==> |run.out| < |bodies| && |bodies[|run.out|]| > MAX_FRAME_BODY)
    && (run.state.Some? ==> Offset(bodies, |run.out|) <= n)
    && (run.state.Some? && |run.out| < |bodies| ==> n < Offset(bodies, |run.out| + 1))
  }

  lemma TracksCutRight(run: Run, stream: bytes, bodies: seq<bytes>)
    requires RunOk(run) && RunTracks(run, stream, bodies, |stream|)
    ensures CutRight(run, bodies, |stream|)
  {
    hide Frames, EncodeFrame, Frameable;
    if run.state.Some? && |run.out| < |bodies| {
      OffsetNext(bodies, |run.out|);
    }
  }

  /** However the frames of `bodies` are cut and chunked, the loop gives back the bodies
      whose frames arrived whole before the first one above the cap, and stays open
      unless it meets such a one. */
  lemma AnyCutAnyChunking(bodies: seq<bytes>, chunks: seq<bytes>)
    requires Frameable(bodies) && Flat(chunks) <= Frames(bodies)
    ensures CutRight(ReceiveAll(START, chunks), bodies, |Flat(chunks)|)
  {
    hide Frames, Flat, ReceiveAll, RunTracks, Frameable;
    var stream := Flat(chunks);
    StartTracks(stream, bodies);
    assert stream[0..] == stream;
    ReceiveAllTracks(START, chunks, stream, bodies, 0);
    TracksCutRight(ReceiveAll(START, chunks), stream, bodies);
  }

  lemma TracksWhole(run: Run, stream: bytes, bodies: seq<bytes>)
    requires RunOk(run) && RunTracks(run, stream, bodies, |stream|) && stream == Frames(bodies)
    requires forall k :: 0 <= k < |bodies| ==> 0 < |bodies[k]| <= MAX_FRAME_BODY
    ensures run == Run(bodies, Some(Head([])))
  {
    TracksCutRight(run, stream, bodies);
    hide Frames, EncodeFrame;
    OffsetAll(bodies);
    if |run.out| < |bodies| {
      OffsetMonotone(bodies, |run.out| + 1, |bodies|);
    }
  }

  /** The whole list of bodies within the cap comes back from any chunking of their frames. */
  lemma FramesRoundTrip(bodies: seq<bytes>, chunks: seq<bytes>)
    requires forall k :: 0 <= k < |bodies| ==> 0 < |bodies[k]| <= MAX_FRAME_BODY
    requires Flat(chunks) == Frames(bodies)
    ensures ReceiveAll(START, chunks) == Run(bodies, Some(Head([])))
  {
    hide Frames, Flat, ReceiveAll, RunTracks;
    var stream := Flat(chunks);
    StartTracks(stream, bodies);
    assert stream[0..] == stream;
    ReceiveAllTracks(START, chunks, stream, bodies, 0);
    TracksWhole(ReceiveAll(START, chunks), stream, bodies);
  }

  /** The accepted lengths, byte by byte: the big-endian value, from 1 to the cap. */
  lemma ReadsBigEndian(h: bytes)
    requires |h| >= HEADER_BYTES
    ensures var b0: int, b1: int, b2: int, b3: int := h[0], h[1], h[2], h[3];
            var n := b0 * 0x100_0000 + b1 * 0x1_0000 + b2 * 0x100 + b3;
            ReadFrameLength(h) == if 1 <= n <= MAX_FRAME_BODY then Some(n) else None
  {
    assert h[..HEADER_BYTES][..2] == [h[0], h[1]] && h[..HEADER_BYTES][2..] == [h[2], h[3]];
  }

  /** Every body, of any length: the header announces the length modulo 2^32, so it is right
      exactly for bodies from one byte to the cap, and otherwise refused or, above 2^32,
      accepted as a shorter one. */
  lemma LengthIsCut(body: bytes)
    ensures var frame, n := EncodeFrame(body), |body| % U32_SIZE;
            && frame[HEADER_BYTES..] == body
            && ReadFrameLength(frame[..HEADER_BYTES]) == (if 0 < n <= MAX_FRAME_BODY then Some(n) else None)
            && (ReadFrameLength(frame[..HEADER_BYTES]) == Some(|body|) <==> 0 < |body| <= MAX_FRAME_BODY)
  {
    var n := |body| % U32_SIZE;
    assert EncodeFrame(body)[..HEADER_BYTES] == BE32(n);
    BE32RoundTrip(n);
    assert BE32(n)[..HEADER_BYTES] == BE32(n);
  }
}
