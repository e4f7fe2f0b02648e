/** The rerank counters that all connection workers share: relaxed atomics bumped one at a
    time, and a maximum kept by a weak compare-and-swap loop (src/daemon/server.cc). */
module Counters {
  import opened Bytes

  /** Where a worker is with its current request, and that request's latency. */
  datatype Stage =
    | Resting
    | Replied(req: nat, lat: u32)
    | Counted(req: nat, lat: u32)
    | Summed(req: nat, lat: u32)
    | Comparing(req: nat, lat: u32, seen: u32)

  /** `lats` lists the latency of every request a worker has taken up. */
  datatype State = State(workers: seq<Stage>, lats: seq<u32>, count: u64, sum: u64, max: u32)

  datatype Action =
    | Spawn
    | Take(i: nat, latency: u32)
    | Step(i: nat, spurious: bool)

  const INIT: State := State([], [], 0, 0, 0)

  /** The next atomic operation of a worker that holds a request. A failed exchange, spurious
      or not, reloads the maximum. */
  function StepWorker(s: State, i: nat, spurious: bool): (s': State)
    requires i < |s.workers|
  {
    match s.workers[i]
    case Resting => s
    case Replied(r, l) => s.(workers := s.workers[i := Counted(r, l)], count := (s.count + 1) % U64_SIZE)
    case Counted(r, l) => s.(workers := s.workers[i := Summed(r, l)], sum := (s.sum + l) % U64_SIZE)
    case Summed(r, l) => s.(workers := s.workers[i := Comparing(r, l, s.max)])
    case Comparing(r, l, seen) =>
      if l <= seen then s.(workers := s.workers[i := Resting])
      else if !spurious && s.max == seen then s.(workers := s.workers[i := Resting], max := l)
      else s.(workers := s.workers[i := Comparing(r, l, s.max)])
  }

  function Apply(s: State, a: Action): (s': State)
  {
    match a
    case Spawn => s.(workers := s.workers + [Resting])
    case Take(i, l) =>
      if i < |s.workers| && s.workers[i].Resting?
      then s.(workers := s.workers[i := Replied(|s.lats|, l)], lats := s.lats + [l]) else s
    case Step(i, spurious) => if i < |s.workers| then StepWorker(s, i, spurious) else s
  }

  function Execute(acts: seq<Action>): (s: State)
  {
    if acts == [] then INIT else Apply(Execute(acts[..|acts| - 1]), acts[|acts| - 1])
  }

  // ---- Sums ----------------------------------------------------------------

  function Total(ws: seq<Stage>, weight: Stage -> nat): (n: nat)
  {
    if ws == [] then 0 else weight(ws[0]) + Total(ws[1..], weight)
  }

  function SumOf(xs: seq<u32>): (n: nat)
  {
    if xs == [] then 0 else SumOf(xs[..|xs| - 1]) + xs[|xs| - 1]
  }

  lemma {:induction false} TotalUpdate(ws: seq<Stage>, i: nat, w: Stage, weight: Stage -> nat)
    requires i < |ws|
    ensures Total(ws[i := w], weight) + weight(ws[i]) == Total(ws, weight) + weight(w)
  {
    if i == 0 {
      assert ws[0 := w][1..] == ws[1..];
    } else {
      TotalUpdate(ws[1..], i - 1, w, weight);
      assert ws[i := w][1..] == ws[1..][i - 1 := w];
    }
  }

  lemma {:induction false} TotalSnoc(ws: seq<Stage>, w: Stage, weight: Stage -> nat)
    ensures Total(ws + [w], weight) == Total(ws, weight) + weight(w)
  {
    if ws == [] {
      assert [] + [w] == [w] && [w][1..] == [];
    } else {
      TotalSnoc(ws[1..], w, weight);
      assert (ws + [w])[1..] == ws[1..] + [w];
    }
  }

  lemma {:induction false} TotalZero(ws: seq<Stage>, weight: Stage -> nat)
    requires forall i :: 0 <= i < |ws| ==> weight(ws[i]) == 0
    ensures Total(ws, weight) == 0
  {
    if ws == [] {
    } else {
      TotalZero(ws[1..], weight);
    }
  }

  lemma {:induction false} SumBound(xs: seq<u32>, m: nat)
    requires forall i :: 0 <= i < |xs| ==> xs[i] <= m
    ensures SumOf(xs) <= |xs| * m
  {
    if xs == [] {
    } else {
      SumBound(xs[..|xs| - 1], m);
      assert (|xs| - 1) * m + m == |xs| * m;
    }
  }

  // ---- The invariant -------------------------------------------------------

  /** One for a request not counted yet. */
  function Uncounted(w: Stage): (n: nat) { if w.Replied? then 1 else 0 }

  /** The latency a worker has yet to add. */
  function Unsummed(w: Stage): (n: nat) { if w.Replied? || w.Counted? then w.lat else 0 }

  ghost predicate WorkersOk(s: State)
  {
    forall i :: 0 <= i < |s.workers| && !s.workers[i].Resting? ==>
      && s.workers[i].req < |s.lats| && s.lats[s.workers[i].req] == s.workers[i].lat
      && (s.workers[i].Comparing? ==> s.workers[i].seen <= s.max)
  }

  ghost predicate Holds(ws: seq<Stage>, r: nat)
  {
    exists i :: 0 <= i < |ws| && !ws[i].Resting? && ws[i].req == r
  }

  /** The maximum is 0 or some request's latency, and covers every request that no worker holds. */
  ghost predicate MaxOk(s: State)
  {
    && (s.max == 0 || s.max in s.lats)
    && forall r :: 0 <= r < |s.lats| ==> s.lats[r] <= s.max || Holds(s.workers, r)
  }

  ghost predicate SumsOk(s: State)
  {
    && (s.count + Total(s.workers, Uncounted)) % U64_SIZE == |s.lats| % U64_SIZE
    && (s.sum + Total(s.workers, Unsummed)) % U64_SIZE == SumOf(s.lats) % U64_SIZE
  }

  ghost predicate Inv(s: State)
  {
    WorkersOk(s) && MaxOk(s) && SumsOk(s)
  }

  lemma SumsStep(s: State, i: nat, spurious: bool)
    requires SumsOk(s) && i < |s.workers|
    ensures SumsOk(StepWorker(s, i, spurious))
  {
    var s' := StepWorker(s, i, spurious);
    if s'.workers != s.workers {
      TotalUpdate(s.workers, i, s'.workers[i], Uncounted);
      TotalUpdate(s.workers, i, s'.workers[i], Unsummed);
      assert s'.workers == s.workers[i := s'.workers[i]];
      WrapAdd(s.count, 1, Total(s'.workers, Uncounted));
      WrapAdd(s.sum, if s.workers[i].Counted? then s.workers[i].lat else 0, Total(s'.workers, Unsummed));
    }
  }

  lemma WrapAdd(a: u64, b: nat, c: nat)
    ensures ((a + b) % U64_SIZE + c) % U64_SIZE == (a + (b + c)) % U64_SIZE
    ensures ((a + c) % U64_SIZE) == (a + c) % U64_SIZE
  {
  }

  lemma MaxStep(s: State, i: nat, spurious: bool)
    requires WorkersOk(s) && MaxOk(s) && i < |s.workers|
    ensures WorkersOk(StepWorker(s, i, spurious)) && MaxOk(StepWorker(s, i, spurious))
    ensures s.max <= StepWorker(s, i, spurious).max
  {
    var s' := StepWorker(s, i, spurious);
    forall r | 0 <= r < |s.lats|
      ensures s.lats[r] <= s'.max || Holds(s'.workers, r)
    {
      if s.lats[r] > s.max {
        var j :| 0 <= j < |s.workers| && !s.workers[j].Resting? && s.workers[j].req == r;
        if j != i {
          assert s'.workers[j] == s.workers[j];
        } else if !s'.workers[i].Resting? {
          assert s'.workers[i].req == r;
        }
      }
    }
  }

  lemma TakeSums(s: State, i: nat, l: u32)
    requires SumsOk(s) && i < |s.workers| && s.workers[i].Resting?
    ensures SumsOk(Apply(s, Take(i, l)))
  {
    TotalUpdate(s.workers, i, Replied(|s.lats|, l), Uncounted);
    TotalUpdate(s.workers, i, Replied(|s.lats|, l), Unsummed);
    assert Apply(s, Take(i, l)).lats[..|s.lats|] == s.lats;
    ModShift(s.count + Total(s.workers, Uncounted), |s.lats|, 1);
    ModShift(s.sum + Total(s.workers, Unsummed), SumOf(s.lats), l);
  }

  lemma ModShift(x: nat, y: nat, d: nat)
    requires x % U64_SIZE == y % U64_SIZE
    ensures (x + d) % U64_SIZE == (y + d) % U64_SIZE
  {
  }

  lemma TakeMax(s: State, i: nat, l: u32)
    requires WorkersOk(s) && MaxOk(s) && i < |s.workers| && s.workers[i].Resting?
    ensures WorkersOk(Apply(s, Take(i, l))) && MaxOk(Apply(s, Take(i, l)))
  {
    var s' := Apply(s, Take(i, l));
    forall r | 0 <= r < |s'.lats|
      ensures s'.lats[r] <= s'.max || Holds(s'.workers, r)
    {
      if r < |s.lats| && s.lats[r] > s.max {
        var j :| 0 <= j < |s.workers| && !s.workers[j].Resting? && s.workers[j].req == r;
        assert s'.workers[j] == s.workers[j];
      } else if r == |s.lats| {
        assert s'.workers[i].req == r;
      }
    }
  }

  lemma SpawnKeeps(s: State)
    requires Inv(s)
    ensures Inv(Apply(s, Spawn))
  {
    var s' := Apply(s, Spawn);
    TotalSnoc(s.workers, Resting, Uncounted);
    TotalSnoc(s.workers, Resting, Unsummed);
    forall r | 0 <= r < |s.lats|
      ensures s.lats[r] <= s.max || Holds(s'.workers, r)
    {
      if s.lats[r] > s.max {
        var j :| 0 <= j < |s.workers| && !s.workers[j].Resting? && s.workers[j].req == r;
        assert s'.workers[j] == s.workers[j];
      }
    }
  }

  lemma StepKeeps(s: State, a: Action)
    requires Inv(s)
    ensures Inv(Apply(s, a)) && s.max <= Apply(s, a).max
  {
    match a
    case Spawn => SpawnKeeps(s);
    case Take(i, l) => if i < |s.workers| && s.workers[i].Resting? { TakeSums(s, i, l); TakeMax(s, i, l); }
    case Step(i, spurious) => if i < |s.workers| { SumsStep(s, i, spurious); MaxStep(s, i, spurious); }
  }

  lemma {:induction false} RunsKeepInv(acts: seq<Action>)
    ensures Inv(Execute(acts))
    decreases |acts|
  {
    if acts == [] {
    } else {
      RunsKeepInv(acts[..|acts| - 1]);
      StepKeeps(Execute(acts[..|acts| - 1]), acts[|acts| - 1]);
    }
  }

  // ---- Every run -----------------------------------------------------------

  /** The maximum never goes down, and is at all times 0 or the latency of some request. */
  lemma {:induction false} MaxNeverDrops(acts: seq<Action>, more: seq<Action>)
    ensures Execute(acts).max <= Execute(acts + more).max
    ensures Execute(acts).max == 0 || Execute(acts).max in Execute(acts).lats
    decreases |more|
  {
    RunsKeepInv(acts);
    if more == [] {
      assert acts + more == acts;
    } else {
      var init := acts + more[..|more| - 1];
      MaxNeverDrops(acts, more[..|more| - 1]);
      RunsKeepInv(init);
      StepKeeps(Execute(init), more[|more| - 1]);
      assert (acts + more)[..|acts + more| - 1] == init;
    }
  }

  lemma SumFits(xs: seq<u32>)
    requires |xs| < U32_SIZE
    ensures SumOf(xs) < U64_SIZE
  {
    SumBound(xs, 0xFFFF_FFFF);
  }

  lemma NoneHeld(s: State)
    requires MaxOk(s) && forall i :: 0 <= i < |s.workers| ==> s.workers[i].Resting?
    ensures forall r :: 0 <= r < |s.lats| ==> s.lats[r] <= s.max
    ensures if s.lats == [] then s.max == 0 else s.max in s.lats
  {
    forall r | 0 <= r < |s.lats|
      ensures s.lats[r] <= s.max
    {
      assert !Holds(s.workers, r);
    }
    if s.lats != [] && s.max == 0 {
      assert s.lats[0] == 0;
    }
  }

  lemma SumsSettle(s: State)
    requires SumsOk(s) && forall i :: 0 <= i < |s.workers| ==> s.workers[i].Resting?
    ensures s.count == |s.lats| % U64_SIZE && s.sum == SumOf(s.lats) % U64_SIZE
    ensures |s.lats| < U32_SIZE ==> s.count == |s.lats| && s.sum == SumOf(s.lats)
  {
    TotalZero(s.workers, Uncounted);
    TotalZero(s.workers, Unsummed);
    hide SumOf;
    if |s.lats| < U32_SIZE {
      SumFits(s.lats);
    }
  }

  /** With no request in flight the counters are exact (modulo their width), the maximum is
      the largest latency of all, and the mean the stats suggest is at most the maximum. */
  lemma QuiescentCounters(acts: seq<Action>)
    requires forall i :: 0 <= i < |Execute(acts).workers| ==> Execute(acts).workers[i].Resting?
    ensures var s := Execute(acts);
            && s.count == |s.lats| % U64_SIZE && s.sum == SumOf(s.lats) % U64_SIZE
            && (forall r :: 0 <= r < |s.lats| ==> s.lats[r] <= s.max)
            && (if s.lats == [] then s.max == 0 else s.max in s.lats)
            && (|s.lats| < U32_SIZE ==> s.count == |s.lats| && s.sum == SumOf(s.lats) <= s.count * s.max)
  {
    var s := Execute(acts);
    RunsKeepInv(acts);
    NoneHeld(s);
    SumsSettle(s);
    hide SumOf, Execute, Inv;
    SumBound(s.lats, s.max);
  }

  // ---- A snapshot with requests in flight ----------------------------------

  function IsCounted(w: Stage): (n: nat) { if w.Counted? then 1 else 0 }

  /** The counters are exact, counting what workers still hold. */
  ghost predicate Exact(s: State)
  {
    s.count + Total(s.workers, Uncounted) == |s.lats| && s.sum + Total(s.workers, Unsummed) == SumOf(s.lats)
  }

  /** `m` is at least the maximum and every latency that was added but may not be raised to. */
  ghost predicate Covers(s: State, m: nat)
  {
    s.max <= m
    && forall i :: 0 <= i < |s.workers| && (s.workers[i].Summed? || s.workers[i].Comparing?) ==> s.workers[i].lat <= m
  }

  ghost predicate MeanOk(s: State)
  {
    forall m: nat :: Covers(s, m) ==> s.sum + Total(s.workers, IsCounted) * m <= s.count * m
  }

  lemma {:induction false} TotalAtLeast(ws: seq<Stage>, i: nat, weight: Stage -> nat)
    requires i < |ws|
    ensures weight(ws[i]) <= Total(ws, weight)
  {
    if i == 0 {
    } else {
      TotalAtLeast(ws[1..], i - 1, weight);
    }
  }

  lemma ExactStep(s: State, i: nat, spurious: bool)
    requires Exact(s) && i < |s.workers| && |s.lats| < U32_SIZE
    ensures Exact(StepWorker(s, i, spurious))
    ensures s.workers[i].Replied? ==> StepWorker(s, i, spurious).count == s.count + 1
    ensures s.workers[i].Counted? ==> StepWorker(s, i, spurious).sum == s.sum + s.workers[i].lat
  {
    var s' := StepWorker(s, i, spurious);
    SumFits(s.lats);
    TotalAtLeast(s.workers, i, Uncounted);
    TotalAtLeast(s.workers, i, Unsummed);
    if s'.workers != s.workers {
      TotalUpdate(s.workers, i, s'.workers[i], Uncounted);
      TotalUpdate(s.workers, i, s'.workers[i], Unsummed);
      assert s'.workers == s.workers[i := s'.workers[i]];
    }
  }

  /** Whatever bounds the state after a step bounds the state before it, but for a latency
      that the step adds. */
  lemma CoversBack(s: State, i: nat, spurious: bool, m: nat)
    requires WorkersOk(s) && i < |s.workers| && Covers(StepWorker(s, i, spurious), m)
    ensures Covers(s, m)
    ensures s.workers[i].Counted? ==> s.workers[i].lat <= m
  {
    var s' := StepWorker(s, i, spurious);
    forall j | 0 <= j < |s.workers| && (s.workers[j].Summed? || s.workers[j].Comparing?)
      ensures s.workers[j].lat <= m
    {
      if j != i {
        assert s'.workers[j] == s.workers[j];
      } else {
        OwnLatency(s, i, spurious);
        assert s'.workers[i].Comparing? ==> s'.workers[i].lat <= m;
      }
    }
    if s.workers[i].Counted? { assert s'.workers[i].Summed?; }
  }

  /** A latency that was added stays with its worker or is below the maximum after the step. */
  lemma OwnLatency(s: State, i: nat, spurious: bool)
    requires WorkersOk(s) && i < |s.workers| && (s.workers[i].Summed? || s.workers[i].Comparing?)
    ensures var s' := StepWorker(s, i, spurious);
            if s'.workers[i].Comparing? then s'.workers[i].lat == s.workers[i].lat else s.workers[i].lat <= s'.max
    ensures s.max <= StepWorker(s, i, spurious).max
  {
  }

  lemma TimesNext(k: nat, m: nat)
    ensures (k + 1) * m == k * m + m
  {
  }

  lemma CountedMoves(s: State, i: nat, spurious: bool)
    requires i < |s.workers|
    ensures Total(StepWorker(s, i, spurious).workers, IsCounted) + IsCounted(s.workers[i]) ==
            Total(s.workers, IsCounted) + IsCounted(StepWorker(s, i, spurious).workers[i])
  {
    var s' := StepWorker(s, i, spurious);
    TotalUpdate(s.workers, i, s'.workers[i], IsCounted);
    assert s'.workers == s.workers[i := s'.workers[i]];
  }

  lemma MeanStepAt(s: State, i: nat, spurious: bool, m: nat)
    requires WorkersOk(s) && MeanOk(s) && Exact(s) && |s.lats| < U32_SIZE && i < |s.workers|
    requires Covers(StepWorker(s, i, spurious), m)
    ensures var s' := StepWorker(s, i, spurious); s'.sum + Total(s'.workers, IsCounted) * m <= s'.count * m
  {
    CoversBack(s, i, spurious, m);
    ExactStep(s, i, spurious);
    CountedMoves(s, i, spurious);
    var k, k' := Total(s.workers, IsCounted), Total(StepWorker(s, i, spurious).workers, IsCounted);
    hide Total, Covers, WorkersOk, Exact;
    if s.workers[i].Replied? {
      TimesNext(k, m);
      TimesNext(s.count, m);
    } else if s.workers[i].Counted? {
      TimesNext(k', m);
    }
  }

  ghost predicate FlightOk(s: State)
  {
    |s.lats| < U32_SIZE ==> Exact(s) && MeanOk(s)
  }

  lemma MeanStep(s: State, i: nat, spurious: bool)
    requires WorkersOk(s) && FlightOk(s) && i < |s.workers|
    ensures FlightOk(StepWorker(s, i, spurious))
  {
    hide WorkersOk, Exact, Covers, Total, StepWorker;
    SameRequests(s, i, spurious);
    if |s.lats| < U32_SIZE {
      ExactStep(s, i, spurious);
      forall m: nat | Covers(StepWorker(s, i, spurious), m)
        ensures var s' := StepWorker(s, i, spurious); s'.sum + Total(s'.workers, IsCounted) * m <= s'.count * m
      {
        MeanStepAt(s, i, spurious, m);
      }
    }
  }

  lemma SameRequests(s: State, i: nat, spurious: bool)
    requires i < |s.workers|
    ensures StepWorker(s, i, spurious).lats == s.lats
  {
  }

  /** Taking up a request or starting a worker leaves counters and covers alone. */
  lemma TakeFlight(s: State, i: nat, l: u32)
    requires FlightOk(s) && i < |s.workers| && s.workers[i].Resting?
    ensures FlightOk(Apply(s, Take(i, l)))
  {
    var s' := Apply(s, Take(i, l));
    if |s'.lats| < U32_SIZE {
      TotalUpdate(s.workers, i, s'.workers[i], Uncounted);
      TotalUpdate(s.workers, i, s'.workers[i], Unsummed);
      TotalUpdate(s.workers, i, s'.workers[i], IsCounted);
      assert s'.lats[..|s.lats|] == s.lats;
      hide Total;
      forall m: nat | Covers(s', m)
        ensures Covers(s, m)
      {
        assert forall j :: 0 <= j < |s.workers| && j != i ==> s'.workers[j] == s.workers[j];
      }
    }
  }

  lemma SpawnFlight(s: State)
    requires FlightOk(s)
    ensures FlightOk(Apply(s, Spawn))
  {
    var s' := Apply(s, Spawn);
    TotalSnoc(s.workers, Resting, Uncounted);
    TotalSnoc(s.workers, Resting, Unsummed);
    TotalSnoc(s.workers, Resting, IsCounted);
    hide Total;
    forall m: nat | Covers(s', m)
      ensures Covers(s, m)
    {
      assert forall j :: 0 <= j < |s.workers| ==> s'.workers[j] == s.workers[j];
    }
  }

  lemma {:induction false} RunsKeepFlight(acts: seq<Action>)
    ensures FlightOk(Execute(acts))
    decreases |acts|
  {
    if acts == [] {
      assert MeanOk(INIT) && Exact(INIT);
    } else {
      var s := Execute(acts[..|acts| - 1]);
      RunsKeepFlight(acts[..|acts| - 1]);
      RunsKeepInv(acts[..|acts| - 1]);
      hide FlightOk, StepWorker, MaxOk, SumsOk, WorkersOk;
      match acts[|acts| - 1]
      case Spawn => SpawnFlight(s);
      case Take(i, l) => if i < |s.workers| && s.workers[i].Resting? { TakeFlight(s, i, l); }
      case Step(i, spurious) => if i < |s.workers| { MeanStep(s, i, spurious); }
    }
  }

  /** A worker that has added a latency above the maximum and not raised the maximum yet. */
  predicate Lagging(s: State, i: nat)
  {
    i < |s.workers| && (s.workers[i].Summed? || s.workers[i].Comparing?) && s.workers[i].lat > s.max
  }

  /** On a busy server too: at any instant the mean is at most the maximum, unless some worker
      stands between adding a latency above the maximum and raising it. */
  lemma MeanAboveMaxNeedsLaggard(acts: seq<Action>)
    requires |Execute(acts).lats| < U32_SIZE
    ensures var s := Execute(acts);
            s.sum > s.count * s.max ==> exists i :: Lagging(s, i)
  {
    var s := Execute(acts);
    RunsKeepFlight(acts);
    hide Execute, Exact;
    if !exists i :: Lagging(s, i) {
      assert Covers(s, s.max) by {
        forall i | 0 <= i < |s.workers| && (s.workers[i].Summed? || s.workers[i].Comparing?)
          ensures s.workers[i].lat <= s.max
        {
          assert !Lagging(s, i);
        }
      }
      Grows(s.sum, Total(s.workers, IsCounted), s.max, s.count);
    }
  }

  lemma Grows(a: nat, k: nat, m: nat, c: nat)
    requires a + k * m <= c * m
    ensures a <= c * m
  {
  }

  /** Read in the middle of a request, the same three counters can show a mean above the maximum. */
  lemma MeanAboveMaxInFlight()
    ensures exists acts :: var s := Execute(acts); s.sum > s.count * s.max
  {
    var a0, a1, a2, a3 := [Spawn], [Spawn, Take(0, 7)], [Spawn, Take(0, 7), Step(0, false)],
                          [Spawn, Take(0, 7), Step(0, false), Step(0, false)];
    assert a0[..0] == [] && a1[..1] == a0 && a2[..2] == a1 && a3[..3] == a2;
    assert Execute(a0) == State([Resting], [], 0, 0, 0);
    assert Execute(a1) == State([Replied(0, 7)], [7], 0, 0, 0);
    assert Execute(a2) == State([Counted(0, 7)], [7], 1, 0, 0);
    assert Execute(a3) == State([Summed(0, 7)], [7], 1, 7, 0);
  }

  /** GetStats loads the counters one after another: count, then sum, then maximum. If no
      request was counted between the first two loads, what it shows still has its mean at
      most its maximum, unless a worker lagged when the sum was loaded. */
  lemma StatsReadOneByOne(acts: seq<Action>, toSum: seq<Action>, toMax: seq<Action>)
    requires |Execute(acts + toSum).lats| < U32_SIZE && Execute(acts + toSum).count == Execute(acts).count
    ensures var sum, max := Execute(acts + toSum).sum, Execute(acts + toSum + toMax).max;
            sum > Execute(acts).count * max ==> exists i :: Lagging(Execute(acts + toSum), i)
  {
    MeanAboveMaxNeedsLaggard(acts + toSum);
    MaxNeverDrops(acts + toSum, toMax);
    hide Execute, Lagging;
    TimesGrows(Execute(acts).count, Execute(acts + toSum).max, Execute(acts + toSum + toMax).max);
  }

  lemma TimesGrows(c: nat, m: nat, n: nat)
    requires m <= n
    ensures c * m <= c * n
  {
  }

  /** A request that is counted between those loads shows a mean above the maximum even with
      every worker at rest at each of them. */
  lemma StatsReadAcrossRequest()
    ensures exists acts, more ::
              && (forall i :: 0 <= i < |Execute(acts).workers| ==> Execute(acts).workers[i].Resting?)
              && (forall i :: 0 <= i < |Execute(acts + more).workers| ==> Execute(acts + more).workers[i].Resting?)
              && Execute(acts + more).sum > Execute(acts).count * Execute(acts + more).max
  {
    var acts, more := [Spawn], [Take(0, 7), Step(0, false), Step(0, false), Step(0, false), Step(0, false)];
    ExecuteSnoc([], Spawn);
    var a1 := acts + [Take(0, 7)];
    ExecuteSnoc(acts, Take(0, 7));
    ExecuteSnoc(a1, Step(0, false));
    ExecuteSnoc(a1 + [Step(0, false)], Step(0, false));
    ExecuteSnoc(a1 + [Step(0, false)] + [Step(0, false)], Step(0, false));
    ExecuteSnoc(a1 + [Step(0, false)] + [Step(0, false)] + [Step(0, false)], Step(0, false));
    hide Execute;
    assert [] + [Spawn] == acts;
    assert acts + more == a1 + [Step(0, false)] + [Step(0, false)] + [Step(0, false)] + [Step(0, false)];
    assert Execute(acts) == State([Resting], [], 0, 0, 0);
    assert Execute(acts + more) == State([Resting], [7], 1, 7, 7);
  }

  lemma ExecuteSnoc(acts: seq<Action>, a: Action)
    ensures Execute([]) == INIT && Execute(acts + [a]) == Apply(Execute(acts), a)
  {
    assert (acts + [a])[..|acts|] == acts;
  }

  // ---- A request comes to an end -------------------------------------------

  /** `n` steps of worker `i` with no other in between and no spurious failure. */
  function Alone(s: State, i: nat, n: nat): (s': State)
  {
    if n == 0 then s else Apply(Alone(s, i, n - 1), Step(i, false))
  }

  lemma AloneSteps(s: State, i: nat)
    ensures Alone(s, i, 1) == Apply(s, Step(i, false))
    ensures Alone(s, i, 4) ==
            Apply(Apply(Apply(Apply(s, Step(i, false)), Step(i, false)), Step(i, false)), Step(i, false))
  {
    hide Apply;
    assert Alone(s, i, 2) == Apply(Alone(s, i, 1), Step(i, false));
    assert Alone(s, i, 3) == Apply(Alone(s, i, 2), Step(i, false));
  }

  lemma PutTwice(ws: seq<Stage>, i: nat, v: Stage, w: Stage)
    requires i < |ws|
    ensures ws[i := v][i := w] == ws[i := w] && (w == ws[i] ==> ws[i := w] == ws)
  {
  }

  /** A worker that takes up a request and is left to itself is done in four steps, and has then
      counted it once, added its latency once, and raised the maximum to it if it was below:
      what one turn of the server's loop does. */
  lemma RequestCompletes(s: State, i: nat, l: u32)
    requires i < |s.workers| && s.workers[i].Resting?
    ensures Alone(Apply(s, Take(i, l)), i, 4) ==
            State(s.workers, s.lats + [l], (s.count + 1) % U64_SIZE, (s.sum + l) % U64_SIZE, Max(s.max, l))
  {
    var r := |s.lats|;
    var s0 := Apply(s, Take(i, l));
    AloneSteps(s0, i);
    PutTwice(s.workers, i, Replied(r, l), Counted(r, l));
    PutTwice(s.workers, i, Counted(r, l), Summed(r, l));
    PutTwice(s.workers, i, Summed(r, l), Comparing(r, l, s.max));
    PutTwice(s.workers, i, Comparing(r, l, s.max), Resting);
    hide Alone;
    var s1 := Apply(s0, Step(i, false));
    assert s1 == s0.(workers := s.workers[i := Counted(r, l)], count := (s.count + 1) % U64_SIZE);
    var s2 := Apply(s1, Step(i, false));
    assert s2 == s1.(workers := s.workers[i := Summed(r, l)], sum := (s.sum + l) % U64_SIZE);
    var s3 := Apply(s2, Step(i, false));
    assert s3 == s2.(workers := s.workers[i := Comparing(r, l, s.max)]);
  }

  /** From any state a worker that is left to itself comes to rest. */
  lemma WorkerRests(s: State, i: nat)
    requires i < |s.workers|
    ensures exists n :: n <= 5 && i < |Alone(s, i, n).workers| && Alone(s, i, n).workers[i].Resting?
  {
    var n := 0;
    while n < 5 && !Alone(s, i, n).workers[i].Resting?
      invariant n <= 5 && |Alone(s, i, n).workers| == |s.workers|
      invariant Left(Alone(s, i, n), i) <= 5 - n
      decreases 5 - n
    {
      LeftStep(Alone(s, i, n), i);
      n := n + 1;
    }
  }

  /** How many steps a worker needs at most. */
  function Left(s: State, i: nat): (n: nat)
    requires i < |s.workers|
  {
    match s.workers[i]
    case Resting => 0
    case Replied(_, _) => 5
    case Counted(_, _) => 4
    case Summed(_, _) => 3
    case Comparing(_, l, seen) => if l <= seen || s.max == seen then 1 else 2
  }

  lemma LeftStep(s: State, i: nat)
    requires i < |s.workers| && !s.workers[i].Resting?
    ensures var s' := Apply(s, Step(i, false)); |s'.workers| == |s.workers| && Left(s', i) < Left(s, i)
  {
  }
}
