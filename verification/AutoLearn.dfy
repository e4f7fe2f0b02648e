/** The background learner: its gates, its bookkeeping across rounds, and whole runs of it
    against a history that grows and shrinks and clocks that move (src/daemon/auto_learn.cc). */
module AutoLearn {
  import opened Bytes
  import History
  import Ngram
  import NewWord
  import L = LearningRound

  /** Times are in microseconds; a threshold that is not positive switches its gate off. */
  datatype Config = Config(idle: int, minInterval: int, round: L.RoundConfig)

  const ONE_DAY: int := 86_400_000_000

  /** What the runner remembers between ticks. */
  datatype Memory = Memory(lastCount: nat, lastRoundAt: int, totalRuns: u64, totalWords: u64)

  /** How a round ends. The redeploy hook is asked only after a clean round that wrote words;
      `deployed` is its answer. */
  datatype Outcome = Threw | Done(ok: bool, words: nat, wroteUserDict: bool, deployed: bool)

  /** A round that completed and had words to hand over. */
  predicate Clean(o: Outcome)
  {
    o.Done? && o.ok && o.words > 0 && o.wroteUserDict
  }

  function AtStart(m: Memory, now: int, count: nat): (m': Memory)
  {
    m.(lastRoundAt := now, lastCount := count)
  }

  /** The three gates, in the source's order. */
  predicate Due(cfg: Config, m: Memory, count: nat, latest: Option<int>, steady: int, wall: int)
  {
    && count > m.lastCount
    && (cfg.minInterval > 0 ==> steady - m.lastRoundAt >= cfg.minInterval)
    && (cfg.idle > 0 && latest.Some? ==> wall - latest.value >= cfg.idle)
  }

  function AtEnd(m: Memory, o: Outcome, now: int, count: nat): (m': Memory)
  {
    if o.Threw? then m.(lastRoundAt := now)
    else Memory(count, now, (m.totalRuns + 1) % U64_SIZE,
                if Clean(o) then (m.totalWords + o.words) % U64_SIZE else m.totalWords)
  }

  // ---- The runner ----------------------------------------------------------

  class AutoLearnRunner {
    const cfg: Config
    var started: bool
    var stop: bool
    var lastCount: nat
    var lastRoundAt: int
    var totalRuns: u64
    var totalWords: u64

    ghost function Memo(): (m: Memory)
      reads this
    {
      Memory(lastCount, lastRoundAt, totalRuns, totalWords)
    }

    constructor (cfg: Config, now: int)
      ensures !started && !stop && this.cfg == cfg && Memo() == Memory(0, now - ONE_DAY, 0, 0)
    {
      this.cfg := cfg;
      started, stop := false, false;
      lastCount, lastRoundAt := 0, now - ONE_DAY;
      totalRuns, totalWords := 0, 0;
    }

    method Start(now: int, count: nat)
      modifies this
      ensures started
      ensures old(started) ==> stop == old(stop) && Memo() == old(Memo())
      ensures !old(started) ==> !stop && Memo() == AtStart(old(Memo()), now, count)
      ensures !old(started) ==> lastRoundAt == now && lastCount == count
    {
      if started { return; }
      lastRoundAt := now;
      lastCount := count;
      stop := false;
      started := true;
    }

    method ShouldRun(count: nat, latest: Option<int>, steady: int, wall: int) returns (due: bool)
      ensures due == Due(cfg, Memo(), count, latest, steady, wall)
      ensures due <==>
        && count > lastCount
        && (cfg.minInterval <= 0 || steady >= lastRoundAt + cfg.minInterval)
        && (cfg.idle <= 0 || latest.None? || wall >= latest.value + cfg.idle)
    {
      if count <= lastCount { return false; }
      if cfg.minInterval > 0 {
        var since := steady - lastRoundAt;
        if since < cfg.minInterval { return false; }
      }
      if cfg.idle > 0 {
        if latest.Some? {
          var idle := wall - latest.value;
          if idle < cfg.idle { return false; }
        }
      }
      return true;
    }

    /** One round, with a table of its own. `threw` is an exception anywhere in the round;
        `endCount` and `now` are read after it, `deploys` is the redeploy hook's answer. */
    method RunOneRound(sort: seq<History.Entry> -> seq<History.Entry>, rank: seq<NewWord.Word> -> seq<NewWord.Word>,
                       stores: L.Stores, count: u64, dict: Option<seq<bytes>>, world: L.Outcomes,
                       threw: bool, endCount: nat, now: int, deploys: bool)
      returns (outcome: Outcome, notified: Option<nat>, files: Option<L.Files>,
               ghost words: seq<NewWord.Word>, ghost table: Ngram.Table)
      requires NewWord.IsRanker(rank) && History.IsSorter(sort)
      modifies this
      ensures started == old(started) && stop == old(stop)
      ensures Memo() == AtEnd(old(Memo()), outcome, now, endCount)
      ensures threw <==> outcome.Threw?
      ensures !threw ==>
              outcome == Done(world.generate && world.save, |words|, world.generate, Clean(outcome) && deploys)
      ensures !threw ==> files.Some? && L.IsRound(sort, stores, dict, cfg.round, map[], table, words, files.value)
      ensures notified == if Clean(outcome) && deploys then Some(outcome.words) else None
      ensures lastRoundAt == now && lastCount == (if threw then old(lastCount) else endCount)
      ensures totalRuns == (if threw then old(totalRuns) else (old(totalRuns) + 1) % U64_SIZE)
      ensures var learns := !threw && world.generate && world.save;
              && totalWords == (if learns then (old(totalWords) + |words|) % U64_SIZE else old(totalWords))
              && (notified.Some? <==> learns && |words| > 0 && deploys)
              && (notified.Some? ==> notified.value == |words|)
    {
      hide L.IsRound, History.IsSorter, NewWord.IsRanker;
      notified, files, words, table := None, None, [], map[];
      var ngrams := new Ngram.NgramTable();
      if threw {
        lastRoundAt := now;
        return Threw, None, None, [], map[];
      }
      var result, written, ws := L.RunLearningRound(sort, rank, stores, count, ngrams, dict, cfg.round, world);
      files, words, table := Some(written), ws, ngrams.table;
      totalRuns := (totalRuns + 1) % U64_SIZE;
      lastRoundAt := now;
      lastCount := endCount;
      outcome := Done(result.ok, result.words, result.wroteUserDict, false);
      if !result.ok { return; }
      if result.words == 0 || !result.wroteUserDict { return; }
      totalWords := (totalWords + result.words) % U64_SIZE;
      outcome := Done(result.ok, result.words, result.wroteUserDict, deploys);
      if deploys { notified := Some(result.words); }
    }
  }

  // ---- Whole runs ----------------------------------------------------------

  /** What can happen: commits arrive, old ones are pruned, both clocks move (the steady one
      only forward), the owner starts and stops the runner, and its thread wakes, ends a
      round, or exits. A tick's gates are read in one step; its round takes time. */
  datatype Event =
    | Insert(ts: int)
    | Prune(before: int)
    | Elapse(d: nat)
    | SetWall(wall: int)
    | StartCall
    | StopCall
    | Exit
    | Wake
    | Finish(outcome: Outcome)

  /** The record of a run. Every item carries the time and how many commits had been
      inserted and pruned by then. */
  datatype Item =
    | Started(at: int, inserted: nat, pruned: nat)
    | Began(at: int, inserted: nat, pruned: nat, latest: Option<int>, wall: int)
    | Ended(at: int, inserted: nat, pruned: nat, outcome: Outcome)

  datatype State = State(
    mem: Memory, started: bool, stop: bool, busy: bool,
    entries: seq<int>, inserted: nat, pruned: nat, steady: int, wall: int,
    log: seq<Item>, notices: seq<nat>)

  function Initial(steady: int, wall: int): (s: State)
  {
    State(Memory(0, steady - ONE_DAY, 0, 0), false, false, false, [], 0, 0, steady, wall, [], [])
  }

  function Surviving(entries: seq<int>, before: int): (kept: seq<int>)
    ensures |kept| <= |entries|
  {
    if entries == [] then []
    else Surviving(entries[..|entries| - 1], before)
         + if entries[|entries| - 1] < before then [] else [entries[|entries| - 1]]
  }

  /** The greatest commit time. */
  function Latest(entries: seq<int>): (r: Option<int>)
    ensures r.None? <==> entries == []
    ensures r.Some? ==> r.value in entries && forall i :: 0 <= i < |entries| ==> entries[i] <= r.value
  {
    if entries == [] then None else
    match Latest(entries[..|entries| - 1])
    case None => Some(entries[0])
    case Some(t) => Some(Max(t, entries[|entries| - 1]))
  }

  function Apply(cfg: Config, s: State, ev: Event): (s': State)
  {
    match ev
    case Insert(ts) => s.(entries := s.entries + [ts], inserted := s.inserted + 1)
    case Prune(before) =>
      var kept := Surviving(s.entries, before);
      s.(entries := kept, pruned := s.pruned + |s.entries| - |kept|)
    case Elapse(d) => s.(steady := s.steady + d)
    case SetWall(w) => s.(wall := w)
    case StartCall =>
      if s.started then s else
      s.(mem := AtStart(s.mem, s.steady, |s.entries|), started := true, stop := false,
         log := s.log + [Started(s.steady, s.inserted, s.pruned)])
    case StopCall => if s.started then s.(stop := true) else s
    case Exit => if s.started && s.stop && !s.busy then s.(started := false) else s
    case Wake =>
      if s.started && !s.stop && !s.busy && Due(cfg, s.mem, |s.entries|, Latest(s.entries), s.steady, s.wall)
      then s.(busy := true, log := s.log + [Began(s.steady, s.inserted, s.pruned, Latest(s.entries), s.wall)])
      else s
    case Finish(o) =>
      if !s.busy then s else
      s.(mem := AtEnd(s.mem, o, s.steady, |s.entries|), busy := false,
         log := s.log + [Ended(s.steady, s.inserted, s.pruned, o)],
         notices := s.notices + if Clean(o) && o.deployed then [o.words] else [])
  }

  function Run(cfg: Config, s: State, evs: seq<Event>): (s': State)
  {
    if evs == [] then s else Apply(cfg, Run(cfg, s, evs[..|evs| - 1]), evs[|evs| - 1])
  }

  // ---- Reading a record ----------------------------------------------------

  /** When the runner was last started or a round last ended, thrown or not. */
  function MarkTime(log: seq<Item>): (t: Option<int>)
  {
    if log == [] then None
    else if log[|log| - 1].Began? then MarkTime(log[..|log| - 1])
    else Some(log[|log| - 1].at)
  }

  /** The item at which the entry count was last recorded: a start, or a round that did not throw. */
  function MarkItem(log: seq<Item>): (i: Option<Item>)
  {
    if log == [] then None
    else
      var last := log[|log| - 1];
      if last.Started? || (last.Ended? && last.outcome.Done?) then Some(last) else MarkItem(log[..|log| - 1])
  }

  function WordsIn(log: seq<Item>): (n: nat)
  {
    if log == [] then 0
    else
      var last := log[|log| - 1];
      WordsIn(log[..|log| - 1]) + if last.Ended? && Clean(last.outcome) then last.outcome.words else 0
  }

  function RunsIn(log: seq<Item>): (n: nat)
  {
    if log == [] then 0
    else RunsIn(log[..|log| - 1]) + if log[|log| - 1].Ended? && log[|log| - 1].outcome.Done? then 1 else 0
  }

  function RoundsBegun(log: seq<Item>): (n: nat)
  {
    if log == [] then 0 else RoundsBegun(log[..|log| - 1]) + if log[|log| - 1].Began? then 1 else 0
  }

  /** What the notify hook must have been told: one call for each clean, redeployed round. */
  function NoticesIn(log: seq<Item>): (ns: seq<nat>)
  {
    if log == [] then []
    else
      var last := log[|log| - 1];
      NoticesIn(log[..|log| - 1]) +
      if last.Ended? && Clean(last.outcome) && last.outcome.deployed then [last.outcome.words] else []
  }

  /** A round may begin after `log`: enough time since the last start or end, more commits
      inserted than pruned since the count was last recorded, and a quiet user. */
  predicate Lawful(cfg: Config, log: seq<Item>, b: Item)
    requires b.Began?
  {
    && MarkTime(log).Some? && MarkItem(log).Some?
    && (cfg.minInterval > 0 ==> b.at - MarkTime(log).value >= cfg.minInterval)
    && b.inserted - MarkItem(log).value.inserted > b.pruned - MarkItem(log).value.pruned
    && (cfg.idle > 0 && b.latest.Some? ==> b.wall - b.latest.value >= cfg.idle)
  }

  /** One item follows another: time does not go back, and a round ends before anything else
      is recorded. */
  predicate Follows(last: Item, next: Item)
  {
    last.at <= next.at && (last.Began? <==> next.Ended?)
  }

  predicate LawfulLog(cfg: Config, log: seq<Item>)
  {
    log == [] ||
    var init, last := log[..|log| - 1], log[|log| - 1];
    && LawfulLog(cfg, init)
    && (if init == [] then last.Started? else Follows(init[|init| - 1], last))
    && (last.Began? ==> Lawful(cfg, init, last))
  }

  // ---- The invariant -------------------------------------------------------

  ghost predicate Inv(cfg: Config, s: State)
  {
    && |s.entries| == s.inserted - s.pruned
    && LawfulLog(cfg, s.log)
    && (s.log != [] ==> s.log[|s.log| - 1].at <= s.steady)
    && (s.busy <==> s.log != [] && s.log[|s.log| - 1].Began?)
    && (s.busy ==> s.started)
    && (s.started ==> MarkTime(s.log) == Some(s.mem.lastRoundAt))
    && (s.started ==> (MarkItem(s.log).Some? &&
          s.mem.lastCount == MarkItem(s.log).value.inserted - MarkItem(s.log).value.pruned))
    && s.mem.totalWords == WordsIn(s.log) % U64_SIZE
    && s.mem.totalRuns == RunsIn(s.log) % U64_SIZE
    && s.notices == NoticesIn(s.log)
  }

  lemma LogGrows(cfg: Config, log: seq<Item>, i: Item)
    requires LawfulLog(cfg, log)
    requires if log == [] then i.Started? else Follows(log[|log| - 1], i)
    requires i.Began? ==> Lawful(cfg, log, i)
    ensures var log' := log + [i];
            && LawfulLog(cfg, log')
            && MarkTime(log') == (if i.Began? then MarkTime(log) else Some(i.at))
            && MarkItem(log') == (if i.Started? || (i.Ended? && i.outcome.Done?) then Some(i) else MarkItem(log))
            && WordsIn(log') == WordsIn(log) + (if i.Ended? && Clean(i.outcome) then i.outcome.words else 0)
            && RunsIn(log') == RunsIn(log) + (if i.Ended? && i.outcome.Done? then 1 else 0)
            && NoticesIn(log') == NoticesIn(log) +
               (if i.Ended? && Clean(i.outcome) && i.outcome.deployed then [i.outcome.words] else [])
  {
    assert (log + [i])[..|log|] == log;
    hide Lawful, Clean;
  }

  lemma StepStart(cfg: Config, s: State)
    requires Inv(cfg, s) && !s.started
    ensures Inv(cfg, Apply(cfg, s, StartCall))
  {
    var i := Started(s.steady, s.inserted, s.pruned);
    LogGrows(cfg, s.log, i);
    hide LawfulLog, MarkTime, MarkItem, WordsIn, RunsIn, NoticesIn;
    assert s.notices + [] == s.notices;
  }

  lemma StepWake(cfg: Config, s: State)
    requires Inv(cfg, s)
    ensures Inv(cfg, Apply(cfg, s, Wake))
  {
    var s' := Apply(cfg, s, Wake);
    hide LawfulLog, MarkTime, MarkItem, WordsIn, RunsIn, NoticesIn, Latest;
    if s' != s {
      var i := Began(s.steady, s.inserted, s.pruned, Latest(s.entries), s.wall);
      LogNonEmpty(s.log);
      LogGrows(cfg, s.log, i);
      assert s.notices + [] == s.notices;
    }
  }

  lemma LogNonEmpty(log: seq<Item>)
    ensures MarkTime(log).Some? ==> log != []
  {
  }

  lemma AddWords(total: nat, n: nat)
    ensures (total % U64_SIZE + n) % U64_SIZE == (total + n) % U64_SIZE
  {
  }

  lemma StepFinish(cfg: Config, s: State, o: Outcome)
    requires Inv(cfg, s) && s.busy
    ensures Inv(cfg, Apply(cfg, s, Finish(o)))
  {
    hide LawfulLog, MarkTime, MarkItem, WordsIn, RunsIn, NoticesIn;
    LogGrows(cfg, s.log, Ended(s.steady, s.inserted, s.pruned, o));
    AddWords(RunsIn(s.log), 1);
    if Clean(o) { AddWords(WordsIn(s.log), o.words); }
  }

  lemma StepKeepsInv(cfg: Config, s: State, ev: Event)
    requires Inv(cfg, s)
    ensures Inv(cfg, Apply(cfg, s, ev))
  {
    match ev
    case StartCall => if !s.started { StepStart(cfg, s); }
    case Wake => StepWake(cfg, s);
    case Finish(o) => if s.busy { StepFinish(cfg, s, o); }
    case _ => hide LawfulLog, MarkTime, MarkItem, WordsIn, RunsIn, NoticesIn, Surviving;
  }

  /** Over every run: the record is lawful, and the totals and notices are what it says. */
  lemma {:induction false} RunsAreLawful(cfg: Config, steady: int, wall: int, evs: seq<Event>)
    ensures Inv(cfg, Run(cfg, Initial(steady, wall), evs))
    decreases |evs|
  {
    if evs == [] {
    } else {
      RunsAreLawful(cfg, steady, wall, evs[..|evs| - 1]);
      hide Inv, Apply;
      StepKeepsInv(cfg, Run(cfg, Initial(steady, wall), evs[..|evs| - 1]), evs[|evs| - 1]);
    }
  }

  // ---- Main results --------------------------------------------------------

  /** In every run, waking begins a round if and only if the runner is started, not stopped and
      not in a round, more commits were inserted than pruned since the count was recorded, the
      interval has passed since the last start or end of a round, and the latest commit is old
      enough; otherwise it changes nothing. */
  lemma WakeBeginsExactlyWhen(cfg: Config, steady: int, wall: int, evs: seq<Event>)
    ensures var s := Run(cfg, Initial(steady, wall), evs);
            var s', mark, since := Apply(cfg, s, Wake), MarkItem(s.log), MarkTime(s.log);
            var begins := && s.started && !s.stop && !s.busy && mark.Some? && since.Some?
                          && s.inserted - mark.value.inserted > s.pruned - mark.value.pruned
                          && (cfg.minInterval <= 0 || s.steady >= since.value + cfg.minInterval)
                          && (cfg.idle <= 0 || s.entries == []
                              || forall i :: 0 <= i < |s.entries| ==> s.wall >= s.entries[i] + cfg.idle);
            && (begins ==> s'.busy &&
                           s'.log == s.log + [Began(s.steady, s.inserted, s.pruned, Latest(s.entries), s.wall)])
            && (!begins ==> s' == s)
  {
    RunsAreLawful(cfg, steady, wall, evs);
    hide Run, LawfulLog, MarkItem, MarkTime, Latest;
  }

  // ---- Starting and stopping -----------------------------------------------

  /** Nobody calls Start. */
  predicate NoStart(evs: seq<Event>)
  {
    forall i :: 0 <= i < |evs| ==> !evs[i].StartCall?
  }

  predicate Halted(s: State)
  {
    !s.started || s.stop
  }

  lemma HaltedStays(cfg: Config, s: State, ev: Event)
    requires Halted(s) && !ev.StartCall?
    ensures Halted(Apply(cfg, s, ev)) && RoundsBegun(Apply(cfg, s, ev).log) == RoundsBegun(s.log)
  {
    match ev
    case Finish(o) => if s.busy { EndedIsNoBegin(s.log, Ended(s.steady, s.inserted, s.pruned, o)); } hide Clean, AtEnd;
    case _ => hide Surviving;
  }

  lemma EndedIsNoBegin(log: seq<Item>, i: Item)
    requires !i.Began?
    ensures RoundsBegun(log + [i]) == RoundsBegun(log)
  {
    assert (log + [i])[..|log|] == log;
  }

  /** Once Stop was called, no round begins until Start is called again. */
  lemma {:induction false} StopStops(cfg: Config, s: State, more: seq<Event>)
    requires NoStart(more)
    ensures var s' := Run(cfg, Apply(cfg, s, StopCall), more);
            Halted(s') && RoundsBegun(s'.log) == RoundsBegun(s.log)
    decreases |more|
  {
    var halted := Apply(cfg, s, StopCall);
    if more == [] {
    } else {
      StopStops(cfg, s, more[..|more| - 1]);
      hide Apply, Halted;
      HaltedStays(cfg, Run(cfg, halted, more[..|more| - 1]), more[|more| - 1]);
    }
  }

  /** A started runner that is stopped, ends the round it may be in and exits can be started
      again: it remembers the time and the count of that start. */
  lemma Restarts(cfg: Config, s: State, o: Outcome)
    requires s.started
    ensures var ended := Apply(cfg, Apply(cfg, s, StopCall), Finish(o));
            var s' := Apply(cfg, Apply(cfg, ended, Exit), StartCall);
            && !Apply(cfg, ended, Exit).started && s'.started && !s'.stop && !s'.busy
            && s'.mem.lastRoundAt == s.steady && s'.mem.lastCount == |s.entries|
            && s'.log == ended.log + [Started(s.steady, s.inserted, s.pruned)]
  {
    hide Clean;
  }

  /** Pruning removes exactly what is older, whatever the order. */
  lemma {:induction false} SurvivingAre(entries: seq<int>, before: int, t: int)
    ensures multiset(Surviving(entries, before))[t] == if t < before then 0 else multiset(entries)[t]
    decreases |entries|
  {
    if entries == [] {
    } else {
      SurvivingAre(entries[..|entries| - 1], before, t);
      assert entries == entries[..|entries| - 1] + [entries[|entries| - 1]];
    }
  }

  // ---- What the rounds keep to ---------------------------------------------

  lemma {:induction false} LawfulAt(cfg: Config, log: seq<Item>, i: nat)
    requires LawfulLog(cfg, log) && i < |log|
    ensures LawfulLog(cfg, log[..i]) && (log[i].Began? ==> Lawful(cfg, log[..i], log[i]))
    decreases |log|
  {
    hide Lawful;
    if i >= |log| - 1 {
    } else {
      LawfulAt(cfg, log[..|log| - 1], i);
      assert log[..|log| - 1][..i] == log[..i];
    }
  }

  /** Every round of every run begins with more commits inserted than pruned since the count
      was last recorded, no sooner than the interval after the last start or end of a round
      (thrown ones too), and with the latest commit old enough. */
  lemma EveryRoundPassedItsGates(cfg: Config, steady: int, wall: int, evs: seq<Event>, i: nat)
    requires var log := Run(cfg, Initial(steady, wall), evs).log; i < |log| && log[i].Began?
    ensures var log := Run(cfg, Initial(steady, wall), evs).log; Lawful(cfg, log[..i], log[i])
  {
    RunsAreLawful(cfg, steady, wall, evs);
    hide Run;
    LawfulAt(cfg, Run(cfg, Initial(steady, wall), evs).log, i);
  }

  lemma OneMore(n: nat, m: int)
    ensures (n + 1) * m == n * m + m
  {
  }

  lemma {:induction false} RateOfLog(cfg: Config, log: seq<Item>)
    requires LawfulLog(cfg, log) && log != [] && cfg.minInterval > 0
    ensures RoundsBegun(log) * cfg.minInterval <= log[|log| - 1].at - log[0].at
    decreases |log|
  {
    if |log| == 1 {
      assert log[..0] == [];
      assert RoundsBegun(log) == 0;
    } else {
      var init := log[..|log| - 1];
      RateOfLog(cfg, init);
      OneMore(RoundsBegun(init), cfg.minInterval);
    }
  }

  /** However often it is woken, stopped and restarted, the runner begins no more rounds than
      fit the time since it was first started. */
  lemma RoundRate(cfg: Config, steady: int, wall: int, evs: seq<Event>)
    requires cfg.minInterval > 0 && Run(cfg, Initial(steady, wall), evs).log != []
    ensures var s := Run(cfg, Initial(steady, wall), evs);
            s.log[0].Started? && RoundsBegun(s.log) * cfg.minInterval <= s.steady - s.log[0].at
  {
    RunsAreLawful(cfg, steady, wall, evs);
    hide Run, Lawful;
    var s := Run(cfg, Initial(steady, wall), evs);
    RateOfLog(cfg, s.log);
    FirstIsStart(cfg, s.log);
  }

  lemma {:induction false} FirstIsStart(cfg: Config, log: seq<Item>)
    requires LawfulLog(cfg, log) && log != []
    ensures log[0].Started?
    decreases |log|
  {
    hide Lawful;
    if |log| <= 1 {
    } else {
      FirstIsStart(cfg, log[..|log| - 1]);
    }
  }

  /** total_words_learned is the sum over the clean rounds that wrote words, and the notify
      hook was called for exactly those that were also redeployed. */
  lemma TotalsAndNotices(cfg: Config, steady: int, wall: int, evs: seq<Event>)
    ensures var s := Run(cfg, Initial(steady, wall), evs);
            && s.mem.totalWords == WordsIn(s.log) % U64_SIZE
            && s.mem.totalRuns == RunsIn(s.log) % U64_SIZE
            && s.notices == NoticesIn(s.log)
            && |s.notices| <= RunsIn(s.log)
  {
    RunsAreLawful(cfg, steady, wall, evs);
    hide Run, LawfulLog;
    FewerNotices(Run(cfg, Initial(steady, wall), evs).log);
  }

  lemma {:induction false} FewerNotices(log: seq<Item>)
    ensures |NoticesIn(log)| <= RunsIn(log)
    decreases |log|
  {
    if log == [] {
    } else {
      FewerNotices(log[..|log| - 1]);
    }
  }

  /** The count gate is not "any new commit": a waking runner passes it if and only if more
      commits were inserted than pruned since the count was recorded. */
  lemma CountGateIsNet(cfg: Config, steady: int, wall: int, evs: seq<Event>)
    requires Run(cfg, Initial(steady, wall), evs).started
    ensures var s := Run(cfg, Initial(steady, wall), evs);
            var mark := MarkItem(s.log);
            && mark.Some?
            && (|s.entries| > s.mem.lastCount <==> s.inserted - mark.value.inserted > s.pruned - mark.value.pruned)
  {
    RunsAreLawful(cfg, steady, wall, evs);
    hide Run, LawfulLog, MarkItem;
  }

  /** The concrete case: one commit known at the start, pruned, and a new one typed. However
      much time passes, waking does nothing. */
  lemma PruneHidesNewCommit(cfg: Config, wall: int, d: nat)
    ensures var before := Run(cfg, Initial(0, wall), [Insert(0), StartCall, Prune(1), Insert(2), Elapse(d)]);
            |before.entries| == 1 && before.entries[0] == 2 && Apply(cfg, before, Wake) == before
  {
    var s0 := Initial(0, wall);
    var evs := [Insert(0), StartCall, Prune(1), Insert(2), Elapse(d)];
    RunSnoc(cfg, s0, evs, 0);
    RunSnoc(cfg, s0, evs, 1);
    RunSnoc(cfg, s0, evs, 2);
    RunSnoc(cfg, s0, evs, 3);
    RunSnoc(cfg, s0, evs, 4);
    hide Run, Latest;
    assert evs[..5] == evs;
    assert Run(cfg, s0, evs[..0]) == s0 by { assert evs[..0] == []; RunNone(cfg, s0); }
    assert [] + [0] == [0] && Surviving([0], 1) == [] by { assert [0][..0] == []; }
    assert [] + [2] == [2];
  }

  predicate NoPrune(evs: seq<Event>)
  {
    forall i :: 0 <= i < |evs| ==> !evs[i].Prune?
  }

  /** As the program is today, nothing prunes; then every count is a count of inserts. */
  lemma {:induction false} NothingPruned(cfg: Config, s: State, evs: seq<Event>)
    requires NoPrune(evs) && s.pruned == 0 && forall i :: 0 <= i < |s.log| ==> s.log[i].pruned == 0
    ensures Run(cfg, s, evs).pruned == 0
    ensures forall i :: 0 <= i < |Run(cfg, s, evs).log| ==> Run(cfg, s, evs).log[i].pruned == 0
    decreases |evs|
  {
    if evs == [] {
    } else {
      NothingPruned(cfg, s, evs[..|evs| - 1]);
      hide Apply;
      NothingPrunedNow(cfg, Run(cfg, s, evs[..|evs| - 1]), evs[|evs| - 1]);
    }
  }

  lemma NothingPrunedNow(cfg: Config, s: State, ev: Event)
    requires !ev.Prune? && s.pruned == 0 && forall i :: 0 <= i < |s.log| ==> s.log[i].pruned == 0
    ensures Apply(cfg, s, ev).pruned == 0
    ensures forall i :: 0 <= i < |Apply(cfg, s, ev).log| ==> Apply(cfg, s, ev).log[i].pruned == 0
  {
    hide Due, AtEnd, AtStart, Latest, Clean;
    var log := Apply(cfg, s, ev).log;
    if log != s.log { assert log[|s.log|].pruned == 0; }
  }

  lemma {:induction false} MarkInLog(log: seq<Item>)
    ensures MarkItem(log).Some? ==> MarkItem(log).value in log
    decreases |log|
  {
    if log == [] {
    } else {
      MarkInLog(log[..|log| - 1]);
    }
  }

  /** Without pruning the count gate passes if and only if a commit was inserted after the
      mark: the last start, or the last END of a round that did not throw. What was inserted
      while that round ran does not open it. */
  lemma CountGateWithoutPrune(cfg: Config, steady: int, wall: int, evs: seq<Event>)
    requires NoPrune(evs) && Run(cfg, Initial(steady, wall), evs).started
    ensures var s := Run(cfg, Initial(steady, wall), evs);
            var mark := MarkItem(s.log);
            mark.Some? && (|s.entries| > s.mem.lastCount <==> s.inserted > mark.value.inserted)
  {
    CountGateIsNet(cfg, steady, wall, evs);
    NothingPruned(cfg, Initial(steady, wall), evs);
    hide Run, MarkItem;
    MarkInLog(Run(cfg, Initial(steady, wall), evs).log);
  }

  /** The concrete case: a commit inserted while a round runs is counted at its end, whether
      or not the round has scanned it, and waking does nothing until another one comes. */
  lemma CommitDuringRoundIsNotNew(cfg: Config, d: nat, wall: int, o: Outcome, later: nat, wall': int)
    requires d >= cfg.minInterval && wall - 1 >= cfg.idle && o.Done?
    ensures var s := Run(cfg, Initial(0, 0), [StartCall, Insert(1), Elapse(d), SetWall(wall), Wake, Insert(2),
                                              Finish(o),
                                              Elapse(later), SetWall(wall')]);
            && |s.log| == 3 && s.log[1].Began? && s.log[1].inserted == 1 && s.log[2].Ended? && s.log[2].inserted == 2
            && |s.entries| == 2 && s.entries[1] == 2 && Apply(cfg, s, Wake) == s
  {
    var s0 := Initial(0, 0);
    var evs := [StartCall, Insert(1), Elapse(d), SetWall(wall), Wake, Insert(2), Finish(o),
                Elapse(later), SetWall(wall')];
    hide Run, Apply;
    var s1, s2 := Apply(cfg, s0, StartCall), Apply(cfg, Apply(cfg, s0, StartCall), Insert(1));
    var s3, s4 := Apply(cfg, s2, Elapse(d)), Apply(cfg, Apply(cfg, s2, Elapse(d)), SetWall(wall));
    var s5, s6 := Apply(cfg, s4, Wake), Apply(cfg, Apply(cfg, s4, Wake), Insert(2));
    var s7, s8 := Apply(cfg, s6, Finish(o)), Apply(cfg, Apply(cfg, s6, Finish(o)), Elapse(later));
    RunNone(cfg, s0);
    RunSnoc(cfg, s0, evs, 0);
    RunSnoc(cfg, s0, evs, 1);
    RunSnoc(cfg, s0, evs, 2);
    RunSnoc(cfg, s0, evs, 3);
    RunSnoc(cfg, s0, evs, 4);
    RunSnoc(cfg, s0, evs, 5);
    RunSnoc(cfg, s0, evs, 6);
    RunSnoc(cfg, s0, evs, 7);
    RunSnoc(cfg, s0, evs, 8);
    assert evs[..9] == evs && evs[..0] == [];
    RoundBegins(cfg, d, wall);
    RoundSwallows(cfg, s4, d, wall, o, later, wall');
  }

  lemma RoundBegins(cfg: Config, d: nat, wall: int)
    ensures var s := Apply(cfg, Apply(cfg, Apply(cfg, Apply(cfg, Initial(0, 0), StartCall), Insert(1)), Elapse(d)),
                          SetWall(wall));
            s == State(Memory(0, 0, 0, 0), true, false, false, [1], 1, 0, d, wall, [Started(0, 0, 0)], [])
  {
    assert [] + [1] == [1] && [] + [Started(0, 0, 0)] == [Started(0, 0, 0)];
  }

  lemma RoundSwallows(cfg: Config, s: State, d: nat, wall: int, o: Outcome, later: nat, wall': int)
    requires d >= cfg.minInterval && wall - 1 >= cfg.idle && o.Done?
    requires s == State(Memory(0, 0, 0, 0), true, false, false, [1], 1, 0, d, wall, [Started(0, 0, 0)], [])
    ensures var e := Apply(cfg, Apply(cfg, Apply(cfg, s, Wake), Insert(2)), Finish(o));
            var s' := Apply(cfg, Apply(cfg, e, Elapse(later)), SetWall(wall'));
            && |s'.log| == 3 && s'.log[1].Began? && s'.log[1].inserted == 1
            && s'.log[2].Ended? && s'.log[2].inserted == 2
            && |s'.entries| == 2 && s'.entries[1] == 2 && Apply(cfg, s', Wake) == s'
  {
    LatestOfOne(1);
    hide Latest, Clean;
    var b := Apply(cfg, s, Wake);
    assert b.busy && b.log == [Started(0, 0, 0), Began(d, 1, 0, Some(1), wall)] && b.entries == [1];
    var e := Apply(cfg, Apply(cfg, b, Insert(2)), Finish(o));
    assert e.entries == [1, 2] && e.mem.lastCount == 2 && !e.busy;
  }

  lemma LatestOfOne(t: int)
    ensures Latest([t]) == Some(t)
  {
  }

  lemma RunNone(cfg: Config, s: State)
    ensures Run(cfg, s, []) == s
  {
  }

  lemma RunSnoc(cfg: Config, s: State, evs: seq<Event>, k: nat)
    requires k < |evs|
    ensures Run(cfg, s, evs[..k + 1]) == Apply(cfg, Run(cfg, s, evs[..k]), evs[k])
  {
    assert evs[..k + 1][..k] == evs[..k];
    hide Apply;
  }
}
