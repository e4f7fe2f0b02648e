/** The commit history as the learning pipeline reads it, and its division into chains:
    runs of characters typed with no pause longer than a gap. */
module History {
  import opened Bytes

  const CHAIN_GAP_US: u64 := 2_000_000

  datatype Entry = Entry(ts: u64, code: bytes, text: bytes)

  ghost predicate SortedByTime(es: seq<Entry>)
  {
    forall i, j :: 0 <= i < j < |es| ==> es[i].ts <= es[j].ts
  }

  /** std::sort by time: some fixed function of its input, free in the order of ties. */
  ghost predicate IsSorter(sort: seq<Entry> -> seq<Entry>)
  {
    forall es :: SortedByTime(sort(es)) && multiset(sort(es)) == multiset(es)
  }

  /** The subtraction the pause test makes, in 64 unsigned bits. */
  function Since(now: u64, before: u64): (d: u64)
  {
    (now - before) % U64_SIZE
  }

  // ---- Tokens and runs -----------------------------------------------------

  /** A character, the code attributed to it, and the time of its commit. */
  datatype Token = Token(ch: bytes, code: bytes, ts: u64)

  /** Runs that are closed, the run in progress, and the time of the last entry. */
  datatype Walk = Walk(closed: seq<seq<Token>>, run: seq<Token>, prev: u64)

  function Extend(w: Walk, e: Entry, toks: seq<Token>, gap: u64): (w': Walk)
  {
    if w.run != [] && Since(e.ts, w.prev) > gap
    then Walk(w.closed + [w.run], toks, e.ts)
    else Walk(w.closed, w.run + toks, e.ts)
  }

  function WalkOf(es: seq<Entry>, cut: Entry -> seq<Token>, gap: u64): (w: Walk)
  {
    if es == [] then Walk([], [], 0)
    else Extend(WalkOf(es[..|es| - 1], cut, gap), es[|es| - 1], cut(es[|es| - 1]), gap)
  }

  function RunsOf(w: Walk): (runs: seq<seq<Token>>)
  {
    if w.run == [] then w.closed else w.closed + [w.run]
  }

  /** The chains of a history in time order. */
  function Chains(es: seq<Entry>, cut: Entry -> seq<Token>, gap: u64): (runs: seq<seq<Token>>)
  {
    RunsOf(WalkOf(es, cut, gap))
  }

  lemma WalkSnoc(es: seq<Entry>, e: Entry, cut: Entry -> seq<Token>, gap: u64)
    ensures WalkOf(es + [e], cut, gap) == Extend(WalkOf(es, cut, gap), e, cut(e), gap)
  {
    assert (es + [e])[..|es|] == es;
  }

  /** In time order the subtraction never wraps where it is tested. */
  lemma {:induction false} PauseIsExact(es: seq<Entry>, cut: Entry -> seq<Token>, gap: u64)
    requires SortedByTime(es) && es != []
    ensures var w := WalkOf(es[..|es| - 1], cut, gap);
            w.run != [] ==> Since(es[|es| - 1].ts, w.prev) == es[|es| - 1].ts - w.prev
  {
    var init := es[..|es| - 1];
    if init == [] {
    } else {
      assert WalkOf(init, cut, gap).prev == init[|init| - 1].ts;
    }
  }

  lemma {:induction false} ClosedNonEmpty(es: seq<Entry>, cut: Entry -> seq<Token>, gap: u64)
    ensures forall r :: 0 <= r < |WalkOf(es, cut, gap).closed| ==> WalkOf(es, cut, gap).closed[r] != []
    ensures forall r :: 0 <= r < |Chains(es, cut, gap)| ==> Chains(es, cut, gap)[r] != []
    decreases |es|
  {
    if es == [] {
    } else {
      ClosedNonEmpty(es[..|es| - 1], cut, gap);
      ClosedStays(WalkOf(es[..|es| - 1], cut, gap), es[|es| - 1], cut(es[|es| - 1]), gap);
    }
  }

  lemma ClosedStays(w: Walk, e: Entry, toks: seq<Token>, gap: u64)
    requires forall r :: 0 <= r < |w.closed| ==> w.closed[r] != []
    ensures forall r :: 0 <= r < |Extend(w, e, toks, gap).closed| ==> Extend(w, e, toks, gap).closed[r] != []
  {
  }

  // ---- What the chains are -------------------------------------------------

  /** All tokens of the entries, in order. */
  function TokensOf(es: seq<Entry>, cut: Entry -> seq<Token>): (toks: seq<Token>)
  {
    if es == [] then [] else TokensOf(es[..|es| - 1], cut) + cut(es[|es| - 1])
  }

  function AllTokens(runs: seq<seq<Token>>): (toks: seq<Token>)
  {
    if runs == [] then [] else AllTokens(runs[..|runs| - 1]) + runs[|runs| - 1]
  }

  /** A run starts at token number `g`, counting through all of them. */
  predicate StartsAt(runs: seq<seq<Token>>, g: nat)
  {
    exists r :: 0 < r < |runs| && |AllTokens(runs[..r])| == g
  }

  /** A pause longer than the gap comes just before the token number `g`. */
  ghost predicate PauseAt(es: seq<Entry>, cut: Entry -> seq<Token>, gap: u64, g: nat)
  {
    exists k :: BreaksAt(es, cut, gap, k, g)
  }

  /** Entry number `k` comes after such a pause, and `g` tokens come before it. */
  predicate BreaksAt(es: seq<Entry>, cut: Entry -> seq<Token>, gap: u64, k: nat, g: nat)
  {
    0 < k < |es| && Since(es[k].ts, es[k - 1].ts) > gap && |TokensOf(es[..k], cut)| == g
  }

  lemma AllTokensSnoc(runs: seq<seq<Token>>, run: seq<Token>)
    ensures AllTokens(runs + [run]) == AllTokens(runs) + run
  {
    assert (runs + [run])[..|runs|] == runs;
  }

  /** The walk in the middle: nothing lost, and runs were closed at the pauses. */
  ghost predicate WalkRight(es: seq<Entry>, cut: Entry -> seq<Token>, gap: u64, w: Walk)
  {
    && AllTokens(w.closed) + w.run == TokensOf(es, cut)
    && (es != [] ==> w.prev == es[|es| - 1].ts)
    && (w.closed != [] && w.run == [] ==> |TokensOf(es, cut)| == |AllTokens(w.closed)|)
    && forall g: nat :: g > 0 ==> (ClosedAt(w.closed, g) <==> PauseAt(es, cut, gap, g))
  }

  predicate ClosedAt(closed: seq<seq<Token>>, g: nat)
  {
    exists r :: 0 < r <= |closed| && |AllTokens(closed[..r])| == g
  }

  lemma PauseSnoc(es: seq<Entry>, e: Entry, cut: Entry -> seq<Token>, gap: u64, g: nat)
    requires es != []
    ensures PauseAt(es + [e], cut, gap, g) <==>
            PauseAt(es, cut, gap, g) || (Since(e.ts, es[|es| - 1].ts) > gap && |TokensOf(es, cut)| == g)
  {
    var all := es + [e];
    forall k: nat
      ensures BreaksAt(all, cut, gap, k, g) <==>
              BreaksAt(es, cut, gap, k, g)
              || (k == |es| && Since(e.ts, es[|es| - 1].ts) > gap && |TokensOf(es, cut)| == g)
    {
      BreakSnoc(es, e, cut, gap, k, g);
    }
    hide BreaksAt, TokensOf, Since;
    if Since(e.ts, es[|es| - 1].ts) > gap && |TokensOf(es, cut)| == g { assert BreaksAt(all, cut, gap, |es|, g); }
  }

  lemma BreakSnoc(es: seq<Entry>, e: Entry, cut: Entry -> seq<Token>, gap: u64, k: nat, g: nat)
    requires es != []
    ensures BreaksAt(es + [e], cut, gap, k, g) <==>
            BreaksAt(es, cut, gap, k, g)
            || (k == |es| && Since(e.ts, es[|es| - 1].ts) > gap && |TokensOf(es, cut)| == g)
  {
    var all := es + [e];
    hide TokensOf, Since;
    if 0 < k < |all| {
      assert all[..k] == if k < |es| then es[..k] else es;
    }
  }

  lemma ClosedSnoc(closed: seq<seq<Token>>, run: seq<Token>, g: nat)
    ensures ClosedAt(closed + [run], g) <==> ClosedAt(closed, g) || |AllTokens(closed)| + |run| == g
  {
    var all, n := closed + [run], |closed|;
    AllTokensSnoc(closed, run);
    hide AllTokens;
    assert all[..n + 1] == all;
    assert forall r :: 0 < r <= n ==> all[..r] == closed[..r];
    if ClosedAt(closed, g) {
      var r :| 0 < r <= |closed| && |AllTokens(closed[..r])| == g;
      assert |AllTokens(all[..r])| == g;
    }
  }

  lemma ClosedEnd(closed: seq<seq<Token>>)
    requires closed != []
    ensures ClosedAt(closed, |AllTokens(closed)|)
  {
    assert closed[..|closed|] == closed;
  }

  lemma WalkRightNext(es: seq<Entry>, e: Entry, cut: Entry -> seq<Token>, gap: u64, w: Walk)
    requires es != [] && WalkRight(es, cut, gap, w)
    ensures WalkRight(es + [e], cut, gap, Extend(w, e, cut(e), gap))
  {
    var all, w' := es + [e], Extend(w, e, cut(e), gap);
    TokensOfSnoc(es, e, cut);
    AllTokensSnoc(w.closed, w.run);
    hide AllTokens, TokensOf, Since, PauseAt, ClosedAt;
    assert AllTokens(w.closed) + w.run + [] == AllTokens(w.closed) + w.run;
    forall g: nat | g > 0
      ensures ClosedAt(w'.closed, g) <==> PauseAt(all, cut, gap, g)
    {
      BoundaryNext(es, e, cut, gap, w, g);
    }
  }

  lemma TokensOfSnoc(es: seq<Entry>, e: Entry, cut: Entry -> seq<Token>)
    ensures TokensOf(es + [e], cut) == TokensOf(es, cut) + cut(e)
  {
    assert (es + [e])[..|es|] == es;
  }

  lemma BoundaryNext(es: seq<Entry>, e: Entry, cut: Entry -> seq<Token>, gap: u64, w: Walk, g: nat)
    requires es != [] && w.prev == es[|es| - 1].ts && g > 0
    requires AllTokens(w.closed) + w.run == TokensOf(es, cut)
    requires ClosedAt(w.closed, g) <==> PauseAt(es, cut, gap, g)
    ensures ClosedAt(Extend(w, e, cut(e), gap).closed, g) <==> PauseAt(es + [e], cut, gap, g)
  {
    PauseSnoc(es, e, cut, gap, g);
    ClosedSnoc(w.closed, w.run, g);
    hide PauseAt, ClosedAt, AllTokens, TokensOf, Since;
    if w.run == [] && |TokensOf(es, cut)| == g {
      AllTokensNone();
      if w.closed != [] { ClosedEnd(w.closed); }
    }
  }

  lemma AllTokensNone()
    ensures AllTokens([]) == []
  {
  }

  lemma WalkRightFirst(e: Entry, cut: Entry -> seq<Token>, gap: u64)
    ensures WalkRight([e], cut, gap, WalkOf([e], cut, gap))
  {
    assert [e][..0] == [];
    assert WalkOf([], cut, gap) == Walk([], [], 0) && [] + cut(e) == cut(e);
    assert TokensOf([e], cut) == TokensOf([], cut) + cut(e);
  }

  lemma {:induction false} WalkIsRight(es: seq<Entry>, cut: Entry -> seq<Token>, gap: u64)
    requires es != []
    ensures WalkRight(es, cut, gap, WalkOf(es, cut, gap))
    decreases |es|
  {
    hide WalkRight;
    if |es| == 1 {
      assert es == [es[0]];
      WalkRightFirst(es[0], cut, gap);
    } else {
      var init, e := es[..|es| - 1], es[|es| - 1];
      assert es == init + [e];
      WalkIsRight(init, cut, gap);
      WalkSnoc(init, e, cut, gap);
      WalkRightNext(init, e, cut, gap, WalkOf(init, cut, gap));
    }
  }

  /** The chains hold all tokens in order, each once, and a new chain starts exactly where a
      pause longer than the gap comes before a token; no chain is empty. */
  lemma ChainsAre(es: seq<Entry>, cut: Entry -> seq<Token>, gap: u64)
    ensures var runs := Chains(es, cut, gap);
            && AllTokens(runs) == TokensOf(es, cut)
            && (forall r :: 0 <= r < |runs| ==> runs[r] != [])
            && forall g: nat :: 0 < g < |TokensOf(es, cut)| ==> (StartsAt(runs, g) <==> PauseAt(es, cut, gap, g))
  {
    ClosedNonEmpty(es, cut, gap);
    if es == [] {
    } else {
      WalkIsRight(es, cut, gap);
      var w := WalkOf(es, cut, gap);
      AllTokensSnoc(w.closed, w.run);
      hide WalkOf, TokensOf;
      forall g: nat | 0 < g < |TokensOf(es, cut)|
        ensures StartsAt(Chains(es, cut, gap), g) <==> PauseAt(es, cut, gap, g)
      {
        StartsWhereClosed(w, g);
        hide PauseAt, StartsAt, ClosedAt;
        assert ClosedAt(w.closed, g) <==> PauseAt(es, cut, gap, g);
      }
    }
  }

  lemma StartsWhereClosed(w: Walk, g: nat)
    requires g < |AllTokens(w.closed) + w.run|
    ensures StartsAt(RunsOf(w), g) <==> ClosedAt(w.closed, g)
  {
    var runs, n := RunsOf(w), |w.closed|;
    hide AllTokens;
    assert forall r :: 0 < r <= n ==> runs[..r] == w.closed[..r];
    if ClosedAt(w.closed, g) {
      var r :| 0 < r <= n && |AllTokens(w.closed[..r])| == g;
      assert w.closed[..n] == w.closed;
      assert |AllTokens(runs[..r])| == g;
      assert r < |runs|;
    }
  }

  // ---- Adjacent characters -------------------------------------------------

  type Bigram = (bytes, bytes)

  /** What the streaming walk emits for the characters `cs`, coming from `prev` (empty: none). */
  function Emit(prev: bytes, cs: seq<bytes>): (ps: seq<Bigram>)
    decreases cs
  {
    if cs == [] then []
    else (if prev != [] then [(prev, cs[0])] else []) + Emit(cs[0], cs[1..])
  }

  function Texts(run: seq<Token>): (cs: seq<bytes>)
    ensures |cs| == |run|
  {
    seq(|run|, i requires 0 <= i < |run| => run[i].ch)
  }

  /** The neighbours of a run, in order. */
  function Neighbours(run: seq<Token>): (ps: seq<Bigram>)
    ensures |ps| == if run == [] then 0 else |run| - 1
  {
    if run == [] then []
    else seq(|run| - 1, i requires 0 <= i < |run| - 1 => (run[i].ch, run[i + 1].ch))
  }

  function AllNeighbours(runs: seq<seq<Token>>): (ps: seq<Bigram>)
  {
    if runs == [] then [] else AllNeighbours(runs[..|runs| - 1]) + Neighbours(runs[|runs| - 1])
  }

  lemma NeighboursSnoc(runs: seq<seq<Token>>, run: seq<Token>)
    ensures AllNeighbours(runs + [run]) == AllNeighbours(runs) + Neighbours(run)
  {
    assert (runs + [run])[..|runs|] == runs;
  }

  function LastChar(run: seq<Token>): (c: bytes)
  {
    if run == [] then [] else run[|run| - 1].ch
  }

  predicate AllNonEmpty(run: seq<Token>)
  {
    forall i :: 0 <= i < |run| ==> run[i].ch != []
  }

  lemma Regrouped(a: seq<Bigram>, b: seq<Bigram>, c: seq<Bigram>)
    ensures a + b + c == a + (b + c)
  {
  }

  lemma NeighboursNext(run: seq<Token>, tok: Token)
    ensures Neighbours(run + [tok]) == Neighbours(run) + if run == [] then [] else [(LastChar(run), tok.ch)]
  {
  }

  lemma EmitNext(from: bytes, toks: seq<Token>)
    requires toks != []
    ensures Emit(from, Texts(toks)) ==
            (if from != [] then [(from, toks[0].ch)] else []) + Emit(toks[0].ch, Texts(toks[1..]))
  {
    assert Texts(toks)[1..] == Texts(toks[1..]);
  }

  lemma {:induction false} EmitExtends(run: seq<Token>, toks: seq<Token>)
    requires AllNonEmpty(run) && AllNonEmpty(toks)
    ensures Neighbours(run + toks) == Neighbours(run) + Emit(LastChar(run), Texts(toks))
    decreases |toks|
  {
    if toks == [] {
      assert run + toks == run && Neighbours(run) + [] == Neighbours(run);
    } else {
      var run' := run + [toks[0]];
      assert run + toks == run' + toks[1..] && AllNonEmpty(run');
      NeighboursNext(run, toks[0]);
      EmitNext(LastChar(run), toks);
      hide Neighbours, Emit, Texts;
      EmitExtends(run', toks[1..]);
      Regrouped(Neighbours(run), if run == [] then [] else [(LastChar(run), toks[0].ch)],
                Emit(toks[0].ch, Texts(toks[1..])));
    }
  }
}
