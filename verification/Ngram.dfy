/** The personal bigram table and the streaming walk that fills it from the history
    (src/daemon/ngram.cc). */
module Ngram {
  import opened Bytes
  import opened Utf8
  import opened History

  type Table = map<bytes, map<bytes, u32>>

  function Count(t: Table, a: bytes, b: bytes): (n: u32)
  {
    if a in t && b in t[a] then t[a][b] else 0
  }

  function Followers(t: Table, a: bytes): (m: map<bytes, u32>)
  {
    if a in t then t[a] else map[]
  }

  /** ++map[a][b] on 32-bit counts. */
  function Bump(t: Table, a: bytes, b: bytes): (t': Table)
    ensures Count(t', a, b) == (Count(t, a, b) + 1) % U32_SIZE
    ensures forall c, d :: (c, d) != (a, b) ==> Count(t', c, d) == Count(t, c, d)
  {
    var n: u32 := (Count(t, a, b) + 1) % U32_SIZE;
    t[a := Followers(t, a)[b := n]]
  }

  function BumpAll(t: Table, ps: seq<Bigram>): (t': Table)
  {
    if ps == [] then t else Bump(BumpAll(t, ps[..|ps| - 1]), ps[|ps| - 1].0, ps[|ps| - 1].1)
  }

  lemma BumpAllSnoc(t: Table, ps: seq<Bigram>, p: Bigram)
    ensures BumpAll(t, ps + [p]) == Bump(BumpAll(t, ps), p.0, p.1)
  {
    assert (ps + [p])[..|ps|] == ps;
  }

  function Occurrences<T(==)>(xs: seq<T>, x: T): (n: nat)
  {
    if xs == [] then 0 else Occurrences(xs[..|xs| - 1], x) + (if xs[|xs| - 1] == x then 1 else 0)
  }

  // ---- The table -----------------------------------------------------------

  class NgramTable {
    var table: Table

    constructor ()
      ensures table == map[]
    {
      table := map[];
    }

    method IncrementBigram(a: bytes, b: bytes)
      modifies this
      ensures table == if a == [] || b == [] then old(table) else Bump(old(table), a, b)
    {
      if a == [] || b == [] { return; }
      if a !in table { table := table[a := map[]]; }
      var followers: map<bytes, u32> := table[a];
      if b !in followers { followers := followers[b := 0]; }
      followers := followers[b := (followers[b] + 1) % U32_SIZE];
      table := table[a := followers];
      assert followers == Followers(old(table), a)[b := followers[b]];
      assert table == old(table)[a := followers];
    }

    method BigramCount(a: bytes, b: bytes) returns (n: u32)
      ensures n == Count(table, a, b)
    {
      if a !in table { return 0; }
      n := if b in table[a] then table[a][b] else 0;
    }
  }

  // ---- The streaming walk --------------------------------------------------

  /** Bigrams emitted so far, the last character (empty: none), and the last entry's time. */
  datatype Stream = Stream(pairs: seq<Bigram>, prev: bytes, prevTs: u64)

  function CharTokens(e: Entry): (toks: seq<Token>)
  {
    seq(|Chars(e.text)|, i requires 0 <= i < |Chars(e.text)| => Token(Chars(e.text)[i], [], e.ts))
  }

  function Kept(st: Stream, e: Entry): (prev: bytes)
  {
    if st.prev != [] && Since(e.ts, st.prevTs) > CHAIN_GAP_US then [] else st.prev
  }

  function StreamStep(st: Stream, e: Entry): (st': Stream)
  {
    var cs := Chars(e.text);
    Stream(st.pairs + Emit(Kept(st, e), cs), if cs == [] then Kept(st, e) else cs[|cs| - 1], e.ts)
  }

  function StreamOf(es: seq<Entry>): (st: Stream)
  {
    if es == [] then Stream([], [], 0) else StreamStep(StreamOf(es[..|es| - 1]), es[|es| - 1])
  }

  /** The inner loop: one entry's characters, coming from `from`. */
  method EmitEntry(text: bytes, ngrams: NgramTable, from: bytes) returns (last: bytes, increments: nat)
    modifies ngrams
    ensures ngrams.table == BumpAll(old(ngrams.table), Emit(from, Chars(text)))
    ensures increments == |Emit(from, Chars(text))|
    ensures last == if Chars(text) == [] then from else Chars(text)[|Chars(text)| - 1]
  {
    hide BumpAll, Bump, Chars, CharLen, Emit;
    last, increments := from, 0;
    var i := 0;
    ghost var rest := text;
    ghost var seen: seq<bytes> := [];
    assert text[0..] == text && [] + Chars(text) == Chars(text);
    EmitNone(from);
    BumpNone(ngrams.table);
    while i < |text|
      invariant 0 <= i <= |text| && rest == text[i..] && Chars(text) == seen + Chars(rest)
      invariant last == if seen == [] then from else seen[|seen| - 1]
      invariant ngrams.table == BumpAll(old(ngrams.table), Emit(from, seen)) && increments == |Emit(from, seen)|
      decreases |text| - i
    {
      var n := Utf8Len(text, i);
      if n == 0 { break; }
      var ch := text[i..i + n];
      assert ch == rest[..n];
      WalkStep(rest, seen);
      BumpNext(old(ngrams.table), from, seen, ch);
      if last != [] {
        ngrams.IncrementBigram(last, ch);
        increments := increments + 1;
      }
      last := ch;
      seen := seen + [ch];
      rest := rest[n..];
      i := i + n;
    }
    WalkEnds(text, rest, seen);
  }

  lemma EmitNone(from: bytes)
    ensures Emit(from, []) == []
  {
  }

  /** One more character bumps the pair it makes with the one before, if there is one. */
  lemma BumpNext(t: Table, from: bytes, seen: seq<bytes>, ch: bytes)
    ensures var last := if seen == [] then from else seen[|seen| - 1];
            var was, now := Emit(from, seen), Emit(from, seen + [ch]);
            && BumpAll(t, now) == (if last != [] then Bump(BumpAll(t, was), last, ch) else BumpAll(t, was))
            && |now| == |was| + if last != [] then 1 else 0
  {
    var last := if seen == [] then from else seen[|seen| - 1];
    EmitSnoc(from, seen, ch);
    hide Emit, Bump, BumpAll;
    BumpAllSnoc(t, Emit(from, seen), (last, ch));
    assert Emit(from, seen) + [] == Emit(from, seen);
  }

  lemma BumpNone(t: Table)
    ensures BumpAll(t, []) == t
  {
  }

  lemma {:induction false} BumpAllConcat(t: Table, ps: seq<Bigram>, qs: seq<Bigram>)
    ensures BumpAll(t, ps + qs) == BumpAll(BumpAll(t, ps), qs)
    decreases |qs|
  {
    hide Bump;
    if qs == [] {
      assert ps + qs == ps;
    } else {
      BumpAllConcat(t, ps, qs[..|qs| - 1]);
      assert (ps + qs)[..|ps + qs| - 1] == ps + qs[..|qs| - 1];
    }
  }

  /** UpdateBigramsFromHistory over the entries the store returned. */
  method UpdateBigramsFromHistory(sort: seq<Entry> -> seq<Entry>, recent: seq<Entry>, ngrams: NgramTable)
    returns (increments: u64)
    requires IsSorter(sort)
    modifies ngrams
    ensures ngrams.table == BumpAll(old(ngrams.table), StreamOf(sort(recent)).pairs)
    ensures increments == |StreamOf(sort(recent)).pairs| % U64_SIZE
  {
    hide BumpAll, Bump, Chars, Emit, StreamOf, StreamStep, Kept, IsSorter;
    increments := 0;
    var entries := sort(recent);
    var prev: bytes, prevTs := [], 0;
    ghost var pairs: seq<Bigram> := [];
    var k := 0;
    assert entries[..0] == [];
    BumpNone(ngrams.table);
    StreamNone();
    while k < |entries|
      invariant 0 <= k <= |entries| && StreamOf(entries[..k]) == Stream(pairs, prev, prevTs)
      invariant ngrams.table == BumpAll(old(ngrams.table), pairs) && increments == |pairs| % U64_SIZE
    {
      var e := entries[k];
      StreamSnoc(entries, k);
      if prev != [] && Since(e.ts, prevTs) > CHAIN_GAP_US { prev := []; }
      BumpAllConcat(old(ngrams.table), pairs, Emit(prev, Chars(e.text)));
      pairs := pairs + Emit(prev, Chars(e.text));
      var more;
      prev, more := EmitEntry(e.text, ngrams, prev);
      AddWraps(increments, |pairs| - more, more);
      increments := (increments + more) % U64_SIZE;
      prevTs := e.ts;
      k := k + 1;
    }
    assert entries[..k] == entries;
  }

  lemma AddWraps(i: u64, n: nat, more: nat)
    requires i == n % U64_SIZE
    ensures (i + more) % U64_SIZE == (n + more) % U64_SIZE
  {
  }

  lemma StreamNone()
    ensures StreamOf([]) == Stream([], [], 0)
  {
  }

  lemma StreamSnoc(es: seq<Entry>, k: nat)
    requires k < |es|
    ensures var st, e := StreamOf(es[..k]), es[k];
            var kept, cs := if st.prev != [] && Since(e.ts, st.prevTs) > CHAIN_GAP_US then [] else st.prev,
                               Chars(e.text);
            StreamOf(es[..k + 1]) == Stream(st.pairs + Emit(kept, cs), if cs == [] then kept else cs[|cs| - 1], e.ts)
  {
    assert es[..k + 1][..k] == es[..k];
  }

  lemma {:induction false} EmitSnoc(prev: bytes, cs: seq<bytes>, c: bytes)
    ensures var last := if cs == [] then prev else cs[|cs| - 1];
            Emit(prev, cs + [c]) == Emit(prev, cs) + (if last != [] then [(last, c)] else [])
    decreases |cs|
  {
    if cs == [] {
      assert [] + [c] == [c] && Emit(c, [c][1..]) == [];
    } else {
      EmitSnoc(cs[0], cs[1..], c);
      assert (cs + [c])[0] == cs[0] && (cs + [c])[1..] == cs[1..] + [c];
      var last := cs[|cs| - 1];
      Regrouped(if prev != [] then [(prev, cs[0])] else [], Emit(cs[0], cs[1..]),
                if last != [] then [(last, c)] else []);
    }
  }

  // ---- The stream is the neighbours of the chains --------------------------

  lemma TokensAreChars(e: Entry)
    ensures Texts(CharTokens(e)) == Chars(e.text) && AllNonEmpty(CharTokens(e))
  {
    CharsCover(e.text);
    hide Chars;
  }

  ghost predicate InStep(st: Stream, w: Walk)
  {
    && st.pairs == AllNeighbours(RunsOf(w)) && st.prev == LastChar(w.run) && AllNonEmpty(w.run)
    && (w.run != [] ==> st.prevTs == w.prev)
  }

  lemma RunsNeighbours(w: Walk)
    ensures AllNeighbours(RunsOf(w)) == AllNeighbours(w.closed) + Neighbours(w.run)
  {
    NeighboursSnoc(w.closed, w.run);
    assert AllNeighbours(w.closed) + [] == AllNeighbours(w.closed);
  }

  lemma NoneEmpty()
    ensures AllNonEmpty([])
  {
  }

  lemma RunGrows(run: seq<Token>, toks: seq<Token>)
    requires AllNonEmpty(run) && AllNonEmpty(toks)
    ensures AllNonEmpty(run + toks)
    ensures LastChar(run + toks) == if toks == [] then LastChar(run) else Texts(toks)[|toks| - 1]
  {
  }

  lemma StreamStepInStep(st: Stream, w: Walk, e: Entry)
    requires InStep(st, w)
    ensures InStep(StreamStep(st, e), Extend(w, e, CharTokens(e), CHAIN_GAP_US))
  {
    TokensAreChars(e);
    var toks := CharTokens(e);
    var cs := Chars(e.text);
    var w' := Extend(w, e, toks, CHAIN_GAP_US);
    assert w.run != [] ==> LastChar(w.run) != [];
    hide CharTokens, Chars, Neighbours, AllNeighbours, Emit, Texts, AllNonEmpty, RunsOf;
    RunsNeighbours(w);
    RunsNeighbours(w');
    NoneEmpty();
    RunGrows([], toks);
    RunGrows(w.run, toks);
    if Kept(st, e) == st.prev {
      EmitExtends(w.run, toks);
      Regrouped(AllNeighbours(w.closed), Neighbours(w.run), Emit(st.prev, cs));
    } else {
      EmitExtends([], toks);
      NeighboursSnoc(w.closed, w.run);
      assert [] + toks == toks && Neighbours([]) + Emit([], cs) == Emit([], cs);
    }
  }

  /** The single-previous-character walk emits exactly the neighbours inside the chains. */
  lemma {:induction false} StreamIsNeighbours(es: seq<Entry>)
    ensures InStep(StreamOf(es), WalkOf(es, CharTokens, CHAIN_GAP_US))
    ensures StreamOf(es).pairs == AllNeighbours(Chains(es, CharTokens, CHAIN_GAP_US))
    decreases |es|
  {
    if es == [] {
    } else {
      var init := es[..|es| - 1];
      StreamIsNeighbours(init);
      StreamStepInStep(StreamOf(init), WalkOf(init, CharTokens, CHAIN_GAP_US), es[|es| - 1]);
    }
  }

  // ---- Counting ------------------------------------------------------------

  function Sizes(runs: seq<seq<Token>>): (n: nat)
  {
    if runs == [] then 0 else Sizes(runs[..|runs| - 1]) + |runs[|runs| - 1]|
  }

  function CharCount(es: seq<Entry>): (n: nat)
  {
    if es == [] then 0 else CharCount(es[..|es| - 1]) + |Chars(es[|es| - 1].text)|
  }

  lemma SizesSnoc(runs: seq<seq<Token>>, run: seq<Token>)
    ensures Sizes(runs + [run]) == Sizes(runs) + |run|
  {
    assert (runs + [run])[..|runs|] == runs;
  }

  lemma {:induction false} NeighbourCount(runs: seq<seq<Token>>)
    requires forall r :: 0 <= r < |runs| ==> runs[r] != []
    ensures |AllNeighbours(runs)| + |runs| == Sizes(runs)
    decreases |runs|
  {
    if runs == [] {
    } else {
      NeighbourCount(runs[..|runs| - 1]);
    }
  }

  lemma {:induction false} ChainsHoldEveryChar(es: seq<Entry>)
    ensures Sizes(WalkOf(es, CharTokens, CHAIN_GAP_US).closed) + |WalkOf(es, CharTokens, CHAIN_GAP_US).run|
            == CharCount(es)
    decreases |es|
  {
    if es == [] {
    } else {
      var w := WalkOf(es[..|es| - 1], CharTokens, CHAIN_GAP_US);
      ChainsHoldEveryChar(es[..|es| - 1]);
      SizesSnoc(w.closed, w.run);
    }
  }

  /** The walk increments once per character except the first of each chain. */
  lemma IncrementsCount(es: seq<Entry>)
    ensures |StreamOf(es).pairs| + |Chains(es, CharTokens, CHAIN_GAP_US)| == CharCount(es)
  {
    var w := WalkOf(es, CharTokens, CHAIN_GAP_US);
    StreamIsNeighbours(es);
    ClosedNonEmpty(es, CharTokens, CHAIN_GAP_US);
    NeighbourCount(RunsOf(w));
    ChainsHoldEveryChar(es);
    SizesSnoc(w.closed, w.run);
  }

  /** Each count is the number of times its pair was emitted, in 32 bits. */
  lemma {:induction false} CountIsOccurrences(t: Table, ps: seq<Bigram>, a: bytes, b: bytes)
    ensures Count(BumpAll(t, ps), a, b) == (Count(t, a, b) + Occurrences(ps, (a, b))) % U32_SIZE
    decreases |ps|
  {
    hide Bump, Count;
    if ps == [] {
    } else {
      var init, p := ps[..|ps| - 1], ps[|ps| - 1];
      var hit := if p == (a, b) then 1 else 0;
      assert BumpAll(t, ps) == Bump(BumpAll(t, init), p.0, p.1);
      assert Occurrences(ps, (a, b)) == Occurrences(init, (a, b)) + hit;
      hide BumpAll, Occurrences;
      CountIsOccurrences(t, init, a, b);
      CountBumped(BumpAll(t, init), p, a, b);
      WrapTwice(Count(t, a, b) + Occurrences(init, (a, b)), hit);
    }
  }

  lemma CountBumped(t: Table, p: Bigram, a: bytes, b: bytes)
    ensures Count(Bump(t, p.0, p.1), a, b) == (Count(t, a, b) + if p == (a, b) then 1 else 0) % U32_SIZE
  {
    assert p == (p.0, p.1);
    hide Count;
  }

  lemma WrapTwice(n: nat, k: nat)
    ensures (n % U32_SIZE + k) % U32_SIZE == (n + k) % U32_SIZE
  {
  }

  // ---- The sum of all counts -----------------------------------------------

  function Flatten(t: Table): (m: map<Bigram, u32>)
  {
    map a, b | a in t && b in t[a] :: (a, b) := t[a][b]
  }

  ghost function SumOver(m: map<Bigram, u32>): (n: nat)
    decreases |m|
  {
    if m == map[] then 0 else
    var k :| k in m;
    assert |m - {k}| < |m|;
    m[k] + SumOver(m - {k})
  }

  lemma {:induction false} SumRemove(m: map<Bigram, u32>, k: Bigram)
    requires k in m
    ensures SumOver(m) == m[k] + SumOver(m - {k})
    decreases |m|
  {
    var j :| j in m && SumOver(m) == m[j] + SumOver(m - {j});
    if j == k {
    } else {
      assert |m - {j}| < |m| && |m - {k}| < |m|;
      SumRemove(m - {j}, k);
      SumRemove(m - {k}, j);
      assert m - {j} - {k} == m - {k} - {j};
    }
  }

  ghost function Total(t: Table): (n: nat)
  {
    SumOver(Flatten(t))
  }

  lemma FlattenAt(t: Table, k: Bigram)
    ensures k in Flatten(t) <==> k.0 in t && k.1 in t[k.0]
    ensures k in Flatten(t) ==> Flatten(t)[k] == Count(t, k.0, k.1)
  {
    assert k == (k.0, k.1);
  }

  lemma BumpAt(t: Table, a: bytes, b: bytes, k: Bigram)
    ensures k.0 in Bump(t, a, b) && k.1 in Bump(t, a, b)[k.0] <==> k == (a, b) || (k.0 in t && k.1 in t[k.0])
  {
    assert k == (k.0, k.1);
  }

  lemma FlattenBump(t: Table, a: bytes, b: bytes, k: Bigram)
    ensures k in Flatten(Bump(t, a, b)) <==> k == (a, b) || k in Flatten(t)
    ensures k in Flatten(Bump(t, a, b)) ==>
              Flatten(Bump(t, a, b))[k] == if k == (a, b) then (Count(t, a, b) + 1) % U32_SIZE else Flatten(t)[k]
  {
    FlattenAt(t, k);
    FlattenAt(Bump(t, a, b), k);
    BumpAt(t, a, b, k);
    hide Flatten, Count;
  }

  lemma SumUpdate(m: map<Bigram, u32>, k: Bigram, n: u32)
    ensures SumOver(m[k := n]) == SumOver(m) + n - (if k in m then m[k] else 0)
  {
    SumRemove(m[k := n], k);
    if k in m {
      SumRemove(m, k);
      assert m[k := n] - {k} == m - {k};
    } else {
      assert m[k := n] - {k} == m;
    }
  }

  lemma BumpTotal(t: Table, a: bytes, b: bytes)
    requires Count(t, a, b) + 1 < U32_SIZE
    ensures Total(Bump(t, a, b)) == Total(t) + 1
  {
    FlattenAt(t, (a, b));
    hide Flatten, SumOver, Bump;
    forall k: Bigram
      ensures k in Flatten(Bump(t, a, b)) <==> k == (a, b) || k in Flatten(t)
      ensures k in Flatten(Bump(t, a, b)) ==>
                Flatten(Bump(t, a, b))[k] == if k == (a, b) then (Count(t, a, b) + 1) % U32_SIZE else Flatten(t)[k]
    {
      FlattenBump(t, a, b, k);
    }
    assert Flatten(Bump(t, a, b)) == Flatten(t)[(a, b) := Count(t, a, b) + 1];
    SumUpdate(Flatten(t), (a, b), Count(t, a, b) + 1);
  }

  /** While no count overflows, the sum of all counts grows by exactly the increments. */
  lemma {:induction false} TotalGrows(t: Table, ps: seq<Bigram>)
    requires forall a, b :: Count(t, a, b) + Occurrences(ps, (a, b)) < U32_SIZE
    ensures Total(BumpAll(t, ps)) == Total(t) + |ps|
    decreases |ps|
  {
    hide Bump, Total;
    if ps == [] {
    } else {
      var init, p := ps[..|ps| - 1], ps[|ps| - 1];
      forall a, b
        ensures Count(t, a, b) + Occurrences(init, (a, b)) < U32_SIZE
      {
        assert Occurrences(init, (a, b)) <= Occurrences(ps, (a, b));
      }
      TotalGrows(t, init);
      CountIsOccurrences(t, init, p.0, p.1);
      assert Count(t, p.0, p.1) + Occurrences(ps, (p.0, p.1)) < U32_SIZE;
      BumpTotal(BumpAll(t, init), p.0, p.1);
    }
  }
}
