/** The streaming n-gram walk and the windowed word discovery count the same thing: the two
    implementations walk one history with different state and must agree on every pair. */
module Agreement {
  import opened Bytes
  import opened Utf8
  import opened History
  import opened Ngram
  import opened NewWord

  // ---- Pieces of a text ----------------------------------------------------

  /** A character, with bytes after it that start no character. */
  predicate IsPiece(p: bytes)
  {
    CharLen(p) > 0 && CharLen(p[CharLen(p)..]) == 0
  }

  function Head(p: bytes): (c: bytes)
    ensures IsChar(p) ==> c == p
  {
    p[..CharLen(p)]
  }

  lemma {:induction false} RestStops(s: bytes)
    ensures CharLen(Rest(s)) == 0
    decreases |s|
  {
    hide CharLen;
    if CharLen(s) == 0 {
    } else {
      CharsTail(s);
      RestStops(s[CharLen(s)..]);
    }
  }

  lemma LeadByte(p: bytes)
    requires CharLen(p) > 0
    ensures p != [] && !IsContinuation(p[0])
  {
  }

  lemma InsideByte(c: bytes, i: nat)
    requires IsChar(c) && 1 <= i < |c|
    ensures IsContinuation(c[i])
  {
  }

  /** A character that starts with some bytes and goes on with text starts with none. */
  lemma NoSplit(r: bytes, y: bytes, b: bytes)
    requires IsChar(b) && b == r + y && CharLen(y) > 0
    ensures r == []
  {
    hide CharLen;
    LeadByte(y);
    ByteAt(r, y);
    if r != [] { InsideByte(b, |r|); }
  }

  lemma ByteAt(r: bytes, y: bytes)
    requires y != []
    ensures (r + y)[|r|] == y[0]
  {
  }

  lemma HeadOf(x: bytes, tail: bytes, a: bytes, b: bytes)
    requires IsPiece(x) && IsChar(a) && x + tail == a + b
    ensures |a| <= |x| && x == a + x[|a|..] && b == x[|a|..] + tail
  {
    var h := Head(x);
    PrefixIsChar(x);
    assert x == h + x[|h|..];
    CharThen(h, x[|h|..] + tail);
    CharThen(a, b);
    Joined(h, x[|h|..], tail);
    assert h == (x + tail)[..|h|] && a == (x + tail)[..|a|];
    assert b == (x + tail)[|a|..] == x[|a|..] + tail;
  }

  /** Two pieces spell two characters only by being them. */
  lemma TwoPieces(x: bytes, y: bytes, a: bytes, b: bytes)
    requires IsPiece(x) && IsPiece(y) && IsChar(a) && IsChar(b)
    ensures x + y == a + b <==> x == a && y == b
  {
    if x + y == a + b {
      HeadOf(x, y, a, b);
      NoSplit(x[|a|..], y, b);
    }
  }

  /** Three pieces never do. */
  lemma ThreePieces(x: bytes, y: bytes, z: bytes, a: bytes, b: bytes)
    requires IsPiece(x) && IsPiece(y) && IsPiece(z) && IsChar(a) && IsChar(b)
    ensures x + (y + z) != a + b
  {
    if x + (y + z) == a + b {
      HeadOf(x, y + z, a, b);
      Joined(x[|a|..], y, z);
      NoSplit(x[|a|..] + y, z, b);
      LeadByte(y);
    }
  }

  // ---- The two token walks -------------------------------------------------

  /** `cut` is made of pieces, and `bare` of their characters. */
  ghost predicate Match(cut: seq<Token>, bare: seq<Token>)
  {
    |cut| == |bare| && forall i :: 0 <= i < |cut| ==> IsPiece(cut[i].ch) && bare[i].ch == Head(cut[i].ch)
  }

  lemma CharIsPiece(c: bytes)
    requires IsChar(c)
    ensures IsPiece(c)
  {
  }

  lemma LastPiece(c: bytes, rest: bytes)
    requires IsChar(c) && CharLen(rest) == 0
    ensures IsPiece(c + rest) && Head(c + rest) == c
  {
    CharThen(c, rest);
  }

  lemma CutMatches(e: Entry)
    ensures Match(Cut(e), CharTokens(e))
  {
    CharsCover(e.text);
    RestStops(e.text);
    var cs := Chars(e.text);
    hide Chars, Rest, IsPiece, CharLen;
    forall i | 0 <= i < |cs|
      ensures IsPiece(Cut(e)[i].ch) && Head(Cut(e)[i].ch) == cs[i]
    {
      assert IsChar(cs[i]);
      CharIsPiece(cs[i]);
      LastPiece(cs[i], Rest(e.text));
    }
  }

  ghost predicate AllMatch(cuts: seq<seq<Token>>, bares: seq<seq<Token>>)
  {
    |cuts| == |bares| && forall r :: 0 <= r < |cuts| ==> Match(cuts[r], bares[r])
  }

  ghost predicate WalksMatch(w: Walk, v: Walk)
  {
    AllMatch(w.closed, v.closed) && Match(w.run, v.run) && w.prev == v.prev
  }

  lemma {:induction false} SameChains(es: seq<Entry>, gap: u64)
    ensures WalksMatch(WalkOf(es, Cut, gap), WalkOf(es, CharTokens, gap))
    decreases |es|
  {
    hide Cut, CharTokens, IsPiece, Head;
    if es == [] {
    } else {
      SameChains(es[..|es| - 1], gap);
      CutMatches(es[|es| - 1]);
    }
  }

  lemma ChainsMatch(es: seq<Entry>, gap: u64)
    ensures AllMatch(Chains(es, Cut, gap), Chains(es, CharTokens, gap))
  {
    SameChains(es, gap);
    hide WalkOf, IsPiece, Head;
  }

  // ---- Counting in one run -------------------------------------------------

  /** The neighbours whose first characters the stream sees but of which one is not a whole
      character, so that discovery spells something longer. */
  function Blurred(run: seq<Token>): (ps: seq<Bigram>)
  {
    if |run| < 2 then [] else
    var x, y := run[|run| - 2].ch, run[|run| - 1].ch;
    Blurred(run[..|run| - 1]) + if IsChar(x) && IsChar(y) then [] else [(Head(x), Head(y))]
  }

  function AllBlurred(runs: seq<seq<Token>>): (ps: seq<Bigram>)
  {
    if runs == [] then [] else AllBlurred(runs[..|runs| - 1]) + Blurred(runs[|runs| - 1])
  }

  lemma {:induction false} SpellingConcat(ws: seq<Window>, vs: seq<Window>, t: bytes)
    ensures Spelling(ws + vs, t) == Spelling(ws, t) + Spelling(vs, t)
    decreases |vs|
  {
    if vs == [] {
      assert ws + vs == ws;
    } else {
      SpellingConcat(ws, vs[..|vs| - 1], t);
      assert (ws + vs)[..|ws + vs| - 1] == ws + vs[..|vs| - 1];
    }
  }

  lemma {:induction false} OccurrencesConcat<T>(xs: seq<T>, ys: seq<T>, x: T)
    ensures Occurrences(xs + ys, x) == Occurrences(xs, x) + Occurrences(ys, x)
    decreases |ys|
  {
    if ys == [] {
      assert xs + ys == xs;
    } else {
      OccurrencesConcat(xs, ys[..|ys| - 1], x);
      assert (xs + ys)[..|xs + ys| - 1] == xs + ys[..|ys| - 1];
    }
  }

  lemma OccurrencesOne<T>(y: T, x: T)
    ensures Occurrences([y], x) == if y == x then 1 else 0
  {
    assert [y][..0] == [];
  }

  lemma SpellingOne(w: Window, t: bytes)
    ensures |Spelling([w], t)| == if w.text == t then 1 else 0
  {
    assert [w][..0] == [];
  }

  lemma Flat2(x: bytes, y: bytes)
    ensures Flat([x, y]) == x + y
  {
    FlatSnoc([], x);
    FlatSnoc([x], y);
    assert [] + [x] == [x] && [x] + [y] == [x, y] && [] + x == x;
  }

  lemma Flat3(x: bytes, y: bytes, z: bytes)
    ensures Flat([x, y, z]) == x + (y + z)
  {
    Flat2(x, y);
    FlatSnoc([x, y], z);
    assert [x, y] + [z] == [x, y, z];
    Joined(x, y, z);
  }

  lemma TextOf2(toks: seq<Token>)
    requires |toks| == 2
    ensures WindowOf(toks).text == toks[0].ch + toks[1].ch
  {
    Flat2(toks[0].ch, toks[1].ch);
    assert Texts(toks) == [toks[0].ch, toks[1].ch];
  }

  lemma TextOf3(toks: seq<Token>)
    requires |toks| == 3
    ensures WindowOf(toks).text == toks[0].ch + (toks[1].ch + toks[2].ch)
  {
    Flat3(toks[0].ch, toks[1].ch, toks[2].ch);
    assert Texts(toks) == [toks[0].ch, toks[1].ch, toks[2].ch];
  }

  lemma NeighboursInit(run: seq<Token>)
    requires |run| >= 2
    ensures Neighbours(run) == Neighbours(run[..|run| - 1]) + [(run[|run| - 2].ch, run[|run| - 1].ch)]
  {
  }

  lemma MatchInit(cut: seq<Token>, bare: seq<Token>)
    requires Match(cut, bare) && cut != []
    ensures Match(cut[..|cut| - 1], bare[..|bare| - 1])
  {
  }

  /** One step of the count: the last neighbours of a run. */
  lemma LastPair(x: Token, y: Token, a: bytes, b: bytes)
    requires IsPiece(x.ch) && IsPiece(y.ch) && IsChar(a) && IsChar(b)
    ensures var whole := IsChar(x.ch) && IsChar(y.ch);
            var seen := (Head(x.ch), Head(y.ch)) == (a, b);
            WindowOf([x, y]).text == a + b <==> whole && seen
  {
    hide CharLen;
    TextOf2([x, y]);
    TwoPieces(x.ch, y.ch, a, b);
  }

  /** In one run: stream count = window count + blurred count. */
  lemma {:induction false} RunCounts(cut: seq<Token>, bare: seq<Token>, a: bytes, b: bytes)
    requires Match(cut, bare) && IsChar(a) && IsChar(b)
    ensures Occurrences(Neighbours(bare), (a, b)) ==
            |Spelling(Windows(cut, 2), a + b)| + Occurrences(Blurred(cut), (a, b))
    decreases |cut|
  {
    hide IsChar, Match;
    MatchLength(cut, bare);
    if |cut| < 2 {
      FewTokens(cut, bare, a, b);
    } else {
      MatchInit(cut, bare);
      hide Neighbours, Windows, Spelling, Blurred, Occurrences;
      RunCounts(cut[..|cut| - 1], bare[..|bare| - 1], a, b);
      RunCountsStep(cut, bare, a, b);
    }
  }

  lemma MatchLength(cut: seq<Token>, bare: seq<Token>)
    requires Match(cut, bare)
    ensures |cut| == |bare|
  {
  }

  lemma FewTokens(cut: seq<Token>, bare: seq<Token>, a: bytes, b: bytes)
    requires |cut| == |bare| < 2
    ensures Occurrences(Neighbours(bare), (a, b)) == 0 ==
            |Spelling(Windows(cut, 2), a + b)| + Occurrences(Blurred(cut), (a, b))
  {
  }

  lemma RunCountsStep(cut: seq<Token>, bare: seq<Token>, a: bytes, b: bytes)
    requires Match(cut, bare) && IsChar(a) && IsChar(b) && |cut| >= 2
    ensures var c, d := cut[..|cut| - 1], bare[..|bare| - 1];
            Occurrences(Neighbours(bare), (a, b)) - Occurrences(Neighbours(d), (a, b))
            == |Spelling(Windows(cut, 2), a + b)| - |Spelling(Windows(c, 2), a + b)|
             + Occurrences(Blurred(cut), (a, b)) - Occurrences(Blurred(c), (a, b))
  {
    hide IsChar, CharLen, IsPiece, Head, Windows, Neighbours, Blurred, WindowOf, Spelling, Occurrences;
    var n := |cut|;
    var x, y := cut[n - 2], cut[n - 1];
    var hx, hy := Head(x.ch), Head(y.ch);
    WindowsSnoc(cut, 2);
    NeighboursInit(bare);
    assert cut[n - 2..] == [x, y];
    LastPair(x, y, a, b);
    BlurredLast(cut, IsChar(x.ch) && IsChar(y.ch), (hx, hy), (a, b));
    SpellingConcat(Windows(cut[..n - 1], 2), [WindowOf([x, y])], a + b);
    SpellingOne(WindowOf([x, y]), a + b);
    OccurrencesConcat(Neighbours(bare[..n - 1]), [(hx, hy)], (a, b));
    OccurrencesOne((hx, hy), (a, b));
  }

  lemma BlurredLast(run: seq<Token>, whole: bool, p: Bigram, q: Bigram)
    requires |run| >= 2 && whole == (IsChar(run[|run| - 2].ch) && IsChar(run[|run| - 1].ch))
    requires p == (Head(run[|run| - 2].ch), Head(run[|run| - 1].ch))
    ensures Occurrences(Blurred(run), q)
         == Occurrences(Blurred(run[..|run| - 1]), q) + if !whole && p == q then 1 else 0
  {
    hide CharLen, Head;
    OccurrencesConcat(Blurred(run[..|run| - 1]), if whole then [] else [p], q);
    OccurrencesOne(p, q);
  }

  /** No window of three tokens spells two characters. */
  lemma {:induction false} NoTrigramSpells(cut: seq<Token>, bare: seq<Token>, a: bytes, b: bytes)
    requires Match(cut, bare) && IsChar(a) && IsChar(b)
    ensures Spelling(Windows(cut, 3), a + b) == []
    decreases |cut|
  {
    if |cut| < 3 {
    } else {
      var n := |cut|;
      var last := cut[n - 3..];
      MatchInit(cut, bare);
      NoTrigramSpells(cut[..n - 1], bare[..n - 1], a, b);
      TextOf3(last);
      ThreePieces(last[0].ch, last[1].ch, last[2].ch, a, b);
      hide Windows, WindowOf, IsPiece, CharLen;
      SpellingConcat(Windows(cut[..n - 1], 3), [WindowOf(last)], a + b);
      SpellingOne(WindowOf(last), a + b);
    }
  }

  lemma RunWindowCounts(cut: seq<Token>, bare: seq<Token>, cfg: Config, a: bytes, b: bytes)
    requires Match(cut, bare) && IsChar(a) && IsChar(b) && cfg.bigrams
    ensures Occurrences(Neighbours(bare), (a, b)) ==
            |Spelling(RunWindows(cut, cfg), a + b)| + Occurrences(Blurred(cut), (a, b))
  {
    RunCounts(cut, bare, a, b);
    NoTrigramSpells(cut, bare, a, b);
    hide Windows, Spelling, Match, CharLen, Occurrences;
    SpellingConcat(Windows(cut, 2), if cfg.trigrams then Windows(cut, 3) else [], a + b);
    SpellingNone(a + b);
  }

  lemma SpellingNone(t: bytes)
    ensures Spelling([], t) == []
  {
  }

  // ---- Counting over all runs ----------------------------------------------

  lemma {:induction false} AllCounts(cuts: seq<seq<Token>>, bares: seq<seq<Token>>, cfg: Config, a: bytes, b: bytes)
    requires AllMatch(cuts, bares) && IsChar(a) && IsChar(b) && cfg.bigrams
    ensures Occurrences(AllNeighbours(bares), (a, b))
         == |Spelling(AllWindows(cuts, cfg), a + b)| + Occurrences(AllBlurred(cuts), (a, b))
    decreases |cuts|
  {
    hide Match, CharLen, Spelling, Occurrences, Neighbours, RunWindows, Blurred;
    if cuts == [] {
      SpellingNone(a + b);
      OccurrencesNone((a, b));
    } else {
      var n := |cuts| - 1;
      AllCounts(cuts[..n], bares[..n], cfg, a, b);
      RunWindowCounts(cuts[n], bares[n], cfg, a, b);
      SpellingConcat(AllWindows(cuts[..n], cfg), RunWindows(cuts[n], cfg), a + b);
      OccurrencesConcat(AllNeighbours(bares[..n]), Neighbours(bares[n]), (a, b));
      OccurrencesConcat(AllBlurred(cuts[..n]), Blurred(cuts[n]), (a, b));
    }
  }

  lemma OccurrencesNone<T>(x: T)
    ensures Occurrences([], x) == 0
  {
  }

  /** Every neighbour in every chain is a whole character. */
  predicate WholeNeighbours(runs: seq<seq<Token>>)
  {
    forall r, i :: 0 <= r < |runs| && |runs[r]| >= 2 && 0 <= i < |runs[r]| ==> IsChar(runs[r][i].ch)
  }

  lemma {:induction false} BlurredNone(run: seq<Token>)
    ensures Blurred(run) == [] <==> (|run| >= 2 ==> forall i :: 0 <= i < |run| ==> IsChar(run[i].ch))
    decreases |run|
  {
    hide IsChar, Head;
    if |run| < 2 {
    } else {
      var init := run[..|run| - 1];
      BlurredNone(init);
      assert forall i :: 0 <= i < |init| ==> init[i] == run[i];
    }
  }

  lemma {:induction false} AllBlurredNone(runs: seq<seq<Token>>)
    ensures AllBlurred(runs) == [] <==> WholeNeighbours(runs)
    decreases |runs|
  {
    hide IsChar, Blurred;
    if runs == [] {
    } else {
      AllBlurredNone(runs[..|runs| - 1]);
      BlurredNone(runs[|runs| - 1]);
    }
  }

  lemma {:induction false} BlurredAreChars(cut: seq<Token>, bare: seq<Token>)
    requires Match(cut, bare)
    ensures forall k :: 0 <= k < |Blurred(cut)| ==> IsChar(Blurred(cut)[k].0) && IsChar(Blurred(cut)[k].1)
    decreases |cut|
  {
    hide CharLen;
    if |cut| < 2 {
    } else {
      MatchInit(cut, bare);
      BlurredAreChars(cut[..|cut| - 1], bare[..|bare| - 1]);
      PrefixIsChar(cut[|cut| - 2].ch);
      PrefixIsChar(cut[|cut| - 1].ch);
    }
  }

  lemma {:induction false} AllBlurredAreChars(cuts: seq<seq<Token>>, bares: seq<seq<Token>>)
    requires AllMatch(cuts, bares)
    ensures forall k :: 0 <= k < |AllBlurred(cuts)| ==> IsChar(AllBlurred(cuts)[k].0) && IsChar(AllBlurred(cuts)[k].1)
    decreases |cuts|
  {
    hide IsChar, Match, Blurred;
    if cuts == [] {
    } else {
      AllBlurredAreChars(cuts[..|cuts| - 1], bares[..|bares| - 1]);
      BlurredAreChars(cuts[|cuts| - 1], bares[|bares| - 1]);
    }
  }

  // ---- Main results --------------------------------------------------------

  /** How often the stream counts (a, b) more than discovery does. */
  lemma CountsDiffer(es: seq<Entry>, cfg: Config, a: bytes, b: bytes)
    requires IsChar(a) && IsChar(b) && cfg.bigrams && cfg.gap == CHAIN_GAP_US
    ensures Occurrences(StreamOf(es).pairs, (a, b))
         == |Spelling(AllWindows(Chains(es, Cut, cfg.gap), cfg), a + b)|
          + Occurrences(AllBlurred(Chains(es, Cut, cfg.gap)), (a, b))
  {
    StreamIsNeighbours(es);
    ChainsMatch(es, cfg.gap);
    hide StreamOf, WalkOf, CharLen, AllWindows;
    AllCounts(Chains(es, Cut, cfg.gap), Chains(es, CharTokens, cfg.gap), cfg, a, b);
  }

  lemma Witness(ps: seq<Bigram>)
    requires ps != []
    ensures Occurrences(ps, ps[|ps| - 1]) > 0
  {
  }

  ghost predicate AgreeOnPairs(es: seq<Entry>, cfg: Config)
  {
    forall a, b :: IsChar(a) && IsChar(b) ==>
      Occurrences(StreamOf(es).pairs, (a, b)) == |Spelling(AllWindows(Chains(es, Cut, cfg.gap), cfg), a + b)|
  }

  /** The two walks agree on every pair of characters if and only if every token that has a
      neighbour in its chain is a whole character. */
  lemma AgreeExactlyWhen(es: seq<Entry>, cfg: Config)
    requires cfg.bigrams && cfg.gap == CHAIN_GAP_US
    ensures AgreeOnPairs(es, cfg) <==> WholeNeighbours(Chains(es, Cut, cfg.gap))
  {
    var runs := Chains(es, Cut, cfg.gap);
    var extra := AllBlurred(runs);
    AllBlurredNone(runs);
    ChainsMatch(es, cfg.gap);
    AllBlurredAreChars(runs, Chains(es, CharTokens, cfg.gap));
    hide StreamOf, Chains, Spelling, AllWindows, IsChar, WholeNeighbours, AllBlurred;
    if extra == [] {
      forall a, b | IsChar(a) && IsChar(b)
        ensures Occurrences(StreamOf(es).pairs, (a, b)) == |Spelling(AllWindows(runs, cfg), a + b)|
      {
        CountsDiffer(es, cfg, a, b);
        OccurrencesNone((a, b));
      }
    } else {
      var (a, b) := extra[|extra| - 1];
      Witness(extra);
      CountsDiffer(es, cfg, a, b);
    }
  }

  lemma {:induction false} WholeWalk(es: seq<Entry>, gap: u64)
    requires forall i :: 0 <= i < |es| ==> WellFormed(es[i].text)
    ensures var w := WalkOf(es, Cut, gap); AllWhole(w.run) && forall r :: 0 <= r < |w.closed| ==> AllWhole(w.closed[r])
    decreases |es|
  {
    if es == [] {
    } else {
      WholeWalk(es[..|es| - 1], gap);
      WholeCut(es[|es| - 1]);
      hide Cut, CharLen, Rest;
    }
  }

  predicate AllWhole(run: seq<Token>)
  {
    forall i :: 0 <= i < |run| ==> IsChar(run[i].ch)
  }

  lemma WholeCut(e: Entry)
    requires WellFormed(e.text)
    ensures AllWhole(Cut(e))
  {
    CharsCover(e.text);
    hide Chars, CharLen, Rest;
  }

  lemma WellFormedIsWhole(es: seq<Entry>, gap: u64)
    requires forall i :: 0 <= i < |es| ==> WellFormed(es[i].text)
    ensures WholeNeighbours(Chains(es, Cut, gap))
  {
    WholeWalk(es, gap);
    hide IsChar, WalkOf, Rest;
  }

  lemma WordFrequency(words: seq<Word>, scanned: seq<Window>, cfg: Config, i: nat)
    requires IsDiscovery(words, scanned, cfg) && i < |words|
    ensures words[i].frequency == |Spelling(scanned, words[i].text)| % U32_SIZE
  {
    hide Spelling, Qualifies, Outranks;
    assert Describing(words[i], scanned);
  }

  lemma PairAgrees(es: seq<Entry>, cfg: Config, a: bytes, b: bytes)
    requires AgreeOnPairs(es, cfg) && IsChar(a) && IsChar(b)
    ensures Occurrences(StreamOf(es).pairs, (a, b)) == |Spelling(AllWindows(Chains(es, Cut, cfg.gap), cfg), a + b)|
  {
  }

  /** On well-formed texts in one common order, the table the stream fills and the words
      discovery returns give the same count for every pair of characters. */
  lemma TableAgreesWithWords(sort: seq<Entry> -> seq<Entry>, recent: seq<Entry>, cfg: Config,
                             words: seq<Word>, a: bytes, b: bytes)
    requires cfg.bigrams && cfg.gap == CHAIN_GAP_US && IsChar(a) && IsChar(b)
    requires forall i :: 0 <= i < |sort(recent)| ==> WellFormed(sort(recent)[i].text)
    requires IsDiscovery(words, Scanned(sort, recent, cfg), cfg)
    ensures var n := Count(BumpAll(map[], StreamOf(sort(recent)).pairs), a, b);
            && n == |Spelling(Scanned(sort, recent, cfg), a + b)| % U32_SIZE
            && forall i :: 0 <= i < |words| && words[i].text == a + b ==> words[i].frequency == n
  {
    hide WholeNeighbours, StreamOf, Chains, Spelling, AllWindows, IsChar, BumpAll, Occurrences,
      IsDiscovery, AgreeOnPairs, Rest;
    var es := sort(recent);
    WellFormedIsWhole(es, cfg.gap);
    AgreeExactlyWhen(es, cfg);
    PairAgrees(es, cfg, a, b);
    CountIsOccurrences(map[], StreamOf(es).pairs, a, b);
    forall i | 0 <= i < |words| && words[i].text == a + b
      ensures words[i].frequency == |Spelling(Scanned(sort, recent, cfg), a + b)| % U32_SIZE
    {
      WordFrequency(words, Scanned(sort, recent, cfg), cfg, i);
    }
  }

  /** The concrete failing case: "a" with a stray byte, then "b". The stream counts (a, b);
      discovery sees only the three-byte string with the stray byte inside. */
  lemma StrayByteDisagrees(cfg: Config)
    requires cfg.bigrams && cfg.gap == CHAIN_GAP_US
    ensures var es := [Entry(0, [], [0x61, 0xFF]), Entry(0, [], [0x62])];
            !AgreeOnPairs(es, cfg)
  {
    hide Cut, CharLen, AgreeOnPairs;
    var e, f := Entry(0, [], [0x61, 0xFF]), Entry(0, [], [0x62]);
    StrayCuts(e, f);
    var run := Cut(e) + Cut(f);
    OneRun(e, f, cfg.gap);
    assert !IsChar([run][0][0].ch);
    AgreeExactlyWhen([e, f], cfg);
  }

  lemma OneRun(e: Entry, f: Entry, gap: u64)
    requires e.ts == f.ts && Cut(e) != []
    ensures Chains([e, f], Cut, gap) == [Cut(e) + Cut(f)]
  {
    hide Cut;
    WalkSnoc([e], f, Cut, gap);
    WalkSnoc([], e, Cut, gap);
    assert [] + [e] == [e] && [e] + [f] == [e, f] && [] + Cut(e) == Cut(e);
    assert WalkOf([], Cut, gap) == Walk([], [], 0);
  }

  lemma StrayCuts(e: Entry, f: Entry)
    requires e.text == [0x61, 0xFF] && f.text == [0x62]
    ensures |Cut(e)| == 1 && Cut(e)[0].ch == e.text && !IsChar(e.text) && |Cut(f)| == 1
  {
    var s, t := e.text, f.text;
    assert CharLen(s) == 1 && s[..1] == [0x61] && s[1..] == [0xFF] && CharLen([0xFF]) == 0;
    assert Chars(s) == [[0x61]] && Rest(s) == [0xFF];
    assert CharLen(t) == 1 && t[..1] == t && t[1..] == [];
    assert Chars(t) == [t];
  }
}
