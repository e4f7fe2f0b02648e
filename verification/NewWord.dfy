/** New-word discovery: the two- and three-character windows of the chains, tallied by the
    string they spell, filtered and ranked (src/daemon/new_word.cc). */
module NewWord {
  import opened Bytes
  import opened Utf8
  import opened History

  datatype Config = Config(minFrequency: u32, bigrams: bool, trigrams: bool, gap: u64)

  datatype Word = Word(text: bytes, code: bytes, frequency: u32, first: u64, last: u64)

  // ---- Cutting an entry into tokens ----------------------------------------

  /** The characters of a text; the last one keeps whatever bytes the walk left unread. */
  function Pieces(s: bytes): (ps: seq<bytes>)
    ensures |ps| == |Chars(s)|
    ensures WellFormed(s) ==> ps == Chars(s)
  {
    var cs := Chars(s);
    if cs == [] then [] else
    var last := cs[|cs| - 1];
    assert last + [] == last;
    cs[..|cs| - 1] + [last + Rest(s)]
  }

  /** A code is attributed only by an entry of exactly one character. */
  function Cut(e: Entry): (toks: seq<Token>)
  {
    var ps := Pieces(e.text);
    seq(|ps|, i requires 0 <= i < |ps| => Token(ps[i], if |ps| == 1 then e.code else [], e.ts))
  }

  lemma SliceAround<T>(xs: seq<T>, i: nat)
    requires i < |xs|
    ensures xs == xs[..i + 1] + xs[i + 1..] && xs[..i + 1] == xs[..i] + [xs[i]]
  {
  }

  lemma FlatAround(cs: seq<bytes>, i: nat)
    requires i < |cs|
    ensures Flat(cs) == Flat(cs[..i]) + (cs[i] + Flat(cs[i + 1..]))
    ensures Flat(cs[..i + 1]) == Flat(cs[..i]) + cs[i]
  {
    hide Flat;
    SliceAround(cs, i);
    FlatConcat(cs[..i + 1], cs[i + 1..]);
    FlatSnoc(cs[..i], cs[i]);
    Joined(Flat(cs[..i]), cs[i], Flat(cs[i + 1..]));
  }

  lemma Middle(a: bytes, b: bytes, c: bytes, d: bytes)
    ensures (a + (b + c) + d)[|a|..|a| + |b|] == b && (a + (b + c) + d)[|a|..] == b + (c + d)
  {
  }

  /** The substring between two start offsets is a piece. */
  lemma PieceAt(s: bytes, i: nat)
    requires i < |Chars(s)|
    ensures var offs := Starts(Chars(s));
            var end := if i + 1 < |offs| then offs[i + 1] else |s|;
            offs[i] <= end <= |s| && s[offs[i]..end] == Pieces(s)[i]
  {
    CharsCover(s);
    var cs := Chars(s);
    hide Chars, Rest, Flat;
    FlatAround(cs, i);
    Middle(Flat(cs[..i]), cs[i], Flat(cs[i + 1..]), Rest(s));
    if i + 1 == |cs| {
      assert cs[i + 1..] == [];
      FlatNone();
      assert [] + Rest(s) == Rest(s);
    }
  }

  lemma FlatNone()
    ensures Flat([]) == []
  {
  }

  /** An entry with a character in it loses no byte to the cut. */
  lemma PiecesCover(s: bytes)
    requires Chars(s) != []
    ensures Flat(Pieces(s)) == s
  {
    CharsCover(s);
    var cs := Chars(s);
    hide Chars, Rest, WellFormed;
    var init, last := cs[..|cs| - 1], cs[|cs| - 1];
    assert cs == init + [last];
    FlatSnoc(init, last);
    FlatSnoc(init, last + Rest(s));
    Joined(Flat(init), last, Rest(s));
  }

  /** An entry of one character is one token: its whole text with its code. Any other entry
      gives its pieces no code. Every token carries the entry's time. */
  lemma CutIs(e: Entry)
    ensures Texts(Cut(e)) == Pieces(e.text) && forall i :: 0 <= i < |Cut(e)| ==> Cut(e)[i].ts == e.ts
    ensures |Chars(e.text)| == 1 ==> Cut(e) == [Token(e.text, e.code, e.ts)]
    ensures |Chars(e.text)| != 1 ==> forall i :: 0 <= i < |Cut(e)| ==> Cut(e)[i].code == []
  {
    var cs := Chars(e.text);
    if |cs| == 1 {
      PiecesCover(e.text);
      hide Chars, Rest;
      assert Pieces(e.text) == [Pieces(e.text)[0]];
      assert Flat([Pieces(e.text)[0]]) == Pieces(e.text)[0] + Flat([]);
      assert Pieces(e.text)[0] == e.text;
      assert Cut(e) == [Cut(e)[0]] && Cut(e)[0] == Token(e.text, e.code, e.ts);
    }
  }

  method EntryToTokens(e: Entry) returns (toks: seq<Token>)
    ensures toks == Cut(e)
  {
    hide Chars, Starts, Rest, WellFormed;
    toks := [];
    var s := e.text;
    var offs := CharOffsets(s);
    var singleChar := |offs| == 1;
    var i := 0;
    while i < |offs|
      invariant 0 <= i <= |offs| && toks == Cut(e)[..i]
    {
      PieceAt(s, i);
      var end := if i + 1 < |offs| then offs[i + 1] else |s|;
      toks := toks + [Token(s[offs[i]..end], if singleChar then e.code else [], e.ts)];
      i := i + 1;
    }
  }

  // ---- Windows -------------------------------------------------------------

  /** A stretch of adjacent tokens: what it spells, its code (empty unless every token has
      one) and the time of its first token. */
  datatype Window = Window(text: bytes, code: bytes, ts: u64)

  function Codes(toks: seq<Token>): (cs: seq<bytes>)
    ensures |cs| == |toks|
  {
    seq(|toks|, i requires 0 <= i < |toks| => toks[i].code)
  }

  predicate AllCoded(toks: seq<Token>)
  {
    forall i :: 0 <= i < |toks| ==> toks[i].code != []
  }

  function WindowOf(toks: seq<Token>): (w: Window)
    requires toks != []
  {
    Window(Flat(Texts(toks)), if AllCoded(toks) then Flat(Codes(toks)) else [], toks[0].ts)
  }

  /** The windows of `span` adjacent tokens, in order. */
  function Windows(run: seq<Token>, span: nat): (ws: seq<Window>)
    requires span > 0
  {
    if |run| < span then [] else Windows(run[..|run| - 1], span) + [WindowOf(run[|run| - span..])]
  }

  lemma WindowsSnoc(run: seq<Token>, span: nat)
    requires 0 < span <= |run|
    ensures Windows(run, span) == Windows(run[..|run| - 1], span) + [WindowOf(run[|run| - span..])]
  {
  }

  lemma {:induction false} WindowsCount(run: seq<Token>, span: nat)
    requires span > 0
    ensures |Windows(run, span)| == if |run| >= span then |run| - span + 1 else 0
    decreases |run|
  {
    hide WindowOf;
    if |run| < span {
    } else {
      WindowsCount(run[..|run| - 1], span);
    }
  }

  lemma SnocAt<T>(xs: seq<T>, x: T, i: nat)
    requires i <= |xs|
    ensures (xs + [x])[i] == if i < |xs| then xs[i] else x
  {
  }

  lemma WindowsEnd(run: seq<Token>, span: nat)
    requires 0 < span <= |run|
    ensures |Windows(run, span)| == |run| - span + 1
    ensures Windows(run, span)[|run| - span] == WindowOf(run[|run| - span..])
  {
    hide Windows, WindowOf;
    WindowsSnoc(run, span);
    WindowsCount(run[..|run| - 1], span);
    SnocAt(Windows(run[..|run| - 1], span), WindowOf(run[|run| - span..]), |run| - span);
  }

  lemma WindowsBefore(run: seq<Token>, span: nat, i: nat)
    requires 0 < span && i + span < |run|
    ensures i < |Windows(run[..|run| - 1], span)| < |Windows(run, span)|
    ensures Windows(run, span)[i] == Windows(run[..|run| - 1], span)[i]
  {
    hide Windows, WindowOf;
    WindowsSnoc(run, span);
    WindowsCount(run[..|run| - 1], span);
    SnocAt(Windows(run[..|run| - 1], span), WindowOf(run[|run| - span..]), i);
  }

  /** At every place where it fits there is the window of the tokens there. */
  lemma {:induction false} WindowsAt(run: seq<Token>, span: nat, i: nat)
    requires span > 0 && i + span <= |run|
    ensures i < |Windows(run, span)| && Windows(run, span)[i] == WindowOf(run[i..i + span])
    decreases |run|
  {
    hide Windows, WindowOf;
    SliceInit(run, i, span);
    if i + span < |run| {
      WindowsBefore(run, span, i);
      WindowsAt(run[..|run| - 1], span, i);
    } else {
      WindowsEnd(run, span);
    }
  }

  lemma SliceInit(run: seq<Token>, i: nat, span: nat)
    requires i + span <= |run|
    ensures i + span < |run| ==> run[..|run| - 1][i..i + span] == run[i..i + span]
    ensures i + span == |run| ==> run[i..] == run[i..i + span]
  {
  }

  function RunWindows(run: seq<Token>, cfg: Config): (ws: seq<Window>)
  {
    (if cfg.bigrams then Windows(run, 2) else []) + (if cfg.trigrams then Windows(run, 3) else [])
  }

  function AllWindows(runs: seq<seq<Token>>, cfg: Config): (ws: seq<Window>)
  {
    if runs == [] then [] else AllWindows(runs[..|runs| - 1], cfg) + RunWindows(runs[|runs| - 1], cfg)
  }

  lemma AllWindowsSnoc(runs: seq<seq<Token>>, run: seq<Token>, cfg: Config)
    ensures AllWindows(runs + [run], cfg) == AllWindows(runs, cfg) + RunWindows(run, cfg)
  {
    assert (runs + [run])[..|runs|] == runs;
  }

  /** With no gap set every entry is its own run, in the order the store gave them. */
  function RunPerEntry(es: seq<Entry>): (runs: seq<seq<Token>>)
    ensures |runs| == |es|
  {
    seq(|es|, i requires 0 <= i < |es| => Cut(es[i]))
  }

  ghost function Scanned(sort: seq<Entry> -> seq<Entry>, recent: seq<Entry>, cfg: Config): (ws: seq<Window>)
  {
    AllWindows(if cfg.gap == 0 then RunPerEntry(recent) else Chains(sort(recent), Cut, cfg.gap), cfg)
  }

  // ---- Tallying ------------------------------------------------------------

  datatype Counter = Counter(count: u32, first: u64, last: u64, code: bytes)

  const FRESH: Counter := Counter(0, U64_SIZE - 1, 0, [])

  type Counts = map<bytes, Counter>

  function Counted(c: Counter, w: Window): (c': Counter)
  {
    Counter((c.count + 1) % U32_SIZE, Min(c.first, w.ts), Max(c.last, w.ts),
            if |w.code| > |c.code| then w.code else c.code)
  }

  function Tally(counts: Counts, w: Window): (counts': Counts)
  {
    counts[w.text := Counted(if w.text in counts then counts[w.text] else FRESH, w)]
  }

  function TallyAll(counts: Counts, ws: seq<Window>): (counts': Counts)
  {
    if ws == [] then counts else Tally(TallyAll(counts, ws[..|ws| - 1]), ws[|ws| - 1])
  }

  lemma TallyNone(counts: Counts)
    ensures TallyAll(counts, []) == counts
  {
  }

  lemma TallySnoc(counts: Counts, ws: seq<Window>, w: Window)
    ensures TallyAll(counts, ws + [w]) == Tally(TallyAll(counts, ws), w)
  {
    assert (ws + [w])[..|ws|] == ws;
  }

  lemma {:induction false} TallyConcat(counts: Counts, ws: seq<Window>, vs: seq<Window>)
    ensures TallyAll(counts, ws + vs) == TallyAll(TallyAll(counts, ws), vs)
    decreases |vs|
  {
    hide Tally;
    if vs == [] {
      assert ws + vs == ws;
    } else {
      TallyConcat(counts, ws, vs[..|vs| - 1]);
      assert (ws + vs)[..|ws + vs| - 1] == ws + vs[..|vs| - 1];
    }
  }

  lemma FlatTextsNext(toks: seq<Token>, k: nat)
    requires k < |toks|
    ensures Flat(Texts(toks[..k + 1])) == Flat(Texts(toks[..k])) + toks[k].ch
    ensures Flat(Codes(toks[..k + 1])) == Flat(Codes(toks[..k])) + toks[k].code
    ensures AllCoded(toks[..k + 1]) <==> AllCoded(toks[..k]) && toks[k].code != []
  {
    assert Texts(toks[..k + 1]) == Texts(toks[..k]) + [toks[k].ch];
    assert Codes(toks[..k + 1]) == Codes(toks[..k]) + [toks[k].code];
    FlatSnoc(Texts(toks[..k]), toks[k].ch);
    FlatSnoc(Codes(toks[..k]), toks[k].code);
    assert toks[..k + 1] == toks[..k] + [toks[k]];
  }

  /** The emit lambda, at token `i`. */
  method EmitWindow(counts: Counts, toks: seq<Token>, i: nat, span: nat) returns (counts': Counts)
    requires 0 < span && i + span <= |toks|
    ensures counts' == Tally(counts, WindowOf(toks[i..i + span]))
  {
    hide Flat, Texts, Codes, AllCoded;
    ghost var slice := toks[i..i + span];
    var text: bytes, code: bytes, codeOk := [], [], true;
    var k := 0;
    NoTokens();
    assert slice[..0] == [];
    while k < span
      invariant 0 <= k <= span && text == Flat(Texts(slice[..k]))
      invariant codeOk == AllCoded(slice[..k]) && (codeOk ==> code == Flat(Codes(slice[..k])))
    {
      FlatTextsNext(slice, k);
      text := text + toks[i + k].ch;
      if toks[i + k].code == [] {
        codeOk := false;
      } else {
        code := code + toks[i + k].code;
      }
      k := k + 1;
    }
    assert slice[..k] == slice;
    var c := if text in counts then counts[text] else FRESH;
    c := Counter((c.count + 1) % U32_SIZE, Min(c.first, toks[i].ts), Max(c.last, toks[i].ts), c.code);
    if codeOk && |code| > |c.code| {
      c := Counter(c.count, c.first, c.last, code);
    }
    counts' := counts[text := c];
  }

  lemma NoTokens()
    ensures Flat(Texts([])) == [] && Flat(Codes([])) == [] && AllCoded([])
  {
  }

  lemma WindowsNext(toks: seq<Token>, span: nat, i: nat)
    requires span > 0 && i + span <= |toks|
    ensures Windows(toks[..i + span], span) == Windows(toks[..i + span - 1], span) + [WindowOf(toks[i..i + span])]
  {
    var p := toks[..i + span];
    WindowsSnoc(p, span);
    hide WindowOf, Windows;
    assert p[..|p| - 1] == toks[..i + span - 1] && p[|p| - span..] == toks[i..i + span];
  }

  /** One of the two loops of emit_token_ngrams. */
  method EmitSpan(counts: Counts, toks: seq<Token>, span: nat) returns (counts': Counts)
    requires span > 0
    ensures counts' == TallyAll(counts, Windows(toks, span))
  {
    hide TallyAll, Tally, WindowOf;
    counts' := counts;
    TallyNone(counts);
    if |toks| < span { return; }
    var i := 0;
    while i + (span - 1) < |toks|
      invariant 0 <= i <= |toks| - span + 1
      invariant counts' == TallyAll(counts, Windows(toks[..i + span - 1], span))
    {
      counts' := EmitWindow(counts', toks, i, span);
      WindowsNext(toks, span, i);
      TallySnoc(counts, Windows(toks[..i + span - 1], span), WindowOf(toks[i..i + span]));
      i := i + 1;
    }
    assert toks[..i + span - 1] == toks;
  }

  method EmitTokenNgrams(counts: Counts, toks: seq<Token>, cfg: Config) returns (counts': Counts)
    ensures counts' == TallyAll(counts, RunWindows(toks, cfg))
  {
    hide TallyAll, Windows;
    counts' := counts;
    TallyNone(counts);
    TallyNone(TallyAll(counts, Windows(toks, 2)));
    if cfg.bigrams { counts' := EmitSpan(counts', toks, 2); }
    if cfg.trigrams { counts' := EmitSpan(counts', toks, 3); }
    TallyConcat(counts, if cfg.bigrams then Windows(toks, 2) else [], if cfg.trigrams then Windows(toks, 3) else []);
  }

  // ---- What a counter says -------------------------------------------------

  /** The windows that spell `t`, in the order they were met. */
  function Spelling(ws: seq<Window>, t: bytes): (hits: seq<Window>)
    ensures forall k :: 0 <= k < |hits| ==> hits[k].text == t
  {
    if ws == [] then []
    else Spelling(ws[..|ws| - 1], t) + if ws[|ws| - 1].text == t then [ws[|ws| - 1]] else []
  }

  /** The first of the longest codes. */
  ghost predicate IsLongestCode(code: bytes, hits: seq<Window>)
  {
    && (forall k :: 0 <= k < |hits| ==> |hits[k].code| <= |code|)
    && (code == [] || exists k :: 0 <= k < |hits| && hits[k].code == code
                        && forall j :: 0 <= j < k ==> |hits[j].code| < |code|)
  }

  ghost predicate IsFirstSeen(first: u64, hits: seq<Window>)
  {
    && (forall k :: 0 <= k < |hits| ==> first <= hits[k].ts)
    && exists k :: 0 <= k < |hits| && hits[k].ts == first
  }

  ghost predicate IsLastSeen(last: u64, hits: seq<Window>)
  {
    && (forall k :: 0 <= k < |hits| ==> hits[k].ts <= last)
    && exists k :: 0 <= k < |hits| && hits[k].ts == last
  }

  ghost predicate Describes(c: Counter, hits: seq<Window>)
  {
    c.count == |hits| % U32_SIZE && IsFirstSeen(c.first, hits)
    && IsLastSeen(c.last, hits) && IsLongestCode(c.code, hits)
  }

  lemma SeenNext(first: u64, last: u64, hits: seq<Window>, w: Window)
    requires IsFirstSeen(first, hits) && IsLastSeen(last, hits)
    ensures IsFirstSeen(Min(first, w.ts), hits + [w]) && IsLastSeen(Max(last, w.ts), hits + [w])
  {
    var hits' := hits + [w];
    assert hits'[|hits|] == w;
    assert forall k :: 0 <= k < |hits| ==> hits'[k] == hits[k];
  }

  lemma CodeNext(code: bytes, hits: seq<Window>, w: Window)
    requires IsLongestCode(code, hits)
    ensures IsLongestCode(if |w.code| > |code| then w.code else code, hits + [w])
  {
    var hits' := hits + [w];
    assert hits'[|hits|] == w;
    assert forall k :: 0 <= k < |hits| ==> hits'[k] == hits[k];
  }

  lemma DescribesFirst(w: Window)
    ensures Describes(Counted(FRESH, w), [w])
  {
    assert [w][0] == w;
  }

  lemma DescribesNext(c: Counter, hits: seq<Window>, w: Window)
    requires if hits == [] then c == FRESH else Describes(c, hits)
    ensures Describes(Counted(c, w), hits + [w])
  {
    if hits == [] {
      DescribesFirst(w);
      assert [] + [w] == [w];
    } else {
      hide IsFirstSeen, IsLastSeen, IsLongestCode;
      SeenNext(c.first, c.last, hits, w);
      CodeNext(c.code, hits, w);
    }
  }

  lemma {:induction false} TallyDescribes(ws: seq<Window>, t: bytes)
    ensures t in TallyAll(map[], ws) <==> Spelling(ws, t) != []
    ensures t in TallyAll(map[], ws) ==> Describes(TallyAll(map[], ws)[t], Spelling(ws, t))
    decreases |ws|
  {
    if ws == [] {
    } else {
      var init, w := ws[..|ws| - 1], ws[|ws| - 1];
      TallyDescribes(init, t);
      hide Describes;
      if w.text == t {
        var was := TallyAll(map[], init);
        DescribesNext(if t in was then was[t] else FRESH, Spelling(init, t), w);
      } else {
        assert Spelling(init, t) + [] == Spelling(init, t);
      }
    }
  }

  // ---- Filtering -----------------------------------------------------------

  predicate IsSpace(c: byte)
  {
    c == 0x20 || c == 0x09 || c == 0x0A || c == 0x0D
  }

  /** No blank inside, not all ASCII, and not three or more times the same character. */
  predicate LooksReal(text: bytes)
  {
    && (forall i :: 0 <= i < |text| ==> !IsSpace(text[i]))
    && (exists i :: 0 <= i < |text| && text[i] >= 0x80)
    && !(|Pieces(text)| >= 3 && forall i :: 0 <= i < |Pieces(text)| ==> Pieces(text)[i] == Pieces(text)[0])
  }

  method LooksLikeRealCandidate(text: bytes) returns (plausible: bool)
    ensures plausible == LooksReal(text)
  {
    hide Chars, Starts, Rest, WellFormed, Pieces;
    if text == [] { return false; }
    var i := 0;
    while i < |text|
      invariant 0 <= i <= |text| && forall j :: 0 <= j < i ==> !IsSpace(text[j])
    {
      if IsSpace(text[i]) { return false; }
      i := i + 1;
    }
    var allAscii := true;
    i := 0;
    while i < |text|
      invariant 0 <= i <= |text| && forall j :: 0 <= j < i ==> text[j] < 0x80
    {
      if text[i] >= 0x80 {
        allAscii := false;
        break;
      }
      i := i + 1;
    }
    assert allAscii <==> forall j :: 0 <= j < |text| ==> text[j] < 0x80;
    if allAscii { return false; }
    var offs := CharOffsets(text);
    if |offs| >= 3 {
      var allSame := true;
      PieceAt(text, 0);
      FirstStart(Chars(text));
      var first := text[0..offs[1]];
      i := 1;
      while i < |offs|
        invariant 1 <= i <= |offs| && forall j :: 0 <= j < i ==> Pieces(text)[j] == Pieces(text)[0]
      {
        var end := if i + 1 < |offs| then offs[i + 1] else |text|;
        PieceAt(text, i);
        if text[offs[i]..end] != first {
          allSame := false;
          break;
        }
        i := i + 1;
      }
      if allSame { return false; }
    }
    return true;
  }

  /** A string `n` times. */
  function Times(c: bytes, n: nat): (s: bytes)
  {
    if n == 0 then [] else c + Times(c, n - 1)
  }

  lemma {:induction false} TimesIs(c: bytes, cs: seq<bytes>)
    requires forall i :: 0 <= i < |cs| ==> cs[i] == c
    ensures Flat(cs) == Times(c, |cs|)
    decreases cs
  {
    if cs == [] {
    } else {
      TimesIs(c, cs[1..]);
    }
  }

  predicate HasBlank(text: bytes)
  {
    0x20 in text || 0x09 in text || 0x0A in text || 0x0D in text
  }

  predicate AllAscii(text: bytes)
  {
    forall b :: b in text ==> b < 0x80
  }

  /** Three or more times the same character. */
  ghost predicate Repeated(text: bytes)
  {
    exists c, n: nat :: n >= 3 && IsChar(c) && text == Times(c, n)
  }

  lemma BlankIs(text: bytes)
    ensures HasBlank(text) <==> exists i :: 0 <= i < |text| && IsSpace(text[i])
  {
  }

  lemma AsciiIs(text: bytes)
    ensures AllAscii(text) <==> !exists i :: 0 <= i < |text| && text[i] >= 0x80
  {
    if exists i :: 0 <= i < |text| && text[i] >= 0x80 {
      var i :| 0 <= i < |text| && text[i] >= 0x80;
      assert text[i] in text;
    }
  }

  lemma RepeatedIs(text: bytes)
    requires WellFormed(text)
    ensures Repeated(text) <==>
            |Pieces(text)| >= 3 && forall i :: 0 <= i < |Pieces(text)| ==> Pieces(text)[i] == Pieces(text)[0]
  {
    var cs := Pieces(text);
    CharsCover(text);
    assert Flat(cs) + [] == Flat(cs);
    hide Chars, Rest, WellFormed, IsChar, Pieces, Times;
    if |cs| >= 3 && forall i :: 0 <= i < |cs| ==> cs[i] == cs[0] {
      TimesIs(cs[0], cs);
      assert IsChar(cs[0]) && text == Times(cs[0], |cs|);
    }
    if Repeated(text) {
      var c, n: nat :| n >= 3 && IsChar(c) && text == Times(c, n);
      var same := seq(n, _ => c);
      TimesIs(c, same);
      SplitConcat(same);
      assert cs == same;
    }
  }

  /** On well-formed text the filter rejects exactly a text with a space, tab, newline or
      carriage return in it, a text of nothing but ASCII, and three or more times the same
      character. */
  lemma RejectedExactlyWhen(text: bytes)
    requires WellFormed(text)
    ensures !LooksReal(text) <==> HasBlank(text) || AllAscii(text) || Repeated(text)
  {
    BlankIs(text);
    AsciiIs(text);
    RepeatedIs(text);
    hide HasBlank, AllAscii, Repeated, IsSpace, Pieces, WellFormed;
  }

  lemma FirstStart(cs: seq<bytes>)
    requires cs != []
    ensures Starts(cs)[0] == 0
  {
    assert cs[..0] == [];
  }

  // ---- Ranking -------------------------------------------------------------

  /** std::string's order: by bytes, a prefix first. */
  predicate LexLess(a: bytes, b: bytes)
  {
    b != [] && (a == [] || a[0] < b[0] || (a[0] == b[0] && LexLess(a[1..], b[1..])))
  }

  lemma {:induction false} LexTotal(a: bytes, b: bytes)
    ensures (if LexLess(a, b) then 1 else 0) + (if LexLess(b, a) then 1 else 0) + (if a == b then 1 else 0) == 1
    decreases a
  {
    if a == [] || b == [] {
    } else {
      LexTotal(a[1..], b[1..]);
      assert a == [a[0]] + a[1..] && b == [b[0]] + b[1..];
    }
  }

  lemma {:induction false} LexTransitive(a: bytes, b: bytes, c: bytes)
    requires LexLess(a, b) && LexLess(b, c)
    ensures LexLess(a, c)
    decreases a
  {
    if a == [] || a[0] < b[0] || b[0] < c[0] {
    } else {
      LexTransitive(a[1..], b[1..], c[1..]);
    }
  }

  /** Up to place `k` the two texts agree, and there the first ends or has the smaller byte. */
  predicate LessAt(a: bytes, b: bytes, k: nat)
  {
    k <= |a| && k < |b| && a[..k] == b[..k] && (k == |a| || a[k] < b[k])
  }

  lemma {:induction false} LexLessExactlyWhen(a: bytes, b: bytes)
    ensures LexLess(a, b) <==> exists k: nat | k <= |a| :: LessAt(a, b, k)
    decreases a
  {
    if a == [] || b == [] || a[0] != b[0] {
      assert LexLess(a, b) ==> LessAt(a, b, 0);
    } else {
      LexLessExactlyWhen(a[1..], b[1..]);
      hide LexLess;
      forall k: nat | k < |a|
        ensures LessAt(a, b, k + 1) <==> LessAt(a[1..], b[1..], k)
      {
        LessTail(a, b, k);
      }
      if LexLess(a[1..], b[1..]) {
        var k: nat :| k <= |a[1..]| && LessAt(a[1..], b[1..], k);
        assert LessAt(a, b, k + 1);
      }
      if k: nat :| k <= |a| && LessAt(a, b, k) {
        assert LessAt(a[1..], b[1..], k - 1);
      }
    }
  }

  lemma LessTail(a: bytes, b: bytes, k: nat)
    requires a != [] && b != [] && a[0] == b[0] && k < |a|
    ensures LessAt(a, b, k + 1) <==> LessAt(a[1..], b[1..], k)
  {
    var x, y := a[1..], b[1..];
    assert a == [a[0]] + x && b == [b[0]] + y;
    if k + 1 <= |b| {
      assert a[..k + 1] == [a[0]] + x[..k] && b[..k + 1] == [b[0]] + y[..k];
      assert a[..k + 1][1..] == x[..k] && b[..k + 1][1..] == y[..k];
    }
  }

  predicate Outranks(v: Word, w: Word)
  {
    if v.frequency != w.frequency then v.frequency > w.frequency else LexLess(v.text, w.text)
  }

  ghost predicate Ranked(ws: seq<Word>)
  {
    forall i, j :: 0 <= i < j < |ws| ==> !Outranks(ws[j], ws[i])
  }

  /** std::sort by rank. */
  ghost predicate IsRanker(rank: seq<Word> -> seq<Word>)
  {
    forall ws :: Ranked(rank(ws)) && multiset(rank(ws)) == multiset(ws)
  }

  ghost predicate Describing(w: Word, scanned: seq<Window>)
  {
    Describes(Counter(w.frequency, w.first, w.last, w.code), Spelling(scanned, w.text))
  }

  predicate Qualifies(t: bytes, scanned: seq<Window>, cfg: Config)
  {
    var n := |Spelling(scanned, t)|;
    n > 0 && n % U32_SIZE >= cfg.minFrequency && LooksReal(t)
  }

  predicate Lists(words: seq<Word>, t: bytes)
  {
    exists i :: 0 <= i < |words| && words[i].text == t
  }

  ghost predicate ListsExactly(words: seq<Word>, scanned: seq<Window>, cfg: Config)
  {
    forall t :: Lists(words, t) <==> Qualifies(t, scanned, cfg)
  }

  /** The discovery result for the scanned windows: every qualifying string once, described by
      all of its occurrences, higher ranks first. */
  ghost predicate IsDiscovery(words: seq<Word>, scanned: seq<Window>, cfg: Config)
  {
    && (forall i :: 0 <= i < |words| ==> Describing(words[i], scanned))
    && ListsExactly(words, scanned, cfg)
    && forall i, j :: 0 <= i < j < |words| ==> words[i].text != words[j].text && Outranks(words[i], words[j])
  }

  lemma SameCode(c: bytes, d: bytes, hits: seq<Window>)
    requires IsLongestCode(c, hits) && IsLongestCode(d, hits)
    ensures c == d
  {
    if c != [] && d != [] {
      var k :| 0 <= k < |hits| && hits[k].code == c && forall j :: 0 <= j < k ==> |hits[j].code| < |c|;
      var l :| 0 <= l < |hits| && hits[l].code == d && forall j :: 0 <= j < l ==> |hits[j].code| < |d|;
    }
  }

  lemma SameWord(v: Word, w: Word, scanned: seq<Window>)
    requires v.text == w.text && Describing(v, scanned) && Describing(w, scanned)
    ensures v == w
  {
    SameCode(v.code, w.code, Spelling(scanned, v.text));
  }

  /** Nothing is left to the order in which the hash map or the sort meets the words. */
  lemma {:induction false} DiscoveryUnique(us: seq<Word>, vs: seq<Word>, scanned: seq<Window>, cfg: Config)
    requires IsDiscovery(us, scanned, cfg) && IsDiscovery(vs, scanned, cfg)
    ensures us == vs
  {
    DiscoveryHolds(us, vs, scanned, cfg);
    DiscoveryHolds(vs, us, scanned, cfg);
    hide Describing, Qualifies;
    RankingUnique(us, vs);
  }

  lemma DiscoveryHolds(us: seq<Word>, vs: seq<Word>, scanned: seq<Window>, cfg: Config)
    requires IsDiscovery(us, scanned, cfg) && IsDiscovery(vs, scanned, cfg)
    ensures forall i :: 0 <= i < |us| ==> us[i] in vs
  {
    hide Describing, Qualifies, Outranks;
    forall i | 0 <= i < |us|
      ensures us[i] in vs
    {
      assert Lists(us, us[i].text) && Lists(vs, us[i].text);
      var j :| 0 <= j < |vs| && vs[j].text == us[i].text;
      SameWord(us[i], vs[j], scanned);
    }
  }

  ghost predicate StrictlyRanked(ws: seq<Word>)
  {
    forall i, j :: 0 <= i < j < |ws| ==> Outranks(ws[i], ws[j])
  }

  lemma OutranksAsymmetric(v: Word, w: Word)
    ensures !(Outranks(v, w) && Outranks(w, v))
  {
    LexTotal(v.text, w.text);
  }

  lemma {:induction false} RankingUnique(us: seq<Word>, vs: seq<Word>)
    requires StrictlyRanked(us) && StrictlyRanked(vs)
    requires forall i :: 0 <= i < |us| ==> us[i] in vs
    requires forall i :: 0 <= i < |vs| ==> vs[i] in us
    ensures us == vs
    decreases us
  {
    hide Outranks;
    if vs != [] { assert vs[0] in us; }
    if us == [] {
    } else {
      assert us[0] in vs;
      HeadsAgree(us, vs);
      TailWithin(us, vs);
      TailWithin(vs, us);
      RankingUnique(us[1..], vs[1..]);
      assert us == [us[0]] + us[1..] && vs == [vs[0]] + vs[1..];
    }
  }

  lemma HeadsAgree(us: seq<Word>, vs: seq<Word>)
    requires StrictlyRanked(us) && StrictlyRanked(vs) && us != [] && vs != []
    requires us[0] in vs && vs[0] in us
    ensures us[0] == vs[0]
  {
    var i :| 0 <= i < |us| && us[i] == vs[0];
    var j :| 0 <= j < |vs| && vs[j] == us[0];
    OutranksAsymmetric(us[0], vs[0]);
  }

  lemma TailWithin(us: seq<Word>, vs: seq<Word>)
    requires StrictlyRanked(us) && us != [] && vs != [] && us[0] == vs[0]
    requires forall i :: 0 <= i < |us| ==> us[i] in vs
    ensures forall i :: 0 <= i < |us[1..]| ==> us[1..][i] in vs[1..]
  {
    forall i | 0 <= i < |us[1..]|
      ensures us[1..][i] in vs[1..]
    {
      var u := us[i + 1];
      assert u in vs;
      OutranksAsymmetric(us[0], u);
      assert vs == [vs[0]] + vs[1..];
    }
  }

  // ---- Discovery -----------------------------------------------------------

  function WordOf(t: bytes, c: Counter): (w: Word)
  {
    Word(t, c.code, c.count, c.first, c.last)
  }

  /** Words for some of the counted texts, one each, each as its counter says. */
  ghost predicate Gathered(out: seq<Word>, counts: Counts, done: set<bytes>, cfg: Config)
  {
    && (forall i :: 0 <= i < |out| ==>
          (out[i].text in done && out[i].text in counts &&
           out[i] == WordOf(out[i].text, counts[out[i].text])))
    && (forall i, j :: 0 <= i < j < |out| ==> out[i].text != out[j].text)
    && (forall i :: 0 <= i < |out| ==> out[i].frequency >= cfg.minFrequency && LooksReal(out[i].text))
    && (forall t :: t in done && t in counts && counts[t].count >= cfg.minFrequency && LooksReal(t) ==> Lists(out, t))
  }

  lemma GatherNext(out: seq<Word>, counts: Counts, done: set<bytes>, cfg: Config, t: bytes)
    requires Gathered(out, counts, done, cfg) && t in counts && t !in done
    ensures var c := counts[t];
            Gathered(if c.count >= cfg.minFrequency && LooksReal(t)
                     then out + [WordOf(t, c)] else out,
                     counts, done + {t}, cfg)
  {
    hide LooksReal;
    var c := counts[t];
    if c.count >= cfg.minFrequency && LooksReal(t) {
      var out' := out + [WordOf(t, c)];
      assert out'[|out|].text == t;
      forall u | u in done + {t} && u in counts && counts[u].count >= cfg.minFrequency && LooksReal(u)
        ensures Lists(out', u)
      {
        if u != t {
          var i :| 0 <= i < |out| && out[i].text == u;
          assert out'[i].text == u;
        }
      }
    }
  }

  method GatherWords(counts: Counts, cfg: Config) returns (out: seq<Word>)
    ensures Gathered(out, counts, counts.Keys, cfg)
  {
    hide Gathered, LooksReal;
    out := [];
    var left := counts.Keys;
    ghost var done: set<bytes> := {};
    GatherNone(counts, cfg);
    while left != {}
      invariant done !! left && done + left == counts.Keys && Gathered(out, counts, done, cfg)
      decreases |left|
    {
      var t :| t in left;
      GatherNext(out, counts, done, cfg, t);
      left := left - {t};
      done := done + {t};
      if counts[t].count < cfg.minFrequency { continue; }
      var plausible := LooksLikeRealCandidate(t);
      if !plausible { continue; }
      var c := counts[t];
      out := out + [WordOf(t, c)];
    }
    assert done == counts.Keys;
  }

  lemma GatherNone(counts: Counts, cfg: Config)
    ensures Gathered([], counts, {}, cfg)
  {
  }

  lemma GatheredDescribes(out: seq<Word>, scanned: seq<Window>, cfg: Config)
    requires var counts := TallyAll(map[], scanned); Gathered(out, counts, counts.Keys, cfg)
    ensures forall i :: 0 <= i < |out| ==> Describing(out[i], scanned)
    ensures ListsExactly(out, scanned, cfg)
  {
    var counts := TallyAll(map[], scanned);
    hide TallyAll, LooksReal;
    forall i | 0 <= i < |out|
      ensures Describing(out[i], scanned) && Qualifies(out[i].text, scanned, cfg)
    {
      TallyDescribes(scanned, out[i].text);
    }
    forall t | Qualifies(t, scanned, cfg)
      ensures Lists(out, t)
    {
      TallyDescribes(scanned, t);
    }
  }

  lemma SameMembers(us: seq<Word>, vs: seq<Word>)
    requires multiset(us) == multiset(vs)
    ensures forall i :: 0 <= i < |us| ==> us[i] in vs
  {
    forall i | 0 <= i < |us|
      ensures us[i] in vs
    {
      assert us[i] in multiset(us);
    }
  }

  lemma SameListed(us: seq<Word>, vs: seq<Word>, t: bytes)
    requires multiset(us) == multiset(vs)
    ensures Lists(us, t) <==> Lists(vs, t)
  {
    SameMembers(us, vs);
    SameMembers(vs, us);
  }

  lemma RankedIsDiscovery(out: seq<Word>, words: seq<Word>, scanned: seq<Window>, cfg: Config)
    requires var counts := TallyAll(map[], scanned); Gathered(out, counts, counts.Keys, cfg)
    requires Ranked(words) && multiset(words) == multiset(out)
    ensures IsDiscovery(words, scanned, cfg)
  {
    GatheredDescribes(out, scanned, cfg);
    assert forall i, j :: 0 <= i < j < |out| ==> out[i].text != out[j].text;
    hide TallyAll, Gathered, Describing, Qualifies, Lists;
    SameTexts(out, words);
    SameMembers(words, out);
    forall t
      ensures Lists(words, t) <==> Qualifies(t, scanned, cfg)
    {
      SameListed(words, out, t);
    }
    forall i, j | 0 <= i < j < |words|
      ensures Outranks(words[i], words[j])
    {
      LexTotal(words[i].text, words[j].text);
    }
  }

  /** A permutation of words with distinct texts has distinct texts. */
  lemma SameTexts(out: seq<Word>, words: seq<Word>)
    requires multiset(words) == multiset(out)
    requires forall i, j :: 0 <= i < j < |out| ==> out[i].text != out[j].text
    ensures forall i, j :: 0 <= i < j < |words| ==> words[i].text != words[j].text
  {
    forall i, j | 0 <= i < j < |words|
      ensures words[i].text != words[j].text
    {
      if words[i].text == words[j].text {
        assert words[i] in multiset(out) && words[j] in multiset(out);
        var a :| 0 <= a < |out| && out[a] == words[i];
        var b :| 0 <= b < |out| && out[b] == words[j];
        assert a == b;
        TwiceMeansTwo(words, i, j);
        OnceMeansOne(out, a);
      }
    }
  }

  lemma TwiceMeansTwo(ws: seq<Word>, i: nat, j: nat)
    requires i < j < |ws| && ws[i] == ws[j]
    ensures multiset(ws)[ws[i]] >= 2
  {
    assert ws == ws[..j] + [ws[j]] + ws[j + 1..];
    assert ws[i] in ws[..j];
  }

  lemma OnceMeansOne(ws: seq<Word>, a: nat)
    requires a < |ws| && forall i, j :: 0 <= i < j < |ws| ==> ws[i].text != ws[j].text
    ensures multiset(ws)[ws[a]] == 1
  {
    assert ws == ws[..a] + [ws[a]] + ws[a + 1..];
    assert ws[a] !in ws[..a] && ws[a] !in ws[a + 1..];
  }

  /** Discover over the entries the store returned. */
  method Discover(sort: seq<Entry> -> seq<Entry>, rank: seq<Word> -> seq<Word>, recent: seq<Entry>, cfg: Config)
    returns (words: seq<Word>)
    requires IsSorter(sort) && IsRanker(rank)
    ensures IsDiscovery(words, Scanned(sort, recent, cfg), cfg)
  {
    hide IsSorter, IsDiscovery, TallyAll, Cut, RunWindows, AllWindows, WalkOf, Gathered, Ranked;
    var counts: Counts := map[];
    TallyNone(counts);
    WindowsNone(cfg);
    if cfg.gap == 0 {
      var k := 0;
      while k < |recent|
        invariant 0 <= k <= |recent| && counts == TallyAll(map[], AllWindows(RunPerEntry(recent)[..k], cfg))
      {
        var toks := EntryToTokens(recent[k]);
        counts := EmitTokenNgrams(counts, toks, cfg);
        AllWindowsSnoc(RunPerEntry(recent)[..k], toks, cfg);
        TallyConcat(map[], AllWindows(RunPerEntry(recent)[..k], cfg), RunWindows(toks, cfg));
        assert RunPerEntry(recent)[..k + 1] == RunPerEntry(recent)[..k] + [toks];
        k := k + 1;
      }
      assert RunPerEntry(recent)[..k] == RunPerEntry(recent);
    } else {
      counts := ScanChains(sort(recent), cfg);
    }
    var out := GatherWords(counts, cfg);
    words := rank(out);
    RankedIsDiscovery(out, words, Scanned(sort, recent, cfg), cfg);
  }

  lemma WindowsNone(cfg: Config)
    ensures AllWindows([], cfg) == []
  {
  }

  /** The chained scan, over entries in time order. */
  method ScanChains(chrono: seq<Entry>, cfg: Config) returns (counts: Counts)
    ensures counts == TallyAll(map[], AllWindows(Chains(chrono, Cut, cfg.gap), cfg))
  {
    hide TallyAll, Cut, RunWindows, AllWindows, WalkOf;
    counts := map[];
    TallyNone(counts);
    WindowsNone(cfg);
    var run: seq<Token>, prevTs: u64 := [], 0;
    ghost var closed: seq<seq<Token>> := [];
    var k := 0;
    NoWalk(cfg.gap);
    assert chrono[..0] == [];
    while k < |chrono|
      invariant 0 <= k <= |chrono| && WalkOf(chrono[..k], Cut, cfg.gap) == Walk(closed, run, prevTs)
      invariant counts == TallyAll(map[], AllWindows(closed, cfg))
    {
      var e := chrono[k];
      WalkNext(chrono, k, cfg.gap);
      if run != [] && Since(e.ts, prevTs) > cfg.gap {
        AllWindowsSnoc(closed, run, cfg);
        TallyConcat(map[], AllWindows(closed, cfg), RunWindows(run, cfg));
        counts := EmitTokenNgrams(counts, run, cfg);
        closed := closed + [run];
        run := [];
      }
      var toks := EntryToTokens(e);
      assert [] + toks == toks;
      run := run + toks;
      prevTs := e.ts;
      k := k + 1;
    }
    assert chrono[..k] == chrono;
    if run != [] {
      AllWindowsSnoc(closed, run, cfg);
      TallyConcat(map[], AllWindows(closed, cfg), RunWindows(run, cfg));
      counts := EmitTokenNgrams(counts, run, cfg);
    }
  }

  lemma NoWalk(gap: u64)
    ensures WalkOf([], Cut, gap) == Walk([], [], 0)
  {
  }

  lemma WalkNext(es: seq<Entry>, k: nat, gap: u64)
    requires k < |es|
    ensures WalkOf(es[..k + 1], Cut, gap) == Extend(WalkOf(es[..k], Cut, gap), es[k], Cut(es[k]), gap)
  {
    assert es[..k + 1][..k] == es[..k];
  }

  // ---- Where codes come from -----------------------------------------------

  /** A token with a code is the whole of a one-character commit. */
  predicate Typed(tok: Token, es: seq<Entry>)
  {
    exists i :: 0 <= i < |es| && |Chars(es[i].text)| == 1 && tok == Token(es[i].text, es[i].code, es[i].ts)
  }

  ghost predicate CodedAreTyped(run: seq<Token>, es: seq<Entry>)
  {
    forall i :: 0 <= i < |run| && run[i].code != [] ==> Typed(run[i], es)
  }

  lemma CutTyped(e: Entry, es: seq<Entry>, k: nat)
    requires k < |es| && es[k] == e
    ensures CodedAreTyped(Cut(e), es)
  {
    CharsCover(e.text);
    var cs := Chars(e.text);
    hide Chars;
    if |cs| == 1 {
      assert cs == [cs[0]];
      assert Flat([cs[0]]) == cs[0] + Flat([]) == cs[0];
      assert cs[..0] + [cs[0] + Rest(e.text)] == [e.text];
    }
  }

  lemma TypedGrows(run: seq<Token>, es: seq<Entry>, e: Entry)
    requires CodedAreTyped(run, es)
    ensures CodedAreTyped(run, es + [e])
  {
    hide Chars;
    forall i | 0 <= i < |run| && run[i].code != []
      ensures Typed(run[i], es + [e])
    {
      var j :| 0 <= j < |es| && |Chars(es[j].text)| == 1 && run[i] == Token(es[j].text, es[j].code, es[j].ts);
      assert (es + [e])[j] == es[j];
    }
  }

  lemma {:induction false} WalkTyped(es: seq<Entry>, gap: u64)
    ensures CodedAreTyped(WalkOf(es, Cut, gap).run, es)
    ensures forall r :: 0 <= r < |WalkOf(es, Cut, gap).closed| ==> CodedAreTyped(WalkOf(es, Cut, gap).closed[r], es)
    decreases |es|
  {
    hide CodedAreTyped, Cut;
    if es == [] {
      NothingTyped(es);
    } else {
      var init, e := es[..|es| - 1], es[|es| - 1];
      WalkTyped(init, gap);
      assert es == init + [e];
      ExtendTyped(WalkOf(init, Cut, gap), init, e, gap);
    }
  }

  lemma NothingTyped(es: seq<Entry>)
    ensures CodedAreTyped([], es)
  {
  }

  lemma ExtendTyped(w: Walk, es: seq<Entry>, e: Entry, gap: u64)
    requires CodedAreTyped(w.run, es)
    requires forall r :: 0 <= r < |w.closed| ==> CodedAreTyped(w.closed[r], es)
    ensures var w' := Extend(w, e, Cut(e), gap);
            && CodedAreTyped(w'.run, es + [e])
            && forall r :: 0 <= r < |w'.closed| ==> CodedAreTyped(w'.closed[r], es + [e])
  {
    CutTyped(e, es + [e], |es|);
    TypedGrows(w.run, es, e);
    forall r | 0 <= r < |w.closed|
      ensures CodedAreTyped(w.closed[r], es + [e])
    {
      TypedGrows(w.closed[r], es, e);
    }
    hide Typed, Cut;
  }

  /** A window carries a code only if each of its characters was committed alone, and the
      code is then those commits' codes in order. */
  lemma CodedWindowIsTyped(es: seq<Entry>, gap: u64, r: nat, i: nat, span: nat)
    requires r < |Chains(es, Cut, gap)| && span > 0 && i + span <= |Chains(es, Cut, gap)[r]|
    ensures var toks := Chains(es, Cut, gap)[r][i..i + span];
            WindowOf(toks).code != [] ==>
              && WindowOf(toks).code == Flat(Codes(toks))
              && forall k :: 0 <= k < span ==> toks[k].code != [] && Typed(toks[k], es)
  {
    WalkTyped(es, gap);
    hide Typed, WalkOf, Flat;
    var run := Chains(es, Cut, gap)[r];
    var toks := run[i..i + span];
    forall k | 0 <= k < span && toks[k].code != []
      ensures Typed(toks[k], es)
    {
      assert toks[k] == run[i + k];
    }
  }

  lemma {:induction false} HitIsScanned(ws: seq<Window>, t: bytes, k: nat) returns (l: nat)
    requires k < |Spelling(ws, t)|
    ensures l < |ws| && ws[l] == Spelling(ws, t)[k]
    decreases |ws|
  {
    var n := |ws| - 1;
    if k < |Spelling(ws[..n], t)| {
      l := HitIsScanned(ws[..n], t, k);
    } else {
      l := n;
    }
  }

  /** Every scanned window stands at a place in some run. */
  lemma {:induction false} WindowPlace(runs: seq<seq<Token>>, cfg: Config, l: nat) returns (r: nat, i: nat, span: nat)
    requires l < |AllWindows(runs, cfg)|
    ensures r < |runs| && (span == 2 || span == 3) && i + span <= |runs[r]|
    ensures AllWindows(runs, cfg)[l] == WindowOf(runs[r][i..i + span])
    decreases |runs|
  {
    hide Windows, WindowOf;
    var n := |runs| - 1;
    var before := |AllWindows(runs[..n], cfg)|;
    if l < before {
      r, i, span := WindowPlace(runs[..n], cfg, l);
    } else {
      r := n;
      i, span := RunPlace(runs[n], cfg, l - before);
    }
  }

  lemma RunPlace(run: seq<Token>, cfg: Config, l: nat) returns (i: nat, span: nat)
    requires l < |RunWindows(run, cfg)|
    ensures (span == 2 || span == 3) && i + span <= |run| && RunWindows(run, cfg)[l] == WindowOf(run[i..i + span])
  {
    WindowsCount(run, 2);
    WindowsCount(run, 3);
    hide Windows, WindowOf;
    if cfg.bigrams && l < |Windows(run, 2)| {
      i, span := l, 2;
    } else {
      i, span := if cfg.bigrams then l - |Windows(run, 2)| else l, 3;
    }
    WindowsAt(run, span, i);
  }

  /** `toks` spells `text` and `code`, and every token is the whole of a one-character commit
      with a code. */
  ghost predicate TypedAs(toks: seq<Token>, text: bytes, code: bytes, es: seq<Entry>)
  {
    && Flat(Texts(toks)) == text && Flat(Codes(toks)) == code
    && forall k :: 0 <= k < |toks| ==> toks[k].code != [] && Typed(toks[k], es)
  }

  /** With chaining, an occurrence that carries a code was typed character by character. */
  lemma HitIsTyped(sort: seq<Entry> -> seq<Entry>, recent: seq<Entry>, cfg: Config, t: bytes, k: nat)
    returns (r: nat, i: nat, span: nat)
    requires cfg.gap != 0
    requires var hits := Spelling(Scanned(sort, recent, cfg), t); k < |hits| && hits[k].code != []
    ensures var runs := Chains(sort(recent), Cut, cfg.gap);
            && r < |runs| && (span == 2 || span == 3) && i + span <= |runs[r]|
            && TypedAs(runs[r][i..i + span], t, Spelling(Scanned(sort, recent, cfg), t)[k].code, sort(recent))
  {
    hide AllWindows, Chains, Typed;
    var l := HitIsScanned(Scanned(sort, recent, cfg), t, k);
    r, i, span := WindowPlace(Chains(sort(recent), Cut, cfg.gap), cfg, l);
    CodedWindowIsTyped(sort(recent), cfg.gap, r, i, span);
  }

  lemma CodeIsOfAHit(w: Word, scanned: seq<Window>) returns (k: nat)
    requires Describing(w, scanned) && w.code != []
    ensures k < |Spelling(scanned, w.text)| && Spelling(scanned, w.text)[k].code == w.code
  {
    hide Spelling, IsFirstSeen, IsLastSeen;
    k :| 0 <= k < |Spelling(scanned, w.text)| && Spelling(scanned, w.text)[k].code == w.code;
  }

  /** The code of a discovered word is the codes, in order, of two or three one-character
      commits that follow each other in one chain and spell the word. */
  lemma WordCodeIsTyped(sort: seq<Entry> -> seq<Entry>, recent: seq<Entry>, cfg: Config, words: seq<Word>, x: nat)
    returns (r: nat, i: nat, span: nat)
    requires cfg.gap != 0 && IsDiscovery(words, Scanned(sort, recent, cfg), cfg)
    requires x < |words| && words[x].code != []
    ensures var runs := Chains(sort(recent), Cut, cfg.gap);
            && r < |runs| && (span == 2 || span == 3) && i + span <= |runs[r]|
            && TypedAs(runs[r][i..i + span], words[x].text, words[x].code, sort(recent))
  {
    hide Describing, Qualifies, Outranks, Scanned, Spelling, TypedAs, Chains;
    var k := CodeIsOfAHit(words[x], Scanned(sort, recent, cfg));
    r, i, span := HitIsTyped(sort, recent, cfg, words[x].text, k);
  }

  lemma UncodedWindow(e: Entry, i: nat, span: nat)
    requires span >= 2 && i + span <= |Cut(e)|
    ensures WindowOf(Cut(e)[i..i + span]).code == []
  {
    hide Flat, Pieces;
    assert Cut(e)[i..i + span][0].code == [];
  }

  /** Without chaining no word has a code: a window lies in one entry, of several characters. */
  lemma NoCodePerEntry(sort: seq<Entry> -> seq<Entry>, recent: seq<Entry>, cfg: Config, words: seq<Word>, x: nat)
    requires cfg.gap == 0 && IsDiscovery(words, Scanned(sort, recent, cfg), cfg) && x < |words|
    ensures words[x].code == []
  {
    hide Describing, Qualifies, Outranks, Spelling, AllWindows, Cut, WindowOf;
    if words[x].code != [] {
      var scanned := AllWindows(RunPerEntry(recent), cfg);
      var k := CodeIsOfAHit(words[x], scanned);
      var l := HitIsScanned(scanned, words[x].text, k);
      var r, i, span := WindowPlace(RunPerEntry(recent), cfg, l);
      UncodedWindow(recent[r], i, span);
    }
  }
}
