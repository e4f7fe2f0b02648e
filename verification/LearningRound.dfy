/** One learning round: the n-gram update, discovery, re-encoding and the three files it
    writes (src/daemon/learning_round.cc, src/daemon/user_dict.cc). */
module LearningRound {
  import opened Bytes
  import opened Utf8
  import opened History
  import opened Ngram
  import opened NgramFile
  import opened NewWord
  import A = Agreement
  import W = WubiCodec
  import P = WordPlaces

  /** The store's answer to a query for its most recent entries. */
  type Store = u64 -> seq<Entry>

  /** The store as each of the two scans of a round finds it: commits may arrive between. */
  datatype Stores = Stores(counted: Store, searched: Store)

  datatype RoundConfig = RoundConfig(
    minFrequency: u32, scanMax: u64, ngramScanMax: u64, bigrams: bool, trigrams: bool,
    rimeDir: bool, commit: bool, push: bool)

  /** How the outside world answers. */
  datatype Outcomes = Outcomes(
    generate: bool, save: bool, sentinel: bool, hasGit: bool, gitInit: bool, gitCommit: bool, gitPush: bool)

  datatype Result = Result(
    ok: bool, scanned: u64, increments: u64, words: nat,
    wroteUserDict: bool, wroteNgram: bool, redeploy: bool, committed: bool, pushed: bool)

  datatype Row = Row(text: bytes, code: bytes, weight: u32)

  /** learned_words.yaml, personal_ngram.bin and the RIME table. */
  datatype Files = Files(words: seq<Word>, ngram: bytes, rime: Option<seq<Row>>)

  function DiscoveryConfig(cfg: RoundConfig): (c: Config)
  {
    Config(cfg.minFrequency, cfg.bigrams, cfg.trigrams, CHAIN_GAP_US)
  }

  /** No dictionary and an unreadable one teach no code. */
  function IndexFor(dict: Option<seq<bytes>>): (index: W.Index)
  {
    if dict.Some? then W.IndexOf(dict.value) else map[]
  }

  // ---- Re-encoding, in place -----------------------------------------------

  function FinalCode(index: W.Index, w: Word): (code: bytes)
  {
    if W.Encode(index, w.text) != [] then W.Encode(index, w.text) else w.code
  }

  function Recoded(words: seq<Word>, index: W.Index): (ws: seq<Word>)
    ensures |ws| == |words|
  {
    seq(|words|, i requires 0 <= i < |words| => words[i].(code := FinalCode(index, words[i])))
  }

  method Recode(words: array<Word>, codec: W.WubiCodec)
    modifies words
    ensures words[..] == Recoded(old(words[..]), codec.fullCodes)
  {
    ghost var was := words[..];
    var i := 0;
    while i < words.Length
      invariant 0 <= i <= words.Length
      invariant forall j :: 0 <= j < i ==> words[j] == Recoded(was, codec.fullCodes)[j]
      invariant forall j :: i <= j < words.Length ==> words[j] == was[j]
    {
      hide W.Encode;
      var canonical := codec.EncodePhrase(words[i].text);
      if canonical != [] { words[i] := words[i].(code := canonical); }
      i := i + 1;
    }
  }

  /** The codec step, skipped when there is no dictionary to read. */
  method Reencode(found: seq<Word>, dict: Option<seq<bytes>>) returns (final: seq<Word>)
    ensures final == Recoded(found, IndexFor(dict))
  {
    hide W.IndexOf, Recoded;
    var list := new Word[|found|](i requires 0 <= i < |found| => found[i]);
    assert list[..] == found;
    if dict.Some? {
      var codec := new W.WubiCodec();
      var loaded := codec.LoadFromDict(dict);
      if loaded { Recode(list, codec); }
    } else {
      NothingKnown(found);
    }
    final := list[..];
  }

  lemma NothingKnown(words: seq<Word>)
    ensures Recoded(words, map[]) == words
  {
    forall i | 0 <= i < |words|
      ensures Recoded(words, map[])[i] == words[i]
    {
      var cs := LooseChars(words[i].text);
      assert |cs| >= 2 ==> W.CodeOf(map[], cs[0]) == [];
    }
  }

  // ---- The RIME table ------------------------------------------------------

  function RowOf(w: Word): (r: Row)
  {
    Row(w.text, w.code, w.frequency)
  }

  function RowsOf(words: seq<Word>): (rows: seq<Row>)
  {
    if words == [] then []
    else RowsOf(words[..|words| - 1]) + if words[|words| - 1].code != [] then [RowOf(words[|words| - 1])] else []
  }

  method WriteRows(words: seq<Word>) returns (rows: seq<Row>)
    ensures rows == RowsOf(words)
  {
    rows := [];
    var k := 0;
    while k < |words|
      invariant 0 <= k <= |words| && rows == RowsOf(words[..k])
    {
      assert words[..k + 1][..k] == words[..k];
      if words[k].code != [] { rows := rows + [RowOf(words[k])]; }
      k := k + 1;
    }
    assert words[..k] == words;
  }

  // ---- The round -----------------------------------------------------------

  /** What a round leaves behind, given what it started from. */
  ghost predicate IsRound(sort: seq<Entry> -> seq<Entry>, stores: Stores, dict: Option<seq<bytes>>, cfg: RoundConfig,
                          before: Table, after: Table, words: seq<Word>, files: Files)
  {
    && after == BumpAll(before, StreamOf(sort(stores.counted(cfg.ngramScanMax))).pairs)
    && IsDiscovery(words, Scanned(sort, stores.searched(cfg.scanMax), DiscoveryConfig(cfg)), DiscoveryConfig(cfg))
    && files.words == Recoded(words, IndexFor(dict))
    && IsImage(files.ngram, after)
    && files.rime == if cfg.rimeDir then Some(RowsOf(files.words)) else None
  }

  /** Step 5: commit if asked to and there is a repository; push only what was committed. */
  method CommitAndPush(cfg: RoundConfig, world: Outcomes) returns (committed: bool, pushed: bool)
    ensures committed <==> cfg.commit && world.hasGit && world.gitInit && world.gitCommit
    ensures pushed <==> committed && cfg.push && world.gitPush
  {
    committed, pushed := false, false;
    if cfg.commit && world.hasGit {
      if world.gitInit && world.gitCommit {
        committed := true;
        if cfg.push { pushed := world.gitPush; }
      }
    }
  }

  method RunLearningRound(sort: seq<Entry> -> seq<Entry>, rank: seq<Word> -> seq<Word>, stores: Stores, count: u64,
                          ngrams: NgramTable, dict: Option<seq<bytes>>, cfg: RoundConfig, world: Outcomes)
    returns (result: Result, files: Files, ghost words: seq<Word>)
    requires IsSorter(sort) && IsRanker(rank)
    modifies ngrams
    ensures IsRound(sort, stores, dict, cfg, old(ngrams.table), ngrams.table, words, files)
    ensures result.scanned == count && result.words == |words|
    ensures result.increments == |StreamOf(sort(stores.counted(cfg.ngramScanMax))).pairs| % U64_SIZE
    ensures result.wroteUserDict == world.generate && result.wroteNgram == world.save
    ensures result.redeploy == world.sentinel
    ensures result.committed == (cfg.commit && world.hasGit && world.gitInit && world.gitCommit)
    ensures result.pushed == (result.committed && cfg.push && world.gitPush)
    ensures result.ok == (world.generate && world.save)
  {
    hide IsSorter, IsRanker, IsDiscovery, IsImage, BumpAll, StreamOf, Scanned, Recoded,
      RowsOf, W.IndexOf, DiscoveryConfig;
    var increments := UpdateBigramsFromHistory(sort, stores.counted(cfg.ngramScanMax), ngrams);
    var found := Discover(sort, rank, stores.searched(cfg.scanMax), DiscoveryConfig(cfg));
    words := found;
    var final := Reencode(found, dict);
    var file := Save(ngrams);
    var rows := [];
    if cfg.rimeDir { rows := WriteRows(final); }
    files := Files(final, file, if cfg.rimeDir then Some(rows) else None);
    var committed, pushed := CommitAndPush(cfg, world);
    result := Result(world.generate && world.save, count, increments, |found|,
                     world.generate, world.save, world.sentinel, committed, pushed);
  }

  /** A round in the configuration's own numbers, chains broken at two seconds. The first scan,
      of ngramScanMax entries, adds to each pair's count, in 32 bits, how often the two are
      neighbours in a chain. The second, of scanMax entries, lists exactly the strings that pass
      the filter and are spelled at some place, at no fewer places than minFrequency; with the
      frequency, times and code that these places give. */
  lemma RoundByPlaces(sort: seq<Entry> -> seq<Entry>, stores: Stores, dict: Option<seq<bytes>>, cfg: RoundConfig,
                      before: Table, after: Table, words: seq<Word>, files: Files, a: bytes, b: bytes)
    requires IsRound(sort, stores, dict, cfg, before, after, words, files)
    ensures var chains := Chains(sort(stores.counted(cfg.ngramScanMax)), CharTokens, 2_000_000);
            Count(after, a, b) == (Count(before, a, b) + Occurrences(AllNeighbours(chains), (a, b))) % U32_SIZE
    ensures var c := Config(cfg.minFrequency, cfg.bigrams, cfg.trigrams, 2_000_000);
            var chains := Chains(sort(stores.searched(cfg.scanMax)), Cut, 2_000_000);
            && (forall t :: Lists(words, t) <==>
                  var n := |P.PlacesOf(chains, c, t)|;
                  n > 0 && n % U32_SIZE >= cfg.minFrequency && LooksReal(t))
            && (forall x :: 0 <= x < |words| ==> P.WordRight(chains, c, words[x]))
            && |files.words| == |words|
    ensures forall x :: 0 <= x < |words| ==>
              var canonical := if dict.Some? then W.Encode(W.IndexOf(dict.value), words[x].text) else [];
              files.words[x] == words[x].(code := if canonical != [] then canonical else words[x].code)
  {
    var counted := sort(stores.counted(cfg.ngramScanMax));
    StreamIsNeighbours(counted);
    hide BumpAll, StreamOf, Count, Occurrences, IsDiscovery, Scanned, W.Encode, W.IndexOf, IsImage, RowsOf,
      Chains, P.PlacesOf,
      P.WordRight, LooksReal, AllNeighbours, Lists;
    CountIsOccurrences(before, StreamOf(counted).pairs, a, b);
    if dict.None? { NothingKnown(words); }
    P.DiscoveryByPlaces(sort, stores.searched(cfg.scanMax), DiscoveryConfig(cfg), words);
  }

  // ---- Which words become rows ---------------------------------------------

  /** Where each row comes from: the words with a code, in order, none left out. */
  lemma {:induction false} RowSources(words: seq<Word>) returns (src: seq<nat>)
    ensures |src| == |RowsOf(words)|
    ensures forall k :: 0 <= k < |src| ==>
              src[k] < |words| && words[src[k]].code != [] && RowsOf(words)[k] == RowOf(words[src[k]])
    ensures forall k, l :: 0 <= k < l < |src| ==> src[k] < src[l]
    ensures forall i :: 0 <= i < |words| && words[i].code != [] ==> i in src
    decreases |words|
  {
    if words == [] {
      src := [];
    } else {
      var n := |words| - 1;
      assert RowsOf(words) == RowsOf(words[..n]) + if words[n].code != [] then [RowOf(words[n])] else [];
      hide RowsOf, RowOf;
      var init := RowSources(words[..n]);
      src := init + if words[n].code != [] then [n] else [];
      forall i | 0 <= i < |words| && words[i].code != []
        ensures i in src
      {
        if i < n { assert words[..n][i] == words[i]; }
      }
    }
  }

  /** Some occurrence carries a code, so was typed character by character (NewWord.HitIsTyped). */
  predicate HasTypedCode(scanned: seq<Window>, t: bytes)
  {
    exists k :: 0 <= k < |Spelling(scanned, t)| && Spelling(scanned, t)[k].code != []
  }

  predicate InRows(rows: seq<Row>, t: bytes)
  {
    exists k :: 0 <= k < |rows| && rows[k].text == t
  }

  lemma TypedCodeOf(w: Word, scanned: seq<Window>)
    requires Describing(w, scanned)
    ensures w.code != [] <==> HasTypedCode(scanned, w.text)
  {
  }

  ghost predicate RowIsRight(r: Row, scanned: seq<Window>, index: W.Index)
  {
    && r.weight == |Spelling(scanned, r.text)| % U32_SIZE
    && (if W.Encode(index, r.text) != [] then r.code == W.Encode(index, r.text)
        else IsLongestCode(r.code, Spelling(scanned, r.text)))
    && r.code != []
  }

  lemma RecodedRow(w: Word, scanned: seq<Window>, index: W.Index)
    requires Describing(w, scanned) && FinalCode(index, w) != []
    ensures RowIsRight(RowOf(w.(code := FinalCode(index, w))), scanned, index)
  {
    hide W.Encode, Spelling;
  }

  /** The RIME rows are exactly the discovered strings that have a code in the end: the
      canonical one if every character is known, else one that was typed. */
  lemma RowsFromHistory(words: seq<Word>, scanned: seq<Window>, cfg: Config, index: W.Index)
    requires IsDiscovery(words, scanned, cfg)
    ensures var rows := RowsOf(Recoded(words, index));
            && (forall t :: InRows(rows, t) <==>
                  Qualifies(t, scanned, cfg) && (W.Encode(index, t) != [] || HasTypedCode(scanned, t)))
            && (forall k :: 0 <= k < |rows| ==> RowIsRight(rows[k], scanned, index))
            && (forall k, l :: 0 <= k < l < |rows| ==>
                  rows[k].weight > rows[l].weight
                  || (rows[k].weight == rows[l].weight && LexLess(rows[k].text, rows[l].text)))
  {
    var finals := Recoded(words, index);
    var rows := RowsOf(finals);
    var src := RowSources(finals);
    hide W.Encode, Spelling, Qualifies, HasTypedCode, RowsOf, RowIsRight, Describing, IsLongestCode;
    forall k | 0 <= k < |rows|
      ensures RowIsRight(rows[k], scanned, index)
    {
      RecodedRow(words[src[k]], scanned, index);
    }
    forall t
      ensures InRows(rows, t) <==> Qualifies(t, scanned, cfg) && (W.Encode(index, t) != [] || HasTypedCode(scanned, t))
    {
      RowOrNot(words, scanned, cfg, index, src, t);
    }
  }

  lemma RowOrNot(words: seq<Word>, scanned: seq<Window>, cfg: Config, index: W.Index, src: seq<nat>, t: bytes)
    requires IsDiscovery(words, scanned, cfg)
    requires var finals := Recoded(words, index);
             && |src| == |RowsOf(finals)|
             && (forall k :: 0 <= k < |src| ==>
                  src[k] < |finals| && finals[src[k]].code != [] && RowsOf(finals)[k] == RowOf(finals[src[k]]))
             && (forall i :: 0 <= i < |finals| && finals[i].code != [] ==> i in src)
    ensures InRows(RowsOf(Recoded(words, index)), t) <==>
            Qualifies(t, scanned, cfg) && (W.Encode(index, t) != [] || HasTypedCode(scanned, t))
  {
    hide W.Encode, Spelling, Qualifies, HasTypedCode, RowsOf, Describing, Outranks;
    var finals := Recoded(words, index);
    assert Lists(words, t) <==> Qualifies(t, scanned, cfg);
    if InRows(RowsOf(finals), t) {
      var k :| 0 <= k < |src| && RowsOf(finals)[k].text == t;
      assert words[src[k]].text == t;
      TypedCodeOf(words[src[k]], scanned);
    }
    if Qualifies(t, scanned, cfg) {
      var i :| 0 <= i < |words| && words[i].text == t;
      TypedCodeOf(words[i], scanned);
      if finals[i].code != [] {
        var k :| 0 <= k < |src| && src[k] == i;
        assert RowsOf(finals)[k].text == t;
      }
    }
  }

  /** A row whose characters are not all known holds the codes of two or three one-character
      commits that follow each other in one chain and spell it. */
  lemma RowCodeIsTyped(sort: seq<Entry> -> seq<Entry>, recent: seq<Entry>, cfg: Config, index: W.Index, row: Row)
    returns (r: nat, i: nat, span: nat)
    requires cfg.gap != 0 && RowIsRight(row, Scanned(sort, recent, cfg), index) && W.Encode(index, row.text) == []
    ensures var runs := Chains(sort(recent), Cut, cfg.gap);
            && r < |runs| && (span == 2 || span == 3) && i + span <= |runs[r]|
            && TypedAs(runs[r][i..i + span], row.text, row.code, sort(recent))
  {
    hide W.Encode, Scanned, Spelling, TypedAs, Chains;
    var hits := Spelling(Scanned(sort, recent, cfg), row.text);
    var k :| 0 <= k < |hits| && hits[k].code == row.code;
    r, i, span := HitIsTyped(sort, recent, cfg, row.text, k);
  }

  // ---- The table a round saves ---------------------------------------------

  lemma {:induction false} EmitChars(from: bytes, cs: seq<bytes>)
    requires (from == [] || IsChar(from)) && AllChars(cs)
    ensures forall k :: 0 <= k < |Emit(from, cs)| ==> IsChar(Emit(from, cs)[k].0) && IsChar(Emit(from, cs)[k].1)
    decreases cs
  {
    hide IsChar;
    if cs == [] {
    } else {
      EmitChars(cs[0], cs[1..]);
    }
  }

  ghost predicate PairsOfChars(ps: seq<Bigram>)
  {
    forall k :: 0 <= k < |ps| ==> IsChar(ps[k].0) && IsChar(ps[k].1)
  }

  lemma {:induction false} StreamChars(es: seq<Entry>)
    ensures PairsOfChars(StreamOf(es).pairs) && (StreamOf(es).prev == [] || IsChar(StreamOf(es).prev))
    decreases |es|
  {
    if es == [] {
    } else {
      var st, e := StreamOf(es[..|es| - 1]), es[|es| - 1];
      StreamChars(es[..|es| - 1]);
      CharsCover(e.text);
      hide IsChar, Chars, Emit;
      EmitChars(Ngram.Kept(st, e), Chars(e.text));
    }
  }

  lemma {:induction false} BumpedPairs(ps: seq<Bigram>, a: bytes, b: bytes)
    ensures Has(BumpAll(map[], ps), a, b) <==> (a, b) in ps
    ensures Tidy(BumpAll(map[], ps))
    decreases |ps|
  {
    if ps == [] {
    } else {
      var init, p := ps[..|ps| - 1], ps[|ps| - 1];
      BumpedPairs(init, a, b);
      BumpAt(BumpAll(map[], init), p.0, p.1, (a, b));
      BumpTidy(BumpAll(map[], init), p.0, p.1);
      assert ps == init + [p] && p == (p.0, p.1);
      hide Bump, Tidy;
    }
  }

  lemma {:induction false} FewMembers<T>(xs: seq<T>)
    ensures |set x | x in xs| <= |xs|
    decreases |xs|
  {
    if xs == [] {
    } else {
      var init, x := xs[..|xs| - 1], xs[|xs| - 1];
      FewMembers(init);
      assert xs == init + [x];
      assert (set y | y in xs) == (set y | y in init) + {x};
    }
  }

  /** The table a round fills from empty has only single characters as keys, no more pairs than increments. */
  lemma RoundTable(es: seq<Entry>)
    ensures var t := BumpAll(map[], StreamOf(es).pairs);
            && Tidy(t) && OnlyShort(t) && |PairsOf(t, t.Keys)| <= |StreamOf(es).pairs|
            && forall a, b :: Has(t, a, b) ==> IsChar(a) && IsChar(b)
  {
    var ps := StreamOf(es).pairs;
    var t := BumpAll(map[], ps);
    StreamChars(es);
    hide StreamOf, BumpAll, Tidy;
    BumpedPairs(ps, [], []);
    forall a, b | Has(t, a, b)
      ensures |a| <= U16_MAX && |b| <= U16_MAX && IsChar(a) && IsChar(b)
    {
      BumpedPairs(ps, a, b);
      var k :| 0 <= k < |ps| && ps[k] == (a, b);
    }
    FewMembers(ps);
    forall k: Bigram
      ensures k in PairsOf(t, t.Keys) <==> k in ps
    {
      BumpedPairs(ps, k.0, k.1);
      assert k == (k.0, k.1);
    }
    assert PairsOf(t, t.Keys) == set k | k in ps;
  }

  /** Two rounds that start from empty tables and whose scans find the same write the same words
      and rows and leave the same table, and either n-gram file loads back as that table:
      nothing depends on hash order or on how ties in rank were sorted. */
  lemma RoundsRepeat(sort: seq<Entry> -> seq<Entry>, stores: Stores, dict: Option<seq<bytes>>, cfg: RoundConfig,
                     t1: Table, w1: seq<Word>, f1: Files, t2: Table, w2: seq<Word>, f2: Files)
    requires IsRound(sort, stores, dict, cfg, map[], t1, w1, f1)
    requires IsRound(sort, stores, dict, cfg, map[], t2, w2, f2)
    requires |StreamOf(sort(stores.counted(cfg.ngramScanMax))).pairs| < U32_SIZE
    ensures t1 == t2 && f1.words == f2.words && f1.rime == f2.rime
    ensures LoadFile(f1.ngram) == Loaded(true, t1) && LoadFile(f2.ngram) == Loaded(true, t1)
  {
    var es := sort(stores.counted(cfg.ngramScanMax));
    RoundTable(es);
    hide BumpAll, StreamOf, Scanned, RowsOf, Recoded, LoadFile, IsImage;
    DiscoveryUnique(w1, w2, Scanned(sort, stores.searched(cfg.scanMax), DiscoveryConfig(cfg)), DiscoveryConfig(cfg));
    hide IsDiscovery, OnlyShort, Tidy, PairsOf;
    LoadsBack(f1.ngram, t1);
    LoadsBack(f2.ngram, t2);
  }

  /** Two automatic rounds in a row, each with its own table. */
  method TwoRounds(sort: seq<Entry> -> seq<Entry>, rank: seq<Word> -> seq<Word>, stores: Stores, count: u64,
                   dict: Option<seq<bytes>>, cfg: RoundConfig, world: Outcomes)
    returns (first: Files, second: Files)
    requires IsSorter(sort) && IsRanker(rank)
    requires |StreamOf(sort(stores.counted(cfg.ngramScanMax))).pairs| < U32_SIZE
    ensures first.words == second.words && first.rime == second.rime
    ensures LoadFile(first.ngram) == LoadFile(second.ngram)
  {
    hide IsRound, LoadFile;
    var ngrams := new NgramTable();
    var r1, f1, w1 := RunLearningRound(sort, rank, stores, count, ngrams, dict, cfg, world);
    var again := new NgramTable();
    var r2, f2, w2 := RunLearningRound(sort, rank, stores, count, again, dict, cfg, world);
    RoundsRepeat(sort, stores, dict, cfg, ngrams.table, w1, f1, again.table, w2, f2);
    first, second := f1, f2;
  }

  /** If both scans saw the same entries, and their texts are well formed, a round that starts
      from an empty table leaves the frequency of every two-character word in the table too. */
  lemma RoundAgrees(sort: seq<Entry> -> seq<Entry>, stores: Stores, dict: Option<seq<bytes>>, cfg: RoundConfig,
                    after: Table, words: seq<Word>, files: Files, a: bytes, b: bytes)
    requires IsRound(sort, stores, dict, cfg, map[], after, words, files)
    requires cfg.bigrams && IsChar(a) && IsChar(b)
    requires stores.searched(cfg.scanMax) == stores.counted(cfg.ngramScanMax)
    requires var es := sort(stores.searched(cfg.scanMax)); forall i :: 0 <= i < |es| ==> WellFormed(es[i].text)
    ensures forall i :: 0 <= i < |files.words| && files.words[i].text == a + b ==>
              files.words[i].frequency == Count(after, a, b)
  {
    hide BumpAll, StreamOf, Scanned, IsImage, RowsOf, IsDiscovery, IsChar, Count, W.Encode, W.IndexOf, Spelling;
    A.TableAgreesWithWords(sort, stores.searched(cfg.scanMax), DiscoveryConfig(cfg), words, a, b);
  }
}
