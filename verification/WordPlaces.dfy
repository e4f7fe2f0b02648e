/** Discovery told by places: where in the chains a string is spelled, without reference to the
    order in which windows are scanned and tallied (src/daemon/new_word.cc). */
module WordPlaces {
  import opened Bytes
  import opened History
  import opened NewWord

  /** `span` tokens of run number `run`, from token number `at` on. */
  datatype Place = Place(run: nat, at: nat, span: nat)

  /** Two tokens if bigrams are wanted, three if trigrams are, inside one run. */
  predicate Fits(runs: seq<seq<Token>>, cfg: Config, p: Place)
  {
    && p.run < |runs| && p.at + p.span <= |runs[p.run]|
    && ((p.span == 2 && cfg.bigrams) || (p.span == 3 && cfg.trigrams))
  }

  function TokensAt(runs: seq<seq<Token>>, p: Place): (toks: seq<Token>)
    requires p.run < |runs| && p.at + p.span <= |runs[p.run]|
    ensures |toks| == p.span
  {
    runs[p.run][p.at..p.at + p.span]
  }

  /** The order of scanning: run by run, in each first the pairs and then the triples. */
  predicate Earlier(p: Place, q: Place)
  {
    p.run < q.run || (p.run == q.run && (p.span < q.span || (p.span == q.span && p.at < q.at)))
  }

  // ---- The places, in order ------------------------------------------------

  function SpanPlaces(run: nat, size: nat, span: nat): (ps: seq<Place>)
    ensures |ps| == if size >= span then size - span + 1 else 0
  {
    if size < span then [] else seq(size - span + 1, i requires 0 <= i < size - span + 1 => Place(run, i, span))
  }

  function RunPlaces(run: nat, size: nat, cfg: Config): (ps: seq<Place>)
  {
    (if cfg.bigrams then SpanPlaces(run, size, 2) else []) + (if cfg.trigrams then SpanPlaces(run, size, 3) else [])
  }

  function AllPlaces(runs: seq<seq<Token>>, cfg: Config): (ps: seq<Place>)
  {
    if runs == [] then []
    else AllPlaces(runs[..|runs| - 1], cfg) + RunPlaces(|runs| - 1, |runs[|runs| - 1]|, cfg)
  }

  /** How many there are. */
  function PlaceCount(runs: seq<seq<Token>>, cfg: Config): (n: nat)
  {
    if runs == [] then 0
    else
      var size := |runs[|runs| - 1]|;
      PlaceCount(runs[..|runs| - 1], cfg) + (if cfg.bigrams then Max(0, size - 1) else 0)
        + (if cfg.trigrams then Max(0, size - 2) else 0)
  }

  ghost predicate InOrder(ps: seq<Place>)
  {
    forall l, m :: 0 <= l < m < |ps| ==> Earlier(ps[l], ps[m])
  }

  ghost predicate AllFit(runs: seq<seq<Token>>, cfg: Config, ps: seq<Place>)
  {
    forall l :: 0 <= l < |ps| ==> Fits(runs, cfg, ps[l])
  }

  ghost predicate Complete(runs: seq<seq<Token>>, cfg: Config, ps: seq<Place>)
  {
    forall p :: Fits(runs, cfg, p) ==> p in ps
  }

  lemma RunPlacesAre(run: nat, size: nat, cfg: Config)
    ensures InOrder(RunPlaces(run, size, cfg))
    ensures forall p: Place :: p in RunPlaces(run, size, cfg) <==>
              && p.run == run && p.at + p.span <= size
              && ((p.span == 2 && cfg.bigrams) || (p.span == 3 && cfg.trigrams))
  {
    var ps := RunPlaces(run, size, cfg);
    forall p: Place | p.run == run && p.at + p.span <= size
                       && ((p.span == 2 && cfg.bigrams) || (p.span == 3 && cfg.trigrams))
      ensures p in ps
    {
      var l := if p.span == 2 then p.at else if cfg.bigrams then |SpanPlaces(run, size, 2)| + p.at else p.at;
      assert ps[l] == p;
    }
  }

  lemma InOrderConcat(ps: seq<Place>, qs: seq<Place>)
    requires InOrder(ps) && InOrder(qs) && forall p, q :: p in ps && q in qs ==> Earlier(p, q)
    ensures InOrder(ps + qs)
  {
    hide Earlier;
    var all := ps + qs;
    forall l, m | 0 <= l < m < |all|
      ensures Earlier(all[l], all[m])
    {
      if m < |ps| {
        assert all[l] == ps[l] && all[m] == ps[m];
      } else if l >= |ps| {
        assert all[l] == qs[l - |ps|] && all[m] == qs[m - |ps|];
      } else {
        assert all[l] in ps && all[m] in qs;
      }
    }
  }

  /** A list of places of the first runs goes on with those of the next. */
  lemma PlacesGrow(runs: seq<seq<Token>>, cfg: Config, ps: seq<Place>, qs: seq<Place>)
    requires runs != [] && InOrder(ps) && InOrder(qs)
    requires var init := runs[..|runs| - 1]; AllFit(init, cfg, ps) && Complete(init, cfg, ps)
    requires var n := |runs| - 1;
             forall p: Place :: p in qs <==> p.run == n && p.at + p.span <= |runs[n]|
                                             && ((p.span == 2 && cfg.bigrams) || (p.span == 3 && cfg.trigrams))
    ensures InOrder(ps + qs) && AllFit(runs, cfg, ps + qs) && Complete(runs, cfg, ps + qs)
  {
    hide InOrder;
    var init, n := runs[..|runs| - 1], |runs| - 1;
    forall p, q | p in ps && q in qs
      ensures Earlier(p, q)
    {
      assert Fits(init, cfg, p);
    }
    InOrderConcat(ps, qs);
    hide Earlier;
    forall p | Fits(runs, cfg, p)
      ensures p in ps + qs
    {
      assert p.run < n ==> Fits(init, cfg, p);
    }
    forall l | 0 <= l < |ps + qs|
      ensures Fits(runs, cfg, (ps + qs)[l])
    {
      if l < |ps| { assert Fits(init, cfg, ps[l]); } else { assert qs[l - |ps|] in qs; }
    }
  }

  /** All places, each once, in the order of scanning. */
  lemma {:induction false} AllPlacesAre(runs: seq<seq<Token>>, cfg: Config)
    ensures InOrder(AllPlaces(runs, cfg)) && AllFit(runs, cfg, AllPlaces(runs, cfg))
    ensures Complete(runs, cfg, AllPlaces(runs, cfg))
    ensures |AllPlaces(runs, cfg)| == PlaceCount(runs, cfg)
    decreases |runs|
  {
    if runs == [] {
    } else {
      hide InOrder, AllFit, Complete, RunPlaces, Fits;
      var init, n := runs[..|runs| - 1], |runs| - 1;
      AllPlacesAre(init, cfg);
      RunPlacesAre(n, |runs[n]|, cfg);
      RunPlacesCount(n, |runs[n]|, cfg);
      PlacesGrow(runs, cfg, AllPlaces(init, cfg), RunPlaces(n, |runs[n]|, cfg));
    }
  }

  lemma RunPlacesCount(run: nat, size: nat, cfg: Config)
    ensures |RunPlaces(run, size, cfg)| ==
            (if cfg.bigrams then Max(0, size - 1) else 0) + (if cfg.trigrams then Max(0, size - 2) else 0)
  {
  }

  // ---- The windows scanned are those at the places --------------------------

  predicate StandsAt(runs: seq<seq<Token>>, cfg: Config, p: Place, w: Window)
  {
    Fits(runs, cfg, p) && w == WindowOf(TokensAt(runs, p))
  }

  /** Each window stands at its place. */
  ghost predicate Matches(runs: seq<seq<Token>>, cfg: Config, ps: seq<Place>, ws: seq<Window>)
  {
    |ws| == |ps| && forall l :: 0 <= l < |ps| ==> StandsAt(runs, cfg, ps[l], ws[l])
  }

  lemma MatchesConcat(runs: seq<seq<Token>>, cfg: Config, ps: seq<Place>, ws: seq<Window>,
                      qs: seq<Place>, vs: seq<Window>)
    requires Matches(runs, cfg, ps, ws) && Matches(runs, cfg, qs, vs)
    ensures Matches(runs, cfg, ps + qs, ws + vs)
  {
    hide StandsAt;
  }

  lemma StandsStill(runs: seq<seq<Token>>, cfg: Config, p: Place, w: Window)
    requires runs != [] && StandsAt(runs[..|runs| - 1], cfg, p, w)
    ensures StandsAt(runs, cfg, p, w)
  {
    hide WindowOf;
  }

  lemma SpanMatches(runs: seq<seq<Token>>, cfg: Config, r: nat, span: nat)
    requires r < |runs| && ((span == 2 && cfg.bigrams) || (span == 3 && cfg.trigrams))
    ensures Matches(runs, cfg, SpanPlaces(r, |runs[r]|, span), Windows(runs[r], span))
  {
    var run := runs[r];
    WindowsCount(run, span);
    hide Windows, WindowOf;
    forall l | 0 <= l < |SpanPlaces(r, |run|, span)|
      ensures StandsAt(runs, cfg, SpanPlaces(r, |run|, span)[l], Windows(run, span)[l])
    {
      WindowsAt(run, span, l);
    }
  }

  lemma RunMatches(runs: seq<seq<Token>>, cfg: Config, r: nat)
    requires r < |runs|
    ensures Matches(runs, cfg, RunPlaces(r, |runs[r]|, cfg), RunWindows(runs[r], cfg))
  {
    hide Windows, WindowOf, SpanPlaces, StandsAt;
    if cfg.bigrams { SpanMatches(runs, cfg, r, 2); }
    if cfg.trigrams { SpanMatches(runs, cfg, r, 3); }
    var run, size := runs[r], |runs[r]|;
    MatchesConcat(runs, cfg, if cfg.bigrams then SpanPlaces(r, size, 2) else [],
                  if cfg.bigrams then Windows(run, 2) else [],
                  if cfg.trigrams then SpanPlaces(r, size, 3) else [], if cfg.trigrams then Windows(run, 3) else []);
  }

  lemma {:induction false} WindowsMatch(runs: seq<seq<Token>>, cfg: Config)
    ensures Matches(runs, cfg, AllPlaces(runs, cfg), AllWindows(runs, cfg))
    decreases |runs|
  {
    hide StandsAt, RunPlaces, RunWindows;
    if runs == [] {
    } else {
      var init, n := runs[..|runs| - 1], |runs| - 1;
      WindowsMatch(init, cfg);
      RunMatches(runs, cfg, n);
      forall l | 0 <= l < |AllPlaces(init, cfg)|
        ensures StandsAt(runs, cfg, AllPlaces(init, cfg)[l], AllWindows(init, cfg)[l])
      {
        StandsStill(runs, cfg, AllPlaces(init, cfg)[l], AllWindows(init, cfg)[l]);
      }
      MatchesConcat(runs, cfg, AllPlaces(init, cfg), AllWindows(init, cfg),
                    RunPlaces(n, |runs[n]|, cfg), RunWindows(runs[n], cfg));
    }
  }

  /** At every place that fits there is a window, and there are no more windows than places. */
  lemma EveryPlaceScanned(runs: seq<seq<Token>>, cfg: Config, p: Place)
    requires Fits(runs, cfg, p)
    ensures WindowOf(TokensAt(runs, p)) in AllWindows(runs, cfg)
    ensures |AllWindows(runs, cfg)| == PlaceCount(runs, cfg)
  {
    AllPlacesAre(runs, cfg);
    WindowsMatch(runs, cfg);
    hide InOrder, AllWindows, AllPlaces, WindowOf, PlaceCount;
    var l :| 0 <= l < |AllPlaces(runs, cfg)| && AllPlaces(runs, cfg)[l] == p;
    assert StandsAt(runs, cfg, p, AllWindows(runs, cfg)[l]);
  }

  // ---- Where a string is spelled -------------------------------------------

  function SpelledAt(runs: seq<seq<Token>>, p: Place): (t: bytes)
    requires p.run < |runs| && p.at + p.span <= |runs[p.run]|
  {
    Flat(Texts(TokensAt(runs, p)))
  }

  /** The places that spell `t`. */
  ghost function PlacesOf(runs: seq<seq<Token>>, cfg: Config, t: bytes): (ps: set<Place>)
    ensures forall p :: p in ps ==> Fits(runs, cfg, p)
  {
    set p | p in AllPlaces(runs, cfg) && Fits(runs, cfg, p) && SpelledAt(runs, p) == t
  }

  /** That is: all that fit and spell it. */
  lemma PlacesOfAre(runs: seq<seq<Token>>, cfg: Config, t: bytes, p: Place)
    ensures p in PlacesOf(runs, cfg, t) <==> Fits(runs, cfg, p) && SpelledAt(runs, p) == t
  {
    AllPlacesAre(runs, cfg);
    hide AllPlaces, Fits, SpelledAt, InOrder;
  }

  /** `hits` are the windows of `ws` at the strictly ascending indices `at`, and those are all that spell `t`. */
  ghost predicate Picks(ws: seq<Window>, t: bytes, hits: seq<Window>, at: seq<nat>)
  {
    && |at| == |hits|
    && (forall k :: 0 <= k < |at| ==> at[k] < |ws| && ws[at[k]] == hits[k] && hits[k].text == t)
    && (forall j, k :: 0 <= j < k < |at| ==> at[j] < at[k])
    && forall l :: 0 <= l < |ws| && ws[l].text == t ==> l in at
  }

  lemma PicksNext(ws: seq<Window>, w: Window, t: bytes, hits: seq<Window>, at: seq<nat>)
    requires Picks(ws, t, hits, at)
    ensures if w.text == t then Picks(ws + [w], t, hits + [w], at + [|ws|]) else Picks(ws + [w], t, hits, at)
  {
    var all, n := ws + [w], |ws|;
    assert forall l :: 0 <= l < n ==> all[l] == ws[l];
    if w.text == t {
      var at' := at + [n];
      assert at'[|at|] == n;
      assert forall l :: l in at ==> l in at';
    }
  }

  lemma {:induction false} SpellingPicks(ws: seq<Window>, t: bytes) returns (at: seq<nat>)
    ensures Picks(ws, t, Spelling(ws, t), at)
    decreases |ws|
  {
    if ws == [] {
      at := [];
    } else {
      var init, n := ws[..|ws| - 1], |ws| - 1;
      hide Picks;
      at := SpellingPicks(init, t);
      PicksNext(init, ws[n], t, Spelling(init, t), at);
      assert ws == init + [ws[n]] && Spelling(init, t) + [] == Spelling(init, t);
      if ws[n].text == t { at := at + [n]; }
    }
  }

  lemma {:induction false} ImageCount(at: seq<nat>, ps: seq<Place>)
    requires forall k :: 0 <= k < |at| ==> at[k] < |ps|
    requires forall j, k :: 0 <= j < k < |at| ==> ps[at[j]] != ps[at[k]]
    ensures |set k | 0 <= k < |at| :: ps[at[k]]| == |at|
    decreases |at|
  {
    if at == [] {
    } else {
      var init, n := at[..|at| - 1], |at| - 1;
      ImageCount(init, ps);
      assert (set k | 0 <= k < |at| :: ps[at[k]]) == (set k | 0 <= k < |init| :: ps[init[k]]) + {ps[at[n]]};
    }
  }

  /** A string is scanned as often as there are places that spell it. */
  lemma SpellingCounts(runs: seq<seq<Token>>, cfg: Config, t: bytes) returns (at: seq<nat>)
    ensures Picks(AllWindows(runs, cfg), t, Spelling(AllWindows(runs, cfg), t), at)
    ensures |Spelling(AllWindows(runs, cfg), t)| == |PlacesOf(runs, cfg, t)|
    ensures forall k :: 0 <= k < |at| ==> at[k] < |AllPlaces(runs, cfg)|
    ensures forall p :: p in PlacesOf(runs, cfg, t) <==> exists k :: 0 <= k < |at| && AllPlaces(runs, cfg)[at[k]] == p
  {
    var ws, ps := AllWindows(runs, cfg), AllPlaces(runs, cfg);
    at := SpellingPicks(ws, t);
    AllPlacesAre(runs, cfg);
    WindowsMatch(runs, cfg);
    hide AllWindows, AllPlaces, Spelling, Fits, Complete, PlaceCount;
    forall j, k | 0 <= j < k < |at|
      ensures ps[at[j]] != ps[at[k]]
    {
      assert Earlier(ps[at[j]], ps[at[k]]);
    }
    ImageCount(at, ps);
    hide InOrder, Earlier;
    var image := set k | 0 <= k < |at| :: ps[at[k]];
    forall p
      ensures p in PlacesOf(runs, cfg, t) <==> p in image
    {
      if p in PlacesOf(runs, cfg, t) {
        var l :| 0 <= l < |ps| && ps[l] == p;
        assert ws[l].text == t && l in at;
        var k :| 0 <= k < |at| && at[k] == l;
      }
    }
    assert PlacesOf(runs, cfg, t) == image;
  }

  // ---- Discovery by places -------------------------------------------------

  /** What discovery scans: each entry by itself, or the chains of the entries in time order. */
  ghost function RunsOfScan(sort: seq<Entry> -> seq<Entry>, recent: seq<Entry>, cfg: Config): (runs: seq<seq<Token>>)
  {
    if cfg.gap == 0 then RunPerEntry(recent) else Chains(sort(recent), Cut, cfg.gap)
  }

  /** The codes of the tokens there put together, if each has one. */
  function CodeAt(runs: seq<seq<Token>>, p: Place): (code: bytes)
    requires p.run < |runs| && p.at + p.span <= |runs[p.run]|
  {
    var toks := TokensAt(runs, p);
    if forall i :: 0 <= i < |toks| ==> toks[i].code != [] then Flat(Codes(toks)) else []
  }

  /** When the first of them was committed. */
  function TimeAt(runs: seq<seq<Token>>, p: Place): (ts: u64)
    requires p.run < |runs| && p.at < |runs[p.run]|
  {
    runs[p.run][p.at].ts
  }

  /** `first` and `last` are the least and the greatest time among the places. */
  ghost predicate TimesRight(runs: seq<seq<Token>>, cfg: Config, t: bytes, first: u64, last: u64)
  {
    && (forall p :: p in PlacesOf(runs, cfg, t) ==> first <= TimeAt(runs, p) <= last)
    && (exists p :: p in PlacesOf(runs, cfg, t) && TimeAt(runs, p) == first)
    && (exists p :: p in PlacesOf(runs, cfg, t) && TimeAt(runs, p) == last)
  }

  /** `code` is the longest at any place, and the first met of those. */
  ghost predicate CodeRight(runs: seq<seq<Token>>, cfg: Config, t: bytes, code: bytes)
  {
    && (forall p :: p in PlacesOf(runs, cfg, t) ==> |CodeAt(runs, p)| <= |code|)
    && (code == [] || exists p | p in PlacesOf(runs, cfg, t) :: IsFirstWith(runs, cfg, t, code, p))
  }

  ghost predicate IsFirstWith(runs: seq<seq<Token>>, cfg: Config, t: bytes, code: bytes, p: Place)
    requires p in PlacesOf(runs, cfg, t)
  {
    && CodeAt(runs, p) == code
    && forall q :: q in PlacesOf(runs, cfg, t) && Earlier(q, p) ==> |CodeAt(runs, q)| < |code|
  }

  ghost predicate WordRight(runs: seq<seq<Token>>, cfg: Config, w: Word)
  {
    && w.frequency == |PlacesOf(runs, cfg, w.text)| % U32_SIZE
    && TimesRight(runs, cfg, w.text, w.first, w.last)
    && CodeRight(runs, cfg, w.text, w.code)
  }

  /** `hit` is what is scanned at `p`, which spells `t`. */
  ghost predicate HitStands(runs: seq<seq<Token>>, cfg: Config, t: bytes, p: Place, hit: Window)
  {
    p in PlacesOf(runs, cfg, t) && hit.code == CodeAt(runs, p) && hit.ts == TimeAt(runs, p)
  }

  lemma HitAt(runs: seq<seq<Token>>, cfg: Config, t: bytes, p: Place, w: Window)
    requires StandsAt(runs, cfg, p, w) && p in PlacesOf(runs, cfg, t)
    ensures HitStands(runs, cfg, t, p, w)
  {
    hide PlacesOf;
  }

  /** The places of the hits, in the order of scanning; every place that spells `t` is one. */
  ghost predicate Located(runs: seq<seq<Token>>, cfg: Config, t: bytes, hits: seq<Window>, where: seq<Place>)
  {
    && |where| == |hits| == |PlacesOf(runs, cfg, t)|
    && (forall k :: 0 <= k < |where| ==> HitStands(runs, cfg, t, where[k], hits[k]))
    && InOrder(where)
    && forall p :: p in PlacesOf(runs, cfg, t) ==> p in where
  }

  lemma InOrderPicked(ps: seq<Place>, at: seq<nat>, where: seq<Place>)
    requires InOrder(ps) && |at| == |where|
    requires forall k :: 0 <= k < |at| ==> at[k] < |ps| && where[k] == ps[at[k]]
    requires forall j, k :: 0 <= j < k < |at| ==> at[j] < at[k]
    ensures InOrder(where)
  {
    hide Earlier;
  }

  lemma Locate(runs: seq<seq<Token>>, cfg: Config, t: bytes) returns (where: seq<Place>)
    ensures Located(runs, cfg, t, Spelling(AllWindows(runs, cfg), t), where)
  {
    hide AllPlaces, AllWindows, Spelling, PlacesOf, HitStands, StandsAt, Earlier, Complete, AllFit, PlaceCount, InOrder;
    var at := SpellingCounts(runs, cfg, t);
    AllPlacesAre(runs, cfg);
    WindowsMatch(runs, cfg);
    var ps, ws, hits := AllPlaces(runs, cfg), AllWindows(runs, cfg), Spelling(AllWindows(runs, cfg), t);
    where := seq(|at|, k requires 0 <= k < |at| => ps[at[k]]);
    InOrderPicked(ps, at, where);
    forall k | 0 <= k < |where|
      ensures HitStands(runs, cfg, t, where[k], hits[k])
    {
      assert StandsAt(runs, cfg, ps[at[k]], ws[at[k]]);
      HitAt(runs, cfg, t, where[k], hits[k]);
    }
    forall p | p in PlacesOf(runs, cfg, t)
      ensures p in where
    {
      var k :| 0 <= k < |at| && ps[at[k]] == p;
      assert where[k] == p;
    }
  }

  lemma DescribedByPlaces(runs: seq<seq<Token>>, cfg: Config, w: Word)
    requires Describing(w, AllWindows(runs, cfg))
    ensures WordRight(runs, cfg, w)
  {
    var hits := Spelling(AllWindows(runs, cfg), w.text);
    var where := Locate(runs, cfg, w.text);
    hide AllWindows, Spelling, PlacesOf, CodeAt, TimeAt;
    TimesByPlaces(runs, cfg, w.text, hits, where, w.first, w.last);
    CodeByPlaces(runs, cfg, w.text, hits, where, w.code);
  }

  lemma TimesByPlaces(runs: seq<seq<Token>>, cfg: Config, t: bytes, hits: seq<Window>, where: seq<Place>,
                      first: u64, last: u64)
    requires Located(runs, cfg, t, hits, where) && IsFirstSeen(first, hits) && IsLastSeen(last, hits)
    ensures TimesRight(runs, cfg, t, first, last)
  {
    hide PlacesOf, CodeAt, Earlier;
    forall p | p in PlacesOf(runs, cfg, t)
      ensures first <= TimeAt(runs, p) <= last
    {
      var k :| 0 <= k < |where| && where[k] == p;
      assert HitStands(runs, cfg, t, where[k], hits[k]);
    }
    var j :| 0 <= j < |hits| && hits[j].ts == first;
    var k :| 0 <= k < |hits| && hits[k].ts == last;
    assert HitStands(runs, cfg, t, where[j], hits[j]) && HitStands(runs, cfg, t, where[k], hits[k]);
    assert TimeAt(runs, where[j]) == first && TimeAt(runs, where[k]) == last;
  }

  lemma EarlierOneWay(p: Place, q: Place)
    ensures !(Earlier(p, q) && Earlier(q, p)) && !Earlier(p, p)
  {
  }

  lemma CodeByPlaces(runs: seq<seq<Token>>, cfg: Config, t: bytes, hits: seq<Window>, where: seq<Place>, code: bytes)
    requires Located(runs, cfg, t, hits, where) && IsLongestCode(code, hits)
    ensures CodeRight(runs, cfg, t, code)
  {
    hide PlacesOf, TimeAt, CodeAt, Earlier;
    forall p | p in PlacesOf(runs, cfg, t)
      ensures |CodeAt(runs, p)| <= |code|
    {
      var k :| 0 <= k < |where| && where[k] == p;
      assert HitStands(runs, cfg, t, where[k], hits[k]);
    }
    if code != [] {
      var k :| 0 <= k < |hits| && hits[k].code == code && forall j :: 0 <= j < k ==> |hits[j].code| < |code|;
      forall q | q in PlacesOf(runs, cfg, t) && Earlier(q, where[k])
        ensures |CodeAt(runs, q)| < |code|
      {
        var j :| 0 <= j < |where| && where[j] == q;
        assert HitStands(runs, cfg, t, where[j], hits[j]);
        EarlierOneWay(q, where[k]);
        assert k < j ==> Earlier(where[k], where[j]);
      }
      assert HitStands(runs, cfg, t, where[k], hits[k]);
      assert IsFirstWith(runs, cfg, t, code, where[k]);
    }
  }

  /** What discovery returns, in terms of places alone. A string is listed if and only if it is
      spelled somewhere, as often as the threshold asks (counting in 32 bits), and passes the
      filter; its frequency is the number of places, its times are the least and greatest there,
      its code the longest there and of those the first met. The words are listed by falling
      frequency, and those of equal frequency in the byte order of their texts. */
  lemma DiscoveryByPlaces(sort: seq<Entry> -> seq<Entry>, recent: seq<Entry>, cfg: Config, words: seq<Word>)
    requires IsDiscovery(words, Scanned(sort, recent, cfg), cfg)
    ensures var runs := RunsOfScan(sort, recent, cfg);
            && (forall x :: 0 <= x < |words| ==> WordRight(runs, cfg, words[x]))
            && (forall t :: Lists(words, t) <==>
                  var n := |PlacesOf(runs, cfg, t)|;
                  n > 0 && n % U32_SIZE >= cfg.minFrequency && LooksReal(t))
            && (forall x, y :: 0 <= x < y < |words| ==>
                  words[x].frequency > words[y].frequency
                  || (words[x].frequency == words[y].frequency && LexLess(words[x].text, words[y].text)))
  {
    var runs := RunsOfScan(sort, recent, cfg);
    hide Describing, AllWindows, Spelling, PlacesOf, LooksReal, LexLess, Located, WordRight;
    forall x | 0 <= x < |words|
      ensures WordRight(runs, cfg, words[x])
    {
      DescribedByPlaces(runs, cfg, words[x]);
    }
    forall t
      ensures Lists(words, t) <==>
              var n := |PlacesOf(runs, cfg, t)|;
              n > 0 && n % U32_SIZE >= cfg.minFrequency && LooksReal(t)
    {
      var where := Locate(runs, cfg, t);
      LocatedCount(runs, cfg, t, Spelling(AllWindows(runs, cfg), t), where);
      assert Lists(words, t) <==> Qualifies(t, Scanned(sort, recent, cfg), cfg);
    }
  }

  lemma LocatedCount(runs: seq<seq<Token>>, cfg: Config, t: bytes, hits: seq<Window>, where: seq<Place>)
    requires Located(runs, cfg, t, hits, where)
    ensures |hits| == |PlacesOf(runs, cfg, t)|
  {
    hide PlacesOf;
  }
}
