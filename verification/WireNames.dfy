/** The message maps by the names of their keys: what stands under each name in a packed message,
    and what a decoder makes of whatever stands there (src/common/protocol.cc). */
module WireNames {
  import opened Bytes
  import opened MsgPack
  import opened Protocol

  function Ascii(name: string): (s: bytes)
    requires forall i :: 0 <= i < |name| ==> name[i] < 128 as char
    ensures |s| == |name|
  {
    seq(|name|, i requires 0 <= i < |name| => name[i] as int)
  }

  /** What a message holds under a name. */
  function Under(m: Message, name: string): (v: Option<Value>)
    requires forall i :: 0 <= i < |name| ==> name[i] < 128 as char
  {
    Lookup(Pairs(m), Ascii(name))
  }

  lemma Named(m: Message, i: nat, name: string)
    requires forall i :: 0 <= i < |name| ==> name[i] < 128 as char
    requires i < |Pairs(m)| && Pairs(m)[i].key == Str(Ascii(name))
    ensures Under(m, name) == Some(Pairs(m)[i].val)
  {
    KeysDistinct(m);
    hide Pairs, Lookup;
    var ps := Pairs(m);
    assert ps[i] in ps;
    LookupUnique(ps, ps[i]);
  }

  lemma {:induction false} EachAt<T>(xs: seq<T>, mk: T -> Value, i: nat)
    requires i < |xs|
    ensures |Each(xs, mk)| == |xs| && Each(xs, mk)[i] == mk(xs[i])
  {
    if i == 0 {
      EachSize(xs, mk);
    } else {
      EachAt(xs[1..], mk, i - 1);
    }
  }

  lemma {:induction false} EachSize<T>(xs: seq<T>, mk: T -> Value)
    ensures |Each(xs, mk)| == |xs|
  {
    if xs == [] {
    } else {
      EachSize(xs[1..], mk);
    }
  }

  predicate AreStrings(v: Option<Value>, xs: seq<bytes>)
  {
    v.Some? && v.value.Arr? && |v.value.elems| == |xs| && forall i :: 0 <= i < |xs| ==> v.value.elems[i] == Str(xs[i])
  }

  predicate AreInts(v: Option<Value>, xs: seq<i32>)
  {
    v.Some? && v.value.Arr? && |v.value.elems| == |xs| && forall i :: 0 <= i < |xs| ==> v.value.elems[i] == Int(xs[i])
  }

  predicate AreWords(v: Option<Value>, xs: seq<u32>)
  {
    v.Some? && v.value.Arr? && |v.value.elems| == |xs| && forall i :: 0 <= i < |xs| ==> v.value.elems[i] == F32(xs[i])
  }

  /** Every message says its version and its type, by number. */
  lemma HeaderByName(m: Message)
    ensures Under(m, "v") == Some(Int(1))
    ensures Under(m, "t") == Some(Int(
              match m
              case RerankRequest(_, _, _, _, _) => 1
              case RerankResponse(_, _, _, _, _) => 2
              case CommitEvent(_, _, _) => 3
              case Ping(_) => 4
              case Pong(_) => 5
              case Error(_, _, _) => 6
              case StatsRequest(_) => 7
              case StatsResponse(_, _, _, _, _, _, _, _, _) => 8))
  {
    assert Pairs(m)[0].key == Str(Ascii("v")) && Pairs(m)[1].key == Str(Ascii("t"));
    Named(m, 0, "v");
    Named(m, 1, "t");
  }

  lemma RequestByName(m: Message)
    requires m.RerankRequest?
    ensures |Pairs(m)| == 7 && Under(m, "id") == Some(Int(m.id)) && Under(m, "code") == Some(Str(m.code))
    ensures Under(m, "ctx") == Some(Str(m.ctx)) && Under(m, "app") == Some(Str(m.app))
    ensures AreStrings(Under(m, "cands"), m.candidates)
  {
    var ps := Pairs(m);
    assert ps[2].key == Str(Ascii("id")) && ps[3].key == Str(Ascii("code")) && ps[4].key == Str(Ascii("ctx"));
    assert ps[5].key == Str(Ascii("cands")) && ps[6].key == Str(Ascii("app"));
    Named(m, 2, "id");
    Named(m, 3, "code");
    Named(m, 4, "ctx");
    Named(m, 5, "cands");
    Named(m, 6, "app");
    EachSize(m.candidates, OfStr);
    forall i | 0 <= i < |m.candidates|
      ensures Each(m.candidates, OfStr)[i] == Str(m.candidates[i])
    {
      EachAt(m.candidates, OfStr, i);
    }
  }

  lemma ResponseByName(m: Message)
    requires m.RerankResponse?
    ensures |Pairs(m)| == 7 && Under(m, "id") == Some(Int(m.id)) && Under(m, "lat_us") == Some(Int(m.latencyUs))
    ensures Under(m, "mver") == Some(Int(m.modelVersion))
    ensures AreInts(Under(m, "order"), m.order) && AreWords(Under(m, "scores"), m.scores)
  {
    var ps := Pairs(m);
    assert ps[2].key == Str(Ascii("id")) && ps[3].key == Str(Ascii("order")) && ps[4].key == Str(Ascii("scores"));
    assert ps[5].key == Str(Ascii("lat_us")) && ps[6].key == Str(Ascii("mver"));
    Named(m, 2, "id");
    Named(m, 3, "order");
    Named(m, 4, "scores");
    Named(m, 5, "lat_us");
    Named(m, 6, "mver");
    EachSize(m.order, OfI32);
    EachSize(m.scores, OfWord);
    forall i | 0 <= i < |m.order|
      ensures Each(m.order, OfI32)[i] == Int(m.order[i])
    {
      EachAt(m.order, OfI32, i);
    }
    forall i | 0 <= i < |m.scores|
      ensures Each(m.scores, OfWord)[i] == F32(m.scores[i])
    {
      EachAt(m.scores, OfWord, i);
    }
  }

  lemma CommitByName(m: Message)
    requires m.CommitEvent?
    ensures |Pairs(m)| == 5 && Under(m, "code") == Some(Str(m.code))
    ensures Under(m, "text") == Some(Str(m.text)) && Under(m, "ctx") == Some(Str(m.ctx))
  {
    var ps := Pairs(m);
    assert ps[2].key == Str(Ascii("code")) && ps[3].key == Str(Ascii("text")) && ps[4].key == Str(Ascii("ctx"));
    Named(m, 2, "code");
    Named(m, 3, "text");
    Named(m, 4, "ctx");
  }

  /** Ping, Pong and StatsRequest hold their id and nothing more. */
  lemma IdByName(m: Message)
    requires m.Ping? || m.Pong? || m.StatsRequest?
    ensures |Pairs(m)| == 3 && Under(m, "id") == Some(Int(m.id))
  {
    assert Pairs(m)[2].key == Str(Ascii("id"));
    Named(m, 2, "id");
  }

  lemma ErrorByName(m: Message)
    requires m.Error?
    ensures |Pairs(m)| == 5 && Under(m, "id") == Some(Int(m.id))
    ensures Under(m, "ec") == Some(Int(m.errorCode)) && Under(m, "em") == Some(Str(m.errorText))
  {
    var ps := Pairs(m);
    assert ps[2].key == Str(Ascii("id")) && ps[3].key == Str(Ascii("ec")) && ps[4].key == Str(Ascii("em"));
    Named(m, 2, "id");
    Named(m, 3, "ec");
    Named(m, 4, "em");
  }

  lemma StatsByName(m: Message)
    requires m.StatsResponse?
    ensures |Pairs(m)| == 11 && Under(m, "id") == Some(Int(m.id)) && Under(m, "rc") == Some(Int(m.reranks))
    ensures Under(m, "pc") == Some(Int(m.pings)) && Under(m, "cc") == Some(Int(m.commits))
    ensures Under(m, "ec_total") == Some(Int(m.errors)) && Under(m, "rls") == Some(Int(m.latencySum))
    ensures Under(m, "rlmax") == Some(Int(m.latencyMax)) && Under(m, "rmv") == Some(Int(m.statsVersion))
    ensures Under(m, "ut") == Some(Int(m.uptime))
  {
    StatsPairs(m);
    hide Pairs, Lookup, Ascii, Under;
    Named(m, 2, "id");
    Named(m, 3, "rc");
    Named(m, 4, "pc");
    Named(m, 5, "cc");
    Named(m, 6, "ec_total");
    Named(m, 7, "rls");
    Named(m, 8, "rlmax");
    Named(m, 9, "rmv");
    Named(m, 10, "ut");
  }

  lemma StatsPairs(m: Message)
    requires m.StatsResponse?
    ensures var ps := Pairs(m);
            && |ps| == 11 && ps[2] == Field(Ascii("id"), Int(m.id)) && ps[3] == Field(Ascii("rc"), Int(m.reranks))
            && ps[4] == Field(Ascii("pc"), Int(m.pings)) && ps[5] == Field(Ascii("cc"), Int(m.commits))
            && ps[6] == Field(Ascii("ec_total"), Int(m.errors)) && ps[7] == Field(Ascii("rls"), Int(m.latencySum))
            && ps[8] == Field(Ascii("rlmax"), Int(m.latencyMax)) && ps[9] == Field(Ascii("rmv"), Int(m.statsVersion))
            && ps[10] == Field(Ascii("ut"), Int(m.uptime))
  {
    assert Ascii("id") == KEY_ID && Ascii("rc") == KEY_RC && Ascii("pc") == KEY_PC && Ascii("cc") == KEY_CC;
    assert Ascii("ec_total") == KEY_ECT && Ascii("rls") == KEY_RLS && Ascii("rlmax") == KEY_RLMAX;
    assert Ascii("rmv") == KEY_RMV && Ascii("ut") == KEY_UT;
    hide Ascii;
  }

  // ---- Decoding whatever there is ------------------------------------------

  /** An integer field: what is there if it is an integer in bounds, else 0. */
  predicate IntFrom(ps: seq<Pair>, name: string, lo: int, hi: int, n: int)
    requires forall i :: 0 <= i < |name| ==> name[i] < 128 as char
  {
    var v := Lookup(ps, Ascii(name));
    n == if v.Some? && v.value.Int? && lo <= v.value.n <= hi then v.value.n else 0
  }

  /** A string field: what is there if it is a string or binary, else empty. */
  predicate StrFrom(ps: seq<Pair>, name: string, s: bytes)
    requires forall i :: 0 <= i < |name| ==> name[i] < 128 as char
  {
    var v := Lookup(ps, Ascii(name));
    s == if v.Some? && v.value.Str? then v.value.s else if v.Some? && v.value.Bin? then v.value.data else []
  }

  /** Each field of a decoded request or commit comes from its own name, whatever stands under
      the others. */
  lemma TextsDecodedByName(ps: seq<Pair>)
    ensures var m := FromPairs(1, ps);
            && m.Some? && m.value.RerankRequest? && IntFrom(ps, "id", 0, 0xFFFF_FFFF, m.value.id)
            && StrFrom(ps, "code", m.value.code) && StrFrom(ps, "ctx", m.value.ctx) && StrFrom(ps, "app", m.value.app)
    ensures var m := FromPairs(3, ps);
            && m.Some? && m.value.CommitEvent?
            && StrFrom(ps, "code", m.value.code) && StrFrom(ps, "text", m.value.text) && StrFrom(ps, "ctx", m.value.ctx)
  {
    assert Ascii("id") == KEY_ID && Ascii("code") == KEY_CODE && Ascii("ctx") == KEY_CTX && Ascii("app") == KEY_APP;
    assert Ascii("text") == KEY_TEXT;
    hide Lookup;
  }

  /** So does each field of a decoded ping, pong, error, or request for the stats. */
  lemma IdsDecodedByName(ps: seq<Pair>)
    ensures var m := FromPairs(4, ps); m.Some? && m.value.Ping? && IntFrom(ps, "id", 0, 0xFFFF_FFFF, m.value.id)
    ensures var m := FromPairs(5, ps); m.Some? && m.value.Pong? && IntFrom(ps, "id", 0, 0xFFFF_FFFF, m.value.id)
    ensures var m := FromPairs(6, ps);
            && m.Some? && m.value.Error? && IntFrom(ps, "id", 0, 0xFFFF_FFFF, m.value.id)
            && IntFrom(ps, "ec", -0x8000_0000, 0x7FFF_FFFF, m.value.errorCode) && StrFrom(ps, "em", m.value.errorText)
    ensures var m := FromPairs(7, ps); m.Some? && m.value.StatsRequest? && IntFrom(ps, "id", 0, 0xFFFF_FFFF, m.value.id)
  {
    assert Ascii("id") == KEY_ID && Ascii("ec") == KEY_EC && Ascii("em") == KEY_EM;
    hide Lookup;
  }

  lemma StatsDecodedByName(ps: seq<Pair>)
    ensures var m := FromPairs(8, ps);
            && m.Some? && m.value.StatsResponse? && IntFrom(ps, "id", 0, 0xFFFF_FFFF, m.value.id)
            && IntFrom(ps, "rc", 0, 0xFFFF_FFFF_FFFF_FFFF, m.value.reranks)
            && IntFrom(ps, "pc", 0, 0xFFFF_FFFF_FFFF_FFFF, m.value.pings)
            && IntFrom(ps, "cc", 0, 0xFFFF_FFFF_FFFF_FFFF, m.value.commits)
            && IntFrom(ps, "ec_total", 0, 0xFFFF_FFFF_FFFF_FFFF, m.value.errors)
            && IntFrom(ps, "rls", 0, 0xFFFF_FFFF_FFFF_FFFF, m.value.latencySum)
            && IntFrom(ps, "rlmax", 0, 0xFFFF_FFFF, m.value.latencyMax)
            && IntFrom(ps, "rmv", 0, 0xFF, m.value.statsVersion)
            && IntFrom(ps, "ut", 0, 0xFFFF_FFFF_FFFF_FFFF, m.value.uptime)
  {
    assert Ascii("id") == KEY_ID && Ascii("rc") == KEY_RC && Ascii("pc") == KEY_PC && Ascii("cc") == KEY_CC;
    assert Ascii("ec_total") == KEY_ECT && Ascii("rls") == KEY_RLS && Ascii("rlmax") == KEY_RLMAX;
    assert Ascii("rmv") == KEY_RMV && Ascii("ut") == KEY_UT;
    hide Lookup, Ascii;
  }

  /** A list of candidates: as many as there are, strings up to the first that is none. */
  lemma {:induction false} ListUpToFirstBad<T>(vs: seq<Value>, conv: Value -> Option<T>, default: T, k: nat)
    requires k < |vs|
    ensures Fill(vs, conv, default)[k] ==
            if forall j :: 0 <= j <= k ==> conv(vs[j]).Some? then conv(vs[k]).value else default
    decreases vs
  {
    if conv(vs[0]).None? || k == 0 {
    } else {
      ListUpToFirstBad(vs[1..], conv, default, k - 1);
      assert forall j :: 1 <= j <= k ==> vs[j] == vs[1..][j - 1];
    }
  }

  /** Lists come from their own names too; what is no list there is an empty one. */
  lemma CandidatesDecodedByName(ps: seq<Pair>)
    ensures var m, v := FromPairs(1, ps), Lookup(ps, Ascii("cands"));
            m.Some? && m.value.RerankRequest?
            && m.value.candidates == if v.Some? && v.value.Arr? then Fill(v.value.elems, AsStr, []) else []
  {
    assert Ascii("cands") == KEY_CANDS;
    hide Lookup, Fill, Ascii;
  }

  lemma ResponseDecodedByName(ps: seq<Pair>)
    ensures var m, o, s := FromPairs(2, ps), Lookup(ps, Ascii("order")), Lookup(ps, Ascii("scores"));
            && m.Some? && m.value.RerankResponse? && IntFrom(ps, "id", 0, 0xFFFF_FFFF, m.value.id)
            && m.value.order == (if o.Some? && o.value.Arr? then Fill(o.value.elems, AsI32, 0) else [])
            && m.value.scores == (if s.Some? && s.value.Arr? then Fill(s.value.elems, AsWord, 0) else [])
            && IntFrom(ps, "lat_us", 0, 0xFFFF_FFFF, m.value.latencyUs)
            && IntFrom(ps, "mver", 0, 0xFF, m.value.modelVersion)
  {
    assert Ascii("id") == KEY_ID && Ascii("order") == KEY_ORDER;
    assert Ascii("scores") == KEY_SCORES && Ascii("lat_us") == KEY_LAT && Ascii("mver") == KEY_MVER;
    hide Lookup, Fill, Ascii;
  }
}
