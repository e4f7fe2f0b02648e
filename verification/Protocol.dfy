/** Message bodies: the eight message kinds, their MessagePack maps and the
    tolerant decoder (src/common/protocol.cc, include/dafeng/types.h). */
module Protocol {
  import opened Bytes
  import opened MsgPack
  import Framing


  const PROTOCOL_VERSION: u32 := 1

  /** Scores travel as opaque 32-bit words. */
  datatype Message =
    | RerankRequest(id: u32, code: bytes, ctx: bytes, candidates: seq<bytes>, app: bytes)
    | RerankResponse(id: u32, order: seq<i32>, scores: seq<u32>, latencyUs: u32, modelVersion: byte)
    | CommitEvent(code: bytes, text: bytes, ctx: bytes)
    | Ping(id: u32)
    | Pong(id: u32)
    | Error(id: u32, errorCode: i32, errorText: bytes)
    | StatsRequest(id: u32)
    | StatsResponse(id: u32, reranks: u64, pings: u64, commits: u64, errors: u64,
                    latencySum: u64, latencyMax: u32, statsVersion: byte, uptime: u64)

  // Map keys, spelled in ASCII.
  const KEY_V: bytes := [0x76]                                               // v
  const KEY_T: bytes := [0x74]                                               // t
  const KEY_ID: bytes := [0x69, 0x64]                                        // id
  const KEY_CODE: bytes := [0x63, 0x6F, 0x64, 0x65]                          // code
  const KEY_CTX: bytes := [0x63, 0x74, 0x78]                                 // ctx
  const KEY_CANDS: bytes := [0x63, 0x61, 0x6E, 0x64, 0x73]                   // cands
  const KEY_APP: bytes := [0x61, 0x70, 0x70]                                 // app
  const KEY_ORDER: bytes := [0x6F, 0x72, 0x64, 0x65, 0x72]                   // order
  const KEY_SCORES: bytes := [0x73, 0x63, 0x6F, 0x72, 0x65, 0x73]            // scores
  const KEY_LAT: bytes := [0x6C, 0x61, 0x74, 0x5F, 0x75, 0x73]               // lat_us
  const KEY_MVER: bytes := [0x6D, 0x76, 0x65, 0x72]                          // mver
  const KEY_TEXT: bytes := [0x74, 0x65, 0x78, 0x74]                          // text
  const KEY_EC: bytes := [0x65, 0x63]                                        // ec
  const KEY_EM: bytes := [0x65, 0x6D]                                        // em
  const KEY_RC: bytes := [0x72, 0x63]                                        // rc
  const KEY_PC: bytes := [0x70, 0x63]                                        // pc
  const KEY_CC: bytes := [0x63, 0x63]                                        // cc
  const KEY_ECT: bytes := [0x65, 0x63, 0x5F, 0x74, 0x6F, 0x74, 0x61, 0x6C]   // ec_total
  const KEY_RLS: bytes := [0x72, 0x6C, 0x73]                                 // rls
  const KEY_RLMAX: bytes := [0x72, 0x6C, 0x6D, 0x61, 0x78]                   // rlmax
  const KEY_RMV: bytes := [0x72, 0x6D, 0x76]                                 // rmv
  const KEY_UT: bytes := [0x75, 0x74]                                        // ut

  function TypeTag(m: Message): (t: byte)
    ensures 1 <= t <= 8
  {
    match m
    case RerankRequest(_, _, _, _, _) => 1
    case RerankResponse(_, _, _, _, _) => 2
    case CommitEvent(_, _, _) => 3
    case Ping(_) => 4
    case Pong(_) => 5
    case Error(_, _, _) => 6
    case StatsRequest(_) => 7
    case StatsResponse(_, _, _, _, _, _, _, _, _) => 8
  }

  // ---- Calls and replies -----------------------------------------------------

  predicate NeedsReply(m: Message)
  {
    m.RerankRequest? || m.Ping? || m.StatsRequest?
  }

  /** A request carries the id its call was given. */
  function Numbered(m: Message, id: u32): (m': Message)
  {
    match m
    case RerankRequest(_, code, ctx, candidates, app) => RerankRequest(id, code, ctx, candidates, app)
    case Ping(_) => Ping(id)
    case StatsRequest(_) => StatsRequest(id)
    case _ => m
  }

  /** The client's own check: Ping and GetStats compare ids, Rerank does not. */
  predicate Accepts(call: Message, reply: Message)
  {
    match call
    case RerankRequest(_, _, _, _, _) => reply.RerankResponse?
    case Ping(id) => reply.Pong? && reply.id == id
    case StatsRequest(id) => reply.StatsResponse? && reply.id == id
    case _ => false
  }

  /** The commits among a list of messages, in order. */
  function Commits(ms: seq<Message>): (cs: seq<Message>)
  {
    if ms == [] then []
    else Commits(ms[..|ms| - 1]) + (if ms[|ms| - 1].CommitEvent? then [ms[|ms| - 1]] else [])
  }

  // ---- Encoding ------------------------------------------------------------

  function Field(key: bytes, v: Value): (p: Pair)
  {
    Pair(Str(key), v)
  }

  function Each<T>(xs: seq<T>, mk: T -> Value): (vs: seq<Value>)
  {
    if xs == [] then [] else [mk(xs[0])] + Each(xs[1..], mk)
  }

  function OfStr(x: bytes): (v: Value) { Str(x) }

  function OfI32(x: i32): (v: Value) { Int(x) }

  function OfWord(x: u32): (v: Value) { F32(x) }

  function Header(m: Message): (ps: seq<Pair>)
  {
    [Field(KEY_V, Int(PROTOCOL_VERSION)), Field(KEY_T, Int(TypeTag(m)))]
  }

  /** The fields of a message, in the order the encoder packs them. */
  function Fields(m: Message): (ps: seq<Pair>)
  {
    match m
    case RerankRequest(id, code, ctx, cands, app) =>
      [Field(KEY_ID, Int(id)), Field(KEY_CODE, Str(code)), Field(KEY_CTX, Str(ctx)),
       Field(KEY_CANDS, Arr(Each(cands, OfStr))), Field(KEY_APP, Str(app))]
    case RerankResponse(id, order, scores, lat, mv) =>
      [Field(KEY_ID, Int(id)), Field(KEY_ORDER, Arr(Each(order, OfI32))), Field(KEY_SCORES, Arr(Each(scores, OfWord))),
       Field(KEY_LAT, Int(lat)), Field(KEY_MVER, Int(mv))]
    case CommitEvent(code, text, ctx) =>
      [Field(KEY_CODE, Str(code)), Field(KEY_TEXT, Str(text)), Field(KEY_CTX, Str(ctx))]
    case Ping(id) => [Field(KEY_ID, Int(id))]
    case Pong(id) => [Field(KEY_ID, Int(id))]
    case Error(id, ec, em) =>
      [Field(KEY_ID, Int(id)), Field(KEY_EC, Int(ec)), Field(KEY_EM, Str(em))]
    case StatsRequest(id) => [Field(KEY_ID, Int(id))]
    case StatsResponse(id, rc, pc, cc, ec, ls, lm, mv, ut) =>
      [Field(KEY_ID, Int(id)), Field(KEY_RC, Int(rc)), Field(KEY_PC, Int(pc)), Field(KEY_CC, Int(cc)),
       Field(KEY_ECT, Int(ec)), Field(KEY_RLS, Int(ls)), Field(KEY_RLMAX, Int(lm)),
       Field(KEY_RMV, Int(mv)), Field(KEY_UT, Int(ut))]
  }

  function Pairs(m: Message): (ps: seq<Pair>)
  {
    Header(m) + Fields(m)
  }

  /** The packer throws on containers of 2^32 elements or more; every other message has a body. */
  predicate Sendable(m: Message)
  {
    Packable(Map(Pairs(m)))
  }

  function Body(m: Message): (s: bytes)
    requires Sendable(m)
    ensures s != []
  {
    Pack(Map(Pairs(m)))
  }

  /** The body of a message that has one. */
  function WireBody(m: Message): (s: bytes)
  {
    if Sendable(m) then Body(m) else []
  }

  function BodiesOf(encode: Message -> bytes, ms: seq<Message>): (bs: seq<bytes>)
    ensures |bs| == |ms|
  {
    seq(|ms|, i requires 0 <= i < |ms| => encode(ms[i]))
  }

  // ---- Decoding ------------------------------------------------------------

  /** The value of the first pair whose key is the string `key`. */
  function Lookup(ps: seq<Pair>, key: bytes): (r: Option<Value>)
  {
    if ps == [] then None
    else if ps[0].key == Str(key) then Some(ps[0].val)
    else Lookup(ps[1..], key)
  }

  function AsInt(v: Value, lo: int, hi: int): (r: Option<int>)
    ensures r.Some? ==> lo <= r.value <= hi
  {
    if v.Int? && lo <= v.n <= hi then Some(v.n) else None
  }

  function AsStr(v: Value): (r: Option<bytes>)
  {
    match v case Str(s) => Some(s) case Bin(s) => Some(s) case _ => None
  }

  function AsI32(v: Value): (r: Option<i32>)
  {
    if v.Int? && -0x8000_0000 <= v.n < 0x8000_0000 then Some(v.n) else None
  }

  function AsWord(v: Value): (r: Option<u32>)
  {
    if v.F32? then Some(v.word) else None
  }

  /** Element conversion into a freshly resized vector: it stops at the first
      element of the wrong type, leaving that one and the rest at their default. */
  function Fill<T>(vs: seq<Value>, conv: Value -> Option<T>, default: T): (xs: seq<T>)
    ensures |xs| == |vs|
  {
    if vs == [] then []
    else match conv(vs[0])
      case Some(x) => [x] + Fill(vs[1..], conv, default)
      case None => seq(|vs|, i => default)
  }

  /** A field read leaves the default in place when the key is missing or ill-typed. */
  function GetInt(ps: seq<Pair>, key: bytes, lo: int, hi: int): (n: int)
    requires lo <= 0 <= hi
    ensures lo <= n <= hi
  {
    match Lookup(ps, key)
    case None => 0
    case Some(v) => match AsInt(v, lo, hi) case Some(n) => n case None => 0
  }

  function GetU32(ps: seq<Pair>, key: bytes): (n: u32)
  {
    GetInt(ps, key, 0, 0xFFFF_FFFF)
  }

  function GetU64(ps: seq<Pair>, key: bytes): (n: u64)
  {
    GetInt(ps, key, 0, 0xFFFF_FFFF_FFFF_FFFF)
  }

  function GetByte(ps: seq<Pair>, key: bytes): (n: byte)
  {
    GetInt(ps, key, 0, 0xFF)
  }

  function GetI32(ps: seq<Pair>, key: bytes): (n: i32)
  {
    GetInt(ps, key, -0x8000_0000, 0x7FFF_FFFF)
  }

  function GetStr(ps: seq<Pair>, key: bytes): (s: bytes)
  {
    match Lookup(ps, key)
    case None => []
    case Some(v) => match AsStr(v) case Some(s) => s case None => []
  }

  function GetList<T>(ps: seq<Pair>, key: bytes, conv: Value -> Option<T>, default: T): (xs: seq<T>)
  {
    match Lookup(ps, key)
    case Some(Arr(vs)) => Fill(vs, conv, default)
    case _ => []
  }

  function TypeOf(v: Value): (t: Option<byte>)
  {
    if !v.Map? then None else
    match Lookup(v.pairs, KEY_T)
    case None => None
    case Some(x) => match AsInt(x, 0, 0xFF) case Some(n) => Some(n) case None => None
  }

  function FromPairs(t: byte, ps: seq<Pair>): (m: Option<Message>)
  {
    if t == 1 then
      Some(RerankRequest(GetU32(ps, KEY_ID), GetStr(ps, KEY_CODE), GetStr(ps, KEY_CTX),
                         GetList(ps, KEY_CANDS, AsStr, []), GetStr(ps, KEY_APP)))
    else if t == 2 then
      Some(RerankResponse(GetU32(ps, KEY_ID), GetList(ps, KEY_ORDER, AsI32, 0), GetList(ps, KEY_SCORES, AsWord, 0),
                          GetU32(ps, KEY_LAT), GetByte(ps, KEY_MVER)))
    else if t == 3 then Some(CommitEvent(GetStr(ps, KEY_CODE), GetStr(ps, KEY_TEXT), GetStr(ps, KEY_CTX)))
    else if t == 4 then Some(Ping(GetU32(ps, KEY_ID)))
    else if t == 5 then Some(Pong(GetU32(ps, KEY_ID)))
    else if t == 6 then Some(Error(GetU32(ps, KEY_ID), GetI32(ps, KEY_EC), GetStr(ps, KEY_EM)))
    else if t == 7 then Some(StatsRequest(GetU32(ps, KEY_ID)))
    else if t == 8 then
      Some(StatsResponse(GetU32(ps, KEY_ID), GetU64(ps, KEY_RC), GetU64(ps, KEY_PC), GetU64(ps, KEY_CC),
                         GetU64(ps, KEY_ECT), GetU64(ps, KEY_RLS), GetU32(ps, KEY_RLMAX),
                         GetByte(ps, KEY_RMV), GetU64(ps, KEY_UT)))
    else None
  }

  function Decode(s: bytes): (m: Option<Message>)
  {
    if s == [] || |s| > Framing.MAX_FRAME_BODY then None else
    match Unpack(s)
    case None => None
    case Some(c) =>
      match TypeOf(c.item)
      case None => None
      case Some(t) => FromPairs(t, c.item.pairs)
  }

  function PeekType(s: bytes): (t: Option<byte>)
  {
    if s == [] || |s| > Framing.MAX_FRAME_BODY then None else
    match Unpack(s)
    case None => None
    case Some(c) => TypeOf(c.item)
  }

  /** A body that decodes is announced by its type tag. */
  lemma PeekAgrees(s: bytes)
    ensures Decode(s).Some? ==> PeekType(s) == Some(TypeTag(Decode(s).value))
    ensures Decode(s).None? ==> PeekType(s).None? || PeekType(s).value == 0 || PeekType(s).value > 8
  {
  }

  // ---- The imperative halves of the codec ----------------------------------

  /** The packer's buffer, with the pairs already in it. */
  class Packer {
    var buf: bytes
    ghost var size: u32
    ghost var packed: seq<Pair>

    ghost predicate Valid()
      reads this
    {
      PairsPackable(packed) && buf == PackHead(MapOf(size)) + PackPairs(packed)
    }

    /** pack_map(n) */
    constructor (n: u32)
      ensures Valid() && size == n && packed == []
    {
      buf := PackHead(MapOf(n));
      size, packed := n, [];
    }

    /** PackKey(key) followed by pack(v) */
    method PackField(key: bytes, v: Value)
      requires Valid() && PairPackable(Field(key, v))
      modifies this
      ensures Valid() && size == old(size) && packed == old(packed) + [Field(key, v)]
    {
      PackPairsSnoc(packed, Field(key, v));
      Regroup(PackHead(MapOf(size)), PackPairs(packed), PackPair(Field(key, v)));
      buf := buf + Pack(Str(key));
      buf := buf + Pack(v);
      Regroup(PackHead(MapOf(size)) + PackPairs(packed), Pack(Str(key)), Pack(v));
      packed := packed + [Field(key, v)];
    }

    /** The fields of a message, one after the other. */
    method PackFields(fields: seq<Pair>)
      requires Valid() && forall i :: 0 <= i < |fields| ==> fields[i].key.Str? && PairPackable(fields[i])
      modifies this
      ensures Valid() && size == old(size) && packed == old(packed) + fields
    {
      hide Valid, PairPackable;
      var i := 0;
      while i < |fields|
        invariant 0 <= i <= |fields| && Valid() && size == old(size)
        invariant packed == old(packed) + fields[..i]
      {
        assert fields[i] == Field(fields[i].key.s, fields[i].val);
        PackField(fields[i].key.s, fields[i].val);
        i := i + 1;
      }
    }
  }

  lemma {:induction false} PackPairsSnoc(ps: seq<Pair>, p: Pair)
    requires PairsPackable(ps) && PairPackable(p)
    ensures PairsPackable(ps + [p]) && PackPairs(ps + [p]) == PackPairs(ps) + PackPair(p)
  {
    if ps == [] {
      assert [] + [p] == [p] && [p][1..] == [];
    } else {
      PackPairsSnoc(ps[1..], p);
      assert (ps + [p])[0] == ps[0] && (ps + [p])[1..] == ps[1..] + [p];
      Regroup(PackPair(ps[0]), PackPairs(ps[1..]), PackPair(p));
    }
  }

  lemma {:induction false} EachPackable(ps: seq<Pair>)
    requires PairsPackable(ps)
    ensures forall i :: 0 <= i < |ps| ==> PairPackable(ps[i])
  {
    if ps == [] {
    } else {
      EachPackable(ps[1..]);
      assert forall i :: 1 <= i < |ps| ==> ps[i] == ps[1..][i - 1];
    }
  }

  lemma AllKeyed(m: Message)
    ensures forall i :: 0 <= i < |Pairs(m)| ==> Pairs(m)[i].key.Str?
  {
  }

  /** EncodeBody: announces the pair count, then packs header and fields. */
  method EncodeBody(m: Message) returns (s: bytes)
    requires Sendable(m)
    ensures s == Body(m)
  {
    var n := if m.RerankRequest? || m.RerankResponse? then 7 else if m.CommitEvent? || m.Error? then 5
             else if m.StatsResponse? then 11 else 3;
    assert n == |Pairs(m)|;
    AllKeyed(m);
    EachPackable(Pairs(m));
    hide Pairs, PairPackable;
    var pk := new Packer(n);
    pk.PackFields(Pairs(m));
    assert [] + Pairs(m) == Pairs(m);
    s := pk.buf;
  }

  /** The field read: a linear search for the key, then the conversion, which says whether it
      succeeded and what it leaves in the output either way. */
  method MapGet<T>(obj: Value, key: bytes, convert: (Value, T) -> (bool, T), out: T) returns (ok: bool, out': T)
    ensures match (if obj.Map? then Lookup(obj.pairs, key) else None)
            case None => !ok && out' == out
            case Some(v) => (ok, out') == convert(v, out)
  {
    if !obj.Map? { return false, out; }
    var i := 0;
    assert obj.pairs[0..] == obj.pairs;
    while i < |obj.pairs|
      invariant 0 <= i <= |obj.pairs| && Lookup(obj.pairs, key) == Lookup(obj.pairs[i..], key)
    {
      if obj.pairs[i].key == Str(key) {
        var r := convert(obj.pairs[i].val, out);
        return r.0, r.1;
      }
      assert obj.pairs[i..][1..] == obj.pairs[i + 1..];
      i := i + 1;
    }
    return false, out;
  }

  /** MapGet into an integer field of the given range that was 0. */
  method ReadInt(ps: seq<Pair>, key: bytes, lo: int, hi: int) returns (n: int)
    requires lo <= 0 <= hi
    ensures n == GetInt(ps, key, lo, hi)
  {
    var ok;
    ok, n := MapGet(Map(ps), key, (v: Value, out: int) =>
      match AsInt(v, lo, hi) case Some(x) => (true, x) case None => (false, out), 0);
  }

  /** MapGet into a string field that was empty. */
  method ReadStr(ps: seq<Pair>, key: bytes) returns (s: bytes)
    ensures s == GetStr(ps, key)
  {
    var ok;
    ok, s := MapGet(Map(ps), key, (v: Value, out: bytes) =>
      match AsStr(v) case Some(x) => (true, x) case None => (false, out), []);
  }

  /** MapGet into an empty list: an element of the wrong type fails the read but leaves the
      elements before it. */
  method ReadList<T>(ps: seq<Pair>, key: bytes, conv: Value -> Option<T>, default: T) returns (xs: seq<T>)
    ensures xs == GetList(ps, key, conv, default)
  {
    var ok;
    ok, xs := MapGet(Map(ps), key, (v: Value, out: seq<T>) =>
      match v
      case Arr(vs) => (forall i :: 0 <= i < |vs| ==> conv(vs[i]).Some?, Fill(vs, conv, default))
      case _ => (false, out), []);
  }

  // ---- Decoding undoes encoding --------------------------------------------

  /** Distinguishes the keys of one message: length and first two bytes. */
  function KeyTag(k: bytes): (t: (int, int, int))
  {
    (|k|, if |k| > 0 then k[0] else -1, if |k| > 1 then k[1] else -1)
  }

  lemma KeysDistinct(m: Message)
    ensures forall i, j :: 0 <= i < j < |Pairs(m)| ==> Pairs(m)[i].key != Pairs(m)[j].key
    ensures forall i :: 0 <= i < |Pairs(m)| ==> Pairs(m)[i].key.Str?
  {
    var ps := Pairs(m);
    assert forall i, j :: 0 <= i < j < |ps| ==> KeyTag(ps[i].key.s) != KeyTag(ps[j].key.s);
  }

  lemma {:induction false} LookupUnique(ps: seq<Pair>, p: Pair)
    requires p in ps && p.key.Str?
    requires forall q | q in ps && q.key == p.key :: q == p
    ensures Lookup(ps, p.key.s) == Some(p.val)
  {
    if ps[0].key != p.key {
      assert p in ps[1..];
      LookupUnique(ps[1..], p);
    } else {
      assert ps[0] == p;
    }
  }

  lemma {:induction false} FillInverts<T(!new)>(xs: seq<T>, mk: T -> Value, conv: Value -> Option<T>, default: T)
    requires forall x :: conv(mk(x)) == Some(x)
    ensures Fill(Each(xs, mk), conv, default) == xs
  {
    if xs == [] {
    } else {
      FillInverts(xs[1..], mk, conv, default);
      assert Each(xs, mk)[1..] == Each(xs[1..], mk);
    }
  }

  /** `ps` carries every pair of `m`, and no second pair under one of its keys.
      Pairs under other keys, and the order, are free. */
  ghost predicate Carries(ps: seq<Pair>, m: Message)
  {
    forall p | p in Pairs(m) :: p in ps && forall q | q in ps && q.key == p.key :: q == p
  }

  /** Looking up any of `fields` in `ps` finds that field's value. */
  ghost predicate Reads(ps: seq<Pair>, fields: seq<Pair>)
  {
    forall i :: 0 <= i < |fields| ==> fields[i].key.Str? && Lookup(ps, fields[i].key.s) == Some(fields[i].val)
  }

  lemma CarriedLookups(ps: seq<Pair>, m: Message)
    requires Carries(ps, m)
    ensures Reads(ps, Pairs(m))
  {
    KeysDistinct(m);
    var own := Pairs(m);
    hide Pairs;
    forall i | 0 <= i < |own|
      ensures Lookup(ps, own[i].key.s) == Some(own[i].val)
    {
      assert own[i] in own;
      LookupUnique(ps, own[i]);
    }
  }

  lemma CarriedReads(ps: seq<Pair>, m: Message)
    requires Carries(ps, m)
    ensures TypeOf(Map(ps)) == Some(TypeTag(m)) && Reads(ps, Fields(m))
  {
    hide Fields, Carries, TypeTag;
    CarriedLookups(ps, m);
    assert Pairs(m)[1] == Field(KEY_T, Int(TypeTag(m)));
    assert forall i :: 0 <= i < |Fields(m)| ==> Fields(m)[i] == Pairs(m)[i + 2];
  }

  lemma ReadRequest(ps: seq<Pair>, m: Message)
    requires m.RerankRequest? && Reads(ps, Fields(m))
    ensures FromPairs(1, ps) == Some(m)
  {
    var f := Fields(m);
    assert f[0] == Field(KEY_ID, Int(m.id));
    assert f[1] == Field(KEY_CODE, Str(m.code));
    assert f[2] == Field(KEY_CTX, Str(m.ctx));
    assert f[3] == Field(KEY_CANDS, Arr(Each(m.candidates, OfStr)));
    assert f[4] == Field(KEY_APP, Str(m.app));
    FillInverts(m.candidates, OfStr, AsStr, []);
  }

  lemma ReadResponse(ps: seq<Pair>, m: Message)
    requires m.RerankResponse? && Reads(ps, Fields(m))
    ensures FromPairs(2, ps) == Some(m)
  {
    var f := Fields(m);
    assert f[0] == Field(KEY_ID, Int(m.id));
    assert f[1] == Field(KEY_ORDER, Arr(Each(m.order, OfI32)));
    assert f[2] == Field(KEY_SCORES, Arr(Each(m.scores, OfWord)));
    assert f[3] == Field(KEY_LAT, Int(m.latencyUs));
    assert f[4] == Field(KEY_MVER, Int(m.modelVersion));
    FillInverts(m.order, OfI32, AsI32, 0);
    FillInverts(m.scores, OfWord, AsWord, 0);
  }

  lemma ReadCommit(ps: seq<Pair>, m: Message)
    requires m.CommitEvent? && Reads(ps, Fields(m))
    ensures FromPairs(3, ps) == Some(m)
  {
    var f := Fields(m);
    assert f[0] == Field(KEY_CODE, Str(m.code));
    assert f[1] == Field(KEY_TEXT, Str(m.text));
    assert f[2] == Field(KEY_CTX, Str(m.ctx));
  }

  lemma ReadError(ps: seq<Pair>, m: Message)
    requires m.Error? && Reads(ps, Fields(m))
    ensures FromPairs(6, ps) == Some(m)
  {
    var f := Fields(m);
    assert f[0] == Field(KEY_ID, Int(m.id));
    assert f[1] == Field(KEY_EC, Int(m.errorCode));
    assert f[2] == Field(KEY_EM, Str(m.errorText));
  }

  lemma ReadStats(ps: seq<Pair>, m: Message)
    requires m.StatsResponse? && Reads(ps, Fields(m))
    ensures FromPairs(8, ps) == Some(m)
  {
    var f := Fields(m);
    assert f[0] == Field(KEY_ID, Int(m.id));
    assert f[1] == Field(KEY_RC, Int(m.reranks));
    assert f[2] == Field(KEY_PC, Int(m.pings));
    assert f[3] == Field(KEY_CC, Int(m.commits));
    assert f[4] == Field(KEY_ECT, Int(m.errors));
    assert f[5] == Field(KEY_RLS, Int(m.latencySum));
    assert f[6] == Field(KEY_RLMAX, Int(m.latencyMax));
    assert f[7] == Field(KEY_RMV, Int(m.statsVersion));
    assert f[8] == Field(KEY_UT, Int(m.uptime));
  }

  lemma ReadMessage(ps: seq<Pair>, m: Message)
    requires Reads(ps, Fields(m))
    ensures FromPairs(TypeTag(m), ps) == Some(m)
  {
    match m
    case RerankRequest(_, _, _, _, _) => ReadRequest(ps, m);
    case RerankResponse(_, _, _, _, _) => ReadResponse(ps, m);
    case CommitEvent(_, _, _) => ReadCommit(ps, m);
    case Error(_, _, _) => ReadError(ps, m);
    case StatsResponse(_, _, _, _, _, _, _, _, _) => ReadStats(ps, m);
    case _ => assert Fields(m)[0] == Field(KEY_ID, Int(m.id));
  }

  /** Forward compatibility on the wire: any packed map that carries `m`, with any
      bytes after it, decodes to `m` exactly when it fits the body cap. */
  lemma DecodeCarrier(ps: seq<Pair>, m: Message, tail: bytes)
    requires Packable(Map(ps)) && Carries(ps, m)
    ensures Decode(Pack(Map(ps)) + tail) == if |Pack(Map(ps)) + tail| <= Framing.MAX_FRAME_BODY then Some(m) else None
  {
    UnpackPack(Map(ps), tail);
    CarriedReads(ps, m);
    ReadMessage(ps, m);
  }

  lemma CarriesItself(m: Message)
    ensures Carries(Pairs(m), m)
  {
    KeysDistinct(m);
  }

  /** The codec's round trip, and its only limit. */
  lemma DecodeBody(m: Message)
    requires Sendable(m)
    ensures Decode(Body(m)) == Some(m) <==> |Body(m)| <= Framing.MAX_FRAME_BODY
    ensures Decode(Body(m)) == None <==> |Body(m)| > Framing.MAX_FRAME_BODY
  {
    CarriesItself(m);
    DecodeCarrier(Pairs(m), m, []);
    assert Body(m) + [] == Body(m);
  }

  lemma Merged<T>(all: seq<T>, a: seq<T>, b: seq<T>, x: T)
    requires multiset(all) == multiset(a) + multiset(b)
    ensures x in all <==> x in a || x in b
  {
    assert x in all <==> x in multiset(all);
    assert x in a <==> x in multiset(a);
    assert x in b <==> x in multiset(b);
  }

  lemma MergedCarries(m: Message, ps: seq<Pair>, extra: seq<Pair>)
    requires multiset(ps) == multiset(Pairs(m)) + multiset(extra)
    requires forall p, q | p in Pairs(m) && q in extra :: p.key != q.key
    ensures Carries(ps, m)
  {
    KeysDistinct(m);
    var own := Pairs(m);
    assert Carries(ps, m) <==> forall p | p in own :: p in ps && forall q | q in ps && q.key == p.key :: q == p;
    hide Pairs, Carries;
    forall p | p in own
      ensures p in ps && forall q | q in ps && q.key == p.key :: q == p
    {
      Merged(ps, own, extra, p);
      forall q | q in ps && q.key == p.key
        ensures q == p
      {
        Merged(ps, own, extra, q);
      }
    }
  }

  /** Reordering the pairs of a body and inserting pairs under foreign keys
      leaves the decoded message unchanged. */
  lemma ReorderedAndExtended(m: Message, ps: seq<Pair>, extra: seq<Pair>)
    requires Packable(Map(ps)) && |Pack(Map(ps))| <= Framing.MAX_FRAME_BODY
    requires multiset(ps) == multiset(Pairs(m)) + multiset(extra)
    requires forall p, q | p in Pairs(m) && q in extra :: p.key != q.key
    ensures Decode(Pack(Map(ps))) == Some(m)
  {
    MergedCarries(m, ps, extra);
    DecodeCarrier(ps, m, []);
    assert Pack(Map(ps)) + [] == Pack(Map(ps));
  }
}
