/** The MessagePack values and bytes ("Formats" section of the MessagePack
    specification) that the daemon's bodies are made of. Packing always picks
    the shortest format, as msgpack-cxx's packer does; unpacking accepts every
    format. */
module MsgPack {
  import opened Bytes

  datatype Value =
    | Nil
    | Bool(b: bool)
    | Int(n: int)
    | F32(word: u32)
    | F64(wide: u64)
    | Str(s: bytes)
    | Bin(data: bytes)
    | Ext(kind: byte, payload: bytes)
    | Arr(elems: seq<Value>)
    | Map(pairs: seq<Pair>)

  datatype Pair = Pair(key: Value, val: Value)

  /** What the format allows: 64-bit integers and 32-bit lengths. */
  predicate Packable(v: Value)
    decreases v, 0
  {
    match v
    case Int(n) => -0x8000_0000_0000_0000 <= n < U64_SIZE
    case Str(s) => |s| < U32_SIZE
    case Bin(s) => |s| < U32_SIZE
    case Ext(_, s) => |s| < U32_SIZE
    case Arr(vs) => |vs| < U32_SIZE && AllPackable(vs)
    case Map(ps) => |ps| < U32_SIZE && PairsPackable(ps)
    case _ => true
  }

  predicate AllPackable(vs: seq<Value>)
    decreases vs, 0
  {
    vs == [] || (Packable(vs[0]) && AllPackable(vs[1..]))
  }

  predicate PairsPackable(ps: seq<Pair>)
    decreases ps, 0
  {
    ps == [] || (PairPackable(ps[0]) && PairsPackable(ps[1..]))
  }

  predicate PairPackable(p: Pair)
    decreases p, 0
  {
    Packable(p.key) && Packable(p.val)
  }

  // ---- Heads: a scalar, or the kind and length of what follows ------------

  datatype Head =
    | Scalar(v: Value)
    | StrOf(len: u32)
    | BinOf(len: u32)
    | ExtOf(kind: byte, len: u32)
    | ArrOf(len: u32)
    | MapOf(len: u32)

  predicate HeadOk(h: Head)
  {
    h.Scalar? ==> Packable(h.v) && (h.v.Nil? || h.v.Bool? || h.v.Int? || h.v.F32? || h.v.F64?)
  }

  function PackInt(n: int): (s: bytes)
    requires -0x8000_0000_0000_0000 <= n < U64_SIZE
    ensures s != []
  {
    if 0 <= n < 0x80 then [n]
    else if 0 <= n < 0x100 then [0xCC, n]
    else if 0 <= n < 0x1_0000 then [0xCD] + BE16(n)
    else if 0 <= n < U32_SIZE then [0xCE] + BE32(n)
    else if 0 <= n then [0xCF] + BE64(n)
    else if -0x20 <= n then [0x100 + n]
    else if -0x80 <= n then [0xD0, 0x100 + n]
    else if -0x8000 <= n then [0xD1] + BE16(0x1_0000 + n)
    else if -0x8000_0000 <= n then [0xD2] + BE32(U32_SIZE + n)
    else [0xD3] + BE64(U64_SIZE + n)
  }

  function PackLength(len: u32, fix: byte, fixMax: nat, tag8: Option<byte>, tag16: byte, tag32: byte): (s: bytes)
    requires fix + fixMax < 0x100
    ensures s != []
  {
    if len < fixMax then [fix + len]
    else if tag8.Some? && len < 0x100 then [tag8.value, len]
    else if len < 0x1_0000 then [tag16] + BE16(len)
    else [tag32] + BE32(len)
  }

  function PackHead(h: Head): (s: bytes)
    requires HeadOk(h)
    ensures s != []
  {
    match h
    case Scalar(Nil) => [0xC0]
    case Scalar(Bool(b)) => [if b then 0xC3 else 0xC2]
    case Scalar(Int(n)) => PackInt(n)
    case Scalar(F32(w)) => [0xCA] + BE32(w)
    case Scalar(F64(w)) => [0xCB] + BE64(w)
    case StrOf(n) => PackLength(n, 0xA0, 0x20, Some(0xD9), 0xDA, 0xDB)
    case BinOf(n) => PackLength(n, 0xC4, 0, Some(0xC4), 0xC5, 0xC6)
    case ExtOf(k, n) =>
      (if n == 1 then [0xD4] else if n == 2 then [0xD5] else if n == 4 then [0xD6]
       else if n == 8 then [0xD7] else if n == 16 then [0xD8]
       else PackLength(n, 0xC7, 0, Some(0xC7), 0xC8, 0xC9)) + [k]
    case ArrOf(n) => PackLength(n, 0x90, 0x10, None, 0xDC, 0xDD)
    case MapOf(n) => PackLength(n, 0x80, 0x10, None, 0xDE, 0xDF)
  }

  // ---- Packing -------------------------------------------------------------

  function Pack(v: Value): (s: bytes)
    requires Packable(v)
    ensures s != []
    decreases v, 0
  {
    match v
    case Str(s) => PackHead(StrOf(|s|)) + s
    case Bin(s) => PackHead(BinOf(|s|)) + s
    case Ext(k, s) => PackHead(ExtOf(k, |s|)) + s
    case Arr(vs) => PackHead(ArrOf(|vs|)) + PackAll(vs)
    case Map(ps) => PackHead(MapOf(|ps|)) + PackPairs(ps)
    case _ => PackHead(Scalar(v))
  }

  function PackAll(vs: seq<Value>): (s: bytes)
    requires AllPackable(vs)
    decreases vs, 0
  {
    if vs == [] then [] else Pack(vs[0]) + PackAll(vs[1..])
  }

  function PackPairs(ps: seq<Pair>): (s: bytes)
    requires PairsPackable(ps)
    decreases ps, 0
  {
    if ps == [] then [] else PackPair(ps[0]) + PackPairs(ps[1..])
  }

  function PackPair(p: Pair): (s: bytes)
    requires PairPackable(p)
    decreases p, 0
  {
    Pack(p.key) + Pack(p.val)
  }

  // ---- Unpacking -----------------------------------------------------------

  datatype Cut<+T> = Cut(item: T, rest: bytes)

  function Word(s: bytes, width: nat): (r: Option<Cut<u64>>)
    requires width == 1 || width == 2 || width == 4 || width == 8
    ensures r.Some? ==> |r.value.rest| + width == |s|
    ensures r.Some? && width == 1 ==> r.value.item < 0x100
    ensures r.Some? && width == 2 ==> r.value.item < 0x1_0000
    ensures r.Some? && width == 4 ==> r.value.item < U32_SIZE
  {
    match Take(s, width)
    case None => None
    case Some((w, rest)) =>
      Some(Cut(if width == 1 then w[0] else if width == 2 then FromBE16(w)
               else if width == 4 then FromBE32(w) else FromBE64(w), rest))
  }

  function Sized(s: bytes, width: nat, mk: u32 -> Head): (r: Option<Cut<Head>>)
    requires width == 1 || width == 2 || width == 4
    ensures r.Some? ==> |r.value.rest| < |s|
  {
    match Word(s, width)
    case None => None
    case Some(c) => Some(Cut(mk(c.item), c.rest))
  }

  function ExtHead(s: bytes, n: u32): (r: Option<Cut<Head>>)
    ensures r.Some? ==> |r.value.rest| < |s|
  {
    if s == [] then None else Some(Cut(ExtOf(s[0], n), s[1..]))
  }

  function SizedExt(s: bytes, width: nat): (r: Option<Cut<Head>>)
    requires width == 1 || width == 2 || width == 4
    ensures r.Some? ==> |r.value.rest| < |s|
  {
    match Word(s, width)
    case None => None
    case Some(c) => ExtHead(c.rest, c.item)
  }

  /** The integer formats 0xCC to 0xD3. */
  function UnpackNumber(b: byte, t: bytes): (r: Option<Cut<Head>>)
    requires 0xCC <= b <= 0xD3
    ensures r.Some? ==> |r.value.rest| < |t|
  {
    var width := if b % 4 == 0 then 1 else if b % 4 == 1 then 2 else if b % 4 == 2 then 4 else 8;
    match Word(t, width)
    case None => None
    case Some(c) =>
      var size := if width == 1 then 0x100 else if width == 2 then 0x1_0000
                  else if width == 4 then U32_SIZE else U64_SIZE;
      Some(Cut(Scalar(Int(if b < 0xD0 || 2 * c.item < size then c.item else c.item - size)), c.rest))
  }

  /** The length-prefixed and wide scalar formats 0xC4 to 0xCB and 0xD4 to 0xDF. */
  function UnpackWide(b: byte, t: bytes): (r: Option<Cut<Head>>)
    requires 0xC4 <= b <= 0xCB || 0xD4 <= b <= 0xDF
    ensures r.Some? ==> |r.value.rest| < |t|
  {
    if b == 0xC4 then Sized(t, 1, (n: u32) => BinOf(n))
    else if b == 0xC5 then Sized(t, 2, (n: u32) => BinOf(n))
    else if b == 0xC6 then Sized(t, 4, (n: u32) => BinOf(n))
    else if b == 0xC7 then SizedExt(t, 1)
    else if b == 0xC8 then SizedExt(t, 2)
    else if b == 0xC9 then SizedExt(t, 4)
    else if b == 0xCA then
      (match Word(t, 4) case None => None case Some(c) => Some(Cut(Scalar(F32(c.item)), c.rest)))
    else if b == 0xCB then
      (match Word(t, 8) case None => None case Some(c) => Some(Cut(Scalar(F64(c.item)), c.rest)))
    else if b <= 0xD8 then
      ExtHead(t, if b == 0xD4 then 1 else if b == 0xD5 then 2 else if b == 0xD6 then 4
                 else if b == 0xD7 then 8 else 16)
    else if b == 0xD9 then Sized(t, 1, (n: u32) => StrOf(n))
    else if b == 0xDA then Sized(t, 2, (n: u32) => StrOf(n))
    else if b == 0xDB then Sized(t, 4, (n: u32) => StrOf(n))
    else if b == 0xDC then Sized(t, 2, (n: u32) => ArrOf(n))
    else if b == 0xDD then Sized(t, 4, (n: u32) => ArrOf(n))
    else if b == 0xDE then Sized(t, 2, (n: u32) => MapOf(n))
    else Sized(t, 4, (n: u32) => MapOf(n))
  }

  function UnpackHead(s: bytes): (r: Option<Cut<Head>>)
    ensures r.Some? ==> |r.value.rest| < |s|
  {
    if s == [] then None else
    var b: int, t := s[0], s[1..];
    if b < 0x80 then Some(Cut(Scalar(Int(b)), t))
    else if b < 0x90 then Some(Cut(MapOf(b - 0x80), t))
    else if b < 0xA0 then Some(Cut(ArrOf(b - 0x90), t))
    else if b < 0xC0 then Some(Cut(StrOf(b - 0xA0), t))
    else if b == 0xC0 then Some(Cut(Scalar(Nil), t))
    else if b == 0xC1 then None
    else if b <= 0xC3 then Some(Cut(Scalar(Bool(b == 0xC3)), t))
    else if b >= 0xE0 then Some(Cut(Scalar(Int(b - 0x100)), t))
    else if 0xCC <= b <= 0xD3 then UnpackNumber(b, t)
    else UnpackWide(b, t)
  }

  /** The first value of a byte string, and what is left after it. */
  function Unpack(s: bytes): (r: Option<Cut<Value>>)
    ensures r.Some? ==> |r.value.rest| < |s|
    decreases |s|, 0
  {
    match UnpackHead(s)
    case None => None
    case Some(h) =>
      match h.item
      case Scalar(v) => Some(Cut(v, h.rest))
      case StrOf(n) =>
        (match Take(h.rest, n) case None => None case Some((x, rest)) => Some(Cut(Str(x), rest)))
      case BinOf(n) =>
        (match Take(h.rest, n) case None => None case Some((x, rest)) => Some(Cut(Bin(x), rest)))
      case ExtOf(k, n) =>
        (match Take(h.rest, n) case None => None case Some((x, rest)) => Some(Cut(Ext(k, x), rest)))
      case ArrOf(n) =>
        (match UnpackAll(h.rest, n) case None => None case Some(c) => Some(Cut(Arr(c.item), c.rest)))
      case MapOf(n) =>
        (match UnpackPairs(h.rest, n) case None => None case Some(c) => Some(Cut(Map(c.item), c.rest)))
  }

  function UnpackAll(s: bytes, n: nat): (r: Option<Cut<seq<Value>>>)
    ensures r.Some? ==> |r.value.rest| <= |s|
    decreases |s|, 1
  {
    if n == 0 then Some(Cut([], s)) else
    match Unpack(s)
    case None => None
    case Some(v) =>
      match UnpackAll(v.rest, n - 1)
      case None => None
      case Some(vs) => Some(Cut([v.item] + vs.item, vs.rest))
  }

  function UnpackPairs(s: bytes, n: nat): (r: Option<Cut<seq<Pair>>>)
    ensures r.Some? ==> |r.value.rest| <= |s|
    decreases |s|, 1
  {
    if n == 0 then Some(Cut([], s)) else
    match Unpack(s)
    case None => None
    case Some(k) =>
      match Unpack(k.rest)
      case None => None
      case Some(v) =>
        match UnpackPairs(v.rest, n - 1)
        case None => None
        case Some(ps) => Some(Cut([Pair(k.item, v.item)] + ps.item, ps.rest))
  }

  // ---- Unpacking undoes packing -------------------------------------------

  lemma WordOf(n: u64, width: nat, tail: bytes)
    requires width == 1 || width == 2 || width == 4 || width == 8
    requires width == 1 ==> n < 0x100
    requires width == 2 ==> n < 0x1_0000
    requires width == 4 ==> n < U32_SIZE
    ensures width == 1 ==> Word([n] + tail, 1) == Some(Cut(n, tail))
    ensures width == 2 ==> Word(BE16(n) + tail, 2) == Some(Cut(n, tail))
    ensures width == 4 ==> Word(BE32(n) + tail, 4) == Some(Cut(n, tail))
    ensures width == 8 ==> Word(BE64(n) + tail, 8) == Some(Cut(n, tail))
  {
    if width == 1 { TakeBack([n], tail); }
    else if width == 2 { TakeBack(BE16(n), tail); }
    else if width == 4 { TakeBack(BE32(n), tail); BE32RoundTrip(n); }
    else { TakeBack(BE64(n), tail); BE64RoundTrip(n); }
  }

  lemma Tagged(tag: byte, body: bytes, tail: bytes)
    ensures ([tag] + body + tail)[0] == tag && ([tag] + body + tail)[1..] == body + tail
  {
  }

  lemma UnpackNatural(n: u64, tail: bytes)
    ensures UnpackHead(PackInt(n) + tail) == Some(Cut(Scalar(Int(n)), tail))
  {
    hide UnpackWide;
    if n < 0x80 { Tagged(n, [], tail); assert [] + tail == tail; }
    else if n < 0x100 { Tagged(0xCC, [n], tail); assert [0xCC] + [n] == [0xCC, n]; WordOf(n, 1, tail); }
    else if n < 0x1_0000 { Tagged(0xCD, BE16(n), tail); WordOf(n, 2, tail); }
    else if n < U32_SIZE { Tagged(0xCE, BE32(n), tail); WordOf(n, 4, tail); }
    else { Tagged(0xCF, BE64(n), tail); WordOf(n, 8, tail); }
  }

  lemma UnpackNegative(n: int, tail: bytes)
    requires -0x8000 <= n < 0
    ensures UnpackHead(PackInt(n) + tail) == Some(Cut(Scalar(Int(n)), tail))
  {
    hide UnpackWide;
    if -0x20 <= n { Tagged(0x100 + n, [], tail); assert [] + tail == tail; }
    else if -0x80 <= n {
      var w: byte := 0x100 + n;
      Tagged(0xD0, [w], tail); assert [0xD0] + [w] == [0xD0, w]; WordOf(w, 1, tail);
    }
    else { Tagged(0xD1, BE16(0x1_0000 + n), tail); WordOf(0x1_0000 + n, 2, tail); }
  }

  lemma UnpackWideNegative(n: int, tail: bytes)
    requires -0x8000_0000_0000_0000 <= n < -0x8000
    ensures UnpackHead(PackInt(n) + tail) == Some(Cut(Scalar(Int(n)), tail))
  {
    hide UnpackWide, Word;
    if -0x8000_0000 <= n {
      var w: u32 := U32_SIZE + n;
      Tagged(0xD2, BE32(w), tail);
      WordOf(w, 4, tail);
    } else {
      var w: u64 := U64_SIZE + n;
      Tagged(0xD3, BE64(w), tail);
      WordOf(w, 8, tail);
    }
    hide BE32, BE64;
  }

  lemma UnpackInt(n: int, tail: bytes)
    requires -0x8000_0000_0000_0000 <= n < U64_SIZE
    ensures UnpackHead(PackInt(n) + tail) == Some(Cut(Scalar(Int(n)), tail))
  {
    if n < -0x8000 { UnpackWideNegative(n, tail); }
    else if n < 0 { UnpackNegative(n, tail); }
    else { UnpackNatural(n, tail); }
  }

  lemma UnpackLength(n: u32, fix: byte, fixMax: nat, tag8: Option<byte>, tag16: byte, tag32: byte, tail: bytes)
    requires fix + fixMax < 0x100
    ensures var s := PackLength(n, fix, fixMax, tag8, tag16, tag32) + tail;
            && s != []
            && (n < fixMax ==> s[0] == fix + n && s[1..] == tail)
            && (n >= fixMax && tag8.Some? && n < 0x100 ==> s[0] == tag8.value && Word(s[1..], 1) == Some(Cut(n, tail)))
            && (n >= fixMax && (tag8.Some? ==> n >= 0x100) && n < 0x1_0000 ==>
                  s[0] == tag16 && Word(s[1..], 2) == Some(Cut(n, tail)))
            && (n >= fixMax && n >= 0x1_0000 ==> s[0] == tag32 && Word(s[1..], 4) == Some(Cut(n, tail)))
  {
    if n < fixMax { Tagged(fix + n, [], tail); assert [fix + n] + [] == [fix + n]; assert [] + tail == tail; }
    else if tag8.Some? && n < 0x100 {
      Tagged(tag8.value, [n], tail); assert [tag8.value] + [n] == [tag8.value, n]; WordOf(n, 1, tail);
    }
    else if n < 0x1_0000 { Tagged(tag16, BE16(n), tail); WordOf(n, 2, tail); }
    else { Tagged(tag32, BE32(n), tail); WordOf(n, 4, tail); }
  }

  lemma UnpackExt(k: byte, n: u32, tail: bytes)
    ensures UnpackHead(PackHead(ExtOf(k, n)) + tail) == Some(Cut(ExtOf(k, n), tail))
  {
    var lead := PackHead(ExtOf(k, n))[..|PackHead(ExtOf(k, n))| - 1];
    assert PackHead(ExtOf(k, n)) == lead + [k];
    assert lead + [k] + tail == lead + ([k] + tail);
    assert ([k] + tail)[1..] == tail;
    if n == 1 || n == 2 || n == 4 || n == 8 || n == 16 {
      assert (lead + ([k] + tail))[1..] == [k] + tail;
    } else {
      UnpackLength(n, 0xC7, 0, Some(0xC7), 0xC8, 0xC9, [k] + tail);
    }
  }

  lemma UnpackPackScalar(v: Value, tail: bytes)
    requires HeadOk(Scalar(v))
    ensures UnpackHead(PackHead(Scalar(v)) + tail) == Some(Cut(Scalar(v), tail))
  {
    match v
    case Nil => assert ([0xC0] + tail)[1..] == tail;
    case Bool(b) => assert (PackHead(Scalar(v)) + tail)[1..] == tail;
    case Int(n) => UnpackInt(n, tail);
    case F32(w) => Tagged(0xCA, BE32(w), tail); WordOf(w, 4, tail);
    case F64(w) => Tagged(0xCB, BE64(w), tail); WordOf(w, 8, tail);
  }

  lemma UnpackStrHead(n: u32, tail: bytes)
    ensures UnpackHead(PackHead(StrOf(n)) + tail) == Some(Cut(StrOf(n), tail))
  {
    UnpackLength(n, 0xA0, 0x20, Some(0xD9), 0xDA, 0xDB, tail);
  }

  lemma UnpackBinHead(n: u32, tail: bytes)
    ensures UnpackHead(PackHead(BinOf(n)) + tail) == Some(Cut(BinOf(n), tail))
  {
    UnpackLength(n, 0xC4, 0, Some(0xC4), 0xC5, 0xC6, tail);
  }

  lemma UnpackArrHead(n: u32, tail: bytes)
    ensures UnpackHead(PackHead(ArrOf(n)) + tail) == Some(Cut(ArrOf(n), tail))
  {
    UnpackLength(n, 0x90, 0x10, None, 0xDC, 0xDD, tail);
  }

  lemma UnpackMapHead(n: u32, tail: bytes)
    ensures UnpackHead(PackHead(MapOf(n)) + tail) == Some(Cut(MapOf(n), tail))
  {
    UnpackLength(n, 0x80, 0x10, None, 0xDE, 0xDF, tail);
  }

  lemma Regroup(head: bytes, body: bytes, tail: bytes)
    ensures head + body + tail == head + (body + tail)
  {
  }

  lemma UnpackStr(s: bytes, tail: bytes)
    requires |s| < U32_SIZE
    ensures Unpack(Pack(Str(s)) + tail) == Some(Cut(Str(s), tail))
  {
    Regroup(PackHead(StrOf(|s|)), s, tail);
    UnpackStrHead(|s|, s + tail);
    TakeBack(s, tail);
  }

  lemma UnpackBin(s: bytes, tail: bytes)
    requires |s| < U32_SIZE
    ensures Unpack(Pack(Bin(s)) + tail) == Some(Cut(Bin(s), tail))
  {
    Regroup(PackHead(BinOf(|s|)), s, tail);
    UnpackBinHead(|s|, s + tail);
    TakeBack(s, tail);
  }

  lemma UnpackExtension(k: byte, s: bytes, tail: bytes)
    requires |s| < U32_SIZE
    ensures Unpack(Pack(Ext(k, s)) + tail) == Some(Cut(Ext(k, s), tail))
  {
    Regroup(PackHead(ExtOf(k, |s|)), s, tail);
    UnpackExt(k, |s|, s + tail);
    TakeBack(s, tail);
  }

  lemma UnpackArr(vs: seq<Value>, after: bytes, tail: bytes)
    requires |vs| < U32_SIZE && UnpackAll(after, |vs|) == Some(Cut(vs, tail))
    ensures Unpack(PackHead(ArrOf(|vs|)) + after) == Some(Cut(Arr(vs), tail))
  {
    UnpackArrHead(|vs|, after);
  }

  lemma UnpackMap(ps: seq<Pair>, after: bytes, tail: bytes)
    requires |ps| < U32_SIZE && UnpackPairs(after, |ps|) == Some(Cut(ps, tail))
    ensures Unpack(PackHead(MapOf(|ps|)) + after) == Some(Cut(Map(ps), tail))
  {
    UnpackMapHead(|ps|, after);
  }

  lemma UnpackScalar(v: Value, tail: bytes)
    requires HeadOk(Scalar(v))
    ensures Unpack(Pack(v) + tail) == Some(Cut(v, tail))
  {
    UnpackPackScalar(v, tail);
  }

  /** Every packable value comes back, followed by exactly the bytes that came after it. */
  lemma {:induction false} UnpackPack(v: Value, tail: bytes)
    requires Packable(v)
    ensures Unpack(Pack(v) + tail) == Some(Cut(v, tail))
    decreases v, 0
  {
    if v.Str? {
      UnpackStr(v.s, tail);
    } else if v.Bin? {
      UnpackBin(v.data, tail);
    } else if v.Ext? {
      UnpackExtension(v.kind, v.payload, tail);
    } else if v.Arr? {
      UnpackPackAll(v.elems, tail);
      UnpackArr(v.elems, PackAll(v.elems) + tail, tail);
      Regroup(PackHead(ArrOf(|v.elems|)), PackAll(v.elems), tail);
    } else if v.Map? {
      UnpackPackPairs(v.pairs, tail);
      UnpackMap(v.pairs, PackPairs(v.pairs) + tail, tail);
      Regroup(PackHead(MapOf(|v.pairs|)), PackPairs(v.pairs), tail);
    } else {
      UnpackScalar(v, tail);
    }
  }

  lemma {:induction false} UnpackPackAll(vs: seq<Value>, tail: bytes)
    requires AllPackable(vs)
    ensures UnpackAll(PackAll(vs) + tail, |vs|) == Some(Cut(vs, tail))
    decreases vs, 0
  {
    if vs == [] {
      assert [] + tail == tail;
    } else {
      assert [vs[0]] + vs[1..] == vs;
      Regroup(Pack(vs[0]), PackAll(vs[1..]), tail);
      UnpackPack(vs[0], PackAll(vs[1..]) + tail);
      UnpackPackAll(vs[1..], tail);
    }
  }

  lemma {:induction false} UnpackPackPairs(ps: seq<Pair>, tail: bytes)
    requires PairsPackable(ps)
    ensures UnpackPairs(PackPairs(ps) + tail, |ps|) == Some(Cut(ps, tail))
    decreases ps, 0
  {
    if ps == [] {
      assert [] + tail == tail;
    } else {
      assert [ps[0]] + ps[1..] == ps;
      Regroup(PackPair(ps[0]), PackPairs(ps[1..]), tail);
      UnpackPackPair(ps[0], PackPairs(ps[1..]) + tail);
      UnpackPackPairs(ps[1..], tail);
    }
  }

  lemma {:induction false} UnpackPackPair(p: Pair, tail: bytes)
    requires PairPackable(p)
    ensures Unpack(PackPair(p) + tail) == Some(Cut(p.key, Pack(p.val) + tail))
    ensures Unpack(Pack(p.val) + tail) == Some(Cut(p.val, tail))
    decreases p, 0
  {
    Regroup(Pack(p.key), Pack(p.val), tail);
    UnpackPack(p.key, Pack(p.val) + tail);
    UnpackPack(p.val, tail);
  }
}
