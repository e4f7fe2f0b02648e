/** The n-gram file: what Save writes, what Load reads back, and what Load keeps of a file
    that is cut short or holds fewer records than it announces (src/daemon/ngram.cc). */
module NgramFile {
  import opened Bytes
  import History
  import opened Ngram

  /** "DAFNGRAM". */
  const MAGIC: bytes := [0x44, 0x41, 0x46, 0x4E, 0x47, 0x52, 0x41, 0x4D]
  const VERSION: u32 := 1

  datatype Record = Record(a: bytes, b: bytes, n: u32)

  /** Both keys fit a 16-bit length. */
  predicate Short(r: Record)
  {
    |r.a| <= U16_MAX && |r.b| <= U16_MAX
  }

  predicate AllShort(rs: seq<Record>)
  {
    forall i :: 0 <= i < |rs| ==> Short(rs[i])
  }

  function Write(r: Record): (s: bytes)
    requires Short(r)
  {
    LE16(|r.a|) + (r.a + (LE16(|r.b|) + (r.b + LE32(r.n))))
  }

  function WriteRecords(rs: seq<Record>): (s: bytes)
    requires AllShort(rs)
  {
    if rs == [] then [] else Write(rs[0]) + WriteRecords(rs[1..])
  }

  /** The records that Save does not skip. */
  function Written(rs: seq<Record>): (ks: seq<Record>)
    ensures AllShort(ks)
    ensures |ks| <= |rs|
    ensures |ks| == |rs| <==> AllShort(rs)
  {
    if rs == [] then []
    else
      var init, last := Written(rs[..|rs| - 1]), rs[|rs| - 1];
      assert AllShort(rs) <==> AllShort(rs[..|rs| - 1]) && Short(last);
      if Short(last) then init + [last] else init
  }

  function Header(announced: u32): (s: bytes)
    ensures |s| == 16
  {
    MAGIC + (LE32(VERSION) + LE32(announced))
  }

  /** The file Save writes when it meets the pairs in this order: every pair is announced,
      the long ones are not written. */
  function Image(order: seq<Record>): (file: bytes)
  {
    Header(|order| % U32_SIZE) + WriteRecords(Written(order))
  }

  // ---- The format, byte by byte --------------------------------------------

  /** Two bytes as a number, the low one first. */
  function Low2(s: bytes): (n: int)
    requires |s| == 2
  {
    var b0: int, b1: int := s[0], s[1];
    b0 + 0x100 * b1
  }

  function Low4(s: bytes): (n: int)
    requires |s| == 4
  {
    Low2(s[..2]) + 0x1_0000 * Low2(s[2..])
  }

  lemma LowOf16(n: u16)
    ensures Low2(LE16(n)) == n
  {
  }

  lemma LowOf32(n: u32)
    ensures Low4(LE32(n)) == n
  {
    assert LE32(n)[..2] == LE16(n % 0x1_0000) && LE32(n)[2..] == LE16(n / 0x1_0000);
  }

  /** A file starts with eight fixed bytes, the version, 1, and the number of pairs in 32 bits. */
  lemma HeaderBytes(order: seq<Record>)
    ensures var file := Image(order);
            |file| >= 16 && file[..8] == MAGIC && Low4(file[8..12]) == 1 && Low4(file[12..16]) == |order| % U32_SIZE
  {
    var n := |order| % U32_SIZE;
    LowOf32(VERSION);
    LowOf32(n);
    assert Header(n)[8..12] == LE32(VERSION) && Header(n)[12..16] == LE32(n) && Header(n)[..8] == MAGIC;
    hide LE32, Header, Written, WriteRecords, Low4;
    var file := Image(order);
    assert file[..8] == Header(n)[..8] && file[8..12] == Header(n)[8..12] && file[12..16] == Header(n)[12..16];
  }

  /** A record is the first key behind its length, the second behind its length, and the count:
      lengths in two bytes, the count in four, low bytes first. */
  lemma RecordBytes(r: Record)
    requires Short(r)
    ensures var s, a, b := Write(r), |r.a|, |r.b|;
            && |s| == a + b + 8
            && Low2(s[0..2]) == a && s[2..2 + a] == r.a
            && Low2(s[2 + a..4 + a]) == b && s[4 + a..4 + a + b] == r.b
            && Low4(s[4 + a + b..]) == r.n
  {
    var s, a, b := Write(r), |r.a|, |r.b|;
    LowOf32(r.n);
    LowOf16(a);
    LowOf16(b);
    hide LE16, LE32, Low2, Low4;
    assert s[0..2] == LE16(a) && s[2 + a..4 + a] == LE16(b) && s[4 + a + b..] == LE32(r.n);
  }

  // ---- Reading -------------------------------------------------------------

  function ReadKey(s: bytes): (r: Option<(bytes, bytes)>)
  {
    match Take(s, 2)
    case None => None
    case Some((len, rest)) => Take(rest, FromLE16(len))
  }

  function ReadRecord(s: bytes): (r: Option<(Record, bytes)>)
  {
    match ReadKey(s)
    case None => None
    case Some((a, afterA)) =>
      match ReadKey(afterA)
      case None => None
      case Some((b, afterB)) =>
        match Take(afterB, 4)
        case None => None
        case Some((n, rest)) => Some((Record(a, b, FromLE32(n)), rest))
  }

  function Put(t: Table, r: Record): (t': Table)
  {
    t[r.a := Followers(t, r.a)[r.b := r.n]]
  }

  function PutAll(t: Table, rs: seq<Record>): (t': Table)
    decreases rs
  {
    if rs == [] then t else PutAll(Put(t, rs[0]), rs[1..])
  }

  datatype Loaded = Loaded(ok: bool, table: Table)

  /** The record loop: `n` records, stopping at the first that cannot be read. */
  function ReadRecords(s: bytes, n: nat, t: Table): (l: Loaded)
    decreases n
  {
    if n == 0 then Loaded(true, t) else
    match ReadRecord(s)
    case None => Loaded(false, t)
    case Some((r, rest)) => ReadRecords(rest, n - 1, Put(t, r))
  }

  /** The header test, and the number of records announced. */
  function ReadHeader(file: bytes): (r: Option<(u32, bytes)>)
  {
    if |file| < 16 || file[..8] != MAGIC || FromLE32(file[8..12]) != VERSION then None
    else Some((FromLE32(file[12..16]), file[16..]))
  }

  function LoadFile(file: bytes): (l: Loaded)
  {
    match ReadHeader(file)
    case None => Loaded(false, map[])
    case Some((n, rest)) => ReadRecords(rest, n, map[])
  }

  method ReadKeyFrom(s: bytes) returns (ok: bool, key: bytes, rest: bytes)
    ensures match ReadKey(s)
            case None => !ok
            case Some((k, r)) => ok && key == k && rest == r
  {
    ok, key, rest := false, [], s;
    if |s| < 2 { return; }
    var len := FromLE16(s[..2]);
    if len > 0 && |s| - 2 < len { return; }
    assert s[2..][..len] == s[2..2 + len] && s[2..][len..] == s[2 + len..];
    ok, key, rest := true, s[2..2 + len], s[2 + len..];
  }

  /** Load, given the file's bytes if it could be opened. */
  method Load(ngrams: NgramTable, file: Option<bytes>) returns (ok: bool)
    modifies ngrams
    ensures file.None? ==> !ok && ngrams.table == map[]
    ensures file.Some? ==> Loaded(ok, ngrams.table) == LoadFile(file.value)
  {
    hide LoadFile, ReadKey, ReadRecords, ReadRecord, Take, Put, FromLE32;
    ngrams.table := map[];
    if file.None? { return false; }
    var f := file.value;
    LoadSteps(f);
    if |f| < 8 || f[..8] != MAGIC { return false; }
    if |f| < 12 { return false; }
    if FromLE32(f[8..12]) != VERSION { return false; }
    if |f| < 16 { return false; }
    var pairCount := FromLE32(f[12..16]);
    var rest := f[16..];
    var i := 0;
    while i < pairCount
      invariant 0 <= i <= pairCount
      invariant LoadFile(f) == ReadRecords(rest, pairCount - i, ngrams.table)
    {
      ReadStep(rest, pairCount - i, ngrams.table);
      var more, a, b;
      more, a, rest := ReadKeyFrom(rest);
      if !more { return false; }
      more, b, rest := ReadKeyFrom(rest);
      if !more { return false; }
      if |rest| < 4 { return false; }
      var cnt := FromLE32(rest[..4]);
      rest := rest[4..];
      PutSteps(ngrams.table, a, b, cnt);
      if a !in ngrams.table { ngrams.table := ngrams.table[a := map[]]; }
      ngrams.table := ngrams.table[a := ngrams.table[a][b := cnt]];
      i := i + 1;
    }
    ReadNothing(rest, ngrams.table);
    return true;
  }

  lemma LoadSteps(f: bytes)
    ensures LoadFile(f) ==
            if |f| < 8 || f[..8] != MAGIC || |f| < 12 || FromLE32(f[8..12]) != VERSION || |f| < 16
            then Loaded(false, map[])
            else ReadRecords(f[16..], FromLE32(f[12..16]), map[])
  {
    hide ReadRecords, FromLE32;
  }

  lemma ReadStep(s: bytes, n: nat, t: Table)
    requires n > 0
    ensures ReadRecords(s, n, t) ==
            match ReadKey(s)
            case None => Loaded(false, t)
            case Some((a, s1)) =>
              match ReadKey(s1)
              case None => Loaded(false, t)
              case Some((b, s2)) =>
                if |s2| < 4 then Loaded(false, t)
                else ReadRecords(s2[4..], n - 1, Put(t, Record(a, b, FromLE32(s2[..4]))))
  {
    hide ReadKey, Put, FromLE32;
  }

  /** map_[a][b] = cnt makes the inner map when it is missing. */
  lemma PutSteps(t: Table, a: bytes, b: bytes, cnt: u32)
    ensures var t1 := if a !in t then t[a := map[]] else t;
            t1[a := t1[a][b := cnt]] == Put(t, Record(a, b, cnt))
  {
  }

  // ---- Reading back what was written ---------------------------------------

  lemma ReadKeyBack(k: bytes, tail: bytes)
    requires |k| <= U16_MAX
    ensures ReadKey(LE16(|k|) + (k + tail)) == Some((k, tail))
  {
    TakeBack(LE16(|k|), k + tail);
    TakeBack(k, tail);
  }

  lemma Join5(a: bytes, b: bytes, c: bytes, d: bytes, e: bytes, tail: bytes)
    ensures a + (b + (c + (d + e))) + tail == a + (b + (c + (d + (e + tail))))
  {
  }

  lemma ReadBack(r: Record, tail: bytes)
    requires Short(r)
    ensures ReadRecord(Write(r) + tail) == Some((r, tail))
  {
    hide ReadKey, Take;
    Join5(LE16(|r.a|), r.a, LE16(|r.b|), r.b, LE32(r.n), tail);
    ReadKeyBack(r.a, LE16(|r.b|) + (r.b + (LE32(r.n) + tail)));
    ReadKeyBack(r.b, LE32(r.n) + tail);
    TakeBack(LE32(r.n), tail);
    LE32RoundTrip(r.n);
  }

  /** A key or a record that is cut is not read. */
  lemma ReadKeyCut(k: bytes, m: nat)
    requires |k| <= U16_MAX && m < 2 + |k|
    ensures ReadKey((LE16(|k|) + k)[..m]) == None
  {
    if m >= 2 {
      assert (LE16(|k|) + k)[..m][..2] == LE16(|k|);
    }
  }

  lemma CutAfter(x: bytes, y: bytes, m: nat)
    requires |x| <= m <= |x| + |y|
    ensures (x + y)[..m] == x + y[..m - |x|]
  {
  }

  lemma CutBefore(x: bytes, y: bytes, m: nat)
    requires m <= |x|
    ensures (x + y)[..m] == x[..m]
  {
  }

  lemma WriteParts(r: Record)
    requires Short(r)
    ensures var k1, k2 := LE16(|r.a|) + r.a, LE16(|r.b|) + r.b;
            Write(r) == k1 + (k2 + LE32(r.n))
  {
  }

  lemma CutRecord(r: Record, m: nat)
    requires Short(r) && m < |Write(r)|
    ensures ReadRecord(Write(r)[..m]) == None
  {
    hide Write, ReadKey, FromLE32, FromLE16, LE16, LE32;
    WriteParts(r);
    var k1, k2, n := LE16(|r.a|) + r.a, LE16(|r.b|) + r.b, LE32(r.n);
    if m < |k1| {
      CutBefore(k1, k2 + n, m);
      ReadKeyCut(r.a, m);
    } else {
      CutAfter(k1, k2 + n, m);
      assert k1 + (k2 + n)[..m - |k1|] == LE16(|r.a|) + (r.a + (k2 + n)[..m - |k1|]);
      ReadKeyBack(r.a, (k2 + n)[..m - |k1|]);
      if m - |k1| < |k2| {
        CutBefore(k2, n, m - |k1|);
        ReadKeyCut(r.b, m - |k1|);
      } else {
        CutAfter(k2, n, m - |k1|);
        assert k2 + n[..m - |k1| - |k2|] == LE16(|r.b|) + (r.b + n[..m - |k1| - |k2|]);
        ReadKeyBack(r.b, n[..m - |k1| - |k2|]);
      }
    }
  }

  lemma ReadOne(r: Record, tail: bytes, n: nat, t: Table)
    requires Short(r) && n > 0
    ensures ReadRecords(Write(r) + tail, n, t) == ReadRecords(tail, n - 1, Put(t, r))
  {
    hide Write, Put, ReadRecord;
    ReadBack(r, tail);
  }

  lemma ReadNone(n: nat, t: Table)
    requires n > 0
    ensures ReadRecords([], n, t) == Loaded(false, t)
  {
    EmptyIsCut();
  }

  lemma WriteCons(rs: seq<Record>)
    requires AllShort(rs) && rs != []
    ensures AllShort(rs[1..]) && Short(rs[0]) && WriteRecords(rs) == Write(rs[0]) + WriteRecords(rs[1..])
  {
  }

  /** The first `n` records, or all there are. */
  function First(rs: seq<Record>, n: nat): (qs: seq<Record>)
  {
    if n <= |rs| then rs[..n] else rs
  }

  lemma FirstNone(rs: seq<Record>)
    ensures First(rs, 0) == [] && (rs == [] ==> forall n: nat :: First(rs, n) == [])
  {
  }

  lemma PutNone(t: Table)
    ensures PutAll(t, []) == t
  {
  }

  lemma WriteNone()
    ensures AllShort([]) && WriteRecords([]) == []
  {
  }

  lemma ReadNothing(s: bytes, t: Table)
    ensures ReadRecords(s, 0, t) == Loaded(true, t)
  {
  }

  lemma FirstCons(rs: seq<Record>, n: nat)
    requires rs != [] && n > 0
    ensures First(rs, n) == [rs[0]] + First(rs[1..], n - 1)
  {
  }

  /** The loop over written records reads as many as there are, and succeeds when there are
      as many as it looks for. */
  lemma {:induction false} ReadsWritten(rs: seq<Record>, n: nat, t: Table)
    requires AllShort(rs)
    ensures ReadRecords(WriteRecords(rs), n, t) == Loaded(n <= |rs|, PutAll(t, First(rs, n)))
    decreases rs
  {
    hide Write, Put, ReadRecord, ReadRecords, WriteRecords, PutAll, AllShort, First;
    PutNone(t);
    if n == 0 {
      ReadNothing(WriteRecords(rs), t);
      assert First(rs, 0) == [] by { FirstNone(rs); }
    } else if rs == [] {
      WriteNone();
      FirstNone(rs);
      ReadNone(n, t);
    } else {
      WriteCons(rs);
      ReadOne(rs[0], WriteRecords(rs[1..]), n, t);
      ReadsWritten(rs[1..], n - 1, Put(t, rs[0]));
      FirstCons(rs, n);
      PutAllCons(t, rs[0], First(rs[1..], n - 1));
    }
  }

  lemma PutAllCons(t: Table, r: Record, rs: seq<Record>)
    ensures PutAll(t, [r] + rs) == PutAll(Put(t, r), rs)
  {
    assert ([r] + rs)[1..] == rs;
  }

  lemma EmptyIsCut()
    ensures ReadRecord([]) == None
  {
  }

  lemma WriteFirst(rs: seq<Record>, k: nat)
    requires AllShort(rs) && k < |rs|
    ensures AllShort(rs[..k + 1]) && AllShort(rs[1..][..k])
    ensures WriteRecords(rs[..k + 1]) == Write(rs[0]) + WriteRecords(rs[1..][..k])
  {
    hide Write;
    assert rs[..k + 1][0] == rs[0] && rs[..k + 1][1..] == rs[1..][..k];
  }

  /** A strict prefix of the records is refused, and the whole records before the cut stay. */
  lemma {:induction false} PrefixReads(rs: seq<Record>, m: nat, t: Table) returns (j: nat)
    requires AllShort(rs) && m < |WriteRecords(rs)|
    ensures j < |rs| && |WriteRecords(rs[..j])| <= m < |WriteRecords(rs[..j + 1])|
    ensures ReadRecords(WriteRecords(rs)[..m], |rs|, t) == Loaded(false, PutAll(t, rs[..j]))
    decreases rs
  {
    hide Write, Put, ReadRecord;
    var first, rest := Write(rs[0]), WriteRecords(rs[1..]);
    if m < |first| {
      j := 0;
      CutBefore(first, rest, m);
      CutRecord(rs[0], m);
      WriteFirst(rs, 0);
    } else {
      CutAfter(first, rest, m);
      ReadBack(rs[0], rest[..m - |first|]);
      var k := PrefixReads(rs[1..], m - |first|, Put(t, rs[0]));
      j := k + 1;
      assert rs[..j][0] == rs[0] && rs[..j][1..] == rs[1..][..k];
      WriteFirst(rs, k);
      WriteFirst(rs, k + 1);
    }
  }

  // ---- Tables as sets of pairs ---------------------------------------------

  predicate Has(t: Table, a: bytes, b: bytes)
  {
    a in t && b in t[a]
  }

  /** No key without followers: what every operation of the table keeps. */
  predicate Tidy(t: Table)
  {
    forall a :: a in t ==> t[a] != map[]
  }

  lemma BumpTidy(t: Table, a: bytes, b: bytes)
    requires Tidy(t)
    ensures Tidy(Bump(t, a, b))
  {
    assert b in Bump(t, a, b)[a];
  }

  lemma PutTidy(t: Table, r: Record)
    requires Tidy(t)
    ensures Tidy(Put(t, r))
  {
    assert r.b in Put(t, r)[r.a];
  }

  lemma SomeFollower(t: Table, a: bytes) returns (b: bytes)
    requires Tidy(t) && a in t
    ensures Has(t, a, b)
  {
    b :| b in t[a];
  }

  lemma SameInner(m: map<bytes, u32>, m': map<bytes, u32>)
    requires forall b :: b in m <==> b in m'
    requires forall b :: b in m ==> m[b] == m'[b]
    ensures m == m'
  {
  }

  lemma SamePairs(t: Table, u: Table)
    requires Tidy(t) && Tidy(u)
    requires forall a, b :: Has(t, a, b) <==> Has(u, a, b)
    requires forall a, b :: Has(t, a, b) ==> Count(t, a, b) == Count(u, a, b)
    ensures t == u
  {
    forall a
      ensures a in t <==> a in u
      ensures a in t ==> t[a] == u[a]
    {
      if a in t {
        var b := SomeFollower(t, a);
        assert Has(u, a, b);
      }
      if a in u {
        var b := SomeFollower(u, a);
        assert Has(t, a, b);
        forall b ensures (b in t[a] <==> b in u[a]) && (b in t[a] ==> t[a][b] == u[a][b])
        {
          assert Has(t, a, b) <==> Has(u, a, b);
          assert Has(t, a, b) ==> Count(t, a, b) == Count(u, a, b);
        }
        SameInner(t[a], u[a]);
      }
    }
  }

  // ---- Listings ------------------------------------------------------------

  function Key(r: Record): (k: History.Bigram)
  {
    (r.a, r.b)
  }

  function Keys(rs: seq<Record>): (ks: set<History.Bigram>)
  {
    set i | 0 <= i < |rs| :: Key(rs[i])
  }

  ghost predicate Distinct(rs: seq<Record>)
  {
    forall i, j :: 0 <= i < j < |rs| ==> Key(rs[i]) != Key(rs[j])
  }

  /** Every record is a pair of the table, with its count. */
  predicate Accurate(rs: seq<Record>, t: Table)
  {
    forall i :: 0 <= i < |rs| ==> Has(t, rs[i].a, rs[i].b) && Count(t, rs[i].a, rs[i].b) == rs[i].n
  }

  /** The pairs of a table, each once, in some order. */
  ghost predicate IsListing(rs: seq<Record>, t: Table)
  {
    Distinct(rs) && Accurate(rs, t) && forall a, b :: Has(t, a, b) ==> (a, b) in Keys(rs)
  }

  lemma PutAt(t: Table, r: Record, a: bytes, b: bytes)
    ensures Has(Put(t, r), a, b) <==> Has(t, a, b) || (a, b) == Key(r)
    ensures Count(Put(t, r), a, b) == if (a, b) == Key(r) then r.n else Count(t, a, b)
  {
  }

  lemma KeysCons(rs: seq<Record>, k: History.Bigram)
    requires rs != []
    ensures k in Keys(rs) <==> k == Key(rs[0]) || k in Keys(rs[1..])
  {
    if k in Keys(rs) && k != Key(rs[0]) {
      var i :| 0 <= i < |rs| && Key(rs[i]) == k;
      assert rs[1..][i - 1] == rs[i];
    }
    if k in Keys(rs[1..]) {
      var i :| 0 <= i < |rs[1..]| && Key(rs[1..][i]) == k;
      assert rs[i + 1] == rs[1..][i];
    }
  }

  /** Records with distinct keys land in the table as they are, beside what was there. */
  lemma {:induction false} PutAllAt(t: Table, rs: seq<Record>, a: bytes, b: bytes)
    requires Distinct(rs)
    ensures Has(PutAll(t, rs), a, b) <==> Has(t, a, b) || (a, b) in Keys(rs)
    ensures (a, b) !in Keys(rs) ==> Count(PutAll(t, rs), a, b) == Count(t, a, b)
    ensures forall i :: 0 <= i < |rs| && Key(rs[i]) == (a, b) ==> Count(PutAll(t, rs), a, b) == rs[i].n
    decreases rs
  {
    hide Put, Has, Count;
    if rs == [] {
    } else {
      PutAllAt(Put(t, rs[0]), rs[1..], a, b);
      PutAt(t, rs[0], a, b);
      KeysCons(rs, (a, b));
      forall i | 0 <= i < |rs| && Key(rs[i]) == (a, b)
        ensures Count(PutAll(t, rs), a, b) == rs[i].n
      {
        if i == 0 {
          forall j | 0 <= j < |rs[1..]|
            ensures Key(rs[1..][j]) != (a, b)
          {
            assert rs[1..][j] == rs[j + 1];
          }
        } else {
          assert rs[1..][i - 1] == rs[i];
        }
      }
    }
  }

  lemma {:induction false} PutAllTidy(t: Table, rs: seq<Record>)
    requires Tidy(t)
    ensures Tidy(PutAll(t, rs))
    decreases rs
  {
    if rs == [] {
    } else {
      PutTidy(t, rs[0]);
      PutAllTidy(Put(t, rs[0]), rs[1..]);
    }
  }

  lemma {:induction false} WrittenOf(rs: seq<Record>, t: Table)
    requires Distinct(rs) && Accurate(rs, t)
    ensures Distinct(Written(rs)) && Accurate(Written(rs), t)
    ensures forall k :: k in Keys(Written(rs)) <==> k in Keys(rs) && |k.0| <= U16_MAX && |k.1| <= U16_MAX
    decreases |rs|
  {
    if rs == [] {
    } else {
      var init, last := rs[..|rs| - 1], rs[|rs| - 1];
      assert rs == init + [last];
      assert Key(last) !in Keys(init) by {
        assert forall i :: 0 <= i < |init| ==> Key(init[i]) == Key(rs[i]) != Key(last);
      }
      WrittenOf(init, t);
      KeysSnoc(init, last);
      KeysSnoc(Written(init), last);
      hide Has, Count, Keys;
      AccurateSnoc(Written(init), last, t);
      if Short(last) { KeyMissing(Written(init), last); }
      hide Distinct, Accurate;
    }
  }

  lemma AccurateSnoc(rs: seq<Record>, r: Record, t: Table)
    requires Accurate(rs, t) && Has(t, r.a, r.b) && Count(t, r.a, r.b) == r.n
    ensures Accurate(rs + [r], t)
  {
  }

  lemma KeysSnoc(rs: seq<Record>, r: Record)
    ensures Keys(rs + [r]) == Keys(rs) + {Key(r)}
  {
    var all := rs + [r];
    forall k
      ensures k in Keys(all) <==> k in Keys(rs) || k == Key(r)
    {
      if k in Keys(rs) {
        var i :| 0 <= i < |rs| && Key(rs[i]) == k;
        assert all[i] == rs[i];
      }
      assert all[|rs|] == r;
    }
  }

  lemma KeyMissing(rs: seq<Record>, r: Record)
    requires Distinct(rs) && Key(r) !in Keys(rs)
    ensures Distinct(rs + [r])
  {
    assert forall i :: 0 <= i < |rs| ==> Key(rs[i]) in Keys(rs);
  }

  // ---- Main results --------------------------------------------------------

  lemma HeaderBack(n: u32, tail: bytes)
    ensures ReadHeader(Header(n) + tail) == Some((n, tail))
  {
    var file := Header(n) + tail;
    assert file[..8] == MAGIC && file[8..12] == LE32(VERSION) && file[12..16] == LE32(n) && file[16..] == tail;
    LE32RoundTrip(VERSION);
    LE32RoundTrip(n);
  }

  /** `u` holds the pairs of `t` whose keys are both short, with the same counts. */
  ghost predicate IsShortPart(u: Table, t: Table)
  {
    forall a, b ::
      && (Has(u, a, b) <==> Has(t, a, b) && |a| <= U16_MAX && |b| <= U16_MAX)
      && (Has(u, a, b) ==> Count(u, a, b) == Count(t, a, b))
  }

  ghost predicate OnlyShort(t: Table)
  {
    forall a, b :: Has(t, a, b) ==> |a| <= U16_MAX && |b| <= U16_MAX
  }

  lemma PutsShortPart(order: seq<Record>, t: Table)
    requires IsListing(order, t)
    ensures IsShortPart(PutAll(map[], Written(order)), t)
  {
    var ks := Written(order);
    var u := PutAll(map[], ks);
    WrittenOf(order, t);
    hide Written, PutAll, Has, Count;
    forall a, b
      ensures Has(u, a, b) <==> Has(t, a, b) && |a| <= U16_MAX && |b| <= U16_MAX
      ensures Has(u, a, b) ==> Count(u, a, b) == Count(t, a, b)
    {
      PutAllAt(map[], ks, a, b);
      NoneHeld(a, b);
      ListingHas(order, t, a, b);
      hide IsListing, Distinct;
      if Has(u, a, b) {
        var i :| 0 <= i < |ks| && Key(ks[i]) == (a, b);
        assert Count(t, ks[i].a, ks[i].b) == ks[i].n;
      }
    }
  }

  lemma NoneHeld(a: bytes, b: bytes)
    ensures !Has(map[], a, b)
  {
  }

  lemma ReadsImage(order: seq<Record>)
    requires |order| < U32_SIZE
    ensures LoadFile(Image(order)) == Loaded(AllShort(order), PutAll(map[], Written(order)))
  {
    hide Header, ReadHeader, Written, WriteRecords, ReadRecords, PutAll, AllShort, First;
    var ks := Written(order);
    HeaderBack(|order|, WriteRecords(ks));
    ReadsWritten(ks, |order|, map[]);
    FirstAll(ks, |order|);
  }

  /** Load of any image, however many pairs it announces: the count wraps at 2^32, and that
      many of the written records are read. */
  lemma LoadOfAnyImage(order: seq<Record>)
    ensures var n := |order| % U32_SIZE;
            LoadFile(Image(order)) ==
            Loaded(n <= |Written(order)|, PutAll(map[], First(Written(order), n)))
  {
    hide Header, ReadHeader, Written, WriteRecords, ReadRecords, PutAll, AllShort, First;
    HeaderBack(|order| % U32_SIZE, WriteRecords(Written(order)));
    ReadsWritten(Written(order), |order| % U32_SIZE, map[]);
  }

  /** A saved table loads back as itself, for every table and every order its pairs were met
      in, if and only if it has no key without followers, no key that is too long, and fewer
      than 2^32 pairs. */
  lemma LoadsBackExactlyWhen(order: seq<Record>, t: Table)
    requires IsListing(order, t)
    ensures LoadFile(Image(order)) == Loaded(true, t) <==> Tidy(t) && OnlyShort(t) && |order| < U32_SIZE
  {
    LoadOfAnyImage(order);
    hide LoadFile, Image, Written, PutAll, Keys, First;
    var rs := First(Written(order), |order| % U32_SIZE);
    PutAllTidy(map[], rs);
    if Tidy(t) && OnlyShort(t) && |order| < U32_SIZE {
      LoadOfSave(order, t);
      hide IsListing, OnlyShort;
    } else if Tidy(t) {
      if |order| < U32_SIZE {
        LoadOfSave(order, t);
      } else if LoadFile(Image(order)) == Loaded(true, t) {
        FewerRecords(order, |order| % U32_SIZE, t);
      }
    }
  }

  /** Fewer records than a listing has do not make its table. */
  lemma FewerRecords(order: seq<Record>, n: nat, t: Table)
    requires IsListing(order, t) && n < |order|
    ensures PutAll(map[], First(Written(order), n)) != t
  {
    var rs := First(Written(order), n);
    var r := Unread(order, n, t);
    hide Written, PutAll, First, Keys, IsListing, Distinct;
    PutAllAt(map[], rs, r.a, r.b);
    NoneHeld(r.a, r.b);
  }

  lemma FirstDistinct(rs: seq<Record>, n: nat)
    requires Distinct(rs)
    ensures Distinct(First(rs, n)) && forall k :: k in Keys(First(rs, n)) ==> k in Keys(rs)
  {
  }

  /** A pair of the table that is not among the first records written. */
  lemma Unread(order: seq<Record>, n: nat, t: Table) returns (r: Record)
    requires IsListing(order, t) && n < |order|
    ensures Has(t, r.a, r.b) && Distinct(First(Written(order), n)) && Key(r) !in Keys(First(Written(order), n))
  {
    WrittenOf(order, t);
    FirstDistinct(Written(order), n);
    hide Written, Has, Count;
    if AllShort(order) {
      r := order[n];
      WrittenAll(order);
      assert First(order, n) == order[..n];
    } else {
      var i :| 0 <= i < |order| && !Short(order[i]);
      r := order[i];
      assert Key(r) !in Keys(Written(order));
    }
  }

  lemma FirstAll(rs: seq<Record>, n: nat)
    requires |rs| <= n
    ensures First(rs, n) == rs
  {
    assert rs[..|rs|] == rs;
  }

  /** Load of a saved file, whatever order the hash maps were walked in and whatever the
      table holds: it succeeds if and only if no pair was skipped, and keeps all that was
      written either way. */
  lemma LoadOfSave(order: seq<Record>, t: Table)
    requires IsListing(order, t) && Tidy(t) && |order| < U32_SIZE
    ensures var l := LoadFile(Image(order));
            && (l.ok <==> OnlyShort(t))
            && (l.ok ==> l.table == t)
            && Tidy(l.table) && IsShortPart(l.table, t)
  {
    ReadsImage(order);
    ListingShort(order, t);
    PutsShortPart(order, t);
    PutAllTidy(map[], Written(order));
    hide LoadFile, Image, Written, PutAll, IsListing, AllShort;
    var l := LoadFile(Image(order));
    if l.ok {
      hide Tidy, Count;
      SamePairs(t, l.table);
    }
  }

  lemma ListingHas(order: seq<Record>, t: Table, a: bytes, b: bytes)
    requires IsListing(order, t)
    ensures (a, b) in Keys(order) <==> Has(t, a, b)
  {
  }

  lemma ListingShort(order: seq<Record>, t: Table)
    requires IsListing(order, t)
    ensures AllShort(order) <==> OnlyShort(t)
  {
    if AllShort(order) {
      forall a, b | Has(t, a, b)
        ensures |a| <= U16_MAX && |b| <= U16_MAX
      {
        ListingHas(order, t, a, b);
        var i :| 0 <= i < |order| && Key(order[i]) == (a, b);
      }
    }
  }

  /** Load refuses every strict prefix of a saved file, but keeps exactly the records that
      lie whole before the cut: the table is not reset to empty. */
  lemma PrefixRefused(order: seq<Record>, m: nat)
    requires AllShort(order) && |order| < U32_SIZE && m < |Image(order)|
    ensures !LoadFile(Image(order)[..m]).ok
    ensures m >= 16 ==> exists j | 0 <= j < |order| ::
              && |WriteRecords(order[..j])| <= m - 16 < |WriteRecords(order[..j + 1])|
              && LoadFile(Image(order)[..m]).table == PutAll(map[], order[..j])
  {
    hide Header, Written, WriteRecords, ReadRecords, PutAll, AllShort;
    WrittenAll(order);
    var head, body := Header(|order|), WriteRecords(order);
    if m >= 16 {
      hide ReadHeader;
      CutAfter(head, body, m);
      HeaderBack(|order|, body[..m - 16]);
      var j := PrefixReads(order, m - 16, map[]);
    }
  }

  lemma {:induction false} WrittenAll(rs: seq<Record>)
    requires AllShort(rs)
    ensures Written(rs) == rs
    decreases |rs|
  {
    if rs == [] {
    } else {
      WrittenAll(rs[..|rs| - 1]);
      assert rs[..|rs| - 1] + [rs[|rs| - 1]] == rs;
    }
  }

  /** The concrete case against the header comment: one whole record and one byte of the
      next survive a Load that fails. */
  lemma FailedLoadKeepsRecords(r: Record, q: Record)
    requires Short(r) && Short(q)
    ensures var file := Header(2) + (Write(r) + Write(q)[..1]);
            LoadFile(file) == Loaded(false, map[r.a := map[r.b := r.n]])
  {
    HeaderBack(2, Write(r) + Write(q)[..1]);
    ReadBack(r, Write(q)[..1]);
    CutRecord(q, 1);
    hide Write, ReadRecord, Header, ReadHeader;
    assert Put(map[], r) == map[r.a := map[r.b := r.n]];
  }

  // ---- Any file at all -----------------------------------------------------

  /** The records a file goes on with, at most `n`, up to the first that cannot be read. */
  function Readable(s: bytes, n: nat): (rs: seq<Record>)
    ensures |rs| <= n
    decreases n
  {
    if n == 0 then [] else
    match ReadRecord(s)
    case None => []
    case Some((r, rest)) => [r] + Readable(rest, n - 1)
  }

  /** The loop puts every record it can read, and succeeds if those are all it looks for. */
  lemma {:induction false} ReadsReadable(s: bytes, n: nat, t: Table)
    ensures ReadRecords(s, n, t) == Loaded(|Readable(s, n)| == n, PutAll(t, Readable(s, n)))
    decreases n
  {
    hide ReadRecord, Put;
    if n == 0 || ReadRecord(s).None? {
      PutNone(t);
    } else {
      var (r, rest) := ReadRecord(s).value;
      ReadsReadable(rest, n - 1, Put(t, r));
      PutAllCons(t, r, Readable(rest, n - 1));
    }
  }

  lemma {:induction false} PutAllKeepsKey(t: Table, rs: seq<Record>, a: bytes)
    requires a in t
    ensures a in PutAll(t, rs)
    decreases rs
  {
    if rs == [] {
    } else {
      PutAllKeepsKey(Put(t, rs[0]), rs[1..], a);
    }
  }

  lemma PutAllEmpty(rs: seq<Record>)
    ensures PutAll(map[], rs) == map[] <==> rs == []
  {
    if rs != [] { PutAllKeepsKey(Put(map[], rs[0]), rs[1..], rs[0].a); }
  }

  /** What Load leaves of any file: nothing if the header is refused, else every record up to
      the first that cannot be read. */
  lemma LoadKeepsReadable(file: bytes)
    ensures match ReadHeader(file)
            case None => LoadFile(file) == Loaded(false, map[])
            case Some((n, rest)) => LoadFile(file) == Loaded(|Readable(rest, n)| == n, PutAll(map[], Readable(rest, n)))
  {
    hide ReadHeader, ReadRecords;
    if ReadHeader(file).Some? {
      var (n, rest) := ReadHeader(file).value;
      ReadsReadable(rest, n, map[]);
    }
  }

  /** A Load that fails leaves the table empty, as its header comment promises, if and only
      if the header is refused or not even the first record can be read. */
  lemma FailedLoadEmptiesExactlyWhen(file: bytes)
    requires !LoadFile(file).ok
    ensures LoadFile(file).table == map[] <==>
            ReadHeader(file).None? || ReadRecord(ReadHeader(file).value.1).None?
  {
    LoadKeepsReadable(file);
    hide ReadHeader, ReadRecords, ReadRecord, LoadFile;
    if ReadHeader(file).Some? {
      var (n, rest) := ReadHeader(file).value;
      PutAllEmpty(Readable(rest, n));
    }
  }

  // ---- Saving --------------------------------------------------------------

  function PairsOf(t: Table, keys: set<bytes>): (ps: set<History.Bigram>)
  {
    set a, b | a in keys && a in t && b in t[a] :: (a, b)
  }

  lemma {:induction false} TagCount(a: bytes, bs: set<bytes>)
    ensures |set b | b in bs :: (a, b)| == |bs|
    decreases bs
  {
    var tagged := set b | b in bs :: (a, b);
    if bs == {} {
    } else {
      var b :| b in bs;
      TagCount(a, bs - {b});
      assert tagged == (set c | c in bs - {b} :: (a, c)) + {(a, b)};
    }
  }

  lemma PairsAdd(t: Table, keys: set<bytes>, a: bytes)
    requires a in t && a !in keys
    ensures |PairsOf(t, keys + {a})| == |PairsOf(t, keys)| + |t[a]|
  {
    TagCount(a, t[a].Keys);
    assert PairsOf(t, keys + {a}) == PairsOf(t, keys) + set b | b in t[a].Keys :: (a, b);
  }

  method Size(ngrams: NgramTable) returns (n: nat)
    ensures n == |PairsOf(ngrams.table, ngrams.table.Keys)|
  {
    n := 0;
    var left := ngrams.table.Keys;
    ghost var seen: set<bytes> := {};
    while left != {}
      invariant seen !! left && seen + left == ngrams.table.Keys
      invariant n == |PairsOf(ngrams.table, seen)|
      decreases |left|
    {
      var a :| a in left;
      PairsAdd(ngrams.table, seen, a);
      n := n + |ngrams.table[a]|;
      left := left - {a};
      seen := seen + {a};
    }
  }

  lemma {:induction false} DistinctCount(rs: seq<Record>)
    requires Distinct(rs)
    ensures |Keys(rs)| == |rs|
    decreases |rs|
  {
    if rs == [] {
    } else {
      var init, last := rs[..|rs| - 1], rs[|rs| - 1];
      DistinctCount(init);
      assert init + [last] == rs;
      KeysSnoc(init, last);
      assert forall i :: 0 <= i < |init| ==> Key(init[i]) == Key(rs[i]) != Key(last);
    }
  }

  lemma {:induction false} WriteSnoc(rs: seq<Record>, r: Record)
    requires AllShort(rs) && Short(r)
    ensures WriteRecords(rs + [r]) == WriteRecords(rs) + Write(r)
    decreases rs
  {
    hide Write;
    if rs == [] {
      assert [] + [r] == [r] && WriteRecords([r]) == Write(r) + WriteRecords([]);
    } else {
      WriteSnoc(rs[1..], r);
      assert (rs + [r])[0] == rs[0] && (rs + [r])[1..] == rs[1..] + [r];
      assert Write(rs[0]) + (WriteRecords(rs[1..]) + Write(r)) == Write(rs[0]) + WriteRecords(rs[1..]) + Write(r);
    }
  }

  /** What a partial walk has listed. */
  ghost predicate Listed(rs: seq<Record>, t: Table, ps: set<History.Bigram>)
  {
    Distinct(rs) && Accurate(rs, t) && Keys(rs) == ps
  }

  lemma ListedNext(rs: seq<Record>, t: Table, ps: set<History.Bigram>, r: Record)
    requires Listed(rs, t, ps) && Key(r) !in ps && Has(t, r.a, r.b) && Count(t, r.a, r.b) == r.n
    ensures Listed(rs + [r], t, ps + {Key(r)})
    ensures Written(rs + [r]) == Written(rs) + if Short(r) then [r] else []
    ensures WriteRecords(Written(rs + [r])) == WriteRecords(Written(rs)) + if Short(r) then Write(r) else []
  {
    KeyMissing(rs, r);
    KeysSnoc(rs, r);
    assert (rs + [r])[..|rs|] == rs;
    hide Write, Has, Count;
    if Short(r) { WriteSnoc(Written(rs), r); }
  }

  /** The inner loop of Save: the followers of one key, in any order. */
  method SaveFollowers(t: Table, a: bytes, f: bytes, ghost head: bytes, ghost rs: seq<Record>,
                       ghost ps: set<History.Bigram>)
    returns (file: bytes, ghost rs': seq<Record>)
    requires a in t && Listed(rs, t, ps) && forall b :: (a, b) !in ps
    requires f == head + WriteRecords(Written(rs))
    ensures Listed(rs', t, ps + PairsOf(t, {a})) && file == head + WriteRecords(Written(rs'))
  {
    hide Listed, WriteRecords, Written, Write, PairsOf;
    file, rs' := f, rs;
    var left := t[a].Keys;
    ghost var seen: set<History.Bigram> := {};
    assert ps + {} == ps;
    while left != {}
      invariant left <= t[a].Keys && forall k: History.Bigram :: k in seen <==> k.0 == a && k.1 in t[a].Keys - left
      invariant Listed(rs', t, ps + seen) && file == head + WriteRecords(Written(rs'))
      decreases |left|
    {
      var b :| b in left;
      var cnt := t[a][b];
      ListedNext(rs', t, ps + seen, Record(a, b, cnt));
      assert ps + seen + {(a, b)} == ps + (seen + {(a, b)});
      if |a| <= U16_MAX && |b| <= U16_MAX {
        var entry := Write(Record(a, b, cnt));
        Joined(head, WriteRecords(Written(rs')), entry);
        file := file + entry;
      } else {
        assert WriteRecords(Written(rs')) + [] == WriteRecords(Written(rs'));
      }
      rs' := rs' + [Record(a, b, cnt)];
      seen := seen + {(a, b)};
      left := left - {b};
    }
    PairsOfOne(t, a, seen);
  }

  lemma PairsOfOne(t: Table, a: bytes, ps: set<History.Bigram>)
    requires a in t && forall k: History.Bigram :: k in ps <==> k.0 == a && k.1 in t[a].Keys
    ensures ps == PairsOf(t, {a})
  {
    forall k: History.Bigram ensures k in ps <==> k in PairsOf(t, {a})
    {
      assert k == (k.0, k.1);
    }
  }

  lemma ListedAll(rs: seq<Record>, t: Table)
    requires Listed(rs, t, PairsOf(t, t.Keys))
    ensures IsListing(rs, t) && |rs| == |PairsOf(t, t.Keys)|
  {
    DistinctCount(rs);
    hide Distinct, Keys;
  }

  lemma PairsSplit(t: Table, seen: set<bytes>, a: bytes)
    ensures PairsOf(t, seen + {a}) == PairsOf(t, seen) + PairsOf(t, {a})
  {
  }

  /** A file that Save can write for a table: its pairs in some order. */
  ghost predicate IsImage(file: bytes, t: Table)
  {
    exists order :: IsListing(order, t) && file == Image(order)
  }

  /** The bytes Save writes; the hash maps may be walked in any order. */
  method Save(ngrams: NgramTable) returns (file: bytes)
    ensures IsImage(file, ngrams.table)
  {
    hide IsListing, Listed, Written, WriteRecords;
    var t := ngrams.table;
    var pairCount := Size(ngrams);
    var head: bytes := Header(pairCount % U32_SIZE);
    file := head;
    ghost var order: seq<Record> := [];
    var left := t.Keys;
    ghost var seen: set<bytes> := {};
    ListedNone(t);
    assert head + [] == head;
    while left != {}
      invariant seen !! left && seen + left == t.Keys
      invariant Listed(order, t, PairsOf(t, seen)) && file == head + WriteRecords(Written(order))
      decreases |left|
    {
      var a :| a in left;
      PairsSplit(t, seen, a);
      file, order := SaveFollowers(t, a, file, head, order, PairsOf(t, seen));
      left := left - {a};
      seen := seen + {a};
    }
    assert seen == t.Keys;
    ListedAll(order, t);
  }

  lemma ListedNone(t: Table)
    ensures Listed([], t, PairsOf(t, {})) && WriteRecords(Written([])) == []
  {
  }

  lemma LoadsBack(file: bytes, t: Table)
    requires IsImage(file, t) && Tidy(t) && OnlyShort(t) && |PairsOf(t, t.Keys)| < U32_SIZE
    ensures LoadFile(file) == Loaded(true, t)
  {
    hide Image, LoadFile, IsListing, Tidy, OnlyShort, PairsOf;
    var order :| IsListing(order, t) && file == Image(order);
    ListingSize(order, t);
    LoadOfSave(order, t);
  }

  /** Saving a tidy table of fewer than 2^32 short pairs and loading the bytes into any
      other table makes the two equal. */
  method SaveThenLoad(from: NgramTable, into: NgramTable) returns (ok: bool)
    requires from != into && Tidy(from.table) && |PairsOf(from.table, from.table.Keys)| < U32_SIZE
    requires OnlyShort(from.table)
    modifies into
    ensures ok && into.table == from.table
  {
    hide Image, LoadFile, IsListing;
    var file := Save(from);
    LoadsBack(file, from.table);
    ok := Load(into, Some(file));
  }

  lemma ListingSize(rs: seq<Record>, t: Table)
    requires IsListing(rs, t)
    ensures |rs| == |PairsOf(t, t.Keys)|
  {
    DistinctCount(rs);
    forall k: History.Bigram
      ensures k in Keys(rs) <==> k in PairsOf(t, t.Keys)
    {
      ListingHas(rs, t, k.0, k.1);
      assert k == (k.0, k.1);
    }
    assert Keys(rs) == PairsOf(t, t.Keys);
  }
}
