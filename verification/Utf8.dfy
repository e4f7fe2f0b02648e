/** The UTF-8 walks of the learning pipeline: the checked one of the n-gram table and of
    word discovery, the unchecked one of the Wubi codec, and when they agree. */
module Utf8 {
  import opened Bytes

  /** How many bytes a lead byte asks for; 0 if it is none. */
  function Need(c: byte): (n: nat)
    ensures n <= 4
  {
    if c < 0x80 then 1
    else if 0xC0 <= c < 0xE0 then 2
    else if 0xE0 <= c < 0xF0 then 3
    else if 0xF0 <= c < 0xF8 then 4
    else 0
  }

  predicate IsContinuation(c: byte)
  {
    0x80 <= c < 0xC0
  }

  /** The range tests above are the source's mask tests. */
  lemma MasksAreRanges(c: bv8)
    ensures c & 0x80 == 0 <==> c < 0x80
    ensures c & 0xE0 == 0xC0 <==> 0xC0 <= c < 0xE0
    ensures c & 0xF0 == 0xE0 <==> 0xE0 <= c < 0xF0
    ensures c & 0xF8 == 0xF0 <==> 0xF0 <= c < 0xF8
    ensures c & 0xC0 == 0x80 <==> 0x80 <= c < 0xC0
  {
  }

  /** Utf8Len at the front of `s`, with continuation bytes checked. */
  function CharLen(s: bytes): (n: nat)
    ensures n <= |s| && n <= 4
    ensures n > 0 ==> n == Need(s[0])
  {
    if s == [] then 0 else
    var n := Need(s[0]);
    if n > |s| || exists i :: 1 <= i < n && !IsContinuation(s[i]) then 0 else n
  }

  /** The codec's Utf8Len: continuation bytes are not looked at. */
  function LooseLen(s: bytes): (n: nat)
    ensures n <= |s| && n <= 4
  {
    if s == [] then 0 else
    var n := Need(s[0]);
    if n > |s| then 0 else n
  }

  /** The characters the checked walk emits before it stops. */
  function Chars(s: bytes): (cs: seq<bytes>)
    decreases |s|
  {
    var n := CharLen(s);
    if n == 0 then [] else [s[..n]] + Chars(s[n..])
  }

  function LooseChars(s: bytes): (cs: seq<bytes>)
    decreases |s|
  {
    var n := LooseLen(s);
    if n == 0 then [] else [s[..n]] + LooseChars(s[n..])
  }

  /** What the checked walk leaves unread. */
  function Rest(s: bytes): (t: bytes)
    decreases |s|
  {
    var n := CharLen(s);
    if n == 0 then s else Rest(s[n..])
  }

  predicate WellFormed(s: bytes)
  {
    Rest(s) == []
  }

  predicate IsChar(c: bytes)
  {
    c != [] && CharLen(c) == |c|
  }

  predicate AllChars(cs: seq<bytes>)
  {
    forall i :: 0 <= i < |cs| ==> IsChar(cs[i])
  }

  // ---- The loops -----------------------------------------------------------

  method Utf8Len(s: bytes, pos: nat) returns (n: nat)
    ensures n == if pos <= |s| then CharLen(s[pos..]) else 0
  {
    if pos >= |s| { return 0; }
    var need := Need(s[pos]);
    if need == 0 { return 0; }
    if pos + need > |s| { return 0; }
    var i := 1;
    while i < need
      invariant 1 <= i <= need
      invariant forall j :: 1 <= j < i ==> IsContinuation(s[pos..][j])
    {
      assert s[pos..][i] == s[pos + i];
      if !IsContinuation(s[pos + i]) { return 0; }
      i := i + 1;
    }
    return need;
  }

  /** Where each of a list of adjacent pieces starts. */
  function Starts(cs: seq<bytes>): (offs: seq<nat>)
    ensures |offs| == |cs|
  {
    seq(|cs|, k requires 0 <= k < |cs| => |Flat(cs[..k])|)
  }

  lemma StartsSnoc(cs: seq<bytes>, c: bytes)
    ensures Starts(cs + [c]) == Starts(cs) + [|Flat(cs)|]
  {
    assert forall k :: 0 <= k <= |cs| ==> (cs + [c])[..k] == cs[..k];
    assert cs[..|cs|] == cs;
  }

  lemma Append(a: seq<bytes>, x: bytes, b: seq<bytes>)
    ensures a + ([x] + b) == a + [x] + b
  {
  }

  lemma WalkStep(rest: bytes, done: seq<bytes>)
    requires CharLen(rest) > 0
    ensures done + Chars(rest) == done + [rest[..CharLen(rest)]] + Chars(rest[CharLen(rest)..])
  {
    CharsTail(rest);
    hide Chars, CharLen;
    Append(done, rest[..CharLen(rest)], Chars(rest[CharLen(rest)..]));
  }

  /** Start offsets of the characters, as the checked walk finds them. */
  method CharOffsets(s: bytes) returns (offs: seq<nat>)
    ensures offs == Starts(Chars(s))
  {
    offs := [];
    var i := 0;
    ghost var done: seq<bytes>, rest := [], s;
    assert s[0..] == s && [] + Chars(s) == Chars(s);
    while i < |s|
      invariant 0 <= i <= |s| && rest == s[i..] && Chars(s) == done + Chars(rest)
      invariant i == |Flat(done)| && offs == Starts(done)
      decreases |s| - i
    {
      hide Starts, Flat, CharLen, Chars;
      var n := Utf8Len(s, i);
      if n == 0 { break; }
      WalkStep(rest, done);
      FlatSnoc(done, rest[..n]);
      StartsSnoc(done, rest[..n]);
      offs := offs + [i];
      done := done + [rest[..n]];
      rest := rest[n..];
      i := i + n;
    }
    WalkEnds(s, rest, done);
  }

  lemma WalkEnds(s: bytes, rest: bytes, done: seq<bytes>)
    requires Chars(s) == done + Chars(rest) && CharLen(rest) == 0
    ensures Chars(s) == done
  {
    assert done + [] == done;
  }

  /** The codec's split. */
  method SplitUtf8Chars(s: bytes) returns (cs: seq<bytes>)
    ensures cs == LooseChars(s)
  {
    cs := [];
    var i := 0;
    assert s[0..] == s;
    while i < |s|
      invariant 0 <= i <= |s| && LooseChars(s) == cs + LooseChars(s[i..])
      decreases |s| - i
    {
      var n := LooseLen(s[i..]);
      if n == 0 { break; }
      assert s[i..][..n] == s[i..i + n] && s[i..][n..] == s[i + n..];
      Append(cs, s[i..i + n], LooseChars(s[i + n..]));
      cs := cs + [s[i..i + n]];
      i := i + n;
    }
    assert LooseChars(s[i..]) == [];
  }

  // ---- Unique decodability -------------------------------------------------

  /** A character announces its own length, whatever follows it. */
  lemma CharThen(c: bytes, tail: bytes)
    requires IsChar(c)
    ensures CharLen(c + tail) == |c| && (c + tail)[..|c|] == c && (c + tail)[|c|..] == tail
  {
    assert forall i :: 1 <= i < |c| ==> (c + tail)[i] == c[i];
  }

  lemma PrefixIsChar(s: bytes)
    requires CharLen(s) > 0
    ensures IsChar(s[..CharLen(s)])
  {
    var n := CharLen(s);
    assert forall i :: 1 <= i < n ==> s[..n][i] == s[i];
  }

  lemma CharsHead(c: bytes, tail: bytes)
    requires IsChar(c)
    ensures Chars(c + tail) == [c] + Chars(tail) && Rest(c + tail) == Rest(tail)
  {
    CharThen(c, tail);
  }

  lemma Unsplit(cs: seq<bytes>, more: seq<bytes>)
    requires cs != []
    ensures [cs[0]] + (cs[1..] + more) == cs + more
  {
  }

  /** Splitting a concatenation of characters, with anything after it, gives them back. */
  lemma {:induction false} CharsOfConcat(cs: seq<bytes>, tail: bytes)
    requires AllChars(cs)
    ensures Chars(Flat(cs) + tail) == cs + Chars(tail)
    ensures Rest(Flat(cs) + tail) == Rest(tail)
  {
    hide Chars, Rest, CharLen;
    if cs == [] {
      assert Flat(cs) + tail == tail && cs + Chars(tail) == Chars(tail);
    } else {
      Joined(cs[0], Flat(cs[1..]), tail);
      CharsHead(cs[0], Flat(cs[1..]) + tail);
      CharsOfConcat(cs[1..], tail);
      Unsplit(cs, Chars(tail));
    }
  }

  lemma SplitConcat(cs: seq<bytes>)
    requires AllChars(cs)
    ensures Chars(Flat(cs)) == cs && WellFormed(Flat(cs))
  {
    CharsOfConcat(cs, []);
    assert Flat(cs) + [] == Flat(cs) && cs + [] == cs;
  }

  /** The concatenation of characters determines them. */
  lemma UniquelyDecodable(cs: seq<bytes>, ds: seq<bytes>)
    requires AllChars(cs) && AllChars(ds) && Flat(cs) == Flat(ds)
    ensures cs == ds
  {
    SplitConcat(cs);
    SplitConcat(ds);
  }

  lemma CharsTail(s: bytes)
    requires CharLen(s) > 0
    ensures Chars(s) == [s[..CharLen(s)]] + Chars(s[CharLen(s)..]) && Rest(s) == Rest(s[CharLen(s)..])
  {
  }

  /** The walk cuts its input without losing or changing a byte. */
  lemma {:induction false} CharsCover(s: bytes)
    ensures AllChars(Chars(s)) && Flat(Chars(s)) + Rest(s) == s
    decreases |s|
  {
    var n := CharLen(s);
    if n == 0 {
      assert [] + s == s;
    } else {
      PrefixIsChar(s);
      CharsTail(s);
      var c, t := s[..n], s[n..];
      assert c + t == s;
      hide CharLen, Chars, Rest;
      CharsCover(t);
      assert Flat([c] + Chars(t)) == c + Flat(Chars(t)) by { assert ([c] + Chars(t))[1..] == Chars(t); }
      Joined(c, Flat(Chars(t)), Rest(t));
    }
  }

  // ---- Checked against unchecked -------------------------------------------

  /** The codec's walk starts with the characters of the checked one, and goes on where
      that one stops. */
  lemma {:induction false} LooseExtends(s: bytes)
    ensures LooseChars(s) == Chars(s) + LooseChars(Rest(s))
    decreases |s|
  {
    var n := CharLen(s);
    if n == 0 {
      assert [] + LooseChars(s) == LooseChars(s);
    } else {
      LooseExtends(s[n..]);
      assert [s[..n]] + (Chars(s[n..]) + LooseChars(Rest(s[n..]))) == Chars(s) + LooseChars(Rest(s));
    }
  }

  /** The two walks find the same characters exactly when the unchecked one finds none in
      what the checked one left; in particular on every text the checked walk accepts whole. */
  lemma WalksAgree(s: bytes)
    ensures LooseChars(s) == Chars(s) <==> LooseLen(Rest(s)) == 0
    ensures WellFormed(s) ==> LooseChars(s) == Chars(s)
  {
    LooseExtends(s);
    if LooseLen(Rest(s)) == 0 {
      assert Chars(s) + [] == Chars(s);
    } else {
      assert |LooseChars(Rest(s))| > 0;
    }
  }

  /** The unchecked walk takes as many bytes as the lead byte asks for, whatever follows it, and
      stops at a byte that is no lead byte or asks for more than there is. */
  lemma LooseFirst(lead: byte, more: bytes, t: bytes)
    requires |more| <= 3
    ensures var n := if lead < 0x80 then 1 else if lead < 0xC0 then 0 else if lead < 0xE0 then 2
                     else if lead < 0xF0 then 3
                     else if lead < 0xF8 then 4 else 0;
            && (n == 1 + |more| ==> LooseChars([lead] + more + t) == [[lead] + more] + LooseChars(t))
            && (n == 0 || n > 1 + |more| ==> LooseChars([lead] + more) == [])
  {
    var s := [lead] + more + t;
    var n := Need(lead);
    assert s[0] == lead;
    if n == 1 + |more| { assert s[..n] == [lead] + more && s[n..] == t; }
  }

  // ---- Which byte strings are characters ------------------------------------

  /** How many code points a character of `n` bytes can stand for. */
  function Room(n: nat): (r: nat)
  {
    if n == 1 then 0x80 else if n == 2 then 0x800 else if n == 3 then 0x1_0000 else if n == 4 then 0x20_0000 else 0
  }

  /** The UTF-8 form of `c` in `n` bytes (RFC 3629, section 3), also when fewer would do. */
  function Encoded(c: nat, n: nat): (s: bytes)
    requires 1 <= n <= 4 && c < Room(n)
    ensures |s| == n
  {
    if n == 1 then [c]
    else if n == 2 then [0xC0 + c / 0x40, 0x80 + c % 0x40]
    else if n == 3 then [0xE0 + c / 0x1000, 0x80 + c / 0x40 % 0x40, 0x80 + c % 0x40]
    else [0xF0 + c / 0x4_0000, 0x80 + c / 0x1000 % 0x40, 0x80 + c / 0x40 % 0x40, 0x80 + c % 0x40]
  }

  /** The characters of the checked walk are exactly the UTF-8 forms, of one to four bytes, of
      the numbers that fit: overlong forms, surrogates and numbers above 0x10FFFF included. */
  lemma IsCharExactlyWhen(s: bytes)
    ensures IsChar(s) <==> 1 <= |s| <= 4 && exists c: nat | c < Room(|s|) :: s == Encoded(c, |s|)
  {
    if IsChar(s) {
      var c := Number(s);
      assert s == Encoded(c, |s|);
    } else if 1 <= |s| <= 4 {
      forall c: nat | c < Room(|s|)
        ensures s != Encoded(c, |s|)
      {
        EncodedIsChar(c, |s|);
      }
    }
  }

  lemma EncodedIsChar(c: nat, n: nat)
    requires 1 <= n <= 4 && c < Room(n)
    ensures IsChar(Encoded(c, n))
  {
  }

  /** The number a character stands for. */
  lemma Number(s: bytes) returns (c: nat)
    requires IsChar(s)
    ensures 1 <= |s| <= 4 && c < Room(|s|) && s == Encoded(c, |s|)
  {
    assert |s| == Need(s[0]);
    var b0: int := s[0];
    if |s| == 1 {
      c := b0;
    } else if |s| == 2 {
      var b1: int := s[1];
      c := (b0 - 0xC0) * 0x40 + (b1 - 0x80);
      Digit(b0 - 0xC0, b1 - 0x80);
    } else if |s| == 3 {
      var b1: int, b2: int := s[1], s[2];
      var high := (b0 - 0xE0) * 0x40 + (b1 - 0x80);
      c := high * 0x40 + (b2 - 0x80);
      Digit(high, b2 - 0x80);
      Digit(b0 - 0xE0, b1 - 0x80);
      TwoDigits(c);
    } else {
      c := NumberOfFour(s);
    }
  }

  lemma NumberOfFour(s: bytes) returns (c: nat)
    requires IsChar(s) && |s| == 4
    ensures c < Room(4) && s == Encoded(c, 4)
  {
    var b0: int, b1: int, b2: int, b3: int := s[0], s[1], s[2], s[3];
    assert 0xF0 <= b0 < 0xF8 && 0x80 <= b1 < 0xC0 && 0x80 <= b2 < 0xC0 && 0x80 <= b3 < 0xC0;
    hide CharLen;
    var top := (b0 - 0xF0) * 0x40 + (b1 - 0x80);
    var high := top * 0x40 + (b2 - 0x80);
    c := high * 0x40 + (b3 - 0x80);
    Digit(high, b3 - 0x80);
    Digit(top, b2 - 0x80);
    Digit(b0 - 0xF0, b1 - 0x80);
    TwoDigits(c);
    TwoDigits(high);
    assert c / 0x4_0000 == c / 0x40 / 0x1000;
  }

  lemma Digit(high: nat, low: nat)
    requires low < 0x40
    ensures (high * 0x40 + low) / 0x40 == high && (high * 0x40 + low) % 0x40 == low
  {
  }

  lemma TwoDigits(c: nat)
    ensures c / 0x1000 == c / 0x40 / 0x40
  {
  }
}
