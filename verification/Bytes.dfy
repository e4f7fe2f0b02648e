/** Machine words, byte strings and the fixed-width integer layouts that the
    wire protocol (big-endian) and the n-gram file (little-endian) use. */
module Bytes {

  type byte = x: int | 0 <= x < 0x100
  type u16 = x: int | 0 <= x < 0x1_0000
  type u32 = x: int | 0 <= x < 0x1_0000_0000
  type u64 = x: int | 0 <= x < 0x1_0000_0000_0000_0000
  type i32 = x: int | -0x8000_0000 <= x < 0x8000_0000

  type bytes = seq<byte>

  const U16_MAX: int := 0xFFFF
  const U32_SIZE: int := 0x1_0000_0000
  const U64_SIZE: int := 0x1_0000_0000_0000_0000

  datatype Option<+T> = None | Some(value: T)

  function Min(a: int, b: int): (r: int)
  {
    if a <= b then a else b
  }

  function Max(a: int, b: int): (r: int)
  {
    if a >= b then a else b
  }

  /** The first `n` bytes and the rest, if there are that many. */
  function Take(s: bytes, n: nat): (r: Option<(bytes, bytes)>)
    ensures r.Some? <==> n <= |s|
    ensures r.Some? ==> |r.value.0| == n && r.value.0 + r.value.1 == s
  {
    if n <= |s| then Some((s[..n], s[n..])) else None
  }

  lemma TakeBack(x: bytes, tail: bytes)
    ensures Take(x + tail, |x|) == Some((x, tail))
  {
    assert (x + tail)[..|x|] == x && (x + tail)[|x|..] == tail;
  }

  function BE16(n: u16): (s: bytes)
    ensures |s| == 2
  {
    [n / 0x100, n % 0x100]
  }

  function FromBE16(s: bytes): (n: u16)
    requires |s| == 2
  {
    var hi: int, lo: int := s[0], s[1];
    hi * 0x100 + lo
  }

  function BE32(n: u32): (s: bytes)
    ensures |s| == 4
  {
    BE16(n / 0x1_0000) + BE16(n % 0x1_0000)
  }

  function FromBE32(s: bytes): (n: u32)
    requires |s| == 4
  {
    FromBE16(s[..2]) * 0x1_0000 + FromBE16(s[2..])
  }

  function BE64(n: u64): (s: bytes)
    ensures |s| == 8
  {
    BE32(n / 0x1_0000_0000) + BE32(n % 0x1_0000_0000)
  }

  function FromBE64(s: bytes): (n: u64)
    requires |s| == 8
  {
    FromBE32(s[..4]) * 0x1_0000_0000 + FromBE32(s[4..])
  }

  lemma BE16RoundTrip(n: u16)
    ensures FromBE16(BE16(n)) == n
  {
  }

  lemma BE32RoundTrip(n: u32)
    ensures FromBE32(BE32(n)) == n
  {
    var hi, lo := n / 0x1_0000, n % 0x1_0000;
    assert BE32(n)[..2] == BE16(hi) && BE32(n)[2..] == BE16(lo);
    BE16RoundTrip(hi);
    BE16RoundTrip(lo);
  }

  lemma BE64RoundTrip(n: u64)
    ensures FromBE64(BE64(n)) == n
  {
    var hi, lo := n / 0x1_0000_0000, n % 0x1_0000_0000;
    assert BE64(n)[..4] == BE32(hi) && BE64(n)[4..] == BE32(lo);
    BE32RoundTrip(hi);
    BE32RoundTrip(lo);
  }

  /** Little-endian words are the big-endian ones read backwards. */
  function LE16(n: u16): (s: bytes)
    ensures |s| == 2
  {
    [n % 0x100, n / 0x100]
  }

  function FromLE16(s: bytes): (n: u16)
    requires |s| == 2
  {
    var lo: int, hi: int := s[0], s[1];
    lo + hi * 0x100
  }

  function LE32(n: u32): (s: bytes)
    ensures |s| == 4
  {
    LE16(n % 0x1_0000) + LE16(n / 0x1_0000)
  }

  function FromLE32(s: bytes): (n: u32)
    requires |s| == 4
  {
    FromLE16(s[..2]) + FromLE16(s[2..]) * 0x1_0000
  }

  lemma LE32RoundTrip(n: u32)
    ensures FromLE32(LE32(n)) == n
  {
    var hi, lo := n / 0x1_0000, n % 0x1_0000;
    assert LE32(n)[..2] == LE16(lo) && LE32(n)[2..] == LE16(hi);
  }

  /** Concatenation of a list of byte strings. */
  function Flat(parts: seq<bytes>): (s: bytes)
  {
    if parts == [] then [] else parts[0] + Flat(parts[1..])
  }

  lemma {:induction false} FlatConcat(a: seq<bytes>, b: seq<bytes>)
    ensures Flat(a + b) == Flat(a) + Flat(b)
  {
    if a == [] {
      assert a + b == b;
    } else {
      assert (a + b)[0] == a[0] && (a + b)[1..] == a[1..] + b;
      FlatConcat(a[1..], b);
      assert a[0] + (Flat(a[1..]) + Flat(b)) == Flat(a) + Flat(b);
    }
  }

  lemma FlatSnoc(a: seq<bytes>, x: bytes)
    ensures Flat(a + [x]) == Flat(a) + x
  {
    FlatConcat(a, [x]);
    assert Flat([x]) == x + Flat([]);
  }

  lemma Joined(a: bytes, b: bytes, c: bytes)
    ensures a + b + c == a + (b + c)
  {
  }

  /** What a C string keeps of a byte string: all before its first NUL. */
  function CString(s: bytes): (t: bytes)
    ensures t <= s
  {
    if s == [] || s[0] == 0 then []
    else
      var t := CString(s[1..]);
      assert [s[0]] + t <= s;
      [s[0]] + t
  }
}
