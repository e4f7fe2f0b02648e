/** The bytes themselves: how every format of the MessagePack specification ("Formats") is read,
    whether or not it is the shortest, and that packing picks the shortest. */
module MsgPackFormats {
  import opened Bytes
  import opened MsgPack

  /** Bytes as a number, the high one first. */
  function Big(s: bytes): (n: nat)
  {
    if s == [] then 0 else 0x100 * Big(s[..|s| - 1]) + s[|s| - 1]
  }

  lemma Big1(s: bytes)
    requires |s| == 1
    ensures Big(s) == s[0]
  {
    assert s[..0] == [];
  }

  lemma Big2(s: bytes)
    requires |s| == 2
    ensures Big(s) == FromBE16(s) < 0x1_0000
  {
    assert Big(s) == 0x100 * Big(s[..1]) + s[1];
    Big1(s[..1]);
  }

  lemma BigSnoc(s: bytes, x: byte)
    ensures Big(s + [x]) == 0x100 * Big(s) + x
  {
    assert (s + [x])[..|s|] == s;
  }

  lemma BigConcat(s: bytes, t: bytes)
    requires |t| == 2
    ensures Big(s + t) == 0x1_0000 * Big(s) + Big(t)
  {
    hide Big;
    BigSnoc(s, t[0]);
    BigSnoc(s + [t[0]], t[1]);
    assert s + [t[0]] + [t[1]] == s + t;
    BigSnoc([t[0]], t[1]);
    Big1([t[0]]);
    assert [t[0]] + [t[1]] == t;
  }

  lemma Big4(s: bytes)
    requires |s| == 4
    ensures Big(s) == FromBE32(s) < U32_SIZE
  {
    BigConcat(s[..2], s[2..]);
    assert s == s[..2] + s[2..];
    Big2(s[..2]);
    Big2(s[2..]);
  }

  lemma Big8(s: bytes)
    requires |s| == 8
    ensures Big(s) == FromBE64(s) < U64_SIZE
  {
    BigConcat(s[..6], s[6..]);
    BigConcat(s[..4], s[4..6]);
    assert s == s[..6] + s[6..] && s[..6] == s[..4] + s[4..6];
    BigConcat(s[4..6], s[6..]);
    assert s[4..] == s[4..6] + s[6..];
    hide Big;
    Big4(s[..4]);
    Big4(s[4..]);
  }

  /** A big-endian word of 1, 2, 4 or 8 bytes. */
  lemma WordIsBig(s: bytes, tail: bytes)
    requires |s| == 1 || |s| == 2 || |s| == 4 || |s| == 8
    ensures Word(s + tail, |s|) == Some(Cut(Big(s), tail))
  {
    TakeBack(s, tail);
    hide Take, FromBE16, FromBE32, FromBE64, Big;
    if |s| == 1 { Big1(s); }
    else if |s| == 2 { Big2(s); }
    else if |s| == 4 { Big4(s); }
    else { Big8(s); }
  }

  lemma Behind(tag: byte, s: bytes, tail: bytes)
    ensures ([tag] + s + tail)[0] == tag && ([tag] + s + tail)[1..] == s + tail
  {
  }

  /** Half of the numbers of `n` bytes. */
  function Half(n: nat): (h: nat)
    requires n == 1 || n == 2 || n == 4 || n == 8
  {
    if n == 1 then 0x80 else if n == 2 then 0x8000 else if n == 4 then 0x8000_0000 else 0x8000_0000_0000_0000
  }

  lemma NumberAt(tag: byte, s: bytes, tail: bytes)
    requires 0xCC <= tag <= 0xD3
    ensures UnpackHead([tag] + s + tail) == UnpackNumber(tag, s + tail)
  {
    Behind(tag, s, tail);
    hide UnpackNumber, UnpackWide;
  }

  lemma WideAt(tag: byte, s: bytes, tail: bytes)
    requires 0xC4 <= tag <= 0xCB || 0xD4 <= tag <= 0xDF
    ensures UnpackHead([tag] + s + tail) == UnpackWide(tag, s + tail)
  {
    Behind(tag, s, tail);
    hide UnpackNumber, UnpackWide;
  }

  /** uint 8 to uint 64, 0xCC to 0xCF, and int 8 to int 64, 0xD0 to 0xD3, two's complement. */
  lemma IntFormats(k: nat, s: bytes, tail: bytes)
    requires k < 4 && |s| == (if k == 0 then 1 else if k == 1 then 2 else if k == 2 then 4 else 8)
    ensures UnpackHead([0xCC + k] + s + tail) == Some(Cut(Scalar(Int(Big(s))), tail))
    ensures UnpackHead([0xD0 + k] + s + tail) ==
            Some(Cut(Scalar(Int(if Big(s) < Half(|s|) then Big(s) else Big(s) - 2 * Half(|s|))), tail))
  {
    hide Word, Big, UnpackHead, UnpackNumber, Half;
    NumberAt(0xCC + k, s, tail);
    NumberAt(0xD0 + k, s, tail);
    WordIsBig(s, tail);
    if k == 0 { NumberOf1(Big(s), s + tail, tail); }
    else if k == 1 { NumberOf2(Big(s), s + tail, tail); }
    else if k == 2 { NumberOf4(Big(s), s + tail, tail); }
    else { NumberOf8(Big(s), s + tail, tail); }
  }

  lemma NumberOf1(n: nat, t: bytes, tail: bytes)
    requires Word(t, 1) == Some(Cut(n, tail))
    ensures UnpackNumber(0xCC, t) == Some(Cut(Scalar(Int(n)), tail))
    ensures UnpackNumber(0xD0, t) == Some(Cut(Scalar(Int(if n < Half(1) then n else n - 2 * Half(1))), tail))
  {
    hide Word;
  }

  lemma NumberOf2(n: nat, t: bytes, tail: bytes)
    requires Word(t, 2) == Some(Cut(n, tail))
    ensures UnpackNumber(0xCD, t) == Some(Cut(Scalar(Int(n)), tail))
    ensures UnpackNumber(0xD1, t) == Some(Cut(Scalar(Int(if n < Half(2) then n else n - 2 * Half(2))), tail))
  {
    hide Word;
  }

  lemma NumberOf4(n: nat, t: bytes, tail: bytes)
    requires Word(t, 4) == Some(Cut(n, tail))
    ensures UnpackNumber(0xCE, t) == Some(Cut(Scalar(Int(n)), tail))
    ensures UnpackNumber(0xD2, t) == Some(Cut(Scalar(Int(if n < Half(4) then n else n - 2 * Half(4))), tail))
  {
    hide Word;
  }

  lemma NumberOf8(n: nat, t: bytes, tail: bytes)
    requires Word(t, 8) == Some(Cut(n, tail))
    ensures UnpackNumber(0xCF, t) == Some(Cut(Scalar(Int(n)), tail))
    ensures UnpackNumber(0xD3, t) == Some(Cut(Scalar(Int(if n < Half(8) then n else n - 2 * Half(8))), tail))
  {
    hide Word;
  }

  /** Positive and negative fixint, nil, false and true. */
  lemma SmallFormats(n: nat, tail: bytes)
    ensures n < 0x80 ==> UnpackHead([n] + tail) == Some(Cut(Scalar(Int(n)), tail))
    ensures 1 <= n <= 0x20 ==> UnpackHead([0x100 - n] + tail) == Some(Cut(Scalar(Int(0 - n)), tail))
    ensures UnpackHead([0xC0] + tail) == Some(Cut(Scalar(Nil), tail))
    ensures UnpackHead([0xC2] + tail) == Some(Cut(Scalar(Bool(false)), tail))
    ensures UnpackHead([0xC3] + tail) == Some(Cut(Scalar(Bool(true)), tail))
  {
    hide UnpackWide, UnpackNumber;
  }

  /** fixmap, fixarray and fixstr. */
  lemma FixFormats(n: nat, tail: bytes)
    ensures n < 0x10 ==> UnpackHead([0x80 + n] + tail) == Some(Cut(MapOf(n), tail))
    ensures n < 0x10 ==> UnpackHead([0x90 + n] + tail) == Some(Cut(ArrOf(n), tail))
    ensures n < 0x20 ==> UnpackHead([0xA0 + n] + tail) == Some(Cut(StrOf(n), tail))
  {
    hide UnpackWide, UnpackNumber;
  }

  /** float 32. */
  lemma Float32Format(s: bytes, tail: bytes)
    requires |s| == 4
    ensures Big(s) < U32_SIZE && UnpackHead([0xCA] + s + tail) == Some(Cut(Scalar(F32(Big(s))), tail))
  {
    hide Word, Big, UnpackHead;
    WideAt(0xCA, s, tail);
    WordIsBig(s, tail);
    Big4(s);
  }

  /** float 64. */
  lemma Float64Format(s: bytes, tail: bytes)
    requires |s| == 8
    ensures Big(s) < U64_SIZE && UnpackHead([0xCB] + s + tail) == Some(Cut(Scalar(F64(Big(s))), tail))
  {
    hide Word, Big, UnpackHead;
    WideAt(0xCB, s, tail);
    WordIsBig(s, tail);
    Big8(s);
  }

  lemma SizedIsBig(s: bytes, tail: bytes, mk: u32 -> Head)
    requires |s| == 1 || |s| == 2 || |s| == 4
    ensures Big(s) < U32_SIZE && Sized(s + tail, |s|, mk) == Some(Cut(mk(Big(s)), tail))
  {
    WordIsBig(s, tail);
    hide Word, Big;
    if |s| == 1 { Big1(s); } else if |s| == 2 { Big2(s); } else { Big4(s); }
  }

  /** str 8, 16 and 32, bin 8, 16 and 32, array 16 and 32, map 16 and 32: a length, then that
      many bytes, elements or pairs. */
  lemma LengthFormats(k: nat, s: bytes, tail: bytes)
    requires k < 3 && |s| == (if k == 0 then 1 else if k == 1 then 2 else 4)
    ensures Big(s) < U32_SIZE
    ensures UnpackHead([0xD9 + k] + s + tail) == Some(Cut(StrOf(Big(s)), tail))
    ensures UnpackHead([0xC4 + k] + s + tail) == Some(Cut(BinOf(Big(s)), tail))
    ensures k > 0 ==> UnpackHead([0xDB + k] + s + tail) == Some(Cut(ArrOf(Big(s)), tail))
    ensures k > 0 ==> UnpackHead([0xDD + k] + s + tail) == Some(Cut(MapOf(Big(s)), tail))
  {
    hide Sized, Big, UnpackHead;
    WideAt(0xD9 + k, s, tail);
    WideAt(0xC4 + k, s, tail);
    if k > 0 {
      WideAt(0xDB + k, s, tail);
      WideAt(0xDD + k, s, tail);
    }
    SizedIsBig(s, tail, (n: u32) => StrOf(n));
    SizedIsBig(s, tail, (n: u32) => BinOf(n));
    SizedIsBig(s, tail, (n: u32) => ArrOf(n));
    SizedIsBig(s, tail, (n: u32) => MapOf(n));
  }

  /** ext 8, 16 and 32, and fixext 1, 2, 4, 8 and 16: the kind follows the length. */
  lemma ExtFormats(k: nat, s: bytes, kind: byte, tail: bytes)
    requires k < 3 && |s| == (if k == 0 then 1 else if k == 1 then 2 else 4)
    ensures Big(s) < U32_SIZE
    ensures UnpackHead([0xC7 + k] + s + ([kind] + tail)) == Some(Cut(ExtOf(kind, Big(s)), tail))
  {
    hide Word, Big, UnpackHead;
    WideAt(0xC7 + k, s, [kind] + tail);
    WordIsBig(s, [kind] + tail);
    if k == 0 { Big1(s); } else if k == 1 { Big2(s); } else { Big4(s); }
    assert ([kind] + tail)[1..] == tail;
  }

  lemma FixExtFormats(kind: byte, tail: bytes)
    ensures UnpackHead([0xD4] + ([kind] + tail)) == Some(Cut(ExtOf(kind, 1), tail))
    ensures UnpackHead([0xD5] + ([kind] + tail)) == Some(Cut(ExtOf(kind, 2), tail))
    ensures UnpackHead([0xD6] + ([kind] + tail)) == Some(Cut(ExtOf(kind, 4), tail))
    ensures UnpackHead([0xD7] + ([kind] + tail)) == Some(Cut(ExtOf(kind, 8), tail))
    ensures UnpackHead([0xD8] + ([kind] + tail)) == Some(Cut(ExtOf(kind, 16), tail))
  {
    assert ([kind] + tail)[1..] == tail;
    hide Word;
  }

  /** The byte that no format uses. */
  lemma NoFormat(tail: bytes)
    ensures UnpackHead([0xC1] + tail) == None
  {
  }

  /** An integer is packed in as few bytes as any format that holds it takes. */
  lemma PackIntIsShortest(n: int)
    requires -0x8000_0000_0000_0000 <= n < U64_SIZE
    ensures |PackInt(n)| ==
            if -0x20 <= n < 0x80 then 1
            else if -0x80 <= n < 0x100 then 2
            else if -0x8000 <= n < 0x1_0000 then 3
            else if -0x8000_0000 <= n < U32_SIZE then 5
            else 9
  {
  }
}
