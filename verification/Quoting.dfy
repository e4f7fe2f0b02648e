/** Text that leaves the daemon inside another syntax: YAML double-quoted scalars
    (src/daemon/user_dict.cc) and shell words (src/daemon/auto_learn.cc). */
module Quoting {
  import opened Bytes

  const QUOTE: byte := 0x22
  const APOSTROPHE: byte := 0x27
  const BACKSLASH: byte := 0x5C
  const NUL: byte := 0

  // ---- YAML: writing -------------------------------------------------------

  function HexDigit(n: byte): (d: byte)
    requires n < 16
  {
    if n < 10 then 0x30 + n else 0x61 + (n - 10)
  }

  function EscapeByte(c: byte): (s: bytes)
  {
    if c == BACKSLASH || c == QUOTE then [BACKSLASH, c]
    else if c == 0x0A then [BACKSLASH, 0x6E]
    else if c == 0x0D then [BACKSLASH, 0x72]
    else if c == 0x09 then [BACKSLASH, 0x74]
    else if c < 0x20 then [BACKSLASH, 0x78, HexDigit(c / 16), HexDigit(c % 16)]
    else [c]
  }

  function Escaped(s: bytes): (t: bytes)
  {
    if s == [] then [] else EscapeByte(s[0]) + Escaped(s[1..])
  }

  lemma {:induction false} EscapedSnoc(s: bytes, c: byte)
    ensures Escaped(s + [c]) == Escaped(s) + EscapeByte(c)
    decreases |s|
  {
    hide EscapeByte;
    if s == [] {
      assert [] + [c] == [c] && EscapeByte(c) + Escaped([]) == EscapeByte(c);
    } else {
      EscapedSnoc(s[1..], c);
      assert (s + [c])[1..] == s[1..] + [c];
      Joined(EscapeByte(s[0]), Escaped(s[1..]), EscapeByte(c));
    }
  }

  method EscapeYamlString(s: bytes) returns (out: bytes)
    ensures out == [QUOTE] + Escaped(s) + [QUOTE]
  {
    out := [QUOTE];
    var k := 0;
    while k < |s|
      invariant 0 <= k <= |s| && out == [QUOTE] + Escaped(s[..k])
    {
      hide Escaped;
      var c := s[k];
      EscapedSnoc(s[..k], c);
      assert s[..k + 1] == s[..k] + [c];
      Joined([QUOTE], Escaped(s[..k]), EscapeByte(c));
      if c == BACKSLASH || c == QUOTE {
        out := out + [BACKSLASH, c];
      } else if c == 0x0A {
        out := out + [BACKSLASH, 0x6E];
      } else if c == 0x0D {
        out := out + [BACKSLASH, 0x72];
      } else if c == 0x09 {
        out := out + [BACKSLASH, 0x74];
      } else if c < 0x20 {
        out := out + [BACKSLASH, 0x78, HexDigit(c / 16), HexDigit(c % 16)];
      } else {
        out := out + [c];
      }
      k := k + 1;
    }
    assert s[..k] == s;
    out := out + [QUOTE];
  }

  // ---- YAML: reading (sections 5.7 and 7.3.1 of YAML 1.2.2) ----------------

  function HexValue(d: byte): (n: Option<byte>)
    ensures n.Some? ==> n.value < 16
  {
    if 0x30 <= d <= 0x39 then Some(d - 0x30)
    else if 0x41 <= d <= 0x46 then Some(d - 0x41 + 10)
    else if 0x61 <= d <= 0x66 then Some(d - 0x61 + 10)
    else None
  }

  /** The single-character escapes, as the bytes of the character they stand for. */
  function SimpleEscape(c: byte): (r: Option<bytes>)
  {
    if c == 0x30 then Some([0])
    else if c == 0x61 then Some([0x07])
    else if c == 0x62 then Some([0x08])
    else if c == 0x74 || c == 0x09 then Some([0x09])
    else if c == 0x6E then Some([0x0A])
    else if c == 0x76 then Some([0x0B])
    else if c == 0x66 then Some([0x0C])
    else if c == 0x72 then Some([0x0D])
    else if c == 0x65 then Some([0x1B])
    else if c == 0x20 then Some([0x20])
    else if c == QUOTE || c == 0x2F || c == BACKSLASH then Some([c])
    else if c == 0x4E then Some([0xC2, 0x85])
    else if c == 0x5F then Some([0xC2, 0xA0])
    else if c == 0x4C then Some([0xE2, 0x80, 0xA8])
    else if c == 0x50 then Some([0xE2, 0x80, 0xA9])
    else None
  }

  /** An escape after its backslash: what it stands for and what follows it. */
  function ReadEscape(t: bytes): (r: Option<(bytes, bytes)>)
    ensures r.Some? ==> |r.value.1| < |t|
  {
    if t == [] then None
    else if t[0] == 0x78 then
      if |t| < 3 then None else
      match (HexValue(t[1]), HexValue(t[2]))
      case (Some(hi), Some(lo)) =>
        var v: int := 16 * hi + lo;
        Some((if v < 0x80 then [v] else [0xC0 + v / 64, 0x80 + v % 64], t[3..]))
      case _ => None
    else
      match SimpleEscape(t[0])
      case None => None
      case Some(bs) => Some((bs, t[1..]))
  }

  function Prefixed(bs: bytes, r: Option<(bytes, bytes)>): (p: Option<(bytes, bytes)>)
  {
    match r
    case None => None
    case Some((v, rest)) => Some((bs + v, rest))
  }

  /** The rest of a one-line double-quoted scalar after its opening quote: its value, and the
      text after the closing quote. Control bytes other than TAB are not allowed raw. */
  function ScanScalar(t: bytes): (r: Option<(bytes, bytes)>)
    decreases |t|
  {
    if t == [] then None
    else if t[0] == QUOTE then Some(([], t[1..]))
    else if t[0] == BACKSLASH then
      match ReadEscape(t[1..])
      case None => None
      case Some((bs, rest)) => Prefixed(bs, ScanScalar(rest))
    else if t[0] < 0x20 && t[0] != 0x09 then None
    else Prefixed([t[0]], ScanScalar(t[1..]))
  }

  function ReadScalar(t: bytes): (r: Option<(bytes, bytes)>)
  {
    if t == [] || t[0] != QUOTE then None else ScanScalar(t[1..])
  }

  lemma HexRoundTrip(c: byte)
    ensures HexValue(HexDigit(c / 16)) == Some(c / 16) && HexValue(HexDigit(c % 16)) == Some(c % 16)
  {
  }

  lemma ScanByte(c: byte, tail: bytes)
    ensures ScanScalar(EscapeByte(c) + tail) == Prefixed([c], ScanScalar(tail))
  {
    var t := EscapeByte(c) + tail;
    HexRoundTrip(c);
    if c == BACKSLASH || c == QUOTE || c < 0x20 {
      EscapeReads(c, tail);
      hide EscapeByte, ReadEscape;
    } else {
      assert t[1..] == tail;
    }
  }

  lemma EscapeReads(c: byte, tail: bytes)
    requires c == BACKSLASH || c == QUOTE || c < 0x20
    ensures var t := EscapeByte(c) + tail;
            t[0] == BACKSLASH && ReadEscape(t[1..]) == Some(([c], tail))
  {
    HexRoundTrip(c);
    var t := EscapeByte(c) + tail;
    if c < 0x20 && c != 0x0A && c != 0x0D && c != 0x09 {
      assert t[1..][3..] == tail;
    } else {
      assert t[1..][1..] == tail;
    }
  }

  /** Reading back an escaped text gives the text and stops at the quote that was added last. */
  lemma {:induction false} EscapeRoundTrip(s: bytes, tail: bytes)
    ensures ScanScalar(Escaped(s) + ([QUOTE] + tail)) == Some((s, tail))
    decreases |s|
  {
    hide EscapeByte, ScanScalar;
    if s == [] {
      assert [] + ([QUOTE] + tail) == [QUOTE] + tail;
      CloseScalar(tail);
    } else {
      EscapeRoundTrip(s[1..], tail);
      Joined(EscapeByte(s[0]), Escaped(s[1..]), [QUOTE] + tail);
      ScanByte(s[0], Escaped(s[1..]) + ([QUOTE] + tail));
      assert [s[0]] + s[1..] == s;
    }
  }

  lemma CloseScalar(tail: bytes)
    ensures ScanScalar([QUOTE] + tail) == Some(([], tail))
  {
    assert ([QUOTE] + tail)[1..] == tail;
  }

  /** Every byte string survives: the scalar reads back as the string, whatever follows. */
  lemma YamlRoundTrip(s: bytes, tail: bytes)
    ensures ReadScalar([QUOTE] + Escaped(s) + [QUOTE] + tail) == Some((s, tail))
  {
    hide Escaped, ScanScalar;
    EscapeRoundTrip(s, tail);
    var all := [QUOTE] + Escaped(s) + [QUOTE] + tail;
    assert all[1..] == Escaped(s) + ([QUOTE] + tail);
  }

  /** No control byte is left raw. */
  lemma {:induction false} NoRawControls(s: bytes)
    ensures forall i :: 0 <= i < |Escaped(s)| ==> Escaped(s)[i] >= 0x20
    decreases |s|
  {
    if s == [] {
    } else {
      NoRawControls(s[1..]);
    }
  }

  // ---- Shell: writing ------------------------------------------------------

  function QuotedBody(s: bytes): (t: bytes)
  {
    if s == [] then []
    else (if s[0] == APOSTROPHE then [APOSTROPHE, BACKSLASH, APOSTROPHE, APOSTROPHE] else [s[0]]) + QuotedBody(s[1..])
  }

  function ShellQuoted(s: bytes): (t: bytes)
  {
    [APOSTROPHE] + (QuotedBody(s) + [APOSTROPHE])
  }

  lemma {:induction false} BodyConcat(s: bytes, u: bytes)
    ensures QuotedBody(s + u) == QuotedBody(s) + QuotedBody(u)
    decreases |s|
  {
    if s == [] {
      assert [] + u == u;
    } else {
      BodyConcat(s[1..], u);
      assert (s + u)[1..] == s[1..] + u;
      var head: bytes := if s[0] == APOSTROPHE then [APOSTROPHE, BACKSLASH, APOSTROPHE, APOSTROPHE] else [s[0]];
      Joined(head, QuotedBody(s[1..]), QuotedBody(u));
    }
  }

  lemma BodySnoc(s: bytes, c: byte)
    ensures QuotedBody(s + [c]) == QuotedBody(s)
            + if c == APOSTROPHE then [APOSTROPHE, BACKSLASH, APOSTROPHE, APOSTROPHE] else [c]
  {
    BodyConcat(s, [c]);
    assert [c][1..] == [];
  }

  method ShellQuote(s: bytes) returns (out: bytes)
    ensures out == ShellQuoted(s)
  {
    out := [APOSTROPHE];
    var k := 0;
    while k < |s|
      invariant 0 <= k <= |s| && out == [APOSTROPHE] + QuotedBody(s[..k])
    {
      BodySnoc(s[..k], s[k]);
      assert s[..k + 1] == s[..k] + [s[k]];
      if s[k] == APOSTROPHE {
        Joined([APOSTROPHE], QuotedBody(s[..k]), [APOSTROPHE, BACKSLASH, APOSTROPHE, APOSTROPHE]);
        out := out + [APOSTROPHE, BACKSLASH, APOSTROPHE, APOSTROPHE];
      } else {
        Joined([APOSTROPHE], QuotedBody(s[..k]), [s[k]]);
        out := out + [s[k]];
      }
      k := k + 1;
    }
    assert s[..k] == s;
    Joined([APOSTROPHE], QuotedBody(s), [APOSTROPHE]);
    out := out + [APOSTROPHE];
  }

  // ---- Shell: reading (section 2.2 of the POSIX Shell Command Language) ----

  predicate IsBlank(c: byte)
  {
    c == 0x20 || c == 0x09 || c == 0x0A
  }

  /** Bytes that mean something to the shell outside quotes; this reader does not go on. */
  predicate IsSpecial(c: byte)
  {
    c in {0x7C, 0x26, 0x3B, 0x3C, 0x3E, 0x28, 0x29, 0x24, 0x60, 0x22, 0x2A, 0x3F, 0x5B, 0x23, 0x7E, 0x3D, 0x25}
  }

  /** One word, up to a blank or the end: its value after quote removal, and the rest. */
  function ReadWord(t: bytes, quoted: bool): (r: Option<(bytes, bytes)>)
    decreases |t|
  {
    if t == [] then if quoted then None else Some(([], []))
    else if quoted then
      if t[0] == APOSTROPHE then ReadWord(t[1..], false) else Prefixed([t[0]], ReadWord(t[1..], true))
    else if IsBlank(t[0]) then Some(([], t))
    else if t[0] == APOSTROPHE then ReadWord(t[1..], true)
    else if t[0] == BACKSLASH then
      if |t| < 2 then None
      else if t[1] == 0x0A then ReadWord(t[2..], false)
      else Prefixed([t[1]], ReadWord(t[2..], false))
    else if IsSpecial(t[0]) then None
    else Prefixed([t[0]], ReadWord(t[1..], false))
  }

  /** Words separated by single spaces. */
  function ReadWords(t: bytes, n: nat): (r: Option<(seq<bytes>, bytes)>)
    decreases n
  {
    if n == 0 then Some(([], t)) else
    match ReadWord(t, false)
    case None => None
    case Some((w, rest)) =>
      if rest == [] || rest[0] != 0x20 then None else
      match ReadWords(rest[1..], n - 1)
      case None => None
      case Some((ws, left)) => Some(([w] + ws, left))
  }

  lemma QuotedByte(c: byte, tail: bytes)
    ensures var t := (if c == APOSTROPHE then [APOSTROPHE, BACKSLASH, APOSTROPHE, APOSTROPHE] else [c]) + tail;
            ReadWord(t, true) == Prefixed([c], ReadWord(tail, true))
  {
    if c == APOSTROPHE {
      var t := [APOSTROPHE, BACKSLASH, APOSTROPHE, APOSTROPHE] + tail;
      assert t[1..] == [BACKSLASH, APOSTROPHE, APOSTROPHE] + tail;
      var bs: bytes := [BACKSLASH, APOSTROPHE, APOSTROPHE] + tail;
      assert bs[2..] == [APOSTROPHE] + tail;
      assert ReadWord(t, true) == ReadWord(bs, false);
      assert ReadWord(bs, false) == Prefixed([APOSTROPHE], ReadWord([APOSTROPHE] + tail, false));
      QuoteOpens(tail);
    } else {
      assert ([c] + tail)[1..] == tail;
    }
  }

  lemma {:induction false} BodyReads(s: bytes, tail: bytes)
    ensures ReadWord(QuotedBody(s) + tail, true) == Prefixed(s, ReadWord(tail, true))
    decreases |s|
  {
    hide ReadWord;
    if s == [] {
      assert [] + tail == tail;
      PrefixNone(ReadWord(tail, true));
    } else {
      var head: bytes := if s[0] == APOSTROPHE then [APOSTROPHE, BACKSLASH, APOSTROPHE, APOSTROPHE] else [s[0]];
      BodyReads(s[1..], tail);
      Joined(head, QuotedBody(s[1..]), tail);
      QuotedByte(s[0], QuotedBody(s[1..]) + tail);
      PrefixTwice([s[0]], s[1..], ReadWord(tail, true));
      assert [s[0]] + s[1..] == s;
    }
  }

  lemma PrefixNone(r: Option<(bytes, bytes)>)
    ensures Prefixed([], r) == r
  {
    if r.Some? { assert [] + r.value.0 == r.value.0; }
  }

  lemma PrefixTwice(a: bytes, b: bytes, r: Option<(bytes, bytes)>)
    ensures Prefixed(a, Prefixed(b, r)) == Prefixed(a + b, r)
  {
    if r.Some? { Joined(a, b, r.value.0); }
  }

  /** A quoted string before a blank or the end is one word with that value, and no byte of
      it is read as anything else. */
  lemma ShellRoundTrip(s: bytes, tail: bytes)
    requires tail == [] || IsBlank(tail[0])
    ensures ReadWord(ShellQuoted(s) + tail, false) == Some((s, tail))
  {
    BodyReads(s, [APOSTROPHE] + tail);
    QuoteOpens(QuotedBody(s) + ([APOSTROPHE] + tail));
    QuoteCloses(tail);
    hide QuotedBody, ReadWord;
    assert s + [] == s;
    assert ShellQuoted(s) + tail == [APOSTROPHE] + (QuotedBody(s) + ([APOSTROPHE] + tail));
  }

  lemma QuoteOpens(t: bytes)
    ensures ReadWord([APOSTROPHE] + t, false) == ReadWord(t, true)
  {
    assert ([APOSTROPHE] + t)[1..] == t;
  }

  lemma QuoteCloses(tail: bytes)
    requires tail == [] || IsBlank(tail[0])
    ensures ReadWord([APOSTROPHE] + tail, true) == Some(([], tail))
  {
    assert ([APOSTROPHE] + tail)[1..] == tail;
  }

  lemma {:induction false} CStringWhole(s: bytes)
    requires NUL !in s
    ensures CString(s) == s
    decreases |s|
  {
    if s == [] {
    } else {
      CStringWhole(s[1..]);
      assert [s[0]] + s[1..] == s;
    }
  }

  lemma {:induction false} CStringCut(s: bytes, t: bytes)
    requires NUL !in s
    ensures CString(s + ([NUL] + t)) == s
    decreases |s|
  {
    if s == [] {
      assert [] + ([NUL] + t) == [NUL] + t;
    } else {
      CStringCut(s[1..], t);
      assert (s + ([NUL] + t))[1..] == s[1..] + ([NUL] + t);
      assert [s[0]] + s[1..] == s;
    }
  }

  lemma {:induction false} BodyNul(s: bytes)
    ensures NUL in QuotedBody(s) <==> NUL in s
    decreases |s|
  {
    if s == [] {
    } else {
      BodyNul(s[1..]);
      assert s == [s[0]] + s[1..];
    }
  }

  lemma FirstNul(s: bytes) returns (k: nat)
    requires NUL in s
    ensures k < |s| && s[k] == NUL && NUL !in s[..k]
  {
    k := 0;
    while s[k] != NUL
      invariant 0 <= k < |s| && NUL !in s[..k] && NUL in s[k..]
      decreases |s| - k
    {
      assert s[k..] == [s[k]] + s[k + 1..];
      assert s[..k + 1] == s[..k] + [s[k]];
      k := k + 1;
    }
  }

  /** Through a C string, the shell gets the word back if and only if it holds no NUL: at a
      NUL the command ends inside an open quote and is refused. */
  lemma ShellWordExactlyWhen(s: bytes)
    ensures ReadWord(CString(ShellQuoted(s)), false) == Some((s, [])) <==> NUL !in s
    ensures NUL in s ==> ReadWord(CString(ShellQuoted(s)), false) == None
  {
    var q := ShellQuoted(s);
    BodyNul(s);
    if NUL !in s {
      hide QuotedBody, ReadWord, CString;
      assert NUL !in q;
      CStringWhole(q);
      ShellRoundTrip(s, []);
      assert q + [] == q;
    } else {
      hide QuotedBody, CString, ReadWord;
      var open, tail := QuotedCut(s);
      CStringCut(open, tail);
    }
  }

  lemma NulSplit(s: bytes, k: nat)
    requires k < |s| && s[k] == NUL
    ensures QuotedBody(s) == QuotedBody(s[..k]) + ([NUL] + QuotedBody(s[k + 1..]))
  {
    assert s == s[..k] + s[k..];
    BodyConcat(s[..k], s[k..]);
    assert s[k..][1..] == s[k + 1..];
  }

  lemma Unclosed(s: bytes)
    ensures ReadWord([APOSTROPHE] + QuotedBody(s), false) == None
  {
    QuoteOpens(QuotedBody(s));
    BodyReads(s, []);
    assert QuotedBody(s) + [] == QuotedBody(s);
  }

  // ---- The deployer command ------------------------------------------------

  /** " --build ". */
  const BUILD: bytes := [0x20, 0x2D, 0x2D, 0x62, 0x75, 0x69, 0x6C, 0x64, 0x20]
  /** " >/dev/null 2>&1". */
  const SILENCE: bytes := [0x20, 0x3E, 0x2F, 0x64, 0x65, 0x76, 0x2F, 0x6E, 0x75, 0x6C, 0x6C,
                           0x20, 0x32, 0x3E, 0x26, 0x31]

  method DeployCommand(deployer: bytes, dir: bytes) returns (cmd: bytes)
    ensures cmd == Command(deployer, dir)
  {
    hide ShellQuoted;
    var first := ShellQuote(deployer);
    var second := ShellQuote(dir);
    Joined(first, BUILD, second);
    Joined(first, BUILD + second, SILENCE);
    Joined(BUILD, second, SILENCE);
    cmd := first + BUILD + second + SILENCE;
  }

  lemma PlainWord(t: bytes)
    ensures ReadWord(BUILD[1..] + t, false) == Some((BUILD[1..8], [0x20] + t))
  {
    PlainBytes(BUILD[1..8], [0x20] + t);
    assert BUILD[1..] + t == BUILD[1..8] + ([0x20] + t);
  }

  lemma {:induction false} PlainBytes(w: bytes, t: bytes)
    requires forall i :: 0 <= i < |w| ==> !IsBlank(w[i]) && !IsSpecial(w[i]) && w[i] != APOSTROPHE && w[i] != BACKSLASH
    requires t != [] && IsBlank(t[0])
    ensures ReadWord(w + t, false) == Some((w, t))
    decreases |w|
  {
    hide IsSpecial;
    if w == [] {
      assert [] + t == t;
    } else {
      PlainBytes(w[1..], t);
      assert (w + t)[1..] == w[1..] + t && [w[0]] + w[1..] == w;
    }
  }

  lemma WordThenSpace(w: bytes, s: bytes, rest: bytes, n: nat)
    requires n > 0 && ReadWord(s, false) == Some((w, [0x20] + rest))
    requires ReadWords(rest, n - 1).Some?
    ensures ReadWords(s, n) == Some(([w] + ReadWords(rest, n - 1).value.0, ReadWords(rest, n - 1).value.1))
  {
    hide ReadWord;
    assert ([0x20] + rest)[1..] == rest;
  }

  lemma WordThenNone(w: bytes, s: bytes, rest: bytes, n: nat)
    requires n > 0 && ReadWord(s, false) == Some((w, [0x20] + rest)) && ReadWords(rest, n - 1) == None
    ensures ReadWords(s, n) == None
  {
    hide ReadWord;
    assert ([0x20] + rest)[1..] == rest;
  }

  lemma NoWord(s: bytes, n: nat)
    requires n > 0 && ReadWord(s, false) == None
    ensures ReadWords(s, n) == None
  {
  }

  function Command(deployer: bytes, dir: bytes): (cmd: bytes)
  {
    ShellQuoted(deployer) + (BUILD + (ShellQuoted(dir) + SILENCE))
  }

  /** The whole string, before it is passed on, reads as the deployer, the flag and the
      directory, and then the redirections. */
  lemma WholeCommandWords(deployer: bytes, dir: bytes)
    ensures ReadWords(Command(deployer, dir), 3) == Some(([deployer, BUILD[1..8], dir], SILENCE[1..]))
  {
    hide ShellQuoted, ReadWord;
    var r2 := ShellQuoted(dir) + SILENCE;
    ShellRoundTrip(dir, SILENCE);
    assert SILENCE == [0x20] + SILENCE[1..];
    WordThenSpace(dir, r2, SILENCE[1..], 1);
    PlainWord(r2);
    WordThenSpace(BUILD[1..8], BUILD[1..] + r2, r2, 2);
    ShellRoundTrip(deployer, BUILD + r2);
    assert BUILD + r2 == [0x20] + (BUILD[1..] + r2);
    WordThenSpace(deployer, ShellQuoted(deployer) + (BUILD + r2), BUILD[1..] + r2, 3);
    assert [deployer] + ([BUILD[1..8]] + ([dir] + [])) == [deployer, BUILD[1..8], dir];
  }

  lemma WholeCommand(deployer: bytes, dir: bytes)
    requires NUL !in deployer && NUL !in dir
    ensures CString(Command(deployer, dir)) == Command(deployer, dir)
  {
    BodyNul(deployer);
    BodyNul(dir);
    hide QuotedBody, CString;
    CStringWhole(Command(deployer, dir));
  }

  /** A quoted string with a NUL, cut there: what is left opens a quote and does not close it. */
  lemma QuotedCut(s: bytes) returns (open: bytes, tail: bytes)
    requires NUL in s
    ensures ShellQuoted(s) == open + ([NUL] + tail) && NUL !in open
    ensures ReadWord(open, false) == None
  {
    var k := FirstNul(s);
    BodyNul(s[..k]);
    NulSplit(s, k);
    Unclosed(s[..k]);
    hide QuotedBody, ReadWord;
    open, tail := [APOSTROPHE] + QuotedBody(s[..k]), QuotedBody(s[k + 1..]) + [APOSTROPHE];
    assert ShellQuoted(s) == open + ([NUL] + tail);
  }

  lemma CutInDeployer(deployer: bytes, dir: bytes)
    requires NUL in deployer
    ensures ReadWords(CString(Command(deployer, dir)), 3) == None
  {
    hide ShellQuoted, ReadWord, CString, ReadWords;
    var open, tail := QuotedCut(deployer);
    var more := BUILD + (ShellQuoted(dir) + SILENCE);
    assert Command(deployer, dir) == open + ([NUL] + (tail + more));
    CStringCut(open, tail + more);
    NoWord(open, 3);
  }

  lemma CommandCutInDir(deployer: bytes, dir: bytes, open: bytes, tail: bytes)
    requires NUL !in deployer && NUL !in open && ShellQuoted(dir) == open + ([NUL] + tail)
    ensures CString(Command(deployer, dir)) == ShellQuoted(deployer) + (BUILD + open)
  {
    BodyNul(deployer);
    assert NUL !in ShellQuoted(deployer);
    hide ShellQuoted, CString, QuotedBody;
    var seen := ShellQuoted(deployer) + (BUILD + open);
    assert Command(deployer, dir) == seen + ([NUL] + (tail + SILENCE));
    CStringCut(seen, tail + SILENCE);
  }

  lemma OpenAfterDeployer(deployer: bytes, open: bytes)
    requires ReadWord(open, false) == None
    ensures ReadWords(ShellQuoted(deployer) + (BUILD + open), 3) == None
  {
    hide ShellQuoted, ReadWord, ReadWords;
    NoWord(open, 1);
    PlainWord(open);
    WordThenNone(BUILD[1..8], BUILD[1..] + open, open, 2);
    ShellRoundTrip(deployer, BUILD + open);
    assert BUILD + open == [0x20] + (BUILD[1..] + open);
    WordThenNone(deployer, ShellQuoted(deployer) + (BUILD + open), BUILD[1..] + open, 3);
  }

  lemma CutInDir(deployer: bytes, dir: bytes)
    requires NUL !in deployer && NUL in dir
    ensures ReadWords(CString(Command(deployer, dir)), 3) == None
  {
    hide ShellQuoted, ReadWord, CString, ReadWords, Command;
    var open, tail := QuotedCut(dir);
    CommandCutInDir(deployer, dir, open, tail);
    OpenAfterDeployer(deployer, open);
  }

  /** std::system takes the command as a C string. The shell splits it into the deployer, the
      flag and the directory, whatever else the two paths hold, if and only if neither holds
      a NUL; otherwise the command ends inside an open quote and the shell refuses it. */
  lemma CommandIsThreeWords(deployer: bytes, dir: bytes)
    ensures var words := ReadWords(CString(Command(deployer, dir)), 3);
            && (words == Some(([deployer, BUILD[1..8], dir], SILENCE[1..])) <==> NUL !in deployer && NUL !in dir)
            && (words == None <==> NUL in deployer || NUL in dir)
  {
    hide Command, ReadWords, CString;
    if NUL in deployer {
      CutInDeployer(deployer, dir);
    } else if NUL in dir {
      CutInDir(deployer, dir);
    } else {
      WholeCommand(deployer, dir);
      WholeCommandWords(deployer, dir);
    }
  }
}
