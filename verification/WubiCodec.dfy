/** The Wubi phrase encoder: an index of each character's longest code, built from the lines
    of a dictionary, and the phrase codes made from it (src/daemon/wubi_codec.cc). */
module WubiCodec {
  import opened Bytes
  import opened Utf8

  const TAB: byte := 0x09
  const HASH: byte := 0x23

  type Index = map<bytes, bytes>

  /** How many bytes come before the first `c`, or all of them. */
  function Before(s: bytes, c: byte): (n: nat)
    ensures n <= |s| && (n < |s| ==> s[n] == c) && forall i :: 0 <= i < n ==> s[i] != c
  {
    if s == [] || s[0] == c then 0
    else
      var n := Before(s[1..], c);
      assert forall i :: 1 <= i < n + 1 ==> s[i] == s[1..][i - 1];
      n + 1
  }

  /** The character and code a line contributes: its first two fields, if the first holds
      exactly one character. The key is that character, without any bytes left unread. */
  function Contribution(line: bytes): (r: Option<(bytes, bytes)>)
  {
    if line == [] || line[0] == HASH then None else
    var t1 := Before(line, TAB);
    if t1 == |line| then None else
    var text, rest := line[..t1], line[t1 + 1..];
    var code := rest[..Before(rest, TAB)];
    if text == [] || code == [] || |LooseChars(text)| != 1 then None
    else Some((LooseChars(text)[0], code))
  }

  function Learn(index: Index, c: Option<(bytes, bytes)>): (index': Index)
  {
    match c
    case None => index
    case Some((ch, code)) =>
      var cur := if ch in index then index[ch] else [];
      index[ch := if |code| > |cur| then code else cur]
  }

  function IndexOf(lines: seq<bytes>): (index: Index)
  {
    if lines == [] then map[] else Learn(IndexOf(lines[..|lines| - 1]), Contribution(lines[|lines| - 1]))
  }

  function CodeOf(index: Index, ch: bytes): (code: bytes)
  {
    if ch in index then index[ch] else []
  }

  // ---- Phrase codes --------------------------------------------------------

  function Keys(code: bytes, n: nat): (ks: bytes)
    ensures |ks| == Min(|code|, n)
  {
    if |code| >= n then code[..n] else code
  }

  predicate AllKnown(index: Index, cs: seq<bytes>)
  {
    forall i :: 0 <= i < |cs| ==> CodeOf(index, cs[i]) != []
  }

  /** The code of a phrase, from its characters. */
  function EncodeChars(index: Index, cs: seq<bytes>): (out: bytes)
  {
    if |cs| < 2 || !AllKnown(index, cs) then [] else
    var last := CodeOf(index, cs[|cs| - 1]);
    if |cs| == 2 then Keys(CodeOf(index, cs[0]), 2) + Keys(last, 2)
    else if |cs| == 3 then Keys(CodeOf(index, cs[0]), 1) + Keys(CodeOf(index, cs[1]), 1) + Keys(last, 2)
    else Keys(CodeOf(index, cs[0]), 1) + Keys(CodeOf(index, cs[1]), 1) + Keys(CodeOf(index, cs[2]), 1) + Keys(last, 1)
  }

  function Encode(index: Index, phrase: bytes): (out: bytes)
  {
    EncodeChars(index, LooseChars(phrase))
  }

  // ---- The codec -----------------------------------------------------------

  class WubiCodec {
    var fullCodes: Index

    constructor ()
      ensures fullCodes == map[]
    {
      fullCodes := map[];
    }

    /** Given the file's lines if it could be opened. */
    method LoadFromDict(dict: Option<seq<bytes>>) returns (ok: bool)
      modifies this
      ensures ok == dict.Some?
      ensures fullCodes == if dict.Some? then IndexOf(dict.value) else map[]
    {
      hide LooseChars;
      fullCodes := map[];
      if dict.None? { return false; }
      var lines := dict.value;
      var pastHeader := false;
      var k := 0;
      while k < |lines|
        invariant 0 <= k <= |lines| && fullCodes == IndexOf(lines[..k])
      {
        var line := lines[k];
        assert lines[..k + 1][..k] == lines[..k];
        k := k + 1;
        if line == [] || line[0] == HASH { continue; }
        if !pastHeader {
          if Before(line, TAB) == |line| { continue; }
          pastHeader := true;
        }
        var tab1 := Before(line, TAB);
        if tab1 == |line| { continue; }
        var rest := line[tab1 + 1..];
        var text, code := line[..tab1], rest[..Before(rest, TAB)];
        if text == [] || code == [] { continue; }
        var chars := SplitUtf8Chars(text);
        if |chars| != 1 { continue; }
        if chars[0] !in fullCodes { fullCodes := fullCodes[chars[0] := []]; }
        if |code| > |fullCodes[chars[0]]| { fullCodes := fullCodes[chars[0] := code]; }
      }
      assert lines[..k] == lines;
      return true;
    }

    method FullCode(ch: bytes) returns (code: bytes)
      ensures code == CodeOf(fullCodes, ch)
    {
      if ch !in fullCodes { return []; }
      return fullCodes[ch];
    }

    method EncodePhrase(phrase: bytes) returns (out: bytes)
      ensures out == Encode(fullCodes, phrase)
    {
      hide LooseChars;
      var chars := SplitUtf8Chars(phrase);
      if |chars| < 2 { return []; }
      var codes: seq<bytes> := [];
      var k := 0;
      while k < |chars|
        invariant 0 <= k <= |chars| && |codes| == k
        invariant forall i :: 0 <= i < k ==> codes[i] == CodeOf(fullCodes, chars[i]) != []
      {
        if chars[k] !in fullCodes || fullCodes[chars[k]] == [] { return []; }
        codes := codes + [fullCodes[chars[k]]];
        k := k + 1;
      }
      if |chars| == 2 {
        out := Keys(codes[0], 2) + Keys(codes[1], 2);
      } else if |chars| == 3 {
        out := Keys(codes[0], 1) + Keys(codes[1], 1) + Keys(codes[2], 2);
      } else {
        out := Keys(codes[0], 1) + Keys(codes[1], 1) + Keys(codes[2], 1) + Keys(codes[|codes| - 1], 1);
      }
    }
  }

  // ---- The line format -----------------------------------------------------

  lemma {:induction false} BeforeAt(s: bytes, c: byte, tail: bytes)
    requires c !in s
    ensures Before(s + [c] + tail, c) == |s| && Before(s, c) == |s|
  {
    if s == [] {
    } else {
      assert s[0] in s;
      assert s == [s[0]] + s[1..];
      assert (s + [c] + tail)[1..] == s[1..] + [c] + tail;
      BeforeAt(s[1..], c, tail);
    }
  }

  /** A dictionary line of a character and a code, with or without more fields, contributes
      just that character and code. */
  lemma LineReadsBack(ch: bytes, code: bytes, more: bytes)
    requires IsChar(ch) && TAB !in ch && ch[0] != HASH && code != [] && TAB !in code
    ensures Contribution(ch + [TAB] + code) == Some((ch, code))
    ensures Contribution(ch + [TAB] + (code + [TAB] + more)) == Some((ch, code))
  {
    OneChar(ch);
    BeforeAt(code, TAB, more);
    FieldsOf(ch, code);
    FieldsOf(ch, code + [TAB] + more);
    hide LooseChars, IsChar, Before;
    assert (code + [TAB] + more)[..|code|] == code && code[..|code|] == code;
  }

  /** Every line with a tab is a first field and a rest; it contributes if and only if it is no
      comment, the first field is one character, with any bytes left unread, and the second is
      not empty. */
  lemma LineSays(text: bytes, code: bytes, more: bytes)
    requires TAB !in text && TAB !in code
    ensures var wanted := if text == [] || text[0] == HASH || code == [] || |LooseChars(text)| != 1 then None
                          else Some((LooseChars(text)[0], code));
            Contribution(text + [TAB] + code) == wanted && Contribution(text + [TAB] + (code + [TAB] + more)) == wanted
  {
    BeforeAt(code, TAB, more);
    BeforeAt(text, TAB, code);
    BeforeAt(text, TAB, code + [TAB] + more);
    SplitLine(text, code);
    SplitLine(text, code + [TAB] + more);
    hide LooseChars, Before;
    assert (code + [TAB] + more)[..|code|] == code && code[..|code|] == code;
  }

  lemma SplitLine(text: bytes, rest: bytes)
    ensures var line := text + [TAB] + rest;
            line[..|text|] == text && line[|text| + 1..] == rest && (text != [] ==> line[0] == text[0])
  {
  }

  /** A line without a tab contributes nothing. */
  lemma NoTabNothing(line: bytes)
    requires TAB !in line
    ensures Contribution(line) == None
  {
    BeforeAt(line, TAB, []);
    hide Before, LooseChars;
  }

  lemma FieldsOf(ch: bytes, rest: bytes)
    requires ch != [] && TAB !in ch
    ensures var line := ch + [TAB] + rest;
            Before(line, TAB) == |ch| && line[0] == ch[0] && line[..|ch|] == ch && line[|ch| + 1..] == rest
  {
    BeforeAt(ch, TAB, rest);
  }

  lemma OneChar(ch: bytes)
    requires IsChar(ch)
    ensures LooseChars(ch) == [ch]
  {
    SplitConcat([ch]);
    assert Flat([ch]) == ch + Flat([]) == ch;
    WalksAgree(ch);
  }

  // ---- The index holds first longest codes ---------------------------------

  /** The codes the lines give a character, in order. */
  function CodesFor(lines: seq<bytes>, ch: bytes): (codes: seq<bytes>)
  {
    if lines == [] then [] else
    CodesFor(lines[..|lines| - 1], ch) +
    match Contribution(lines[|lines| - 1])
    case None => []
    case Some((c, code)) => if c == ch then [code] else []
  }

  ghost predicate IsFirstLongest(code: bytes, codes: seq<bytes>)
  {
    exists k :: 0 <= k < |codes| && codes[k] == code
      && (forall j :: 0 <= j < |codes| ==> |codes[j]| <= |code|)
      && (forall j :: 0 <= j < k ==> |codes[j]| < |code|)
  }

  lemma LongestNext(code: bytes, codes: seq<bytes>, more: bytes)
    requires more != [] && if codes == [] then code == [] else IsFirstLongest(code, codes)
    ensures IsFirstLongest(if |more| > |code| then more else code, codes + [more])
  {
    var all := codes + [more];
    if |more| > |code| {
      assert all[|codes|] == more;
    } else {
      var k :| 0 <= k < |codes| && codes[k] == code
        && (forall j :: 0 <= j < |codes| ==> |codes[j]| <= |code|)
        && (forall j :: 0 <= j < k ==> |codes[j]| < |code|);
      assert all[k] == code;
    }
  }

  lemma ContributesKeys(line: bytes)
    ensures Contribution(line).Some? ==> Contribution(line).value.1 != []
  {
    hide LooseChars;
  }

  /** The index holds exactly the characters some line gives a code, each with the first of
      the longest codes over all lines. */
  lemma {:induction false} IndexIsFirstLongest(lines: seq<bytes>, ch: bytes)
    ensures ch in IndexOf(lines) <==> CodesFor(lines, ch) != []
    ensures ch in IndexOf(lines) ==> IsFirstLongest(IndexOf(lines)[ch], CodesFor(lines, ch)) && IndexOf(lines)[ch] != []
    decreases |lines|
  {
    hide Contribution, IsFirstLongest;
    if lines == [] {
    } else {
      var init, line := lines[..|lines| - 1], lines[|lines| - 1];
      IndexIsFirstLongest(init, ch);
      ContributesKeys(line);
      match Contribution(line)
      case None =>
        assert CodesFor(lines, ch) == CodesFor(init, ch);
      case Some((c, code)) =>
        if c == ch { LongestNext(CodeOf(IndexOf(init), ch), CodesFor(init, ch), code); }
        else { assert CodesFor(lines, ch) == CodesFor(init, ch); }
    }
  }

  // ---- What a phrase code is -----------------------------------------------

  /** A phrase has a code if and only if it has two or more characters, all of them known; it
      is then at most four keys long, and exactly four unless a code it takes two keys from
      has only one. */
  lemma EncodeLength(index: Index, cs: seq<bytes>)
    ensures var out := EncodeChars(index, cs);
            && |out| <= 4
            && (out != [] <==> |cs| >= 2 && AllKnown(index, cs))
            && (out != [] ==> (|out| == 4 <==>
                  && (|cs| == 2 ==> |CodeOf(index, cs[0])| >= 2)
                  && (|cs| <= 3 ==> |CodeOf(index, cs[|cs| - 1])| >= 2)))
  {
    if |cs| >= 2 && AllKnown(index, cs) {
      assert CodeOf(index, cs[0]) != [] && CodeOf(index, cs[1]) != [] && CodeOf(index, cs[|cs| - 1]) != [];
    }
  }

  /** From four characters on, the code is the first keys of the first three and of the last. */
  lemma LongPhraseKeys(index: Index, cs: seq<bytes>)
    requires |cs| >= 4 && AllKnown(index, cs)
    ensures EncodeChars(index, cs) ==
            [CodeOf(index, cs[0])[0], CodeOf(index, cs[1])[0], CodeOf(index, cs[2])[0], CodeOf(index, cs[|cs| - 1])[0]]
  {
    assert forall i :: 0 <= i < |cs| ==> Keys(CodeOf(index, cs[i]), 1) == [CodeOf(index, cs[i])[0]];
  }

  /** Two characters give up to two keys each, in order; three give the first key of the first,
      the first key of the second, and up to two of the third. */
  lemma ShortPhraseKeys(index: Index, cs: seq<bytes>)
    requires AllKnown(index, cs) && 2 <= |cs| <= 3
    ensures var out, a, b := EncodeChars(index, cs), CodeOf(index, cs[0]), CodeOf(index, cs[1]);
            && out[0] == a[0]
            && (|cs| == 2 ==>
                  && |out| == Min(2, |a|) + Min(2, |b|)
                  && (|a| >= 2 ==> out[1] == a[1])
                  && out[Min(2, |a|)] == b[0] && (|b| >= 2 ==> out[Min(2, |a|) + 1] == b[1]))
            && (|cs| == 3 ==>
                  var c := CodeOf(index, cs[2]);
                  && |out| == 2 + Min(2, |c|)
                  && out[1] == b[0] && out[2] == c[0] && (|c| >= 2 ==> out[3] == c[1]))
  {
    assert CodeOf(index, cs[0]) != [] && CodeOf(index, cs[1]) != [] && CodeOf(index, cs[|cs| - 1]) != [];
  }

  /** ... so it does not depend on the characters between, nor on the rest of the index. */
  lemma LongPhraseDependsOn(index: Index, cs: seq<bytes>, index': Index, ds: seq<bytes>)
    requires |cs| >= 4 && |ds| >= 4 && AllKnown(index, cs) && AllKnown(index', ds)
    requires forall i :: 0 <= i < 3 ==> CodeOf(index, cs[i]) == CodeOf(index', ds[i])
    requires CodeOf(index, cs[|cs| - 1]) == CodeOf(index', ds[|ds| - 1])
    ensures EncodeChars(index, cs) == EncodeChars(index', ds)
  {
    LongPhraseKeys(index, cs);
    LongPhraseKeys(index', ds);
  }

  /** The codec splits a string of characters into those characters. */
  lemma EncodeOfChars(index: Index, cs: seq<bytes>)
    requires AllChars(cs)
    ensures Encode(index, Flat(cs)) == EncodeChars(index, cs)
  {
    SplitConcat(cs);
    WalksAgree(Flat(cs));
  }
}
