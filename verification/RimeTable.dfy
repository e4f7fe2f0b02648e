/** The data lines of the RIME dictionary, byte by byte, and what reading them by lines and
    tabs gives back (src/daemon/user_dict.cc). */
module RimeTable {
  import opened Bytes
  import Utf8
  import opened NewWord
  import opened LearningRound
  import W = WubiCodec

  const NEWLINE: byte := 0x0A

  // ---- Decimal numbers -----------------------------------------------------

  function Decimal(n: nat): (s: bytes)
    ensures s != []
  {
    if n < 10 then [0x30 + n] else Decimal(n / 10) + [0x30 + n % 10]
  }

  function Digit(c: byte): (d: Option<nat>)
  {
    if 0x30 <= c <= 0x39 then Some(c - 0x30) else None
  }

  function ReadDecimal(s: bytes): (n: Option<nat>)
  {
    if s == [] then None
    else if |s| == 1 then Digit(s[0])
    else
      match (ReadDecimal(s[..|s| - 1]), Digit(s[|s| - 1]))
      case (Some(m), Some(d)) => Some(10 * m + d)
      case _ => None
  }

  lemma {:induction false} DecimalRoundTrip(n: nat)
    ensures ReadDecimal(Decimal(n)) == Some(n)
  {
    if n < 10 {
      assert Decimal(n) == [0x30 + n];
    } else {
      DecimalRoundTrip(n / 10);
      assert Decimal(n)[..|Decimal(n)| - 1] == Decimal(n / 10);
    }
  }

  /** Free of the two separators. */
  predicate Plain(s: bytes)
  {
    W.TAB !in s && NEWLINE !in s
  }

  lemma {:induction false} DecimalPlain(n: nat)
    ensures Plain(Decimal(n))
  {
    if n < 10 {
      assert Decimal(n) == [0x30 + n];
    } else {
      DecimalPlain(n / 10);
    }
  }

  // ---- Writing -------------------------------------------------------------

  function Line(r: Row): (s: bytes)
  {
    r.text + [W.TAB] + (r.code + [W.TAB] + Decimal(r.weight))
  }

  /** The columns of a line: the text up to the first tab, the code up to the second, the weight
      in decimal digits. */
  lemma LineColumns(r: Row)
    requires Plain(r.text) && Plain(r.code)
    ensures var s, a, b := Line(r), |r.text|, |r.code|;
            && |s| == a + b + 2 + |Decimal(r.weight)|
            && s[..a] == r.text && s[a] == 0x09 && s[a + 1..a + 1 + b] == r.code && s[a + 1 + b] == 0x09
            && s[a + b + 2..] == Decimal(r.weight)
            && (forall i :: 0 <= i < |s| && s[i] == 0x09 ==> i == a || i == a + 1 + b)
  {
    DecimalPlain(r.weight);
    hide Decimal;
    var s, a, b := Line(r), |r.text|, |r.code|;
    assert s[a + 1..a + 1 + b] == r.code && s[a + b + 2..] == Decimal(r.weight);
    forall i | 0 <= i < |s|
      ensures s[i] == 0x09 ==> i == a || i == a + 1 + b
    {
      assert i < a ==> s[i] in r.text;
      assert a < i < a + 1 + b ==> s[i] in r.code;
      assert i > a + 1 + b ==> s[i] in Decimal(r.weight);
    }
  }

  /** 4294967295, digit by digit. */
  lemma DecimalOfLargest()
    ensures Decimal(4294967295) == [0x34, 0x32, 0x39, 0x34, 0x39, 0x36, 0x37, 0x32, 0x39, 0x35]
  {
    assert Decimal(42) == [0x34, 0x32];
    assert Decimal(42949) == Decimal(42) + [0x39, 0x34, 0x39];
    assert Decimal(42949672) == Decimal(42949) + [0x36, 0x37, 0x32];
  }

  function TableText(rows: seq<Row>): (s: bytes)
    decreases rows
  {
    if rows == [] then [] else Line(rows[0]) + [NEWLINE] + TableText(rows[1..])
  }

  lemma {:induction false} TableSnoc(rows: seq<Row>, r: Row)
    ensures TableText(rows + [r]) == TableText(rows) + (Line(r) + [NEWLINE])
    decreases rows
  {
    hide Line;
    if rows == [] {
      assert [] + [r] == [r] && Line(r) + [NEWLINE] + TableText([]) == Line(r) + [NEWLINE];
    } else {
      TableSnoc(rows[1..], r);
      assert (rows + [r])[1..] == rows[1..] + [r];
      Joined(Line(rows[0]) + [NEWLINE], TableText(rows[1..]), Line(r) + [NEWLINE]);
    }
  }

  /** The loop over the words: one line for each that has a code. */
  method WriteTable(words: seq<Word>) returns (table: bytes)
    ensures table == TableText(RowsOf(words))
  {
    hide TableText, Line;
    table := [];
    NothingWritten();
    var k := 0;
    while k < |words|
      invariant 0 <= k <= |words| && table == TableText(RowsOf(words[..k]))
    {
      assert words[..k + 1][..k] == words[..k];
      var w := words[k];
      if w.code != [] {
        TableSnoc(RowsOf(words[..k]), RowOf(w));
        table := table + (Line(RowOf(w)) + [NEWLINE]);
      } else {
        assert RowsOf(words[..k + 1]) == RowsOf(words[..k]);
      }
      k := k + 1;
    }
    assert words[..k] == words;
  }

  lemma NothingWritten()
    ensures TableText([]) == []
  {
  }

  // ---- Reading -------------------------------------------------------------

  /** A line of three columns, the last a 32-bit weight. */
  function ReadRow(line: bytes): (r: Option<Row>)
  {
    var t1 := W.Before(line, W.TAB);
    if t1 == |line| then None else
    var rest := line[t1 + 1..];
    var t2 := W.Before(rest, W.TAB);
    if t2 == |rest| then None else
    match ReadDecimal(rest[t2 + 1..])
    case None => None
    case Some(n) => if n < U32_SIZE then Some(Row(line[..t1], rest[..t2], n)) else None
  }

  function ReadTable(s: bytes): (rows: Option<seq<Row>>)
    decreases |s|
  {
    if s == [] then Some([]) else
    var n := W.Before(s, NEWLINE);
    if n == |s| then None else
    match (ReadRow(s[..n]), ReadTable(s[n + 1..]))
    case (Some(r), Some(rows)) => Some([r] + rows)
    case _ => None
  }

  lemma NotBefore(s: bytes, c: byte)
    ensures c !in s[..W.Before(s, c)]
  {
    var n := W.Before(s, c);
    assert forall i :: 0 <= i < n ==> s[..n][i] == s[i] != c;
  }

  /** Whatever is read has plain columns. */
  lemma ReadRowPlain(line: bytes)
    requires NEWLINE !in line && ReadRow(line).Some?
    ensures Plain(ReadRow(line).value.text) && Plain(ReadRow(line).value.code)
  {
    hide ReadDecimal;
    var t1 := W.Before(line, W.TAB);
    var rest := line[t1 + 1..];
    NotBefore(line, W.TAB);
    NotBefore(rest, W.TAB);
    hide W.Before;
  }

  predicate AllPlain(rows: seq<Row>)
  {
    forall i :: 0 <= i < |rows| ==> Plain(rows[i].text) && Plain(rows[i].code)
  }

  lemma {:induction false} ReadTablePlain(s: bytes)
    requires ReadTable(s).Some?
    ensures AllPlain(ReadTable(s).value)
    decreases |s|
  {
    hide ReadRow, Plain;
    if s == [] {
    } else {
      var n := W.Before(s, NEWLINE);
      NotBefore(s, NEWLINE);
      ReadRowPlain(s[..n]);
      ReadTablePlain(s[n + 1..]);
    }
  }

  lemma LinePlain(r: Row)
    requires Plain(r.text) && Plain(r.code)
    ensures NEWLINE !in Line(r)
  {
    DecimalPlain(r.weight);
    hide Decimal;
  }

  lemma RowRoundTrip(r: Row)
    requires Plain(r.text) && Plain(r.code)
    ensures ReadRow(Line(r)) == Some(r)
  {
    var rest := r.code + [W.TAB] + Decimal(r.weight);
    W.BeforeAt(r.text, W.TAB, rest);
    W.BeforeAt(r.code, W.TAB, Decimal(r.weight));
    DecimalRoundTrip(r.weight);
    hide W.Before, Decimal, ReadDecimal;
    assert Line(r)[|r.text| + 1..] == rest && Line(r)[..|r.text|] == r.text;
    assert rest[|r.code| + 1..] == Decimal(r.weight) && rest[..|r.code|] == r.code;
  }

  lemma {:induction false} TableRoundTrip(rows: seq<Row>)
    requires AllPlain(rows)
    ensures ReadTable(TableText(rows)) == Some(rows)
    decreases rows
  {
    if rows == [] {
      assert TableText(rows) == [];
    } else {
      var line, rest := Line(rows[0]), TableText(rows[1..]);
      LinePlain(rows[0]);
      RowRoundTrip(rows[0]);
      TableRoundTrip(rows[1..]);
      W.BeforeAt(line, NEWLINE, rest);
      hide Line, ReadRow, W.Before, Plain;
      var s := line + [NEWLINE] + rest;
      assert s[..|line|] == line && s[|line| + 1..] == rest && TableText(rows) == s;
      assert [rows[0]] + rows[1..] == rows;
    }
  }

  /** The lines read back as the rows if and only if no text and no code holds a tab or a
      line break. */
  lemma TableReadsBackExactlyWhen(rows: seq<Row>)
    ensures ReadTable(TableText(rows)) == Some(rows) <==> AllPlain(rows)
  {
    if AllPlain(rows) { TableRoundTrip(rows); }
    hide TableText, ReadTable, AllPlain;
    if ReadTable(TableText(rows)) == Some(rows) { ReadTablePlain(TableText(rows)); }
  }

  // ---- The table a round writes --------------------------------------------

  lemma RealIsPlain(t: bytes)
    requires LooksReal(t)
    ensures Plain(t)
  {
    hide Pieces;
    assert IsSpace(W.TAB) && IsSpace(NEWLINE);
  }

  ghost predicate PlainCodes(index: W.Index)
  {
    forall ch :: ch in index ==> Plain(index[ch])
  }

  lemma ContributionPlain(line: bytes)
    requires NEWLINE !in line
    ensures W.Contribution(line).Some? ==> Plain(W.Contribution(line).value.1)
  {
    var t1 := W.Before(line, W.TAB);
    if t1 < |line| { NotBefore(line[t1 + 1..], W.TAB); }
  }

  /** Lines as std::getline gives them: without line breaks. */
  predicate AreLines(lines: seq<bytes>)
  {
    forall i :: 0 <= i < |lines| ==> NEWLINE !in lines[i]
  }

  lemma {:induction false} DictionaryCodesPlain(lines: seq<bytes>)
    requires AreLines(lines)
    ensures PlainCodes(W.IndexOf(lines))
    decreases |lines|
  {
    hide W.Contribution, Plain;
    if lines == [] {
    } else {
      DictionaryCodesPlain(lines[..|lines| - 1]);
      ContributionPlain(lines[|lines| - 1]);
    }
  }

  lemma CodeOfPlain(index: W.Index, ch: bytes, n: nat)
    requires PlainCodes(index)
    ensures Plain(W.Keys(W.CodeOf(index, ch), n))
  {
  }

  lemma CanonicalPlain(index: W.Index, phrase: bytes)
    requires PlainCodes(index)
    ensures Plain(W.Encode(index, phrase))
  {
    var cs := Utf8.LooseChars(phrase);
    forall ch, n: nat
      ensures Plain(W.Keys(W.CodeOf(index, ch), n))
    {
      CodeOfPlain(index, ch, n);
    }
    hide W.Keys, W.CodeOf, Utf8.LooseChars, PlainCodes;
  }

  /** The table of a round reads back as its rows if and only if no typed code that stands in
      for a canonical one holds a tab or a line break: the texts and the canonical codes never
      do. */
  lemma RoundTableReadsBackExactlyWhen(words: seq<Word>, scanned: seq<Window>, cfg: Config, lines: seq<bytes>)
    requires IsDiscovery(words, scanned, cfg) && AreLines(lines)
    ensures var index := W.IndexOf(lines);
            var rows := RowsOf(Recoded(words, index));
            ReadTable(TableText(rows)) == Some(rows) <==>
            forall k :: 0 <= k < |rows| && W.Encode(index, rows[k].text) == [] ==> Plain(rows[k].code)
  {
    var index := W.IndexOf(lines);
    var rows := RowsOf(Recoded(words, index));
    TableReadsBackExactlyWhen(rows);
    RowsFromHistory(words, scanned, cfg, index);
    DictionaryCodesPlain(lines);
    hide ReadTable, TableText, IsDiscovery, RowsOf, Recoded, W.IndexOf, W.Encode, Plain, Spelling, HasTypedCode,
      IsLongestCode, LexLess, LooksReal;
    forall k | 0 <= k < |rows|
      ensures Plain(rows[k].text)
      ensures W.Encode(index, rows[k].text) != [] ==> Plain(rows[k].code)
    {
      assert RowIsRight(rows[k], scanned, index);
      assert InRows(rows, rows[k].text);
      RealIsPlain(rows[k].text);
      CanonicalPlain(index, rows[k].text);
    }
  }
}
