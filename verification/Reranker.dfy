/** The deterministic reranker: scores in exact tenths, the bonus table, and the stable
    descending order it returns (src/daemon/reranker_deterministic.cc). */
module Reranker {
  import opened Bytes
  import opened Utf8

  // ---- The bigram table ----------------------------------------------------

  datatype Pair = Pair(prev: int, favor: int)

  /** Two different characters, by code point, each three bytes long in UTF-8. */
  type CharPair = p: Pair | 0x800 <= p.prev < 0x1_0000 && 0x800 <= p.favor < 0x1_0000 && p.prev != p.favor
    witness Pair(0x4ECA, 0x5929)

  function Then(prev: int, favor: int): (p: CharPair)
    requires 0x800 <= prev < 0x1_0000 && 0x800 <= favor < 0x1_0000 && prev != favor
  {
    Pair(prev, favor)
  }

  const BIGRAMS: seq<CharPair> := [
    Then(0x4ECA, 0x5929), Then(0x4ECA, 0x65E5), Then(0x4ECA, 0x5E74), Then(0x660E, 0x5929),  // 今天 今日 今年 明天
    Then(0x660E, 0x5E74), Then(0x660E, 0x767D), Then(0x6628, 0x5929), Then(0x524D, 0x5929),  // 明年 明白 昨天 前天
    Then(0x540E, 0x5929), Then(0x5929, 0x6C14), Then(0x5929, 0x4E0A), Then(0x5929, 0x7A7A),  // 后天 天气 天上 天空
    Then(0x6211, 0x4EEC), Then(0x6211, 0x7684), Then(0x6211, 0x662F), Then(0x4F60, 0x4EEC),  // 我们 我的 我是 你们
    Then(0x4F60, 0x7684), Then(0x4F60, 0x662F), Then(0x4F60, 0x597D), Then(0x4ED6, 0x4EEC),  // 你的 你是 你好 他们
    Then(0x5979, 0x4EEC), Then(0x5B83, 0x4EEC), Then(0x4E2D, 0x56FD), Then(0x4E2D, 0x6587),  // 她们 它们 中国 中文
    Then(0x4E2D, 0x95F4), Then(0x4E00, 0x4E2A), Then(0x4E00, 0x4E9B), Then(0x4E00, 0x6837),  // 中间 一个 一些 一样
    Then(0x4E00, 0x76F4), Then(0x662F, 0x7684), Then(0x7684, 0x662F), Then(0x7684, 0x8BDD),  // 一直 是的 的是 的话
    Then(0x8FD9, 0x4E2A), Then(0x8FD9, 0x662F), Then(0x8FD9, 0x4E9B), Then(0x8FD9, 0x6837),  // 这个 这是 这些 这样
    Then(0x90A3, 0x4E2A), Then(0x90A3, 0x662F), Then(0x90A3, 0x4E9B), Then(0x90A3, 0x6837),  // 那个 那是 那些 那样
    Then(0x4EC0, 0x4E48), Then(0x600E, 0x4E48), Then(0x4E3A, 0x4EC0), Then(0x5DE5, 0x4F5C),  // 什么 怎么 为什 工作
    Then(0x5B66, 0x4E60), Then(0x65F6, 0x5019), Then(0x95EE, 0x9898), Then(0x5730, 0x65B9),  // 学习 时候 问题 地方
    Then(0x4E1C, 0x897F), Then(0x5F00, 0x59CB), Then(0x7ED3, 0x675F), Then(0x77E5, 0x9053)  // 东西 开始 结束 知道
  ]

  function U3(c: int): (s: bytes)
    requires 0x800 <= c < 0x1_0000
    ensures |s| == 3
  {
    [0xE0 + c / 0x1000, 0x80 + c / 0x40 % 0x40, 0x80 + c % 0x40]
  }

  lemma U3Injective(a: int, b: int)
    requires 0x800 <= a < 0x1_0000 && 0x800 <= b < 0x1_0000
    ensures U3(a) == U3(b) ==> a == b
  {
    if U3(a) == U3(b) {
      assert U3(a)[0] == U3(b)[0] && U3(a)[1] == U3(b)[1] && U3(a)[2] == U3(b)[2];
      hide U3;
      Digits(a);
      Digits(b);
    }
  }

  lemma Digits(a: nat)
    ensures a == a / 0x1000 * 0x1000 + a / 0x40 % 0x40 * 0x40 + a % 0x40
  {
  }

  lemma U3IsChar(c: int)
    requires 0x800 <= c < 0x1_0000
    ensures IsChar(U3(c))
  {
  }

  // ---- Scores --------------------------------------------------------------

  /** One byte of FNV-1a, in 32 bits. */
  function Mix(h: bv32, c: byte): (h': bv32)
  {
    (h ^ (c as bv32)) * 0x01000193
  }

  function Fnv(s: bytes): (h: bv32)
  {
    if s == [] then 0x811C9DC5 else Mix(Fnv(s[..|s| - 1]), s[|s| - 1])
  }

  method FnvHash(s: bytes) returns (h: bv32)
    ensures h == Fnv(s)
  {
    h := 0x811C9DC5;
    var k := 0;
    while k < |s|
      invariant 0 <= k <= |s| && h == Fnv(s[..k])
    {
      hide Mix;
      assert s[..k + 1][..k] == s[..k];
      h := Mix(h, s[k]);
      k := k + 1;
    }
    assert s[..k] == s;
  }

  /** The published test vectors of 32-bit FNV-1a for "", "a" and "b". */
  lemma FnvVectors()
    ensures Fnv([]) == 0x811C9DC5 && Fnv([0x61]) == 0xE40C292C && Fnv([0x62]) == 0xE70C2DE5
  {
    assert [0x61][..0] == [] && [0x62][..0] == [];
    assert Fnv([0x61]) == Mix(0x811C9DC5, 0x61);
    assert Fnv([0x62]) == Mix(0x811C9DC5, 0x62);
  }

  function TieBreak(s: bytes): (n: nat)
    ensures n < 7
  {
    (Fnv(s) as int) % 7
  }

  /** The last character of a context: back over continuation bytes, at most to the start. */
  function LastChar(s: bytes): (c: bytes)
    ensures |c| <= |s| && (s != [] ==> c != [])
  {
    if |s| <= 1 then s
    else if IsContinuation(s[|s| - 1]) then LastChar(s[..|s| - 1]) + [s[|s| - 1]]
    else [s[|s| - 1]]
  }

  method LastUtf8Char(s: bytes) returns (c: bytes)
    ensures c == LastChar(s)
  {
    if s == [] { return []; }
    var i := |s| - 1;
    ghost var tail := s[i..];
    assert s == s[..i + 1] && tail == [s[i]];
    assert LastChar(s) == LastChar(s[..i + 1]) + s[i + 1..];
    while i > 0 && IsContinuation(s[i])
      invariant 0 <= i < |s| && LastChar(s) == LastChar(s[..i + 1]) + s[i + 1..]
      decreases i
    {
      assert s[..i + 1][..i] == s[..i];
      assert LastChar(s[..i + 1]) == LastChar(s[..i]) + [s[i]];
      assert [s[i]] + s[i + 1..] == s[i..];
      Joined(LastChar(s[..i]), [s[i]], s[i + 1..]);
      i := i - 1;
    }
    assert LastChar(s[..i + 1]) == [s[i]];
    assert [s[i]] + s[i + 1..] == s[i..];
    return s[i..];
  }

  predicate StartsWith(s: bytes, prefix: bytes)
  {
    prefix <= s
  }

  /** The candidate starts with the character the context ends with. */
  predicate Repeats(cand: bytes, last: bytes)
  {
    cand != [] && last != [] && StartsWith(cand, CString(last))
  }

  predicate HitAt(cand: bytes, last: bytes, i: nat)
  {
    i < |BIGRAMS| && last == U3(BIGRAMS[i].prev) && StartsWith(cand, U3(BIGRAMS[i].favor))
  }

  /** The table knows the candidate's first character as a follower. */
  predicate Hits(cand: bytes, last: bytes)
  {
    exists i: nat :: i < |BIGRAMS| && HitAt(cand, last, i)
  }

  /** static_cast<int> of a size, in 32 bits. */
  function ToInt(n: nat): (r: i32)
    ensures n < 0x8000_0000 ==> r == n
  {
    (n + 0x8000_0000) % U32_SIZE - 0x8000_0000
  }

  function Clipped(cand: bytes): (n: int)
    ensures n <= 12
    ensures |cand| < 0x8000_0000 ==> n == Min(|cand|, 12)
  {
    Min(ToInt(|cand|), 12)
  }

  /** The score in tenths. */
  function Score(cand: bytes, last: bytes, ctx: bytes): (tenths: int)
  {
    (if Repeats(cand, last) then -50 else 0) + (if Hits(cand, last) then 100 else 0)
      + 5 * Clipped(cand) + TieBreak(cand + ctx)
  }

  method ScoreCandidate(cand: bytes, last: bytes, ctx: bytes) returns (tenths: int)
    ensures tenths == Score(cand, last, ctx)
  {
    hide Fnv, Mix, CString, U3, BIGRAMS;
    tenths := 0;
    if cand != [] && last != [] && StartsWith(cand, CString(last)) { tenths := tenths - 50; }
    if last != [] {
      var i := 0;
      ghost var hit := false;
      while i < |BIGRAMS|
        invariant 0 <= i <= |BIGRAMS| && !hit && forall j: nat :: j < i ==> !HitAt(cand, last, j)
        invariant tenths == if Repeats(cand, last) then -50 else 0
      {
        if last == U3(BIGRAMS[i].prev) && StartsWith(cand, U3(BIGRAMS[i].favor)) {
          assert HitAt(cand, last, i);
          tenths := tenths + 100;
          hit := true;
          break;
        }
        i := i + 1;
      }
      assert hit <==> Hits(cand, last);
    } else {
      NoContextNoHit(cand);
    }
    tenths := tenths + 5 * Min(ToInt(|cand|), 12);
    var h := FnvHash(cand + ctx);
    tenths := tenths + (h as int) % 7;
  }

  lemma NoContextNoHit(cand: bytes)
    ensures !Hits(cand, [])
  {
    forall i: nat
      ensures !HitAt(cand, [], i)
    {
      if i < |BIGRAMS| { assert |U3(BIGRAMS[i].prev)| == 3; }
    }
  }

  /** After the first character of any pair of the table, whatever starts with the second is
      known. */
  lemma FollowersAreKnown(i: nat, tail: bytes)
    requires i < |BIGRAMS|
    ensures Hits(U3(BIGRAMS[i].favor) + tail, U3(BIGRAMS[i].prev))
  {
    hide U3, BIGRAMS;
    assert HitAt(U3(BIGRAMS[i].favor) + tail, U3(BIGRAMS[i].prev), i);
  }

  // ---- Sorting -------------------------------------------------------------

  datatype Scored = Scored(tenths: int, idx: nat)

  /** Place a later item behind all that score at least as much. */
  function Insert(xs: seq<Scored>, x: Scored): (ys: seq<Scored>)
    ensures |ys| == |xs| + 1
    decreases |xs|
  {
    if xs == [] || xs[|xs| - 1].tenths >= x.tenths then xs + [x]
    else Insert(xs[..|xs| - 1], x) + [xs[|xs| - 1]]
  }

  /** std::stable_sort by descending score. */
  function StableSort(xs: seq<Scored>): (ys: seq<Scored>)
    ensures |ys| == |xs|
  {
    if xs == [] then [] else Insert(StableSort(xs[..|xs| - 1]), xs[|xs| - 1])
  }

  /** `x` may stand before `y`: a higher score, or an equal one and an earlier place. */
  predicate Precedes(x: Scored, y: Scored)
  {
    x.tenths > y.tenths || (x.tenths == y.tenths && x.idx < y.idx)
  }

  ghost predicate InOrder(ys: seq<Scored>)
  {
    forall k, l :: 0 <= k < l < |ys| ==> Precedes(ys[k], ys[l])
  }

  lemma InOrderSnoc(xs: seq<Scored>, y: Scored)
    requires InOrder(xs) && forall k :: 0 <= k < |xs| ==> Precedes(xs[k], y)
    ensures InOrder(xs + [y])
  {
    hide Precedes;
  }

  lemma {:induction false} InsertKeeps(xs: seq<Scored>, x: Scored)
    requires InOrder(xs) && forall k :: 0 <= k < |xs| ==> xs[k].idx < x.idx
    ensures InOrder(Insert(xs, x)) && multiset(Insert(xs, x)) == multiset(xs) + multiset{x}
    decreases |xs|
  {
    if xs == [] || xs[|xs| - 1].tenths >= x.tenths {
      InOrderSnoc(xs, x);
    } else {
      var init, last := xs[..|xs| - 1], xs[|xs| - 1];
      assert xs == init + [last];
      assert Insert(xs, x) == Insert(init, x) + [last];
      InsertKeeps(init, x);
      InsertMembers(init, x);
      hide Insert;
      InOrderSnoc(Insert(init, x), last);
    }
  }

  lemma {:induction false} InsertMembers(xs: seq<Scored>, x: Scored)
    ensures forall k :: 0 <= k < |Insert(xs, x)| ==> Insert(xs, x)[k] == x || Insert(xs, x)[k] in xs
    decreases |xs|
  {
    if xs == [] || xs[|xs| - 1].tenths >= x.tenths {
    } else {
      InsertMembers(xs[..|xs| - 1], x);
    }
  }

  /** The items as they are scored: in candidate order. */
  ghost predicate ByIndex(xs: seq<Scored>)
  {
    forall k :: 0 <= k < |xs| ==> xs[k].idx == k
  }

  /** Sorting keeps every item, and each item still says where it came from. */
  lemma SortedItems(xs: seq<Scored>, ys: seq<Scored>)
    requires ByIndex(xs) && multiset(ys) == multiset(xs)
    ensures forall k :: 0 <= k < |ys| ==> ys[k].idx < |xs| && ys[k] == xs[ys[k].idx]
    ensures forall i :: 0 <= i < |xs| ==> xs[i] in ys
  {
    forall k | 0 <= k < |ys|
      ensures ys[k].idx < |xs| && ys[k] == xs[ys[k].idx]
    {
      assert ys[k] in multiset(xs);
      assert ys[k] in xs;
    }
    forall i | 0 <= i < |xs|
      ensures xs[i] in ys
    {
      assert xs[i] in multiset(ys);
    }
  }

  lemma {:induction false} SortKeeps(xs: seq<Scored>)
    requires ByIndex(xs)
    ensures InOrder(StableSort(xs)) && multiset(StableSort(xs)) == multiset(xs)
    decreases |xs|
  {
    if xs == [] {
    } else {
      var init, last := xs[..|xs| - 1], xs[|xs| - 1];
      assert xs == init + [last] && ByIndex(init) && last.idx == |init|;
      hide Insert, StableSort, InOrder, ByIndex;
      SortKeeps(init);
      SortedItems(init, StableSort(init));
      InsertKeeps(StableSort(init), last);
      SortSnoc(init, last);
    }
  }

  lemma SortSnoc(xs: seq<Scored>, x: Scored)
    ensures StableSort(xs + [x]) == Insert(StableSort(xs), x)
  {
    assert (xs + [x])[..|xs|] == xs;
  }

  // ---- Reranking -----------------------------------------------------------

  function ScoredOf(cands: seq<bytes>, ctx: bytes): (xs: seq<Scored>)
    ensures |xs| == |cands|
  {
    seq(|cands|, i requires 0 <= i < |cands| => Scored(Score(cands[i], LastChar(ctx), ctx), i))
  }

  /** The order: every index once, with its own score, higher scores first, and equal scores
      in the order they came. */
  ghost predicate IsRanking(indices: seq<nat>, scores: seq<int>, cands: seq<bytes>, ctx: bytes)
  {
    && |indices| == |scores| == |cands|
    && (forall k :: 0 <= k < |indices| ==>
          indices[k] < |cands| && scores[k] == Score(cands[indices[k]], LastChar(ctx), ctx))
    && (forall i :: 0 <= i < |cands| ==> i in indices)
    && forall k, l :: 0 <= k < l < |indices| ==>
          scores[k] > scores[l] || (scores[k] == scores[l] && indices[k] < indices[l])
  }

  lemma SortedIsRanking(indices: seq<nat>, scores: seq<int>, cands: seq<bytes>, ctx: bytes)
    requires var ys := StableSort(ScoredOf(cands, ctx));
             |indices| == |scores| == |ys|
             && forall k :: 0 <= k < |ys| ==> indices[k] == ys[k].idx && scores[k] == ys[k].tenths
    ensures IsRanking(indices, scores, cands, ctx)
  {
    hide Score, StableSort, LastChar;
    var xs := ScoredOf(cands, ctx);
    var ys := StableSort(xs);
    SortKeeps(xs);
    SortedItems(xs, ys);
    forall i | 0 <= i < |cands|
      ensures i in indices
    {
      assert xs[i] in ys;
      var k :| 0 <= k < |ys| && ys[k] == xs[i];
      assert indices[k] == i;
    }
  }

  /** Rerank, without the ids and the latency. */
  method Rerank(cands: seq<bytes>, ctx: bytes) returns (indices: seq<nat>, scores: seq<int>)
    requires |cands| < 0x8000_0000
    ensures IsRanking(indices, scores, cands, ctx)
  {
    indices, scores := [], [];
    var n := |cands|;
    if n == 0 { return; }
    hide Score, StableSort, LastChar, IsRanking;
    var last := LastUtf8Char(ctx);
    var scored: seq<Scored> := [];
    var i := 0;
    while i < n
      invariant 0 <= i <= n && scored == ScoredOf(cands, ctx)[..i]
    {
      var s := ScoreCandidate(cands[i], last, ctx);
      scored := scored + [Scored(s, i)];
      i := i + 1;
    }
    assert scored == ScoredOf(cands, ctx);
    scored := StableSort(scored);
    i := 0;
    while i < n
      invariant 0 <= i <= n == |scored| && |indices| == |scores| == i
      invariant forall k :: 0 <= k < i ==> indices[k] == scored[k].idx && scores[k] == scored[k].tenths
    {
      indices := indices + [scored[i].idx];
      scores := scores + [scored[i].tenths];
      i := i + 1;
    }
    SortedIsRanking(indices, scores, cands, ctx);
  }

  // ---- What the order promises ---------------------------------------------

  /** No index stands twice. */
  lemma IndicesDistinct(indices: seq<nat>, scores: seq<int>, cands: seq<bytes>, ctx: bytes)
    requires IsRanking(indices, scores, cands, ctx)
    ensures forall k, l :: 0 <= k < l < |indices| ==> indices[k] != indices[l]
  {
    hide Score, LastChar;
  }

  /** The order is determined: any two that meet the description are equal. */
  lemma RankingUnique(i1: seq<nat>, s1: seq<int>, i2: seq<nat>, s2: seq<int>, cands: seq<bytes>, ctx: bytes)
    requires IsRanking(i1, s1, cands, ctx) && IsRanking(i2, s2, cands, ctx)
    ensures i1 == i2 && s1 == s2
  {
    SameUpTo(i1, s1, i2, s2, cands, ctx, |cands|);
    hide Score, LastChar;
  }

  lemma {:induction false} SameUpTo(i1: seq<nat>, s1: seq<int>, i2: seq<nat>, s2: seq<int>,
                                     cands: seq<bytes>, ctx: bytes, n: nat)
    requires IsRanking(i1, s1, cands, ctx) && IsRanking(i2, s2, cands, ctx) && n <= |cands|
    ensures forall k :: 0 <= k < n ==> i1[k] == i2[k]
    decreases n
  {
    hide Score, LastChar;
    if n == 0 {
    } else {
      SameUpTo(i1, s1, i2, s2, cands, ctx, n - 1);
      assert i1[n - 1] in i2 && i2[n - 1] in i1;
      var a :| 0 <= a < |i2| && i2[a] == i1[n - 1];
      var b :| 0 <= b < |i1| && i1[b] == i2[n - 1];
      NotEarlier(i1, s1, i2, s2, cands, ctx, n - 1, a);
      NotEarlier(i2, s2, i1, s1, cands, ctx, n - 1, b);
    }
  }

  lemma NotEarlier(i1: seq<nat>, s1: seq<int>, i2: seq<nat>, s2: seq<int>, cands: seq<bytes>,
                   ctx: bytes, n: nat, a: nat)
    requires IsRanking(i1, s1, cands, ctx) && IsRanking(i2, s2, cands, ctx) && n < |cands|
    requires forall k :: 0 <= k < n ==> i1[k] == i2[k]
    requires a < |i2| && i2[a] == i1[n]
    ensures a >= n
  {
    hide Score, LastChar;
    IndicesDistinct(i1, s1, cands, ctx);
  }

  /** The table's characters hold no NUL, and no entry follows itself. */
  lemma HitsDoNotRepeat(cand: bytes, last: bytes)
    requires Hits(cand, last)
    ensures !Repeats(cand, last) && |cand| >= 3
  {
    var i: nat :| i < |BIGRAMS| && HitAt(cand, last, i);
    var p, f := BIGRAMS[i].prev, BIGRAMS[i].favor;
    U3Injective(p, f);
    U3Whole(p);
    hide BIGRAMS, U3, CString;
    assert U3(f) == cand[..3];
  }

  lemma U3Whole(c: int)
    requires 0x800 <= c < 0x1_0000
    ensures CString(U3(c)) == U3(c)
  {
    var s := U3(c);
    var t := s[1..];
    var u := t[1..];
    assert u[1..] == [] && CString(u[1..]) == [];
    assert CString(u) == [u[0]] + [];
    assert CString(t) == [t[0]] + CString(u);
    assert CString(s) == [s[0]] + CString(t);
  }

  /** Byte prefix and first character are the same test for the table's characters. */
  lemma FavorIsFirstChar(cand: bytes, c: int)
    requires 0x800 <= c < 0x1_0000
    ensures StartsWith(cand, U3(c)) <==> Chars(cand) != [] && Chars(cand)[0] == U3(c)
  {
    U3IsChar(c);
    var u := U3(c);
    hide U3, CharLen;
    if StartsWith(cand, u) {
      assert cand == u + cand[|u|..];
      CharsHead(u, cand[|u|..]);
    }
    if CharLen(cand) > 0 { CharsTail(cand); }
  }

  /** A hit scores at least 11.5 and a miss at most 6.6. */
  lemma ScoreBounds(cand: bytes, ctx: bytes)
    requires |cand| < 0x8000_0000
    ensures Hits(cand, LastChar(ctx)) ==> Score(cand, LastChar(ctx), ctx) >= 115
    ensures Hits(cand, LastChar(ctx)) ==> Score(cand, LastChar(ctx), ctx) <= 166
    ensures !Hits(cand, LastChar(ctx)) ==> -50 <= Score(cand, LastChar(ctx), ctx) <= 66
  {
    if Hits(cand, LastChar(ctx)) { HitsDoNotRepeat(cand, LastChar(ctx)); }
    hide Hits, Repeats, LastChar, TieBreak;
  }

  /** Every candidate the table knows comes before every one it does not. */
  lemma HitsFirst(indices: seq<nat>, scores: seq<int>, cands: seq<bytes>, ctx: bytes, k: nat, l: nat)
    requires IsRanking(indices, scores, cands, ctx) && forall i :: 0 <= i < |cands| ==> |cands[i]| < 0x8000_0000
    requires k < l < |indices| && Hits(cands[indices[l]], LastChar(ctx))
    ensures Hits(cands[indices[k]], LastChar(ctx))
  {
    ScoreBounds(cands[indices[k]], ctx);
    ScoreBounds(cands[indices[l]], ctx);
    hide Hits, Score, LastChar;
  }

  /** Among the others, a repeating candidate precedes a fresh one only by at least nine
      bytes of clipped length. */
  lemma RepeatsComeLate(indices: seq<nat>, scores: seq<int>, cands: seq<bytes>, ctx: bytes, k: nat, l: nat)
    requires IsRanking(indices, scores, cands, ctx) && k < l < |indices|
    requires !Hits(cands[indices[k]], LastChar(ctx)) && !Hits(cands[indices[l]], LastChar(ctx))
    requires Repeats(cands[indices[k]], LastChar(ctx)) && !Repeats(cands[indices[l]], LastChar(ctx))
    ensures Clipped(cands[indices[k]]) >= Clipped(cands[indices[l]]) + 9
  {
    hide Hits, Repeats, LastChar, TieBreak, Clipped;
    assert scores[k] >= scores[l];
  }

  /** Two candidates that are alike in repeating and in being known. */
  predicate Alike(c: bytes, d: bytes, last: bytes)
  {
    (Repeats(c, last) <==> Repeats(d, last)) && (Hits(c, last) <==> Hits(d, last))
  }

  /** Of two that are alike, the one with two more bytes of clipped length comes first. */
  lemma LongerFirst(indices: seq<nat>, scores: seq<int>, cands: seq<bytes>, ctx: bytes, k: nat, l: nat)
    requires IsRanking(indices, scores, cands, ctx) && k < |indices| && l < |indices|
    requires Alike(cands[indices[k]], cands[indices[l]], LastChar(ctx))
    requires Min(|cands[indices[k]]|, 12) >= Min(|cands[indices[l]]|, 12) + 2
    requires |cands[indices[k]]| < 0x8000_0000 && |cands[indices[l]]| < 0x8000_0000
    ensures k < l
  {
    hide Hits, Repeats, LastChar, TieBreak, Clipped;
    ClippedIs(cands[indices[k]]);
    ClippedIs(cands[indices[l]]);
    assert scores[k] > scores[l];
  }

  lemma ClippedIs(cand: bytes)
    requires |cand| < 0x8000_0000
    ensures Clipped(cand) == Min(|cand|, 12)
  {
  }

  /** Of two that are alike and equally long, the one whose hash with the context is greater
      modulo 7 comes first, and on a tie the one that came first stays first. */
  lemma TiesByHash(indices: seq<nat>, scores: seq<int>, cands: seq<bytes>, ctx: bytes, k: nat, l: nat)
    requires IsRanking(indices, scores, cands, ctx) && k < |indices| && l < |indices|
    requires Alike(cands[indices[k]], cands[indices[l]], LastChar(ctx))
    requires Clipped(cands[indices[k]]) == Clipped(cands[indices[l]])
    ensures var x, y := (Fnv(cands[indices[k]] + ctx) as int) % 7, (Fnv(cands[indices[l]] + ctx) as int) % 7;
            (x > y ==> k < l) && (x == y && indices[k] < indices[l] ==> k < l)
  {
    hide Hits, Repeats, LastChar, Fnv, Clipped;
    assert scores[k] - scores[l] == TieBreak(cands[indices[k]] + ctx) - TieBreak(cands[indices[l]] + ctx);
  }

  /** The penalty for repeating is outweighed by twelve bytes of clipped length. */
  lemma MuchLongerRepeats(indices: seq<nat>, scores: seq<int>, cands: seq<bytes>, ctx: bytes, k: nat, l: nat)
    requires IsRanking(indices, scores, cands, ctx) && k < |indices| && l < |indices|
    requires !Hits(cands[indices[k]], LastChar(ctx)) && !Hits(cands[indices[l]], LastChar(ctx))
    requires Repeats(cands[indices[k]], LastChar(ctx)) && !Repeats(cands[indices[l]], LastChar(ctx))
    requires Clipped(cands[indices[k]]) >= Clipped(cands[indices[l]]) + 12
    ensures k < l
  {
    hide Hits, Repeats, LastChar, TieBreak, Clipped;
    assert scores[k] > scores[l];
  }

  lemma {:induction false} NoNul(s: bytes)
    requires 0 !in s
    ensures CString(s) == s
  {
    if s == [] {
    } else {
      assert s[0] in s && s == [s[0]] + s[1..];
      NoNul(s[1..]);
    }
  }

  /** For a character other than NUL, a candidate repeats it if and only if it is the
      candidate's first character. */
  lemma RepeatsIsFirstChar(cand: bytes, last: bytes)
    requires IsChar(last) && 0 !in last
    ensures Repeats(cand, last) <==> Chars(cand) != [] && Chars(cand)[0] == last
  {
    NoNul(last);
    hide CharLen, CString;
    if StartsWith(cand, last) {
      assert cand == last + cand[|last|..];
      CharsHead(last, cand[|last|..]);
    }
    if CharLen(cand) > 0 { CharsTail(cand); }
  }

  // ---- The last character --------------------------------------------------

  lemma LastCharSnoc(s: bytes, x: byte)
    ensures s != [] && IsContinuation(x) ==> LastChar(s + [x]) == LastChar(s) + [x]
    ensures !IsContinuation(x) ==> LastChar(s + [x]) == [x]
  {
    assert (s + [x])[..|s|] == s;
  }

  lemma Unsnoc(pre: bytes, c: bytes)
    requires c != []
    ensures pre + c == pre + c[..|c| - 1] + [c[|c| - 1]] && c == c[..|c| - 1] + [c[|c| - 1]]
  {
  }

  lemma {:induction false} BackToLead(pre: bytes, c: bytes)
    requires c != [] && !IsContinuation(c[0]) && forall i :: 1 <= i < |c| ==> IsContinuation(c[i])
    ensures LastChar(pre + c) == c
    decreases |c|
  {
    hide LastChar, IsContinuation;
    Unsnoc(pre, c);
    LastCharSnoc(pre + c[..|c| - 1], c[|c| - 1]);
    if |c| <= 1 {
    } else {
      BackToLead(pre, c[..|c| - 1]);
    }
  }

  /** On well-formed text walking back finds the last character of the forward walk. */
  lemma LastCharIsLast(s: bytes)
    requires WellFormed(s) && s != []
    ensures Chars(s) != [] && LastChar(s) == Chars(s)[|Chars(s)| - 1]
  {
    CharsCover(s);
    var cs := Chars(s);
    assert Flat(cs) + [] == Flat(cs);
    var c := cs[|cs| - 1];
    assert cs == cs[..|cs| - 1] + [c];
    FlatSnoc(cs[..|cs| - 1], c);
    CharShape(c);
    hide Chars, Rest;
    BackToLead(Flat(cs[..|cs| - 1]), c);
  }

  lemma CharShape(c: bytes)
    requires IsChar(c)
    ensures !IsContinuation(c[0]) && forall i :: 1 <= i < |c| ==> IsContinuation(c[i])
  {
  }
}
