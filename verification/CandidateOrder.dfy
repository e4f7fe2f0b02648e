/** The order in which the filter yields candidates: protected prefix, reranked block with
    repair of dropped indices, tail (src/plugin/dafeng_rerank.lua). */
module CandidateOrder {
  import opened Bytes
  import R = Reranker

  datatype Options = Options(enabled: bool, protectTopN: Option<int>, maxRerank: Option<int>)

  /** What the guarded client call gives: an error, nil, or a result that may lack indices. */
  datatype Reply = Raised | Nil | Result(indices: Option<seq<int>>)

  type Client = seq<bytes> -> Reply

  /** a, a + 1, ..., b. */
  function Range(a: int, b: int): (s: seq<int>)
    ensures |s| == if b >= a then b - a + 1 else 0
  {
    if b < a then [] else seq(b - a + 1, i requires 0 <= i < b - a + 1 => a + i)
  }

  function Protected(opts: Options, n: nat): (p: nat)
    ensures p <= n
  {
    Max(0, Min(if opts.protectTopN.Some? then opts.protectTopN.value else 0, n))
  }

  predicate Bypassed(opts: Options, client: Option<Client>)
  {
    !opts.enabled || client.None? || opts.maxRerank.None? || opts.maxRerank.value < 1
  }

  function BlockEnd(opts: Options, n: nat): (e: nat)
    requires opts.maxRerank.Some? && opts.maxRerank.value >= 1
    ensures Protected(opts, n) <= e <= n
    ensures e - Protected(opts, n) <= opts.maxRerank.value
  {
    Min(Protected(opts, n) + opts.maxRerank.value, n)
  }

  /** The texts sent to the daemon; a missing one is sent empty. */
  function Block(texts: seq<bytes>, p: nat, e: nat): (sub: seq<bytes>)
    requires p <= e
    ensures |sub| == e - p
  {
    seq(e - p, i requires 0 <= i < e - p => if p + i < |texts| then texts[p + i] else [])
  }

  /** The daemon's in-range indices, moved behind the prefix, duplicates and all. */
  function Accepted(indices: seq<int>, p: nat, e: nat): (s: seq<int>)
  {
    if indices == [] then []
    else
      var actual := indices[|indices| - 1] + p;
      Accepted(indices[..|indices| - 1], p, e) + if p < actual <= e then [actual] else []
  }

  /** The block's indices up to `i` that were not emitted, in order. */
  function Missing(emitted: seq<int>, p: nat, i: int): (s: seq<int>)
    decreases if i > p then i - p else 0
  {
    if i <= p then [] else Missing(emitted, p, i - 1) + if i in emitted then [] else [i]
  }

  function Middle(reply: Reply, p: nat, e: nat): (s: seq<int>)
  {
    if reply.Result? && reply.indices.Some? && reply.indices.value != []
    then Accepted(reply.indices.value, p, e) + Missing(Accepted(reply.indices.value, p, e), p, e)
    else Range(p + 1, e)
  }

  /** The reply the order is made from; the daemon is not asked about an empty block. */
  function Order(n: nat, texts: seq<bytes>, opts: Options, client: Option<Client>): (out: seq<int>)
  {
    if n == 0 then []
    else if Bypassed(opts, client) then Range(1, n)
    else
      var p, e := Protected(opts, n), BlockEnd(opts, n);
      Range(1, p) + (if e > p then Middle(client.value(Block(texts, p, e)), p, e) else []) + Range(e + 1, n)
  }

  lemma RangeSnoc(a: int, b: int)
    requires b >= a
    ensures Range(a, b) == Range(a, b - 1) + [b]
  {
  }

  /** Append a, ..., b. */
  method AppendRange(out: seq<int>, a: int, b: int) returns (out': seq<int>)
    ensures out' == out + Range(a, b)
  {
    out' := out;
    var i := a;
    assert out + Range(a, a - 1) == out;
    while i <= b
      invariant a <= i <= Max(a, b + 1) && out' == out + Range(a, i - 1)
    {
      RangeSnoc(a, i);
      assert out + (Range(a, i - 1) + [i]) == out + Range(a, i - 1) + [i];
      out' := out' + [i];
      i := i + 1;
    }
  }

  /** The reranked block from a list of indices that is not empty. */
  method EmitReranked(out: seq<int>, indices: seq<int>, p: nat, e: nat) returns (out': seq<int>)
    requires p <= e
    ensures var acc := Accepted(indices, p, e); out' == out + (acc + Missing(acc, p, e))
  {
    out' := out;
    var emitted: set<int> := {};
    var k := 0;
    ghost var acc: seq<int> := [];
    assert out + [] == out;
    while k < |indices|
      invariant 0 <= k <= |indices| && acc == Accepted(indices[..k], p, e) && out' == out + acc
      invariant forall v :: v in emitted <==> v in acc
    {
      var actual := indices[k] + p;
      assert indices[..k + 1][..k] == indices[..k];
      if p + 1 <= actual && actual <= e {
        assert out + (acc + [actual]) == out + acc + [actual];
        out' := out' + [actual];
        emitted := emitted + {actual};
        acc := acc + [actual];
      }
      k := k + 1;
    }
    assert indices[..k] == indices;
    var i := p + 1;
    assert acc + [] == acc;
    while i <= e
      invariant p + 1 <= i <= e + 1 && out' == out + (acc + Missing(acc, p, i - 1))
    {
      if i !in emitted {
        assert out + (acc + (Missing(acc, p, i - 1) + [i])) == out + (acc + Missing(acc, p, i - 1)) + [i];
        out' := out' + [i];
      } else {
        assert Missing(acc, p, i - 1) + [] == Missing(acc, p, i - 1);
      }
      i := i + 1;
    }
  }

  /** Step 2: ask for the block and emit it, in the original order if there is no answer. */
  method EmitBlock(out: seq<int>, texts: seq<bytes>, client: Client, p: nat, e: nat) returns (out': seq<int>)
    requires p <= e
    ensures out' == out + Middle(client(Block(texts, p, e)), p, e)
  {
    hide Accepted, Missing;
    var sub: seq<bytes> := [];
    var i := p;
    while i < e
      invariant p <= i <= e && sub == Block(texts, p, e)[..i - p]
    {
      sub := sub + [if i < |texts| then texts[i] else []];
      i := i + 1;
    }
    assert sub == Block(texts, p, e);
    var reply := client(sub);
    if reply.Result? && reply.indices.Some? && |reply.indices.value| > 0 {
      out' := EmitReranked(out, reply.indices.value, p, e);
    } else {
      out' := AppendRange(out, p + 1, e);
    }
  }

  method ComputeOrder(n: nat, texts: seq<bytes>, opts: Options, client: Option<Client>) returns (out: seq<int>)
    ensures out == Order(n, texts, opts, client)
  {
    hide Middle, Range, Block;
    out := [];
    if n == 0 { return; }
    if !opts.enabled || client.None? || opts.maxRerank.None? || opts.maxRerank.value < 1 {
      out := AppendRange([], 1, n);
      assert [] + Range(1, n) == Range(1, n);
      return;
    }
    var protectN: nat := Max(0, Min(if opts.protectTopN.Some? then opts.protectTopN.value else 0, n));
    var rerankEnd: nat := Min(protectN + opts.maxRerank.value, n);
    out := AppendRange([], 1, protectN);
    assert [] + Range(1, protectN) == Range(1, protectN);
    if rerankEnd >= protectN + 1 {
      out := EmitBlock(out, texts, client.value, protectN, rerankEnd);
    } else {
      assert out + [] == out;
    }
    out := AppendRange(out, rerankEnd + 1, n);
  }

  // ---- No candidate is lost ------------------------------------------------

  lemma {:induction false} MissingHas(emitted: seq<int>, p: nat, i: int, v: int)
    requires p < v <= i && v !in emitted
    ensures v in Missing(emitted, p, i)
    decreases i - p
  {
    if v >= i {
    } else {
      MissingHas(emitted, p, i - 1, v);
    }
  }

  lemma RangeHas(a: int, b: int, v: int)
    requires a <= v <= b
    ensures v in Range(a, b)
  {
    assert Range(a, b)[v - a] == v;
  }

  lemma MiddleCovers(reply: Reply, p: nat, e: nat, v: int)
    requires p < v <= e
    ensures v in Middle(reply, p, e)
  {
    RangeHas(p + 1, e, v);
    if reply.Result? && reply.indices.Some? && v !in Accepted(reply.indices.value, p, e) {
      MissingHas(Accepted(reply.indices.value, p, e), p, e, v);
    }
  }

  /** Every value lies in p + 1, ..., e. */
  predicate Within(s: seq<int>, p: int, e: int)
  {
    forall v :: v in s ==> p < v <= e
  }

  predicate Avoids(s: seq<int>, emitted: seq<int>)
  {
    forall v :: v in s ==> v !in emitted
  }

  lemma {:induction false} AcceptedWithin(indices: seq<int>, p: nat, e: nat)
    ensures Within(Accepted(indices, p, e), p, e)
    decreases |indices|
  {
    if indices == [] {
    } else {
      AcceptedWithin(indices[..|indices| - 1], p, e);
    }
  }

  lemma {:induction false} MissingWithin(emitted: seq<int>, p: nat, i: int)
    ensures Within(Missing(emitted, p, i), p, i) && Avoids(Missing(emitted, p, i), emitted)
    decreases if i > p then i - p else 0
  {
    if i <= p {
    } else {
      MissingWithin(emitted, p, i - 1);
    }
  }

  lemma RangeWithin(a: int, b: int)
    ensures Within(Range(a, b), a - 1, b)
  {
  }

  lemma WithinConcat(s: seq<int>, t: seq<int>, p: int, e: int)
    requires Within(s, p, e) && Within(t, p, e)
    ensures Within(s + t, p, e)
  {
  }

  lemma MiddleWithin(reply: Reply, p: nat, e: nat)
    ensures Within(Middle(reply, p, e), p, e)
  {
    hide Within, Accepted, Missing, Range;
    RangeWithin(p + 1, e);
    if reply.Result? && reply.indices.Some? {
      var acc := Accepted(reply.indices.value, p, e);
      AcceptedWithin(reply.indices.value, p, e);
      MissingWithin(acc, p, e);
      WithinConcat(acc, Missing(acc, p, e), p, e);
    }
  }

  /** Whatever the client answers, every candidate is yielded, and nothing else is. */
  lemma NothingLost(n: nat, texts: seq<bytes>, opts: Options, client: Option<Client>, v: int)
    ensures v in Order(n, texts, opts, client) <==> 1 <= v <= n
  {
    hide Middle;
    if 1 <= v <= n {
      if Bypassed(opts, client) {
        RangeHas(1, n, v);
      } else {
        var p, e := Protected(opts, n), BlockEnd(opts, n);
        if v <= p { RangeHas(1, p, v); }
        else if v <= e { MiddleCovers(client.value(Block(texts, p, e)), p, e, v); }
        else { RangeHas(e + 1, n, v); }
      }
    } else if !Bypassed(opts, client) && n > 0 {
      var p, e := Protected(opts, n), BlockEnd(opts, n);
      RangeWithin(1, p);
      RangeWithin(e + 1, n);
      if e > p { MiddleWithin(client.value(Block(texts, p, e)), p, e); }
    }
    RangeWithin(1, n);
  }

  /** The protected prefix and the tail stand where they stood. */
  lemma PrefixAndTailStay(n: nat, texts: seq<bytes>, opts: Options, client: Option<Client>)
    requires n > 0 && !Bypassed(opts, client)
    ensures var out := Order(n, texts, opts, client);
            var p, e := Protected(opts, n), BlockEnd(opts, n);
            && |out| >= n
            && out[..p] == Range(1, p)
            && out[|out| - (n - e)..] == Range(e + 1, n)
  {
    var p, e := Protected(opts, n), BlockEnd(opts, n);
    var reply := client.value(Block(texts, p, e));
    MiddleLong(reply, p, e);
  }

  // ---- The order in the options' own numbers -------------------------------

  /** The filter is on, there is a client, and it may rerank at least one candidate. */
  predicate Reranks(opts: Options, client: Option<Client>)
  {
    opts.enabled && client.Some? && opts.maxRerank.Some? && opts.maxRerank.value >= 1
  }

  /** The reply names at least one index. */
  predicate Usable(reply: Reply)
  {
    reply.Result? && reply.indices.Some? && reply.indices.value != []
  }

  /** When nothing is reranked the order is 1, ..., n. */
  lemma PlainOrder(n: nat, texts: seq<bytes>, opts: Options, client: Option<Client>)
    requires !Reranks(opts, client)
    ensures var out := Order(n, texts, opts, client);
            |out| == n && forall k :: 0 <= k < n ==> out[k] == k + 1
  {
  }

  /** `p` candidates are protected and the block ends at `e`, in the options' own numbers. */
  predicate Bounds(opts: Options, n: nat, p: nat, e: nat)
  {
    opts.maxRerank.Some? &&
    var top := if opts.protectTopN.Some? then opts.protectTopN.value else 0;
    && p == (if top < 0 then 0 else if top > n then n else top)
    && e == (if p + opts.maxRerank.value > n then n else p + opts.maxRerank.value)
  }

  /** Exactly the texts of p + 1, ..., e; a missing one is empty. */
  predicate Texts(sub: seq<bytes>, texts: seq<bytes>, p: nat, e: nat)
  {
    p + |sub| == e && forall i :: 0 <= i < |sub| ==> sub[i] == if p + i < |texts| then texts[p + i] else []
  }

  lemma OrderParts(n: nat, texts: seq<bytes>, opts: Options, client: Option<Client>, p: nat, e: nat, sub: seq<bytes>)
    requires Reranks(opts, client) && Bounds(opts, n, p, e) && Texts(sub, texts, p, e)
    ensures Order(n, texts, opts, client) ==
            Range(1, p) + (if e > p then Middle(client.value(sub), p, e) else []) + Range(e + 1, n)
  {
    assert p == Protected(opts, n) && e == BlockEnd(opts, n) && sub == Block(texts, p, e);
    hide Middle, Protected, BlockEnd, Block;
    assert n == 0 ==> Range(1, p) + [] + Range(e + 1, n) == [];
  }

  /** Otherwise, with p the first protect_top_n candidates (none, if there is no such option) and
      e the max_rerank after them: 1, ..., p come first and e + 1, ..., n last. Between them, if
      e > p, stands what becomes of the reply to exactly the texts of p + 1, ..., e: the ones it
      names and then the ones it left out. */
  lemma RerankedOrder(n: nat, texts: seq<bytes>, opts: Options, client: Option<Client>, p: nat, e: nat, sub: seq<bytes>)
    requires Reranks(opts, client) && Bounds(opts, n, p, e) && Texts(sub, texts, p, e)
    ensures var out := Order(n, texts, opts, client);
            && |out| >= n
            && (forall k :: 0 <= k < p ==> out[k] == k + 1)
            && (var tail := out[|out| - (n - e)..]; forall k :: 0 <= k < n - e ==> tail[k] == e + 1 + k)
            && (e == p ==> |out| == n)
            && (e > p && Usable(client.value(sub)) ==>
                  var named := Accepted(client.value(sub).indices.value, p, e);
                  out[p..|out| - (n - e)] == named + Missing(named, p, e))
  {
    MiddleLong(client.value(sub), p, e);
    OrderParts(n, texts, opts, client, p, e, sub);
    Counting(1, p);
    Counting(e + 1, n);
    hide Order, Texts, Accepted, Missing, Range;
    Between(Range(1, p), if e > p then Middle(client.value(sub), p, e) else [], Range(e + 1, n));
  }

  /** An error, nil, and a reply that names no index leave the order as it was. */
  lemma UnusableReply(n: nat, texts: seq<bytes>, opts: Options, client: Option<Client>, p: nat, e: nat, sub: seq<bytes>)
    requires Reranks(opts, client) && Bounds(opts, n, p, e) && Texts(sub, texts, p, e)
    requires !Usable(client.value(sub))
    ensures var out := Order(n, texts, opts, client);
            |out| == n && forall k :: 0 <= k < n ==> out[k] == k + 1
  {
    OrderParts(n, texts, opts, client, p, e, sub);
    Counting(1, p);
    Counting(p + 1, e);
    Counting(e + 1, n);
    hide Order, Texts, Accepted, Missing, Range;
  }

  lemma Counting(a: int, b: int)
    ensures |Range(a, b)| == if b >= a then b - a + 1 else 0
    ensures forall k :: 0 <= k < |Range(a, b)| ==> Range(a, b)[k] == a + k
  {
  }

  lemma Between(a: seq<int>, b: seq<int>, c: seq<int>)
    ensures var all := a + b + c;
            && all[..|a|] == a && all[|a|..|all| - |c|] == b && all[|all| - |c|..] == c
            && (forall k :: 0 <= k < |a| ==> all[k] == a[k])
  {
  }

  /** What a reply names is taken index by index, in its order: each of 1, ..., e - p once for
      each time it is named, as the candidate that far behind the prefix, and no other. */
  lemma {:induction false} AcceptedParts(xs: seq<int>, ys: seq<int>, p: nat, e: nat)
    ensures Accepted(xs + ys, p, e) == Accepted(xs, p, e) + Accepted(ys, p, e)
    decreases |ys|
  {
    if ys == [] {
      assert xs + ys == xs;
    } else {
      AcceptedParts(xs, ys[..|ys| - 1], p, e);
      assert (xs + ys)[..|xs + ys| - 1] == xs + ys[..|ys| - 1];
    }
  }

  lemma AcceptedOne(x: int, p: nat, e: nat)
    ensures Accepted([x], p, e) == if 1 <= x <= e - p then [p + x] else []
    ensures Accepted([], p, e) == []
  {
    assert [x][..0] == [];
  }

  ghost predicate NoDuplicates(s: seq<int>)
  {
    forall i, j :: 0 <= i < j < |s| ==> s[i] != s[j]
  }

  lemma RangeDistinct(a: int, b: int)
    ensures NoDuplicates(Range(a, b))
  {
  }

  lemma ApartDistinct(a: seq<int>, b: seq<int>)
    requires Avoids(b, a)
    ensures NoDuplicates(a + b) <==> NoDuplicates(a) && NoDuplicates(b)
  {
    assert forall i :: 0 <= i < |a| ==> (a + b)[i] == a[i];
    assert forall j :: 0 <= j < |b| ==> (a + b)[|a| + j] == b[j];
    assert forall j :: 0 <= j < |b| ==> b[j] in b;
  }

  ghost predicate Ascending(s: seq<int>)
  {
    forall i, j :: 0 <= i < j < |s| ==> s[i] < s[j]
  }

  lemma AscendingSnoc(s: seq<int>, p: int, v: int)
    requires Ascending(s) && Within(s, p, v - 1)
    ensures Ascending(s + [v])
  {
    assert forall i :: 0 <= i < |s| ==> s[i] in s;
  }

  lemma {:induction false} MissingAscends(emitted: seq<int>, p: nat, i: int)
    ensures Ascending(Missing(emitted, p, i))
    decreases if i > p then i - p else 0
  {
    if i <= p {
    } else {
      MissingAscends(emitted, p, i - 1);
      MissingWithin(emitted, p, i - 1);
      AscendingSnoc(Missing(emitted, p, i - 1), p, i);
      hide Ascending, Within, Avoids;
      if i in emitted {
        assert Missing(emitted, p, i) == Missing(emitted, p, i - 1);
      }
    }
  }

  /** The repair emits exactly the block's indices that were dropped, in the original order. */
  lemma MissingIs(emitted: seq<int>, p: nat, i: int)
    ensures Ascending(Missing(emitted, p, i))
    ensures forall v :: v in Missing(emitted, p, i) <==> p < v <= i && v !in emitted
  {
    MissingAscends(emitted, p, i);
    MissingWithin(emitted, p, i);
    hide Missing, Ascending;
    forall v
      ensures v in Missing(emitted, p, i) <==> p < v <= i && v !in emitted
    {
      if p < v <= i && v !in emitted { MissingHas(emitted, p, i, v); }
    }
  }

  lemma RangesApart(a: seq<int>, b: seq<int>, p: int, q: int, e: int)
    requires Within(a, p, q) && Within(b, q, e)
    ensures Avoids(b, a)
  {
  }

  lemma {:induction false} Pigeonhole(s: seq<int>, p: nat, e: nat)
    requires p <= e && forall v :: p < v <= e ==> v in s
    ensures |s| >= e - p
    decreases e - p
  {
    if p == e {
    } else {
      assert e in s;
      var k :| 0 <= k < |s| && s[k] == e;
      var less := s[..k] + s[k + 1..];
      forall v | p < v <= e - 1
        ensures v in less
      {
        assert v in s;
        var m :| 0 <= m < |s| && s[m] == v;
        assert less[if m < k then m else m - 1] == v;
      }
      Pigeonhole(less, p, e - 1);
    }
  }

  lemma MiddleLong(reply: Reply, p: nat, e: nat)
    requires p <= e
    ensures |Middle(reply, p, e)| >= e - p
  {
    forall v | p < v <= e
      ensures v in Middle(reply, p, e)
    {
      MiddleCovers(reply, p, e, v);
    }
    Pigeonhole(Middle(reply, p, e), p, e);
  }

  /** The in-range part of the reply that was used. */
  function Used(n: nat, texts: seq<bytes>, opts: Options, client: Option<Client>): (acc: seq<int>)
  {
    if n == 0 || Bypassed(opts, client) then [] else
    var p, e := Protected(opts, n), BlockEnd(opts, n);
    if e <= p then [] else
    var reply := client.value(Block(texts, p, e));
    if reply.Result? && reply.indices.Some? then Accepted(reply.indices.value, p, e) else []
  }

  lemma MiddleDistinct(reply: Reply, p: nat, e: nat)
    ensures NoDuplicates(Middle(reply, p, e)) <==>
            NoDuplicates(if reply.Result? && reply.indices.Some? then Accepted(reply.indices.value, p, e) else [])
  {
    if reply.Result? && reply.indices.Some? {
      var acc := Accepted(reply.indices.value, p, e);
      AcceptedWithin(reply.indices.value, p, e);
      MissingWithin(acc, p, e);
      MissingIs(acc, p, e);
      ApartDistinct(acc, Missing(acc, p, e));
    }
  }

  /** The order is a permutation of 1..n if and only if the in-range indices of the reply
      are free of duplicates; for nil, an error or an empty reply it always is. */
  lemma PermutationExactlyWhen(n: nat, texts: seq<bytes>, opts: Options, client: Option<Client>)
    ensures NoDuplicates(Order(n, texts, opts, client)) <==> NoDuplicates(Used(n, texts, opts, client))
  {
    hide Middle, Accepted, Range, NoDuplicates, Within, Avoids;
    RangeDistinct(1, n);
    NoneDistinct();
    if n > 0 && !Bypassed(opts, client) {
      var p, e := Protected(opts, n), BlockEnd(opts, n);
      var middle := if e > p then Middle(client.value(Block(texts, p, e)), p, e) else [];
      if e > p {
        MiddleDistinct(client.value(Block(texts, p, e)), p, e);
        MiddleWithin(client.value(Block(texts, p, e)), p, e);
      }
      PartsDistinct(middle, p, e, n);
    }
  }

  lemma {:induction false} AcceptedFrom(indices: seq<int>, p: nat, e: nat)
    ensures forall v :: v in Accepted(indices, p, e) ==> v - p in indices
    decreases |indices|
  {
    if indices == [] {
    } else {
      AcceptedFrom(indices[..|indices| - 1], p, e);
    }
  }

  /** Dropping what is out of range and shifting the rest makes no duplicates. */
  lemma {:induction false} AcceptedDistinct(indices: seq<int>, p: nat, e: nat)
    requires NoDuplicates(indices)
    ensures NoDuplicates(Accepted(indices, p, e))
    decreases |indices|
  {
    if indices == [] {
    } else {
      var init, last := indices[..|indices| - 1], indices[|indices| - 1];
      AcceptedDistinct(init, p, e);
      AcceptedFrom(init, p, e);
      assert last !in init;
      ApartDistinct(Accepted(init, p, e), [last + p]);
    }
  }

  /** Every reply the client could give is free of duplicates. */
  ghost predicate GivesDistinct(client: Client)
  {
    forall sub :: var reply := client(sub); reply.Result? && reply.indices.Some? ==> NoDuplicates(reply.indices.value)
  }

  /** What a caller can check: a client that never repeats an index makes the order a permutation. */
  lemma DistinctReplyPermutes(n: nat, texts: seq<bytes>, opts: Options, client: Option<Client>)
    requires client.Some? ==> GivesDistinct(client.value)
    ensures NoDuplicates(Order(n, texts, opts, client))
  {
    PermutationExactlyWhen(n, texts, opts, client);
    hide Order, Accepted, Block, NoDuplicates;
    NoneDistinct();
    if n > 0 && !Bypassed(opts, client) && BlockEnd(opts, n) > Protected(opts, n) {
      var p, e := Protected(opts, n), BlockEnd(opts, n);
      var reply := client.value(Block(texts, p, e));
      if reply.Result? && reply.indices.Some? { AcceptedDistinct(reply.indices.value, p, e); }
    }
  }

  lemma NoneDistinct()
    ensures NoDuplicates([])
  {
  }

  lemma PartsDistinct(middle: seq<int>, p: nat, e: nat, n: nat)
    requires p <= e <= n && if e > p then Within(middle, p, e) else middle == []
    ensures NoDuplicates(Range(1, p) + middle + Range(e + 1, n)) <==> NoDuplicates(middle)
  {
    hide Range, NoDuplicates, Avoids;
    RangeWithin(1, p);
    RangeWithin(e + 1, n);
    RangeDistinct(1, p);
    RangeDistinct(e + 1, n);
    RangesApart(Range(1, p), middle, 0, p, e);
    ApartDistinct(Range(1, p), middle);
    RangesApart(Range(1, p) + middle, Range(e + 1, n), 0, e, n);
    ApartDistinct(Range(1, p) + middle, Range(e + 1, n));
  }

  /** The concrete duplicate: the daemon answers 1 twice and one candidate is yielded twice. */
  lemma DuplicateIsYieldedTwice(texts: seq<bytes>)
    ensures Order(2, texts, Options(true, None, Some(2)), Some(_ => Result(Some([1, 1])))) == [1, 1, 2]
  {
    var acc := Accepted([1, 1], 0, 2);
    assert [1, 1][..1] == [1] && [1][..0] == [];
    assert Accepted([1], 0, 2) == [1];
    assert acc == [1, 1];
    assert Missing(acc, 0, 1) == [];
    assert Missing(acc, 0, 2) == [2];
  }

  // ---- With the deterministic reranker behind it ---------------------------

  /** The bridge's shift from the daemon's 0-based indices to Lua's. */
  function Shifted(indices: seq<nat>): (s: seq<int>)
    ensures |s| == |indices|
  {
    seq(|indices|, i requires 0 <= i < |indices| => indices[i] + 1)
  }

  lemma {:induction false} AllAccepted(indices: seq<int>, p: nat, e: nat)
    requires forall i :: 0 <= i < |indices| ==> 1 <= indices[i] <= e - p
    ensures |Accepted(indices, p, e)| == |indices|
    ensures forall i :: 0 <= i < |indices| ==> Accepted(indices, p, e)[i] == indices[i] + p
    decreases |indices|
  {
    if indices == [] {
    } else {
      AllAccepted(indices[..|indices| - 1], p, e);
    }
  }

  lemma {:induction false} NoneMissing(emitted: seq<int>, p: nat, i: int)
    requires forall v :: p < v <= i ==> v in emitted
    ensures Missing(emitted, p, i) == []
    decreases if i > p then i - p else 0
  {
    if i <= p {
    } else {
      NoneMissing(emitted, p, i - 1);
    }
  }

  /** The block in the daemon's order. */
  function Behind(indices: seq<nat>, p: nat): (s: seq<int>)
    ensures |s| == |indices|
  {
    seq(|indices|, k requires 0 <= k < |indices| => p + 1 + indices[k])
  }

  lemma RankedMiddle(indices: seq<nat>, scores: seq<int>, sub: seq<bytes>, ctx: bytes, p: nat, e: nat)
    requires p <= e && |sub| == e - p && R.IsRanking(indices, scores, sub, ctx)
    ensures Accepted(Shifted(indices), p, e) == Behind(indices, p) && NoDuplicates(Behind(indices, p))
    ensures |indices| == e - p && Missing(Behind(indices, p), p, e) == []
  {
    hide R.Score, R.LastChar, Accepted, Missing;
    AllAccepted(Shifted(indices), p, e);
    RankedAll(indices, scores, sub, ctx, p, e);
    NoneMissing(Behind(indices, p), p, e);
    R.IndicesDistinct(indices, scores, sub, ctx);
  }

  /** When the daemon ranks the block it was sent, the filter yields a permutation: the
      prefix, then the block in exactly the daemon's order, then the tail. */
  lemma RankedBlock(n: nat, texts: seq<bytes>, opts: Options, client: Option<Client>, ctx: bytes,
                    indices: seq<nat>, scores: seq<int>)
    requires n > 0 && !Bypassed(opts, client) && BlockEnd(opts, n) > Protected(opts, n)
    requires var sub := Block(texts, Protected(opts, n), BlockEnd(opts, n));
             R.IsRanking(indices, scores, sub, ctx) && client.value(sub) == Result(Some(Shifted(indices)))
    ensures var p, e := Protected(opts, n), BlockEnd(opts, n);
            var out := Order(n, texts, opts, client);
            out == Range(1, p) + Behind(indices, p) + Range(e + 1, n) && |out| == n && NoDuplicates(out)
  {
    var p, e := Protected(opts, n), BlockEnd(opts, n);
    var sub := Block(texts, p, e);
    hide R.IsRanking, Accepted, Missing, NoDuplicates, Block, Protected, BlockEnd, Order, Used, Shifted, Behind, Range;
    RankedMiddle(indices, scores, sub, ctx, p, e);
    PermutationExactlyWhen(n, texts, opts, client);
    OrderOfReply(n, texts, opts, client, Shifted(indices));
  }

  lemma MiddleOfAll(indices: seq<int>, p: nat, e: nat)
    requires indices != [] && Missing(Accepted(indices, p, e), p, e) == []
    ensures Middle(Result(Some(indices)), p, e) == Accepted(indices, p, e)
  {
    hide Accepted, Missing;
    assert Accepted(indices, p, e) + [] == Accepted(indices, p, e);
  }

  lemma OrderOfReply(n: nat, texts: seq<bytes>, opts: Options, client: Option<Client>, indices: seq<int>)
    requires n > 0 && !Bypassed(opts, client) && indices != []
    requires var p, e := Protected(opts, n), BlockEnd(opts, n);
             && e > p && client.value(Block(texts, p, e)) == Result(Some(indices))
             && Missing(Accepted(indices, p, e), p, e) == []
    ensures var p, e := Protected(opts, n), BlockEnd(opts, n);
            && Used(n, texts, opts, client) == Accepted(indices, p, e)
            && Order(n, texts, opts, client) == Range(1, p) + Accepted(indices, p, e) + Range(e + 1, n)
  {
    hide Accepted, Missing, Block, Range, Protected, BlockEnd, Middle;
    MiddleOfAll(indices, Protected(opts, n), BlockEnd(opts, n));
  }

  lemma RankedAll(indices: seq<nat>, scores: seq<int>, sub: seq<bytes>, ctx: bytes, p: nat, e: nat)
    requires p <= e && |sub| == e - p && R.IsRanking(indices, scores, sub, ctx)
    ensures forall v :: p < v <= e ==> v in Behind(indices, p)
  {
    hide R.Score, R.LastChar;
    forall v | p < v <= e
      ensures v in Behind(indices, p)
    {
      assert (v - p - 1) as nat in indices;
      var k :| 0 <= k < |indices| && indices[k] == v - p - 1;
      assert Behind(indices, p)[k] == v;
    }
  }
}
