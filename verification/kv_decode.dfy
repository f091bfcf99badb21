/**
 Incremental evaluation with a KV cache against one full causal pass.

 A layer is an arbitrary function of a query's hidden value, its position and the K/V rows its mask leaves
 visible; masked rows contribute nothing. The cache is one row per layer and position, written in place.
 */
module KvDecode {
  import opened Arith
  import opened KvPadding
  import opened GraphCache

  /** H is a hidden value, R a K/V row. */
  datatype Model<!H, !R> = Model(layers: nat, embed: (int, nat) -> H, row: (nat, H, nat) -> R,
                                 layer: (nat, H, nat, seq<R>) -> H)

  /* ---------- One full causal pass ---------- */

  /** The hidden value of position p before layer l (after all layers for l == layers). */
  function Hid<H, R>(m: Model<H, R>, tokens: seq<int>, l: nat, p: nat): H
    requires l <= m.layers && p < |tokens|
    decreases l, 0
  {
    if l == 0 then m.embed(tokens[p], p)
    else m.layer(l - 1, Hid(m, tokens, l - 1, p), p, RowsTo(m, tokens, l - 1, p + 1))
  }

  /** The K/V rows of the first n positions at layer l. */
  function RowsTo<H, R>(m: Model<H, R>, tokens: seq<int>, l: nat, n: nat): (r: seq<R>)
    requires l < m.layers && n <= |tokens|
    ensures |r| == n
    decreases l, 1, n
  {
    if n == 0 then [] else RowsTo(m, tokens, l, n - 1) + [m.row(l, Hid(m, tokens, l, n - 1), n - 1)]
  }

  lemma {:induction false} RowsToAt<H, R>(m: Model<H, R>, tokens: seq<int>, l: nat, n: nat, j: nat)
    requires l < m.layers && j < n <= |tokens|
    ensures RowsTo(m, tokens, l, n)[j] == m.row(l, Hid(m, tokens, l, j), j)
  {
    if j < n - 1 { RowsToAt(m, tokens, l, n - 1, j); }
  }

  /** What comes later does not change what came before. */
  lemma {:induction false} Causal<H, R>(m: Model<H, R>, a: seq<int>, b: seq<int>, l: nat, p: nat)
    requires l <= m.layers && p < |a| && p < |b| && a[..p + 1] == b[..p + 1]
    ensures Hid(m, a, l, p) == Hid(m, b, l, p)
    decreases l, 0
  {
    assert a[p] == a[..p + 1][p] && b[p] == b[..p + 1][p];
    if l > 0 {
      Causal(m, a, b, l - 1, p);
      CausalRows(m, a, b, l - 1, p + 1);
    }
  }

  lemma {:induction false} CausalRows<H, R>(m: Model<H, R>, a: seq<int>, b: seq<int>, l: nat, n: nat)
    requires l < m.layers && n <= |a| && n <= |b| && a[..n] == b[..n]
    ensures RowsTo(m, a, l, n) == RowsTo(m, b, l, n)
    decreases l, 1, n
  {
    if n > 0 {
      assert a[..n - 1] == a[..n][..n - 1] && b[..n - 1] == b[..n][..n - 1];
      CausalRows(m, a, b, l, n - 1);
      Causal(m, a, b, l, n - 1);
    }
  }

  /** The hidden values of positions pos..pos+s before layer l. */
  ghost predicate AreHid<H, R>(m: Model<H, R>, tokens: seq<int>, l: nat, pos: nat, h: seq<H>) {
    && l <= m.layers && pos + |h| <= |tokens|
    && forall i :: 0 <= i < |h| ==> h[i] == Hid(m, tokens, l, pos + i)
  }

  /** The cache holds the rows of the first n positions at layer l. */
  ghost predicate CachedAt<H, R(!new)>(m: Model<H, R>, tokens: seq<int>, cache: array2<R>, l: nat, n: nat)
    reads cache
  {
    && l < m.layers <= cache.Length0 && n <= |tokens| && n <= cache.Length1
    && forall j :: 0 <= j < n ==> cache[l, j] == m.row(l, Hid(m, tokens, l, j), j)
  }

  ghost predicate Cached<H, R(!new)>(m: Model<H, R>, tokens: seq<int>, cache: array2<R>, n: nat)
    reads cache
  {
    forall l {:trigger CachedAt(m, tokens, cache, l, n)} :: 0 <= l < m.layers ==> CachedAt(m, tokens, cache, l, n)
  }

  /* ---------- Masked attention ---------- */

  /** The rows whose mask cell is open, in order. */
  function Visible<R>(rows: seq<R>, open: seq<bool>): seq<R>
    requires |rows| == |open|
  {
    if rows == [] then []
    else
      var n := |rows| - 1;
      Visible(rows[..n], open[..n]) + if open[n] then [rows[n]] else []
  }

  /** Under a causal row exactly the rows up to the last visible one count. */
  lemma {:induction false} VisibleCausal<R>(rows: seq<R>, open: seq<bool>, last: nat)
    requires |rows| == |open| && forall j :: 0 <= j < |open| ==> (open[j] <==> j <= last)
    ensures Visible(rows, open) == if last < |rows| then rows[..last + 1] else rows
  {
    if rows != [] {
      var n := |rows| - 1;
      VisibleCausal(rows[..n], open[..n], last);
      assert rows == rows[..n] + [rows[n]];
      if last < n { assert rows[..n][..last + 1] == rows[..last + 1]; }
    }
  }

  /** Row i of a causal mask. */
  lemma {:induction false} MaskRow(pos: nat, s: nat, w: nat, i: nat)
    requires i < s
    ensures Times(i, w) + w <= Times(s, w)
    ensures CausalMask(pos, s, w)[Times(i, w)..Times(i, w) + w] == CausalRow(pos + i, w)
  {
    if i < s - 1 {
      MaskRow(pos, s - 1, w, i);
      var a := Times(i, w);
      assert CausalMask(pos, s, w)[a..a + w] == CausalMask(pos, s - 1, w)[a..a + w];
    }
  }

  /** The first n rows of layer l as they stand in the cache. */
  ghost function CacheRows<R>(cache: array2<R>, l: nat, n: nat): (r: seq<R>)
    requires l < cache.Length0 && n <= cache.Length1
    reads cache
    ensures |r| == n && forall j :: 0 <= j < n ==> r[j] == cache[l, j]
  {
    if n == 0 then [] else CacheRows(cache, l, n - 1) + [cache[l, n - 1]]
  }

  /** Reads the first |open| rows of layer l and keeps the visible ones. */
  method VisibleRows<R>(cache: array2<R>, l: nat, open: seq<bool>) returns (rows: seq<R>)
    requires l < cache.Length0 && |open| <= cache.Length1
    ensures rows == Visible(CacheRows(cache, l, |open|), open)
  {
    rows := [];
    for j := 0 to |open|
      invariant rows == Visible(CacheRows(cache, l, j), open[..j])
    {
      ghost var next := CacheRows(cache, l, j + 1);
      assert next[..j] == CacheRows(cache, l, j) && open[..j + 1][..j] == open[..j];
      if open[j] {
        rows := rows + [cache[l, j]];
      }
    }
    assert open[..|open|] == open;
  }

  /* ---------- Running a graph ---------- */

  /** SET_ROWS: writes the rows of the graph's own tokens at the graph's indices. */
  method SetRows<H, R(!new)>(m: Model<H, R>, g: View, l: nat, h: seq<H>, pos: nat, cache: array2<R>)
    requires l < m.layers <= cache.Length0 && |h| == g.s && g.indices == Rows(pos, g.s) && pos + g.s <= cache.Length1
    modifies cache
    ensures forall i :: 0 <= i < g.s ==> cache[l, pos + i] == m.row(l, h[i], pos + i)
    ensures forall k, j :: 0 <= k < cache.Length0 && 0 <= j < cache.Length1 && !(k == l && pos <= j < pos + g.s) ==>
      cache[k, j] == old(cache[k, j])
  {
    for i := 0 to g.s
      invariant forall x :: 0 <= x < i ==> cache[l, pos + x] == m.row(l, h[x], pos + x)
      invariant forall k, j :: 0 <= k < cache.Length0 && 0 <= j < cache.Length1 && !(k == l && pos <= j < pos + i) ==>
        cache[k, j] == old(cache[k, j])
    {
      cache[l, g.indices[i]] := m.row(l, h[i], pos + i);
    }
  }

  lemma SetRowsCached<H, R(!new)>(m: Model<H, R>, tokens: seq<int>, cache: array2<R>, l: nat, pos: nat, h: seq<H>)
    requires CachedAt(m, tokens, cache, l, pos) && AreHid(m, tokens, l, pos, h) && pos + |h| <= cache.Length1
    requires forall i :: 0 <= i < |h| ==> cache[l, pos + i] == m.row(l, h[i], pos + i)
    ensures CachedAt(m, tokens, cache, l, pos + |h|)
  {
    hide Hid;
    forall j | 0 <= j < pos + |h| ensures cache[l, j] == m.row(l, Hid(m, tokens, l, j), j) {
      if j >= pos { assert h[j - pos] == Hid(m, tokens, l, pos + (j - pos)); }
    }
  }

  lemma MaskOpens(pos: nat, s: nat, w: nat, i: nat) returns (open: seq<bool>)
    requires i < s
    ensures 0 <= i * w && i * w + w <= |CausalMask(pos, s, w)|
    ensures open == CausalMask(pos, s, w)[i * w..i * w + w]
    ensures |open| == w && forall j :: 0 <= j < w ==> (open[j] <==> j <= pos + i)
  {
    hide CausalMask;
    MaskRow(pos, s, w, i);
    TimesIs(i, w);
    open := CausalMask(pos, s, w)[i * w..i * w + w];
  }

  /** One query against the view: what it sees is exactly the rows up to its own position. */
  method Attend<H, R(!new)>(m: Model<H, R>, g: View, l: nat, q: H, i: nat, pos: nat, cache: array2<R>, ghost tokens: seq<int>)
    returns (r: H)
    requires l < m.layers <= cache.Length0 && i < g.s && pos + g.s <= g.nKv <= cache.Length1
    requires g.mask == CausalMask(pos, g.s, g.nKv)
    requires CachedAt(m, tokens, cache, l, pos + g.s)
    requires q == Hid(m, tokens, l, pos + i)
    ensures r == Hid(m, tokens, l + 1, pos + i)
  {
    hide Hid, CausalMask, CacheRows, Visible;
    ghost var causal := MaskOpens(pos, g.s, g.nKv, i);
    var open := g.mask[i * g.nKv..i * g.nKv + g.nKv];
    var rows := VisibleRows(cache, l, open);
    VisibleAre(m, tokens, cache, l, pos + i, open, pos + g.s);
    r := m.layer(l, q, pos + i, rows);
    HidStep(m, tokens, l, pos + i);
  }

  lemma HidStep<H, R>(m: Model<H, R>, tokens: seq<int>, l: nat, p: nat)
    requires l < m.layers && p < |tokens|
    ensures Hid(m, tokens, l + 1, p) == m.layer(l, Hid(m, tokens, l, p), p, RowsTo(m, tokens, l, p + 1))
  {
  }

  /** What is visible under a causal row is what the full pass attends to, whatever the rows past n hold. */
  lemma VisibleAre<H, R(!new)>(m: Model<H, R>, tokens: seq<int>, cache: array2<R>, l: nat, last: nat, open: seq<bool>, n: nat)
    requires l < m.layers <= cache.Length0 && last < n <= |open| <= cache.Length1 && CachedAt(m, tokens, cache, l, n)
    requires forall j :: 0 <= j < |open| ==> (open[j] <==> j <= last)
    ensures Visible(CacheRows(cache, l, |open|), open) == RowsTo(m, tokens, l, last + 1)
  {
    hide Hid, RowsTo, Visible;
    var all := CacheRows(cache, l, |open|);
    VisibleCausal(all, open, last);
    forall j | 0 <= j < last + 1 ensures all[j] == RowsTo(m, tokens, l, last + 1)[j] {
      RowsToAt(m, tokens, l, last + 1, j);
    }
  }

  /** The attention of all queries, after the rows are written. */
  method AttendAll<H, R(!new)>(m: Model<H, R>, g: View, l: nat, h: seq<H>, pos: nat, cache: array2<R>, ghost tokens: seq<int>)
    returns (next: seq<H>)
    requires l < m.layers <= cache.Length0 && |h| == g.s && pos + g.s <= g.nKv <= cache.Length1
    requires g.mask == CausalMask(pos, g.s, g.nKv)
    requires CachedAt(m, tokens, cache, l, pos + g.s) && AreHid(m, tokens, l, pos, h)
    ensures |next| == g.s && AreHid(m, tokens, l + 1, pos, next)
  {
    hide Hid, CausalMask, CachedAt;
    next := [];
    for i := 0 to g.s
      invariant |next| == i && AreHid(m, tokens, l + 1, pos, next)
    {
      var r := Attend(m, g, l, h[i], i, pos, cache, tokens);
      next := next + [r];
    }
  }

  /** One layer over all rows of the graph. Other layers' rows stay what they are. */
  method RunLayer<H, R(!new)>(m: Model<H, R>, g: View, l: nat, h: seq<H>, pos: nat, cache: array2<R>, ghost tokens: seq<int>)
    returns (next: seq<H>)
    requires l < m.layers <= cache.Length0 && |h| == g.s && pos + g.s <= g.nKv <= cache.Length1
    requires g.indices == Rows(pos, g.s) && g.mask == CausalMask(pos, g.s, g.nKv)
    requires CachedAt(m, tokens, cache, l, pos) && AreHid(m, tokens, l, pos, h)
    modifies cache
    ensures |next| == g.s && AreHid(m, tokens, l + 1, pos, next)
    ensures CachedAt(m, tokens, cache, l, pos + g.s)
    ensures forall k, n {:trigger CachedAt(m, tokens, cache, k, n)} :: k != l && old(CachedAt(m, tokens, cache, k, n)) ==>
      CachedAt(m, tokens, cache, k, n)
  {
    hide Hid, CausalMask;
    SetRows(m, g, l, h, pos, cache);
    SetRowsCached(m, tokens, cache, l, pos, h);
    next := AttendAll(m, g, l, h, pos, cache, tokens);
  }

  /**
   A run of the fresh graph for rows pos..pos+s, over a cache that holds the rows before pos and anything after:
   each token gets the hidden value the full pass gives it, and the cache holds its rows too.
   */
  method RunGraph<H, R(!new)>(m: Model<H, R>, g: View, input: seq<int>, pos: nat, cache: array2<R>, ghost tokens: seq<int>)
    returns (h: seq<H>)
    requires m.layers == cache.Length0 && |input| == g.s && pos + g.s <= g.nKv <= cache.Length1
    requires g.indices == Rows(pos, g.s) && g.mask == CausalMask(pos, g.s, g.nKv)
    requires pos + g.s <= |tokens| && input == tokens[pos..pos + g.s] && Cached(m, tokens, cache, pos)
    modifies cache
    ensures |h| == g.s && AreHid(m, tokens, m.layers, pos, h)
    ensures Cached(m, tokens, cache, pos + g.s)
  {
    hide Hid, CausalMask, CachedAt;
    h := Embed(m, input, pos, tokens);
    for l := 0 to m.layers
      invariant |h| == g.s && AreHid(m, tokens, l, pos, h)
      invariant forall k {:trigger CachedAt(m, tokens, cache, k, pos + g.s)} :: 0 <= k < l ==>
        CachedAt(m, tokens, cache, k, pos + g.s)
      invariant forall k {:trigger CachedAt(m, tokens, cache, k, pos)} :: l <= k < m.layers ==>
        CachedAt(m, tokens, cache, k, pos)
    {
      assert CachedAt(m, tokens, cache, l, pos);
      h := RunLayer(m, g, l, h, pos, cache, tokens);
    }
  }

  method Embed<H, R>(m: Model<H, R>, input: seq<int>, pos: nat, ghost tokens: seq<int>) returns (h: seq<H>)
    requires pos + |input| <= |tokens| && input == tokens[pos..pos + |input|]
    ensures |h| == |input| && AreHid(m, tokens, 0, pos, h)
  {
    hide Hid;
    h := [];
    for i := 0 to |input|
      invariant |h| == i && AreHid(m, tokens, 0, pos, h)
    {
      EmbedIs(m, tokens, pos + i);
      h := h + [m.embed(input[i], pos + i)];
    }
  }

  lemma EmbedIs<H, R>(m: Model<H, R>, tokens: seq<int>, p: nat)
    requires p < |tokens|
    ensures Hid(m, tokens, 0, p) == m.embed(tokens[p], p)
  {
  }

  /** The cache of a longer text starts as the cache of the text. */
  lemma LastHid<H, R>(m: Model<H, R>, tokens: seq<int>, pos: nat, h: seq<H>)
    requires AreHid(m, tokens, m.layers, pos, h) && |h| > 0
    ensures pos + |h| <= |tokens| && h[|h| - 1] == Hid(m, tokens, m.layers, pos + |h| - 1)
  {
  }

  lemma NothingCached<H, R(!new)>(m: Model<H, R>, tokens: seq<int>, cache: array2<R>)
    requires m.layers == cache.Length0
    ensures Cached(m, tokens, cache, 0)
  {
  }

  lemma CachedLonger<H, R(!new)>(m: Model<H, R>, a: seq<int>, b: seq<int>, cache: array2<R>, n: nat)
    requires Cached(m, a, cache, n) && n <= |a| <= |b| && b[..|a|] == a
    ensures Cached(m, b, cache, n)
  {
    hide Hid;
    forall l | 0 <= l < m.layers ensures CachedAt(m, b, cache, l, n) {
      assert CachedAt(m, a, cache, l, n);
      forall j | 0 <= j < n ensures Hid(m, a, l, j) == Hid(m, b, l, j) {
        assert a[..j + 1] == b[..|a|][..j + 1] == b[..j + 1];
        Causal(m, a, b, l, j);
      }
    }
  }

  /* ---------- The driver ---------- */

  /** How the driver picks and judges tokens: any sampler of the last hidden value and the number generated so far. */
  datatype Sampling<!H> = Sampling(sample: (H, nat) -> int, eos: int, special: int -> bool) {
    predicate Stops(t: int) { (eos >= 0 && t == eos) || special(t) }
  }

  /** Generation without a cache: a full pass over all tokens for each new one. */
  function Naive<H, R>(m: Model<H, R>, how: Sampling<H>, tokens: seq<int>, left: nat, generated: nat): seq<int>
    requires |tokens| > 0
    decreases left
  {
    if left == 0 then tokens
    else
      var t := how.sample(Hid(m, tokens, m.layers, |tokens| - 1), generated);
      if how.Stops(t) then tokens + [t] else Naive(m, how, tokens + [t], left - 1, generated + 1)
  }

  /** Generation only adds tokens, no more than asked for. */
  lemma {:induction false} NaiveGrows<H, R>(m: Model<H, R>, how: Sampling<H>, tokens: seq<int>, left: nat, generated: nat)
    requires |tokens| > 0
    ensures var r := Naive(m, how, tokens, left, generated);
      |tokens| <= |r| <= |tokens| + left && r[..|tokens|] == tokens
    decreases left
  {
    hide Hid;
    if left > 0 {
      var t := how.sample(Hid(m, tokens, m.layers, |tokens| - 1), generated);
      if !how.Stops(t) {
        NaiveGrows(m, how, tokens + [t], left - 1, generated + 1);
        var r := Naive(m, how, tokens + [t], left - 1, generated + 1);
        assert r[..|tokens|] == r[..|tokens| + 1][..|tokens|];
      }
    }
  }

  /** Each new token is the one sampled after all tokens before it. */
  lemma {:induction false} NaiveSampled<H, R>(m: Model<H, R>, how: Sampling<H>, tokens: seq<int>, left: nat,
                                              generated: nat, i: nat)
    requires |tokens| > 0 && |tokens| <= i < |Naive(m, how, tokens, left, generated)|
    ensures var r := Naive(m, how, tokens, left, generated);
      r[i] == how.sample(Hid(m, r[..i], m.layers, i - 1), generated + (i - |tokens|))
    decreases left
  {
    hide Hid;
    NaiveGrows(m, how, tokens, left, generated);
    var r := Naive(m, how, tokens, left, generated);
    if left > 0 {
      var t := how.sample(Hid(m, tokens, m.layers, |tokens| - 1), generated);
      if !how.Stops(t) { NaiveGrows(m, how, tokens + [t], left - 1, generated + 1); }
      if i == |tokens| {
        assert r[..|tokens| + 1][..|tokens|] == r[..|tokens|];
        assert r[..|tokens| + 1][|tokens|] == t;
      } else if !how.Stops(t) {
        NaiveSampled(m, how, tokens + [t], left - 1, generated + 1, i);
      }
    }
  }

  /** It stops at an end token or a special one, at nothing else before the limit, and at the first of them. */
  lemma {:induction false} NaiveStops<H, R>(m: Model<H, R>, how: Sampling<H>, tokens: seq<int>, left: nat, generated: nat)
    requires |tokens| > 0
    ensures var r := Naive(m, how, tokens, left, generated);
      && |tokens| <= |r|
      && (forall i :: |tokens| <= i < |r| - 1 ==> !(how.eos >= 0 && r[i] == how.eos) && !how.special(r[i]))
      && (|r| == |tokens| + left
          || (|r| > |tokens| && ((how.eos >= 0 && r[|r| - 1] == how.eos) || how.special(r[|r| - 1]))))
    decreases left
  {
    hide Hid;
    if left > 0 {
      var t := how.sample(Hid(m, tokens, m.layers, |tokens| - 1), generated);
      if !how.Stops(t) {
        NaiveStops(m, how, tokens + [t], left - 1, generated + 1);
        NaiveGrows(m, how, tokens + [t], left - 1, generated + 1);
        var r := Naive(m, how, tokens + [t], left - 1, generated + 1);
        assert r[|tokens|] == r[..|tokens| + 1][|tokens|] == t;
      }
    }
  }

  /** prepare, set_input and run. */
  method Forward<H, R(!new)>(m: Model<H, R>, exec: ModelExecutor, cache: array2<R>, input: seq<int>, pos: nat, reuse: bool,
                             ghost tokens: seq<int>)
    returns (h: seq<H>)
    requires exec.Valid() && m.layers == cache.Length0 && cache.Length1 == exec.maxCtx
    requires |input| > 0 && pos + |input| <= |tokens| && pos + |input| <= exec.maxCtx
    requires input == tokens[pos..pos + |input|] && Cached(m, tokens, cache, pos)
    modifies exec, cache
    ensures exec.Valid()
    ensures |h| == |input| && AreHid(m, tokens, m.layers, pos, h)
    ensures Cached(m, tokens, cache, pos + |input|)
  {
    hide Hid, CausalMask, PadKvLen, CachedAt, Balanced;
    var env := Env(|input|, pos);
    exec.Prepare(env, reuse);
    PadCovers(pos + |input|, exec.maxCtx, exec.nPad);
    var g := ViewOf(exec.active.value);
    h := RunGraph(m, g, input, pos, cache, tokens);
  }

  lemma DivIs(a: nat, d: nat)
    requires d > 0
    ensures a / d * d <= a < a / d * d + d
  {
    assert a == a / d * d + a % d;
  }

  function ChunkCount(len: nat, size: nat): nat
    requires size > 0
  {
    (len + size - 1) / size
  }

  function ChunkStart(i: nat, size: nat): nat { i * size }

  lemma ChunkBounds(len: nat, size: nat, i: nat)
    requires len > 0 && size > 0
    ensures var n := ChunkCount(len, size);
      && n >= 1
      && (i < n ==> i * size < len)
      && (i + 1 == n ==> len <= i * size + size)
    ensures ChunkStart(i, size) == i * size && ChunkStart(i + 1, size) == i * size + size
  {
    var n := ChunkCount(len, size);
    DivIs(len + size - 1, size);
    assert n == 0 ==> n * size == 0;
    MulStep(n - 1, size);
    MulStep(i, size);
    MulMono(0, i, size);
    if i < n { MulMono(i, n - 1, size); }
  }

  /** Chunk i has at least one token, starts where the ones before it end, and the last ends where the prompt ends. */
  lemma NextChunk(len: nat, size: nat, i: nat)
    requires len > 0 && size > 0 && i < ChunkCount(len, size)
    ensures var start := ChunkStart(i, size); var m := if size < len - start then size else len - start;
      && 1 <= m && start + m <= len
      && (if i + 1 == ChunkCount(len, size) then start + m == len else start + m == ChunkStart(i + 1, size) < len)
  {
    ChunkBounds(len, size, i);
    ChunkBounds(len, size, i + 1);
  }

  /** Runs the prompt through in chunks; h is the hidden value of its last token. */
  method Prefill<H, R(!new)>(m: Model<H, R>, exec: ModelExecutor, cache: array2<R>, prompt: seq<int>, chunkSize: int, reuse: bool)
    returns (h: H)
    requires exec.Valid() && m.layers == cache.Length0 && cache.Length1 == exec.maxCtx
    requires 0 < |prompt| <= exec.maxCtx
    modifies exec, cache
    ensures exec.Valid()
    ensures h == Hid(m, prompt, m.layers, |prompt| - 1) && Cached(m, prompt, cache, |prompt|)
  {
    hide Hid, Balanced, Cached, AreHid, ChunkStart, ChunkCount, ModelExecutor.Valid;
    var len := |prompt|;
    var size := if chunkSize > 0 then chunkSize else len;
    var nChunks := ChunkCount(len, size);
    ChunkBounds(len, size, 0);
    NothingCached(m, prompt, cache);
    var i: nat := 0;
    var last: seq<H> := [];
    while i < nChunks
      invariant 0 <= i <= nChunks && exec.Valid()
      invariant i < nChunks ==> ChunkStart(i, size) < len && Cached(m, prompt, cache, ChunkStart(i, size))
      invariant i == nChunks ==> Cached(m, prompt, cache, len)
      invariant i == nChunks ==> |last| > 0 && last[|last| - 1] == Hid(m, prompt, m.layers, len - 1)
    {
      NextChunk(len, size, i);
      var start := ChunkStart(i, size);
      var n := if size < len - start then size else len - start;
      last := Forward(m, exec, cache, prompt[start..start + n], start, reuse, prompt);
      LastHid(m, prompt, start, last);
      i := i + 1;
    }
    h := last[|last| - 1];
  }

  /** The driver's prefill and decode loops. */
  method GenerateTokens<H, R(!new)>(m: Model<H, R>, exec: ModelExecutor, cache: array2<R>, how: Sampling<H>,
                                    prompt: seq<int>, maxTokens: nat, chunkSize: int, reuse: bool)
    returns (tokens: seq<int>)
    requires exec.Valid() && m.layers == cache.Length0 && cache.Length1 == exec.maxCtx
    requires |prompt| > 0 && |prompt| + maxTokens <= exec.maxCtx
    modifies exec, cache
    ensures exec.Valid()
    ensures tokens == Naive(m, how, prompt, maxTokens, 0)
  {
    hide Hid, Balanced;
    tokens := prompt;
    var h := Prefill(m, exec, cache, prompt, chunkSize, reuse);
    if maxTokens == 0 {
      return;
    }
    var lastToken := how.sample(h, 0);
    tokens := tokens + [lastToken];
    var generated := 1;
    var pos := |prompt|;
    if how.Stops(lastToken) {
      return;
    }
    CachedLonger(m, prompt, tokens, cache, pos);
    while generated < maxTokens
      invariant 1 <= generated <= maxTokens && exec.Valid()
      invariant |tokens| == pos + 1 == |prompt| + generated && tokens[pos] == lastToken
      invariant Cached(m, tokens, cache, pos)
      invariant Naive(m, how, prompt, maxTokens, 0) == Naive(m, how, tokens, maxTokens - generated, generated)
    {
      var out := Forward(m, exec, cache, [lastToken], pos, reuse, tokens);
      lastToken := how.sample(out[0], generated);
      ghost var before := tokens;
      tokens := tokens + [lastToken];
      CachedLonger(m, before, tokens, cache, pos + 1);
      generated := generated + 1;
      pos := pos + 1;
      if how.Stops(lastToken) {
        return;
      }
    }
  }

  lemma NaiveIs<H, R>(m: Model<H, R>, how: Sampling<H>, prompt: seq<int>, maxTokens: nat, tokens: seq<int>)
    requires |prompt| > 0 && tokens == Naive(m, how, prompt, maxTokens, 0)
    ensures |prompt| <= |tokens| <= |prompt| + maxTokens && tokens[..|prompt|] == prompt
    ensures forall i :: |prompt| <= i < |tokens| ==>
      tokens[i] == how.sample(Hid(m, tokens[..i], m.layers, i - 1), i - |prompt|)
    ensures forall i :: |prompt| <= i < |tokens| - 1 ==> !(how.eos >= 0 && tokens[i] == how.eos) && !how.special(tokens[i])
    ensures |tokens| == |prompt| + maxTokens
      || (|tokens| > |prompt| && ((how.eos >= 0 && tokens[|tokens| - 1] == how.eos) || how.special(tokens[|tokens| - 1])))
  {
    hide Hid, Naive;
    NaiveGrows(m, how, prompt, maxTokens, 0);
    NaiveStops(m, how, prompt, maxTokens, 0);
    forall i | |prompt| <= i < |tokens|
      ensures tokens[i] == how.sample(Hid(m, tokens[..i], m.layers, i - 1), i - |prompt|)
    {
      NaiveSampled(m, how, prompt, maxTokens, 0, i);
    }
  }

  /**
   Generation, whatever the chunk size, the graphs reused, the sampler and what the cache held before: each new token
   is the one sampled from a full pass over all tokens before it, and generation ends with the first end token or
   special token, or at the limit.
   */
  method Generate<H, R(!new)>(m: Model<H, R>, exec: ModelExecutor, cache: array2<R>, how: Sampling<H>,
                              prompt: seq<int>, maxTokens: nat, chunkSize: int, reuse: bool)
    returns (tokens: seq<int>)
    requires exec.Valid() && m.layers == cache.Length0 && cache.Length1 == exec.maxCtx
    requires |prompt| > 0 && |prompt| + maxTokens <= exec.maxCtx
    modifies exec, cache
    ensures exec.Valid()
    ensures tokens == Naive(m, how, prompt, maxTokens, 0)
    ensures |prompt| <= |tokens| <= |prompt| + maxTokens && tokens[..|prompt|] == prompt
    ensures forall i :: |prompt| <= i < |tokens| ==>
      tokens[i] == how.sample(Hid(m, tokens[..i], m.layers, i - 1), i - |prompt|)
    ensures forall i :: |prompt| <= i < |tokens| - 1 ==> !(how.eos >= 0 && tokens[i] == how.eos) && !how.special(tokens[i])
    ensures |tokens| == |prompt| + maxTokens
      || (|tokens| > |prompt| && ((how.eos >= 0 && tokens[|tokens| - 1] == how.eos) || how.special(tokens[|tokens| - 1])))
  {
    tokens := GenerateTokens(m, exec, cache, how, prompt, maxTokens, chunkSize, reuse);
    hide Hid, Naive;
    NaiveIs(m, how, prompt, maxTokens, tokens);
  }
}
