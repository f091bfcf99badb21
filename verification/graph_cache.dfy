/**
 Reuse of compute graphs across prepare calls, in padded SET_ROWS mode with only s and pos varying.

 A graph is built for s rows and a KV view of padded length; its row indices and its mask are inputs that are
 rewritten in place. One graph is active, others are stashed by padded length (decode) or by (s, padded length)
 (chunks). Contexts, allocators and buffers are handles from a ledger that notices a double free.
 */
module GraphCache {
  import opened Arith
  import opened Bags
  import opened Options
  import opened KvPadding

  datatype Env = Env(s: nat, pos: nat)

  /** A context, its allocator or buffer, the topology (s rows, view of nKv), and the two input tensors. */
  datatype Graph = Graph(ctx: nat, galloc: Option<nat>, buffer: Option<nat>, s: nat, nKv: nat,
                         indices: seq<int>, mask: seq<bool>)

  /** What is stashed: the graph and what the executor remembered about it. */
  datatype Bucket = Bucket(s: int, nKv: int, pos: int, graph: Graph)

  /** What a run of the graph can see: only the prefix of the mask buffer that the view reads. */
  datatype View = View(s: nat, nKv: nat, indices: seq<int>, mask: seq<bool>)

  function Rows(pos: int, s: nat): seq<int> { seq(s, i => pos + i) }

  function PadFor(env: Env, maxCtx: nat, nPad: int): int { PadKvLen(env.pos + env.s, maxCtx, nPad) }

  /** What a graph built from scratch for env shows. */
  function FreshView(env: Env, maxCtx: nat, nPad: int): View
    requires maxCtx >= 1
  {
    PadCovers(env.pos + env.s, maxCtx, nPad);
    View(env.s, PadFor(env, maxCtx, nPad), Rows(env.pos, env.s),
         CausalMask(env.pos, env.s, PadFor(env, maxCtx, nPad)))
  }

  ghost predicate GraphOk(g: Graph, maxCtx: nat) {
    && 1 <= g.s && 1 <= g.nKv <= maxCtx && |g.indices| == g.s && |g.mask| == Times(g.s, maxCtx)
    && Times(g.s, g.nKv) <= |g.mask|
  }

  function ViewOf(g: Graph): View
    requires Times(g.s, g.nKv) <= |g.mask|
  {
    View(g.s, g.nKv, g.indices, g.mask[..Times(g.s, g.nKv)])
  }

  function OptHandle(h: Option<nat>): seq<nat> { if h.Some? then [h.value] else [] }

  function Handles(g: Graph): seq<nat> { OptHandle(g.galloc) + OptHandle(g.buffer) + [g.ctx] }

  function ActiveHandles(g: Option<Graph>): seq<nat> { if g.Some? then Handles(g.value) else [] }

  function HandleMap(m: map<int, Bucket>): map<int, seq<nat>> { map k | k in m :: Handles(m[k].graph) }

  /** The handles stashed in m. */
  ghost function Owned(m: map<int, Bucket>): multiset<nat> { BagOf(HandleMap(m)) }

  lemma OwnedRemove(m: map<int, Bucket>, k: int)
    requires k in m
    ensures Owned(m) == multiset(Handles(m[k].graph)) + Owned(m - {k})
  {
    hide BagOf, Handles;
    HandlesWithout(m, k);
    BagRemove(HandleMap(m), k);
  }

  lemma HandlesWithout(m: map<int, Bucket>, k: int)
    requires k in m
    ensures k in HandleMap(m) && HandleMap(m)[k] == Handles(m[k].graph)
    ensures HandleMap(m - {k}) == HandleMap(m) - {k}
  {
    hide Handles;
  }

  lemma OwnedAdd(m: map<int, Bucket>, k: int, b: Bucket)
    ensures Owned(m[k := b]) == multiset(Handles(b.graph)) + Owned(m - {k})
    ensures k !in m ==> m - {k} == m
  {
    hide Owned, Handles;
    OwnedRemove(m[k := b], k);
    assert m[k := b] - {k} == m - {k};
  }

  lemma OwnedNone()
    ensures Owned(map[]) == multiset{}
  {
    assert HandleMap(map[]) == map[];
  }

  /**
   Every live handle has exactly one owner: the active graph a, a graph stashed in d or in c, or the caller,
   who holds extra. (No handle is live twice, so none can be owned twice.)
   */
  ghost predicate Balanced(live: set<nat>, next: nat, extra: seq<nat>, a: Option<Graph>,
                           d: map<int, Bucket>, c: map<int, Bucket>) {
    && multiset(live) == multiset(extra) + multiset(ActiveHandles(a)) + Owned(d) + Owned(c)
    && forall h :: h in live ==> h < next
  }

  lemma BalancedSwap(live: set<nat>, next: nat, extra: seq<nat>, a: Option<Graph>, d: map<int, Bucket>, c: map<int, Bucket>)
    requires Balanced(live, next, extra, a, d, c)
    ensures Balanced(live, next, extra, a, c, d)
  {
    hide Owned, ActiveHandles;
  }

  /** What the caller holds becomes the active graph. */
  lemma BalancedActivate(live: set<nat>, next: nat, g: Graph, d: map<int, Bucket>, c: map<int, Bucket>)
    requires Balanced(live, next, Handles(g), None, d, c)
    ensures Balanced(live, next, [], Some(g), d, c)
  {
    hide Owned, Handles;
  }

  /** A bucket is taken out of the map by the caller. */
  lemma BalancedTake(live: set<nat>, next: nat, a: Option<Graph>, d: map<int, Bucket>, c: map<int, Bucket>, k: int)
    requires k in d && Balanced(live, next, [], a, d, c)
    ensures Balanced(live, next, Handles(d[k].graph), a, d - {k}, c)
    ensures multiset(Handles(d[k].graph)) <= multiset(live)
  {
    hide Owned, Handles, ActiveHandles;
    OwnedRemove(d, k);
  }

  /** The caller frees what it holds. */
  lemma BalancedFree(live: set<nat>, live2: set<nat>, next: nat, g: Graph, a: Option<Graph>,
                     d: map<int, Bucket>, c: map<int, Bucket>)
    requires Balanced(live, next, Handles(g), a, d, c)
    requires multiset(live2) == multiset(live) - multiset(Handles(g)) && live2 <= live
    ensures Balanced(live2, next, [], a, d, c)
  {
    hide Owned, Handles, ActiveHandles;
  }

  /** The active graph is freed. */
  lemma BalancedDrop(live: set<nat>, live2: set<nat>, next: nat, extra: seq<nat>, g: Graph,
                     d: map<int, Bucket>, c: map<int, Bucket>)
    requires Balanced(live, next, extra, Some(g), d, c)
    requires multiset(live2) == multiset(live) - multiset(Handles(g)) && live2 <= live
    ensures Balanced(live2, next, extra, None, d, c)
  {
    hide Owned, Handles;
  }

  lemma BalancedActive(live: set<nat>, next: nat, extra: seq<nat>, g: Graph, d: map<int, Bucket>, c: map<int, Bucket>)
    requires Balanced(live, next, extra, Some(g), d, c)
    ensures multiset(Handles(g)) <= multiset(live)
  {
    hide Owned, Handles;
  }

  /** The active graph goes into the map under a new key. */
  lemma BalancedStash(live: set<nat>, next: nat, extra: seq<nat>, d: map<int, Bucket>, c: map<int, Bucket>, k: int, b: Bucket)
    requires Balanced(live, next, extra, Some(b.graph), d, c) && k !in d
    ensures Balanced(live, next, extra, None, d[k := b], c)
  {
    hide Owned, Handles;
    OwnedAdd(d, k, b);
  }

  /** A graph already under the key is another one, with its own handles, which may be freed. */
  lemma BalancedOver(live: set<nat>, next: nat, extra: seq<nat>, d: map<int, Bucket>, c: map<int, Bucket>, k: int, b: Bucket)
    requires Balanced(live, next, extra, Some(b.graph), d, c) && k in d
    ensures d[k].graph.ctx != b.graph.ctx
    ensures multiset(Handles(d[k].graph)) <= multiset(live)
  {
    hide Owned, Handles;
    OwnedRemove(d, k);
    CtxOwned(d[k].graph);
    CtxOwned(b.graph);
    assert multiset(live)[b.graph.ctx] <= 1;
  }

  lemma BalancedReplace(live: set<nat>, live2: set<nat>, next: nat, extra: seq<nat>,
                        d: map<int, Bucket>, c: map<int, Bucket>, k: int, b: Bucket)
    requires Balanced(live, next, extra, Some(b.graph), d, c) && k in d
    requires live2 <= live && multiset(live2) == multiset(live) - multiset(Handles(d[k].graph))
    ensures Balanced(live2, next, extra, None, d[k := b], c)
  {
    hide Owned, Handles;
    OwnedRemove(d, k);
    OwnedAdd(d, k, b);
  }

  /** Newly made handles belong to the graph built with them. */
  lemma BalancedBuild(live: set<nat>, live2: set<nat>, next: nat, next2: nat, g: Graph, d: map<int, Bucket>, c: map<int, Bucket>)
    requires Balanced(live, next, [], None, d, c)
    requires multiset(live2) == multiset(live) + multiset(Handles(g)) && forall h :: h in live2 ==> h < next2
    ensures Balanced(live2, next2, [], Some(g), d, c)
  {
    hide Owned, Handles;
  }

  /** Rewriting inputs moves no handle. */
  lemma BalancedInputs(live: set<nat>, next: nat, g: Graph, indices: seq<int>, mask: seq<bool>,
                       d: map<int, Bucket>, c: map<int, Bucket>)
    requires Balanced(live, next, [], Some(g), d, c)
    ensures Balanced(live, next, [], Some(g.(indices := indices, mask := mask)), d, c)
  {
    hide Owned;
  }

  lemma CtxOwned(g: Graph)
    ensures multiset(Handles(g))[g.ctx] >= 1
  {
  }

  ghost predicate DecodeBuckets(m: map<int, Bucket>, maxCtx: nat) {
    forall k {:trigger m[k]} :: k in m ==>
      GraphOk(m[k].graph, maxCtx) && m[k].s == m[k].graph.s == 1 && m[k].nKv == m[k].graph.nKv == k
  }

  ghost predicate ChunkBuckets(m: map<int, Bucket>, maxCtx: nat) {
    forall k {:trigger m[k]} :: k in m ==>
      && GraphOk(m[k].graph, maxCtx) && m[k].s == m[k].graph.s > 1 && m[k].nKv == m[k].graph.nKv
      && k == BucketKey(m[k].graph.s, m[k].graph.nKv)
  }

  lemma DecodeTake(m: map<int, Bucket>, k: int, maxCtx: nat)
    requires k in m && DecodeBuckets(m, maxCtx)
    ensures DecodeBuckets(m - {k}, maxCtx)
    ensures GraphOk(m[k].graph, maxCtx) && m[k].graph.s == 1 && m[k].graph.nKv == k
  {
    hide GraphOk;
  }

  lemma DecodePut(m: map<int, Bucket>, b: Bucket, maxCtx: nat)
    requires DecodeBuckets(m, maxCtx) && GraphOk(b.graph, maxCtx) && b.s == b.graph.s == 1 && b.nKv == b.graph.nKv
    ensures DecodeBuckets(m[b.nKv := b], maxCtx)
  {
    hide GraphOk;
  }

  lemma ChunkTake(m: map<int, Bucket>, k: int, maxCtx: nat)
    requires k in m && ChunkBuckets(m, maxCtx)
    ensures ChunkBuckets(m - {k}, maxCtx)
    ensures GraphOk(m[k].graph, maxCtx) && m[k].graph.s > 1
    ensures k == BucketKey(m[k].graph.s, m[k].graph.nKv)
  {
    hide GraphOk, BucketKey;
  }

  lemma ChunkPut(m: map<int, Bucket>, b: Bucket, maxCtx: nat)
    requires ChunkBuckets(m, maxCtx) && GraphOk(b.graph, maxCtx) && b.s == b.graph.s > 1 && b.nKv == b.graph.nKv
    ensures ChunkBuckets(m[BucketKey(b.graph.s, b.graph.nKv) := b], maxCtx)
  {
    hide GraphOk, BucketKey;
  }

  /** The keys of two well-formed graphs tell them apart. */
  lemma KeyIs(g: Graph, s: nat, nKv: nat, maxCtx: nat)
    requires GraphOk(g, maxCtx) && maxCtx < KEY_BASE && nKv < KEY_BASE && BucketKey(s, nKv) == BucketKey(g.s, g.nKv)
    ensures g.s == s && g.nKv == nKv
  {
    hide BucketKey;
    BucketKeyInjective(s, nKv, g.s, g.nKv);
  }

  class ModelExecutor {
    const maxCtx: nat
    const nPad: int
    var active: Option<Graph>
    var decodeCached: bool
    var decodeNKv: int
    var decodePos: int
    var chunkCached: bool
    var chunkNKv: int
    var chunkS: int
    var chunkPos: int
    var decodeBuckets: map<int, Bucket>
    var chunkBuckets: map<int, Bucket>
    var prepared: bool
    var lastEnv: Option<Env>
    var lastReuse: bool
    var live: set<nat>      // handles allocated and not yet freed
    var nextHandle: nat

    ghost predicate Ledger(extra: seq<nat>)
      reads this
    {
      Balanced(live, nextHandle, extra, active, decodeBuckets, chunkBuckets)
    }

    ghost predicate Setup() {
      1 <= maxCtx < KEY_BASE && nPad > 1
    }

    /** The buckets and the active graph are what their keys and flags say. */
    ghost predicate Shapes()
      reads this
    {
      && Setup()
      && DecodeBuckets(decodeBuckets, maxCtx) && ChunkBuckets(chunkBuckets, maxCtx)
      && (active.Some? ==> GraphOk(active.value, maxCtx))
      && (decodeCached ==> active.Some? && !chunkCached && active.value.s == 1 && active.value.nKv == decodeNKv)
      && (chunkCached ==> active.Some? && active.value.s == chunkS > 1 && active.value.nKv == chunkNKv)
    }

    ghost predicate Ready(env: Env)
      reads this
    {
      Setup() && active.Some? && GraphOk(active.value, maxCtx)
      && ViewOf(active.value) == FreshView(env, maxCtx, nPad)
    }

    /** The flags follow the last environment, and a prepared graph is what that environment asks for. */
    ghost predicate Current()
      reads this
    {
      && (decodeCached ==> lastEnv.Some? && lastEnv.value.s == 1)
      && (chunkCached ==> lastEnv.Some? && lastEnv.value.s == chunkS)
      && (prepared ==> lastEnv.Some? && Ready(lastEnv.value) && (decodeCached || chunkCached))
    }

    ghost predicate Valid()
      reads this
    {
      Ledger([]) && Shapes() && Current()
    }

    constructor (maxCtx: nat, nPad: int)
      requires 1 <= maxCtx < KEY_BASE && nPad > 1
      ensures Valid() && this.maxCtx == maxCtx && this.nPad == nPad && live == {}
    {
      this.maxCtx := maxCtx;
      this.nPad := nPad;
      active := None;
      decodeCached, decodeNKv, decodePos := false, -1, -1;
      chunkCached, chunkNKv, chunkS, chunkPos := false, -1, -1, -1;
      decodeBuckets, chunkBuckets := map[], map[];
      prepared, lastEnv, lastReuse := false, None, false;
      live, nextHandle := {}, 0;
      new;
      OwnedNone();
    }

    /* ---------- Handles ---------- */

    /** Freeing something twice, or something never allocated, is not allowed. */
    method FreeHandle(h: nat)
      requires h in live
      modifies this`live
      ensures live == old(live) - {h}
    {
      live := live - {h};
    }

    /** free_prepared_bucket */
    method FreeGraph(g: Graph)
      requires multiset(Handles(g)) <= multiset(live)
      modifies this`live
      ensures multiset(live) == multiset(old(live)) - multiset(Handles(g))
      ensures live <= old(live)
    {
      HandlesDistinct(g, live);
      if g.galloc.Some? {
        FreeHandle(g.galloc.value);
      }
      if g.buffer.Some? {
        FreeHandle(g.buffer.value);
      }
      FreeHandle(g.ctx);
    }

    lemma HandlesDistinct(g: Graph, live: set<nat>)
      requires multiset(Handles(g)) <= multiset(live)
      ensures g.ctx in live
      ensures g.galloc.Some? ==> g.galloc.value in live && g.galloc.value != g.ctx
      ensures g.buffer.Some? ==> g.buffer.value in live && g.buffer.value != g.ctx
      ensures g.galloc.Some? && g.buffer.Some? ==> g.galloc.value != g.buffer.value
    {
      var m := multiset(Handles(g));
      assert m == multiset(OptHandle(g.galloc)) + multiset(OptHandle(g.buffer)) + multiset{g.ctx};
      assert forall h :: m[h] <= multiset(live)[h] <= 1;
      assert g.galloc.Some? ==> multiset(OptHandle(g.galloc)) == multiset{g.galloc.value};
      assert g.buffer.Some? ==> multiset(OptHandle(g.buffer)) == multiset{g.buffer.value};
      assert m[g.ctx] >= 1;
      assert g.galloc.Some? ==> m[g.galloc.value] >= 1;
      assert g.buffer.Some? ==> m[g.buffer.value] >= 1;
      assert g.galloc == Some(g.ctx) || g.buffer == Some(g.ctx) ==> m[g.ctx] >= 2;
      assert g.galloc.Some? && g.galloc == g.buffer ==> m[g.galloc.value] >= 2;
    }

    method NewHandle() returns (h: nat)
      modifies this`live, this`nextHandle
      requires forall x :: x in live ==> x < nextHandle
      ensures h == old(nextHandle) && live == old(live) + {h} && nextHandle == h + 1 && h !in old(live)
    {
      h := nextHandle;
      nextHandle := nextHandle + 1;
      live := live + {h};
    }

    /* ---------- Stashing ---------- */

    /** The active graph goes into the map as b; an entry of another graph that was there is freed. */
    method PutDecode(key: int, b: Bucket, ghost extra: seq<nat>)
      requires Ledger(extra) && active == Some(b.graph)
      modifies this`decodeBuckets, this`live, this`active
      ensures Ledger(extra) && active.None? && decodeBuckets == old(decodeBuckets)[key := b]
    {
      hide Owned, Handles, Balanced;
      if key in decodeBuckets {
        BalancedOver(live, nextHandle, extra, decodeBuckets, chunkBuckets, key, b);
        if decodeBuckets[key].graph.ctx != b.graph.ctx {
          FreeGraph(decodeBuckets[key].graph);
          BalancedReplace(old(live), live, nextHandle, extra, decodeBuckets, chunkBuckets, key, b);
        }
      } else {
        BalancedStash(live, nextHandle, extra, decodeBuckets, chunkBuckets, key, b);
      }
      decodeBuckets := decodeBuckets[key := b];
      active := None;
    }

    method PutChunk(key: int, b: Bucket, ghost extra: seq<nat>)
      requires Ledger(extra) && active == Some(b.graph)
      modifies this`chunkBuckets, this`live, this`active
      ensures Ledger(extra) && active.None? && chunkBuckets == old(chunkBuckets)[key := b]
    {
      hide Owned, Handles, Balanced;
      BalancedSwap(live, nextHandle, extra, active, decodeBuckets, chunkBuckets);
      if key in chunkBuckets {
        BalancedOver(live, nextHandle, extra, chunkBuckets, decodeBuckets, key, b);
        if chunkBuckets[key].graph.ctx != b.graph.ctx {
          FreeGraph(chunkBuckets[key].graph);
          BalancedReplace(old(live), live, nextHandle, extra, chunkBuckets, decodeBuckets, key, b);
        }
      } else {
        BalancedStash(live, nextHandle, extra, chunkBuckets, decodeBuckets, key, b);
      }
      chunkBuckets := chunkBuckets[key := b];
      active := None;
      BalancedSwap(live, nextHandle, extra, active, chunkBuckets, decodeBuckets);
    }

    /** stash_active_decode_bucket */
    method StashDecode(ghost extra: seq<nat>)
      requires Ledger(extra) && Shapes()
      modifies this
      ensures Ledger(extra) && Shapes() && lastEnv == old(lastEnv) && chunkBuckets == old(chunkBuckets)
      ensures !decodeCached
      ensures old(decodeCached) ==> active.None? && !prepared && !chunkCached
      ensures !old(decodeCached) ==>
        active == old(active) && chunkCached == old(chunkCached) && chunkS == old(chunkS) && prepared == old(prepared)
        && chunkNKv == old(chunkNKv)
    {
      hide Owned, Handles, GraphOk, BucketKey, DecodeBuckets, ChunkBuckets, Balanced;
      if !decodeCached || decodeNKv < 0 || active.None? {
        return;
      }
      var b := Bucket(1, decodeNKv, decodePos, active.value);
      DecodePut(decodeBuckets, b, maxCtx);
      PutDecode(decodeNKv, b, extra);
      decodeCached, decodeNKv, decodePos := false, -1, -1;
      prepared := false;
    }

    /** stash_active_chunk_bucket */
    method StashChunk(ghost extra: seq<nat>)
      requires Ledger(extra) && Shapes()
      modifies this
      ensures Ledger(extra) && Shapes() && lastEnv == old(lastEnv) && decodeBuckets == old(decodeBuckets)
      ensures !chunkCached
      ensures old(chunkCached) ==> active.None? && !prepared && !decodeCached
      ensures !old(chunkCached) ==>
        active == old(active) && decodeCached == old(decodeCached) && decodeNKv == old(decodeNKv)
        && prepared == old(prepared)
    {
      hide Owned, Handles, GraphOk, BucketKey, DecodeBuckets, ChunkBuckets, Balanced;
      if !chunkCached || chunkNKv < 0 || chunkS < 0 || active.None? {
        return;
      }
      var b := Bucket(chunkS, chunkNKv, chunkPos, active.value);
      ChunkPut(chunkBuckets, b, maxCtx);
      PutChunk(BucketKey(chunkS, chunkNKv), b, extra);
      chunkCached, chunkNKv, chunkS, chunkPos := false, -1, -1, -1;
      prepared := false;
    }

    /** Frees whatever is active. */
    method FreeActive(ghost extra: seq<nat>)
      requires Ledger(extra)
      modifies this`active, this`live
      ensures Ledger(extra) && active.None?
    {
      hide Owned, Handles, Balanced;
      if active.Some? {
        BalancedActive(live, nextHandle, extra, active.value, decodeBuckets, chunkBuckets);
        FreeGraph(active.value);
        BalancedDrop(old(live), live, nextHandle, extra, active.value, decodeBuckets, chunkBuckets);
        active := None;
      }
    }

    /* ---------- Activating a stashed graph ---------- */

    /** Stashes the live graph, or frees it if nothing remembers it. */
    method ClearForDecode(nKv: int, ghost extra: seq<nat>)
      requires Ledger(extra) && Shapes() && !(decodeCached && decodeNKv == nKv)
      modifies this
      ensures Ledger(extra) && Shapes() && active.None? && lastEnv == old(lastEnv)
    {
      hide Owned, Handles, GraphOk, BucketKey, DecodeBuckets, ChunkBuckets, Ready, Balanced;
      StashChunk(extra);
      if decodeCached && decodeNKv >= 0 && decodeNKv != nKv {
        StashDecode(extra);
      } else if active.Some? && !(decodeCached && decodeNKv == nKv) {
        FreeActive(extra);
      }
    }

    method ClearForChunk(s: nat, nKv: nat, ghost extra: seq<nat>)
      requires Ledger(extra) && Shapes() && !(chunkCached && chunkS == s && chunkNKv == nKv)
      modifies this
      ensures Ledger(extra) && Shapes() && active.None? && lastEnv == old(lastEnv)
    {
      hide Owned, Handles, GraphOk, BucketKey, DecodeBuckets, ChunkBuckets, Ready, Balanced;
      StashDecode(extra);
      if chunkCached && (chunkS != s || chunkNKv != nKv) {
        StashChunk(extra);
      } else if active.Some? && !(chunkCached && chunkS == s && chunkNKv == nKv) {
        FreeActive(extra);
      }
    }

    /** Moves a bucket out of the map. */
    method TakeDecode(nKv: int) returns (slot: Bucket)
      requires Ledger([]) && Shapes() && nKv in decodeBuckets
      modifies this`decodeBuckets
      ensures Ledger(Handles(slot.graph)) && Shapes()
      ensures GraphOk(slot.graph, maxCtx) && slot.graph.s == 1 && slot.graph.nKv == nKv
    {
      hide Owned, Handles, GraphOk, BucketKey, DecodeBuckets, ChunkBuckets, Balanced;
      slot := decodeBuckets[nKv];
      BalancedTake(live, nextHandle, active, decodeBuckets, chunkBuckets, nKv);
      DecodeTake(decodeBuckets, nKv, maxCtx);
      decodeBuckets := decodeBuckets - {nKv};
    }

    method TakeChunk(s: nat, nKv: nat) returns (slot: Bucket)
      requires Ledger([]) && Shapes() && nKv < KEY_BASE && BucketKey(s, nKv) in chunkBuckets
      modifies this`chunkBuckets
      ensures Ledger(Handles(slot.graph)) && Shapes()
      ensures GraphOk(slot.graph, maxCtx) && slot.graph.s == s > 1 && slot.graph.nKv == nKv
    {
      hide Owned, Handles, GraphOk, BucketKey, DecodeBuckets, ChunkBuckets, Balanced;
      var key := BucketKey(s, nKv);
      slot := chunkBuckets[key];
      ChunkTake(chunkBuckets, key, maxCtx);
      KeyIs(slot.graph, s, nKv, maxCtx);
      BalancedSwap(live, nextHandle, [], active, decodeBuckets, chunkBuckets);
      BalancedTake(live, nextHandle, active, chunkBuckets, decodeBuckets, key);
      BalancedSwap(live, nextHandle, Handles(slot.graph), active, chunkBuckets - {key}, decodeBuckets);
      chunkBuckets := chunkBuckets - {key};
    }

    method InstallDecode(g: Graph, pos: int)
      requires Ledger(Handles(g)) && Shapes() && active.None? && GraphOk(g, maxCtx) && g.s == 1
      modifies this
      ensures Ledger([]) && Shapes() && decodeCached && decodeNKv == g.nKv
    {
      hide Owned, Handles, GraphOk, BucketKey, DecodeBuckets, ChunkBuckets, Balanced;
      BalancedActivate(live, nextHandle, g, decodeBuckets, chunkBuckets);
      active := Some(g);
      chunkCached, chunkNKv, chunkS, chunkPos := false, -1, -1, -1;
      decodeCached, decodeNKv, decodePos := true, g.nKv, pos;
      prepared := true;
    }

    method InstallChunk(g: Graph, pos: int)
      requires Ledger(Handles(g)) && Shapes() && active.None? && GraphOk(g, maxCtx) && g.s > 1
      modifies this
      ensures Ledger([]) && Shapes() && chunkCached && chunkS == g.s && chunkNKv == g.nKv
    {
      hide Owned, Handles, GraphOk, BucketKey, DecodeBuckets, ChunkBuckets, Balanced;
      BalancedActivate(live, nextHandle, g, decodeBuckets, chunkBuckets);
      active := Some(g);
      decodeCached, decodeNKv, decodePos := false, -1, -1;
      chunkCached, chunkS, chunkNKv, chunkPos := true, g.s, g.nKv, pos;
      prepared := true;
    }

    /** activate_decode_bucket */
    method ActivateDecode(nKv: int) returns (ok: bool)
      requires Valid() && !(decodeCached && decodeNKv == nKv)
      modifies this
      ensures Ledger([]) && Shapes() && (!ok ==> Current())
      ensures ok ==> decodeCached && decodeNKv == nKv
    {
      hide Owned, Handles, GraphOk, BucketKey, DecodeBuckets, ChunkBuckets, Ready, Balanced;
      if nKv !in decodeBuckets {
        return false;
      }
      var slot := TakeDecode(nKv);
      ClearForDecode(nKv, Handles(slot.graph));
      InstallDecode(slot.graph, slot.pos);
      return true;
    }

    /** activate_chunk_bucket */
    method ActivateChunk(s: nat, nKv: nat) returns (ok: bool)
      requires Valid() && nKv < KEY_BASE && !(chunkCached && chunkS == s && chunkNKv == nKv)
      modifies this
      ensures Ledger([]) && Shapes() && (!ok ==> Current())
      ensures ok ==> chunkCached && chunkS == s && chunkNKv == nKv
    {
      hide Owned, Handles, GraphOk, BucketKey, DecodeBuckets, ChunkBuckets, Ready, Balanced;
      if BucketKey(s, nKv) !in chunkBuckets {
        return false;
      }
      var slot := TakeChunk(s, nKv);
      ClearForChunk(s, nKv, Handles(slot.graph));
      InstallChunk(slot.graph, slot.pos);
      return true;
    }

    /* ---------- Moving a graph to another position ---------- */

    /** set_decode_pos */
    method SetDecodePos(pos: nat)
      requires Ledger([]) && Shapes() && decodeCached
      modifies this`decodePos, this`active
      ensures Ledger([]) && Shapes()
      ensures decodeNKv == PadKvLen(pos + 1, maxCtx, nPad) ==> Ready(Env(1, pos))
    {
      hide BucketKey, PadKvLen, Balanced, DecodeBuckets, ChunkBuckets;
      decodePos := pos;
      var g := active.value;
      var n := if decodeNKv > 0 then decodeNKv else PadKvLen(pos + 1, maxCtx, nPad);
      var mask := FillCausalMask(g.mask, pos, g.s, n);
      BalancedInputs(live, nextHandle, g, [pos], mask, decodeBuckets, chunkBuckets);
      active := Some(g.(indices := [pos], mask := mask));
      assert Rows(pos, 1) == [pos];
      assert mask[..Times(1, n)] == CausalMask(pos, 1, n);
    }

    /** The rows a graph writes. */
    method RowIndices(pos: nat, s: nat) returns (indices: seq<int>)
      ensures indices == Rows(pos, s)
    {
      indices := [];
      for i := 0 to s
        invariant indices == Rows(pos, i)
      {
        indices := indices + [pos + i];
      }
    }

    /** set_chunk_pos */
    method SetChunkPos(pos: nat, s: nat)
      requires Ledger([]) && Shapes() && chunkCached && chunkS == s
      modifies this`chunkPos, this`chunkS, this`active
      ensures Ledger([]) && Shapes() && chunkS == s
      ensures chunkNKv == PadKvLen(pos + s, maxCtx, nPad) ==> Ready(Env(s, pos))
    {
      hide BucketKey, PadKvLen, Balanced, DecodeBuckets, ChunkBuckets;
      chunkPos, chunkS := pos, s;
      var g := active.value;
      var indices := g.indices;
      if |indices| == s {
        indices := RowIndices(pos, s);
      }
      var n := if chunkNKv > 0 then chunkNKv else PadKvLen(pos + s, maxCtx, nPad);
      var mask := FillCausalMask(g.mask, pos, s, n);
      BalancedInputs(live, nextHandle, g, indices, mask, decodeBuckets, chunkBuckets);
      active := Some(g.(indices := indices, mask := mask));
      assert mask[..Times(s, n)] == CausalMask(pos, s, n);
    }

    /* ---------- Rebuilding ---------- */

    method FreeDecode(k: int)
      requires Ledger([]) && k in decodeBuckets
      modifies this`decodeBuckets, this`live
      ensures Ledger([]) && decodeBuckets == old(decodeBuckets) - {k}
    {
      hide Owned, Handles, Balanced;
      var g := decodeBuckets[k].graph;
      BalancedTake(live, nextHandle, active, decodeBuckets, chunkBuckets, k);
      FreeGraph(g);
      decodeBuckets := decodeBuckets - {k};
      BalancedFree(old(live), live, nextHandle, g, active, decodeBuckets, chunkBuckets);
    }

    method FreeChunk(k: int)
      requires Ledger([]) && k in chunkBuckets
      modifies this`chunkBuckets, this`live
      ensures Ledger([]) && chunkBuckets == old(chunkBuckets) - {k}
    {
      hide Owned, Handles, Balanced;
      var g := chunkBuckets[k].graph;
      BalancedSwap(live, nextHandle, [], active, decodeBuckets, chunkBuckets);
      BalancedTake(live, nextHandle, active, chunkBuckets, decodeBuckets, k);
      FreeGraph(g);
      chunkBuckets := chunkBuckets - {k};
      BalancedFree(old(live), live, nextHandle, g, active, chunkBuckets, decodeBuckets);
      BalancedSwap(live, nextHandle, [], active, chunkBuckets, decodeBuckets);
    }

    /** Chunk graphs for another number of rows are dropped. */
    method DropOtherChunks(s: nat)
      requires Ledger([]) && Shapes()
      modifies this`chunkBuckets, this`live
      ensures Ledger([]) && Shapes()
      ensures forall k :: k in chunkBuckets ==> chunkBuckets[k].s == s
    {
      hide Owned, Handles, GraphOk, BucketKey, DecodeBuckets, Balanced;
      var todo := chunkBuckets.Keys;
      while todo != {}
        invariant Ledger([]) && Shapes()
        invariant forall k :: k in chunkBuckets && k !in todo ==> chunkBuckets[k].s == s
        decreases todo
      {
        var k := AnyOf(todo);
        if k in chunkBuckets && chunkBuckets[k].s != s {
          FreeChunk(k);
        }
        todo := todo - {k};
      }
    }

    /** Memory the allocator hands out holds anything. */
    method Uninitialised(n: nat) returns (mask: seq<bool>)
      ensures |mask| == n
    {
      mask := seq(n, i => false);
    }

    /** Builds the graph for env and fills its inputs. */
    method Build(env: Env, reuse: bool) returns (g: Graph)
      requires Setup() && env.s >= 1 && forall h :: h in live ==> h < nextHandle
      modifies this`live, this`nextHandle
      ensures multiset(live) == multiset(old(live)) + multiset(Handles(g)) && forall h :: h in live ==> h < nextHandle
      ensures GraphOk(g, maxCtx) && g.s == env.s && ViewOf(g) == FreshView(env, maxCtx, nPad)
    {
      hide PadKvLen, CausalMask, Times, Handles;
      var ctx := NewHandle();
      var h := NewHandle();
      PadCovers(env.pos + env.s, maxCtx, nPad);
      var nKv := PadFor(env, maxCtx, nPad);
      var mask := FreshMask(env, nKv);
      var indices := RowIndices(env.pos, env.s);
      g := Graph(ctx, if reuse then Some(h) else None, if reuse then None else Some(h), env.s, nKv, indices, mask);
      TwoHandles(g, h);
      AddTwo(old(live), ctx, h);
    }

    lemma TwoHandles(g: Graph, h: nat)
      requires (g.galloc == Some(h) && g.buffer.None?) || (g.galloc.None? && g.buffer == Some(h))
      ensures Handles(g) == [h, g.ctx]
    {
    }

    lemma AddTwo(s: set<nat>, a: nat, b: nat)
      requires a !in s && b !in s && a != b
      ensures multiset(s + {a} + {b}) == multiset(s) + multiset([b, a])
    {
    }

    method FreshMask(env: Env, nKv: nat) returns (mask: seq<bool>)
      requires env.s >= 1 && 1 <= nKv <= maxCtx
      ensures |mask| == Times(env.s, maxCtx) && Times(env.s, nKv) <= |mask|
      ensures mask[..Times(env.s, nKv)] == CausalMask(env.pos, env.s, nKv)
    {
      mask := Uninitialised(Times(env.s, maxCtx));
      TimesWider(env.s, nKv, maxCtx);
      mask := FillCausalMask(mask, env.pos, env.s, nKv);
    }

    lemma NextAbove()
      requires Ledger([])
      ensures forall h :: h in live ==> h < nextHandle
    {
      hide Owned;
    }

    /** The rebuild path: stash the live graph, drop what cannot be used again, build. */
    method Rebuild(env: Env, reuse: bool)
      requires Ledger([]) && Shapes() && env.s >= 1
      modifies this
      ensures Ledger([]) && Shapes() && Ready(env)
      ensures decodeCached <==> env.s == 1
      ensures chunkCached <==> env.s > 1
      ensures chunkCached ==> chunkS == env.s
    {
      hide Owned, Handles, BucketKey, FreshView, ViewOf, Balanced;
      if env.s > 1 {
        StashChunk([]);
        StashDecode([]);
        DropOtherChunks(env.s);
      } else {
        StashDecode([]);
        StashChunk([]);
      }
      FreeActive([]);
      NextAbove();
      label built:
      var g := Build(env, reuse);
      BalancedBuild(old@built(live), live, old@built(nextHandle), nextHandle, g, decodeBuckets, chunkBuckets);
      active := Some(g);
      if env.s == 1 {
        decodeCached, decodeNKv, decodePos := true, g.nKv, env.pos;
      } else {
        chunkCached, chunkNKv, chunkS, chunkPos := true, g.nKv, env.s, env.pos;
      }
    }

    /* ---------- prepare ---------- */

    /** All symbols but pos are as in the last call. */
    predicate SameS(env: Env)
      reads this
    {
      lastEnv.Some? && lastEnv.value.s == env.s
    }

    /** The decode graph in place, or a stashed one swapped in. */
    method TryDecode(env: Env) returns (done: bool)
      requires Valid() && env.s == 1
      modifies this
      ensures Ledger([]) && Shapes()
      ensures done ==> Ready(env) && decodeCached && !chunkCached
      ensures !done ==> Current()
    {
      hide Owned, Balanced, Handles, BucketKey, FreshView, PadKvLen, GraphOk, DecodeBuckets, ChunkBuckets, ViewOf;
      var nKv := PadKvLen(env.pos + 1, maxCtx, nPad);
      if decodeCached && SameS(env) && nKv == decodeNKv {
        SetDecodePos(env.pos);
        return true;
      }
      var symbolsOk := SameS(env) || (lastEnv.Some? && lastEnv.value.s != 1);
      if symbolsOk {
        var ok := ActivateDecode(nKv);
        if ok {
          SetDecodePos(env.pos);
          return true;
        }
      }
      return false;
    }

    /** The chunk graph in place, or a stashed one swapped in. */
    method TryChunk(env: Env) returns (done: bool)
      requires Valid() && env.s > 1
      modifies this
      ensures Ledger([]) && Shapes()
      ensures done ==> Ready(env) && chunkCached && chunkS == env.s && !decodeCached
      ensures !done ==> Current()
    {
      hide Owned, Balanced, Handles, BucketKey, FreshView, PadKvLen, DecodeBuckets, ChunkBuckets, ViewOf;
      PadCovers(env.pos + env.s, maxCtx, nPad);
      var nKv := PadKvLen(env.pos + env.s, maxCtx, nPad);
      if chunkCached && chunkS == env.s && SameS(env) && |active.value.indices| == env.s && nKv == chunkNKv {
        SetChunkPos(env.pos, env.s);
        return true;
      }
      if SameS(env) {
        var ok := ActivateChunk(env.s, nKv);
        if ok {
          SetChunkPos(env.pos, env.s);
          return true;
        }
      }
      return false;
    }

    /** What a graph that is ready for env shows: its rows, and cell j of row i of its mask. */
    lemma ReadyIs(env: Env, i: nat, j: nat)
      requires Ready(env) && i < env.s && j < active.value.nKv
      ensures var g := active.value;
        && g.s == env.s && g.nKv == PadKvLen(env.pos + env.s, maxCtx, nPad)
        && |g.indices| == env.s && g.indices[i] == env.pos + i
        && 0 <= i * g.nKv + j < |g.mask| && (g.mask[i * g.nKv + j] <==> j <= env.pos + i)
    {
      hide PadKvLen;
      var g := active.value;
      assert g.indices == Rows(env.pos, env.s);
      assert g.mask[..Times(g.s, g.nKv)] == CausalMask(env.pos, env.s, g.nKv);
      TimesIs(i, g.nKv);
      MaskAt(env.pos, env.s, g.nKv, i, j);
      assert g.mask[Times(i, g.nKv) + j] == g.mask[..Times(g.s, g.nKv)][Times(i, g.nKv) + j];
    }

    /** Reuse in place, swap in or rebuild. */
    method Refresh(env: Env, reuse: bool)
      requires Valid() && env.s >= 1
      modifies this
      ensures Valid() && Ready(env) && lastEnv == Some(env)
      ensures decodeCached <==> env.s == 1
      ensures chunkCached <==> env.s > 1
    {
      hide Owned, Balanced, Handles, BucketKey, FreshView, ViewOf, GraphOk, DecodeBuckets, ChunkBuckets;
      var done;
      if env.s == 1 {
        done := TryDecode(env);
      } else {
        done := TryChunk(env);
      }
      if done {
        lastEnv := Some(env);
        return;
      }
      if prepared && lastEnv == Some(env) && lastReuse == reuse {
        return;
      }
      Rebuild(env, reuse);
      lastEnv, lastReuse, prepared := Some(env), reuse, true;
    }

    /**
     After any call the active graph shows what one built from scratch would show, whatever was reused or
     swapped in, and every handle still has exactly one owner.
     */
    method Prepare(env: Env, reuse: bool)
      requires Valid() && env.s >= 1
      modifies this
      ensures Valid() && Ready(env) && lastEnv == Some(env)
      ensures active.value.s == env.s && active.value.nKv == PadKvLen(env.pos + env.s, maxCtx, nPad)
      ensures |active.value.indices| == env.s && forall i :: 0 <= i < env.s ==> active.value.indices[i] == env.pos + i
      ensures decodeCached <==> env.s == 1
      ensures chunkCached <==> env.s > 1
    {
      hide Balanced, Shapes, PadKvLen, CausalMask;
      Refresh(env, reuse);
      assert active.value.indices == Rows(env.pos, env.s);
    }

    /** The destructor: everything is freed, once. */
    method Close()
      requires Valid()
      modifies this
      ensures live == {}
    {
      hide Balanced, BucketKey, GraphOk, Shapes, Current;
      while decodeBuckets != map[]
        invariant Ledger([])
        decreases decodeBuckets.Keys
      {
        var k := AnyOf(decodeBuckets.Keys);
        FreeDecode(k);
      }
      while chunkBuckets != map[]
        invariant Ledger([]) && decodeBuckets == map[]
        decreases chunkBuckets.Keys
      {
        var k := AnyOf(chunkBuckets.Keys);
        FreeChunk(k);
      }
      FreeActive([]);
      NothingLive(live, nextHandle);
    }
  }

  lemma NothingLive(live: set<nat>, next: nat)
    requires Balanced(live, next, [], None, map[], map[])
    ensures live == {}
  {
    OwnedNone();
    assert multiset(live) == multiset{};
    assert forall h :: h in live ==> h in multiset(live);
  }
}
