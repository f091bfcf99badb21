/** What prefix caching saves: with caching on, no hash collisions and no eviction, exactly the shared pages. */
module SchedulerPrefix {
  import opened Arith
  import opened RadixModel
  import opened SchedulerModel
  import opened SchedulerRuns

  ghost predicate Collisionless(hash: Chunk -> int, chunks: set<Chunk>) {
    forall c, d {:trigger hash(c), hash(d)} :: c in chunks && d in chunks && hash(c) == hash(d) ==> c == d
  }

  ghost predicate PagesWithin(cfg: Config, prompt: seq<int>, chunks: set<Chunk>) {
    cfg.tpp > 0 && forall i :: 0 <= i < |Pages(prompt, cfg.tpp)| ==> Pages(prompt, cfg.tpp)[i] in chunks
  }

  ghost predicate AllWithin(cfg: Config, reqs: map<nat, Request>, chunks: set<Chunk>) {
    forall id {:trigger reqs[id]} :: id in reqs ==> PagesWithin(cfg, reqs[id].prompt, chunks)
  }

  /** p is a non-empty page prefix of request id's prompt. */
  ghost predicate PrefixOf(cfg: Config, reqs: map<nat, Request>, id: nat, p: Path) {
    cfg.tpp > 0 && id in reqs &&
    IsPrefix(p, Pages(reqs[id].prompt, cfg.tpp), 0, |Pages(reqs[id].prompt, cfg.tpp)|)
  }

  /** p is a non-empty page prefix of a prompt with an id below n. */
  ghost predicate Seen(cfg: Config, reqs: map<nat, Request>, n: int, p: Path) {
    exists id {:trigger PrefixOf(cfg, reqs, id, p)} :: 1 <= id < n && PrefixOf(cfg, reqs, id, p)
  }

  /** k is the largest number of pages that the prompt of id shares with an earlier prompt. */
  ghost predicate LongestShared(cfg: Config, reqs: map<nat, Request>, id: nat, k: nat)
    requires cfg.tpp > 0 && id in reqs
  {
    var pages := Pages(reqs[id].prompt, cfg.tpp);
    && k <= |pages|
    && forall j :: 0 < j <= |pages| ==> (j <= k <==> Seen(cfg, reqs, id, Prefix(pages, j)))
  }

  ghost predicate SharedOk(cfg: Config, reqs: map<nat, Request>, id: nat) {
    cfg.tpp > 0 && id in reqs &&
    exists k {:trigger Times(k, cfg.tpp)} ::
      reqs[id].prefixMatched == Times(k, cfg.tpp) && LongestShared(cfg, reqs, id, k)
  }

  ghost function Sum(reqs: map<nat, Request>, n: nat, f: Request -> nat): nat {
    if n == 0 then 0 else Sum(reqs, n - 1, f) + if n in reqs then f(reqs[n]) else 0
  }

  const MATCHED_TOKENS: Request -> nat := (r: Request) => r.prefixMatched
  const IS_HIT: Request -> nat := (r: Request) => if r.prefixMatched > 0 then 1 else 0

  /** The tree holds exactly the page prefixes of the admitted prompts. */
  ghost predicate TreeExact(cfg: Config, reqs: map<nat, Request>, n: int, tree: Tree) {
    forall p {:trigger p in tree.entries} {:trigger Seen(cfg, reqs, n, p)} :: p in tree.entries <==> Seen(cfg, reqs, n, p)
  }

  /** id is the first prompt with the page prefix p. */
  ghost predicate FirstWith(cfg: Config, reqs: map<nat, Request>, id: nat, p: Path) {
    PrefixOf(cfg, reqs, id, p) && !Seen(cfg, reqs, id, p)
  }

  ghost predicate ComputedBy(cfg: Config, tree: Tree, id: nat, p: Path) {
    p.Ext? && (p in tree.entries ==>
      tree.entries[p].k == cfg.pageK(id, Len(p) - 1) && tree.entries[p].v == cfg.pageV(id, Len(p) - 1))
  }

  /** Each stored page is the one computed for the first admitted prompt that has the prefix. */
  ghost predicate HandlesExact(cfg: Config, reqs: map<nat, Request>, n: int, tree: Tree) {
    forall id, p {:trigger FirstWith(cfg, reqs, id, p)} ::
      1 <= id < n && FirstWith(cfg, reqs, id, p) ==> ComputedBy(cfg, tree, id, p)
  }

  /** Admitted requests matched what they share; the others have matched nothing yet. */
  ghost predicate MatchesExact(cfg: Config, reqs: map<nat, Request>, n: int) {
    forall id {:trigger SharedOk(cfg, reqs, id)} {:trigger reqs[id]} :: id in reqs ==>
      if id < n then SharedOk(cfg, reqs, id) else reqs[id].prefixMatched == 0
  }

  ghost predicate TotalsExact(s: State) {
    s.saved == Sum(s.reqs, s.nextId, MATCHED_TOKENS) && s.hits == Sum(s.reqs, s.nextId, IS_HIT)
  }

  ghost predicate PrefixInv(cfg: Config, s: State, chunks: set<Chunk>) {
    && s.caching
    && AllWithin(cfg, s.reqs, chunks)
    && TreeExact(cfg, s.reqs, First(s), s.tree)
    && HandlesExact(cfg, s.reqs, First(s), s.tree)
    && MatchesExact(cfg, s.reqs, First(s))
    && TotalsExact(s)
  }

  /* ---------- Changes that prefix caching does not see ---------- */

  ghost predicate SamePrompts(a: map<nat, Request>, b: map<nat, Request>) {
    && (forall id :: id in a <==> id in b)
    && (forall id :: id in a ==> a[id].prompt == b[id].prompt && a[id].prefixMatched == b[id].prefixMatched)
  }

  ghost predicate SameView(s: State, r: State) {
    && r.caching == s.caching && r.nextId == s.nextId && First(r) == First(s) && r.saved == s.saved && r.hits == s.hits
    && SamePrompts(s.reqs, r.reqs)
    && SameHandles(s.tree, r.tree)
  }

  lemma SeenSame(cfg: Config, a: map<nat, Request>, b: map<nat, Request>, n: int, p: Path)
    requires forall id :: 1 <= id < n ==> (id in a <==> id in b) && (id in a ==> a[id].prompt == b[id].prompt)
    ensures Seen(cfg, a, n, p) <==> Seen(cfg, b, n, p)
  {
    hide IsPrefix, Pages;
    if id: nat :| 1 <= id < n && PrefixOf(cfg, a, id, p) { assert PrefixOf(cfg, b, id, p); }
    if id: nat :| 1 <= id < n && PrefixOf(cfg, b, id, p) { assert PrefixOf(cfg, a, id, p); }
  }

  lemma SharedSame(cfg: Config, a: map<nat, Request>, b: map<nat, Request>, id: nat)
    requires forall x :: 1 <= x <= id ==> (x in a <==> x in b) && (x in a ==> a[x].prompt == b[x].prompt)
    requires id in a && id in b && a[id].prefixMatched == b[id].prefixMatched && id >= 1
    requires SharedOk(cfg, a, id)
    ensures SharedOk(cfg, b, id)
  {
    hide Pages, Seen, Prefix, Times;
    var k :| a[id].prefixMatched == Times(k, cfg.tpp) && LongestShared(cfg, a, id, k);
    var pages := Pages(a[id].prompt, cfg.tpp);
    forall j | 0 < j <= |pages| ensures j <= k <==> Seen(cfg, b, id, Prefix(pages, j)) {
      SeenSame(cfg, a, b, id, Prefix(pages, j));
    }
    assert LongestShared(cfg, b, id, k);
  }

  lemma {:induction false} SumSame(a: map<nat, Request>, b: map<nat, Request>, n: nat)
    requires SamePrompts(a, b)
    ensures Sum(a, n, MATCHED_TOKENS) == Sum(b, n, MATCHED_TOKENS)
    ensures Sum(a, n, IS_HIT) == Sum(b, n, IS_HIT)
  {
    if n > 0 { SumSame(a, b, n - 1); }
  }

  lemma {:induction false} SumUpdate(reqs: map<nat, Request>, n: nat, id: nat, r: Request, f: Request -> nat)
    requires id in reqs
    ensures Sum(reqs[id := r], n, f) == Sum(reqs, n, f) + if 1 <= id <= n then f(r) - f(reqs[id]) else 0
  {
    if n > 0 { SumUpdate(reqs, n - 1, id, r, f); }
  }

  lemma HandlesSame(cfg: Config, a: map<nat, Request>, b: map<nat, Request>, n: int, s: Tree, t: Tree)
    requires forall id :: 1 <= id < n ==> (id in a <==> id in b) && (id in a ==> a[id].prompt == b[id].prompt)
    requires HandlesExact(cfg, a, n, s) && SameHandles(s, t)
    ensures HandlesExact(cfg, b, n, t)
  {
    hide IsPrefix, Pages, Seen;
    forall id, p | 1 <= id < n && FirstWith(cfg, b, id, p) ensures ComputedBy(cfg, t, id, p) {
      SeenSame(cfg, a, b, id, p);
      assert FirstWith(cfg, a, id, p);
      assert ComputedBy(cfg, s, id, p);
    }
  }

  lemma SameViewKeeps(cfg: Config, s: State, r: State, chunks: set<Chunk>)
    requires IdsInv(s) && PrefixInv(cfg, s, chunks) && SameView(s, r)
    ensures PrefixInv(cfg, r, chunks)
  {
    hide Sum, Seen, SharedOk, PagesWithin, HandlesExact;
    SumSame(s.reqs, r.reqs, s.nextId);
    HandlesSame(cfg, s.reqs, r.reqs, First(s), s.tree, r.tree);
    forall p ensures p in r.tree.entries <==> Seen(cfg, r.reqs, First(s), p) {
      SeenSame(cfg, s.reqs, r.reqs, First(s), p);
    }
    forall id | id in r.reqs && id < First(s) ensures SharedOk(cfg, r.reqs, id) {
      assert SharedOk(cfg, s.reqs, id);
      SharedSame(cfg, s.reqs, r.reqs, id);
    }
    forall id | id in r.reqs && id >= First(s) ensures r.reqs[id].prefixMatched == 0 {
      assert s.reqs[id].prefixMatched == 0;
    }
    forall id | id in r.reqs ensures PagesWithin(cfg, r.reqs[id].prompt, chunks) {
      assert PagesWithin(cfg, s.reqs[id].prompt, chunks);
    }
  }

  lemma {:induction false} ReleaseAllHandles(t: Tree, ps: seq<Path>)
    ensures SameHandles(t, ReleaseAll(t, ps))
  {
    if ps != [] { ReleaseAllHandles(t, ps[..|ps| - 1]); }
  }

  lemma EmitView(cfg: Config, s: State, b: nat, id: nat, newPos: int)
    requires b < |s.slots| && id in s.reqs && id in s.held
    ensures SameView(s, Emit(cfg, s, b, id, newPos).0)
  {
    hide ReleaseAll;
    ReleaseAllHandles(s.tree, s.held[id]);
  }

  lemma SameViewTransitive(s: State, t: State, r: State)
    requires SameView(s, t) && SameView(t, r)
    ensures SameView(s, r)
  {
  }

  lemma {:induction false} DecodeView(cfg: Config, s: State, b: nat, n: nat)
    requires b <= n <= |s.slots|
    ensures SameView(s, DecodeFrom(cfg, s, b, n).0)
    decreases n - b
  {
    hide Emit, SameView;
    if b == n {
      ViewSelf(s);
    } else if Served(s, b) {
      var id := s.slots[b].value;
      EmitView(cfg, s, b, id, s.reqs[id].currentPos + 1);
      var s1 := Emit(cfg, s, b, id, s.reqs[id].currentPos + 1).0;
      DecodeView(cfg, s1, b + 1, n);
      SameViewTransitive(s, s1, DecodeFrom(cfg, s1, b + 1, n).0);
    } else {
      DecodeView(cfg, s, b + 1, n);
    }
  }

  lemma ViewSelf(s: State)
    ensures SameView(s, s)
  {
  }

  /* ---------- Admission ---------- */

  /** With TreeExact, a prefix of id's prompt is stored exactly when an earlier prompt has it. */
  lemma MatchIsShared(cfg: Config, reqs: map<nat, Request>, id: nat, tree: Tree)
    requires cfg.tpp > 0 && id in reqs && TreeExact(cfg, reqs, id, tree) && PrefixClosed(tree)
    ensures LongestShared(cfg, reqs, id, Match(tree, Pages(reqs[id].prompt, cfg.tpp)).0)
  {
    hide Pages, MatchFrom, Seen, Prefix, PrefixClosed, Match;
    var pages := Pages(reqs[id].prompt, cfg.tpp);
    var k := Match(tree, pages).0;
    forall j | 0 < j <= |pages| ensures j <= k <==> Seen(cfg, reqs, id, Prefix(pages, j)) {
      MatchIsLongest(tree, pages, j);
      assert Prefix(pages, j) in tree.entries <==> Seen(cfg, reqs, id, Prefix(pages, j));
    }
  }

  lemma SeenPage(cfg: Config, reqs: map<nat, Request>, n: int, q: Path, chunks: set<Chunk>)
    requires AllWithin(cfg, reqs, chunks) && Seen(cfg, reqs, n, q)
    ensures q.Ext? && q.page in chunks
  {
    hide Pages;
    var id: nat :| 1 <= id < n && PrefixOf(cfg, reqs, id, q);
    var pages := Pages(reqs[id].prompt, cfg.tpp);
    assert PagesWithin(cfg, reqs[id].prompt, chunks);
    assert q == Prefix(pages, Len(q)) && Len(q) > 0;
    assert q.page == pages[Len(q) - 1];
  }

  lemma NoClashes(cfg: Config, reqs: map<nat, Request>, id: nat, tree: Tree, chunks: set<Chunk>)
    requires cfg.tpp > 0 && id in reqs && TreeExact(cfg, reqs, id, tree)
    requires AllWithin(cfg, reqs, chunks) && Collisionless(cfg.hash, chunks)
    ensures var pages := Pages(reqs[id].prompt, cfg.tpp); NoClash(tree, cfg.hash, pages, |pages|)
  {
    hide Pages, Seen;
    var pages := Pages(reqs[id].prompt, cfg.tpp);
    forall j, q | 0 < j <= |pages| && q in tree.entries && SameBucket(cfg.hash, q, Prefix(pages, j))
      ensures q == Prefix(pages, j)
    {
      assert Seen(cfg, reqs, id, q);
      SeenPage(cfg, reqs, id, q, chunks);
      assert PagesWithin(cfg, reqs[id].prompt, chunks);
      assert Prefix(pages, j).page == pages[j - 1] && pages[j - 1] in chunks;
    }
  }

  /** One more admitted prompt is one more source of prefixes. */
  lemma SeenNext(cfg: Config, reqs: map<nat, Request>, id: nat, p: Path)
    requires id >= 1
    ensures Seen(cfg, reqs, id + 1, p) <==> Seen(cfg, reqs, id, p) || PrefixOf(cfg, reqs, id, p)
  {
    hide PrefixOf;
    if x: nat :| 1 <= x < id + 1 && PrefixOf(cfg, reqs, x, p) {
      if x != id { assert Seen(cfg, reqs, id, p); }
    }
  }

  /** Registering the pages past the match makes the tree hold exactly the prefixes of one more prompt. */
  lemma RegisterExact(cfg: Config, reqs: map<nat, Request>, id: nat, tree: Tree, k: nat, r: Tree, chunks: set<Chunk>,
                      ks: seq<Handles>, vs: seq<Handles>)
    requires cfg.tpp > 0 && id in reqs && id >= 1 && TreeExact(cfg, reqs, id, tree) && Wf(tree, cfg.hash)
    requires AllWithin(cfg, reqs, chunks) && Collisionless(cfg.hash, chunks)
    requires var pages := Pages(reqs[id].prompt, cfg.tpp);
      && k <= |pages|
      && (forall j :: 0 < j <= k ==> Prefix(pages, j) in tree.entries)
      && |ks| == |vs| == |pages| - k
      && r == if |pages| > k then Insert(tree, cfg.hash, pages, k, ks, vs) else tree
    ensures TreeExact(cfg, reqs, id + 1, r)
    ensures |Pages(reqs[id].prompt, cfg.tpp)| > k ==>
      GainsPrefixes(tree, r, Pages(reqs[id].prompt, cfg.tpp), k, |Pages(reqs[id].prompt, cfg.tpp)|, ks, vs)
  {
    hide Pages, Seen, Insert, Wf, Collisionless, AllWithin;
    var pages := Pages(reqs[id].prompt, cfg.tpp);
    if |pages| > k {
      NoClashes(cfg, reqs, id, tree, chunks);
      InsertExact(tree, cfg.hash, pages, k, ks, vs);
    }
    forall p ensures p in r.entries <==> Seen(cfg, reqs, id + 1, p) {
      SeenNext(cfg, reqs, id, p);
      assert p in tree.entries <==> Seen(cfg, reqs, id, p);
      assert p in r.entries <==> p in tree.entries || IsPrefix(p, pages, k, |pages|);
      if PrefixOf(cfg, reqs, id, p) && Len(p) <= k { assert Prefix(pages, Len(p)) in tree.entries; }
    }
  }

  /** The pages registered are the prompt's own; the ones it matched stay those of the first prompt with them. */
  lemma RegisterHandles(cfg: Config, reqs: map<nat, Request>, id: nat, tree: Tree, k: nat, r: Tree)
    requires cfg.tpp > 0 && id in reqs && TreeExact(cfg, reqs, id, tree) && HandlesExact(cfg, reqs, id, tree)
    requires var pages := Pages(reqs[id].prompt, cfg.tpp);
      && k <= |pages|
      && (forall j :: 0 < j <= k ==> Prefix(pages, j) in tree.entries)
      && if |pages| > k then GainsPrefixes(tree, r, pages, k, |pages|, HandlesFrom(cfg.pageK, id, k, |pages|),
                                           HandlesFrom(cfg.pageV, id, k, |pages|)) else r == tree
    ensures HandlesExact(cfg, reqs, id + 1, r)
  {
    hide Pages, Seen, GainsPrefixes, PrefixOf, ComputedBy;
    forall x, p | 1 <= x < id + 1 && FirstWith(cfg, reqs, x, p) ensures ComputedBy(cfg, r, x, p) {
      if x < id {
        SeenBy(cfg, reqs, id, x, p);
        assert ComputedBy(cfg, tree, x, p);
        KeptHandles(cfg, reqs, id, tree, k, r, x, p);
      } else {
        NewHandles(cfg, reqs, id, tree, k, r, p);
      }
    }
  }

  lemma KeptHandles(cfg: Config, reqs: map<nat, Request>, id: nat, tree: Tree, k: nat, r: Tree, x: nat, p: Path)
    requires cfg.tpp > 0 && id in reqs && p in tree.entries && ComputedBy(cfg, tree, x, p)
    requires var pages := Pages(reqs[id].prompt, cfg.tpp);
      && k <= |pages|
      && if |pages| > k then GainsPrefixes(tree, r, pages, k, |pages|, HandlesFrom(cfg.pageK, id, k, |pages|),
                                           HandlesFrom(cfg.pageV, id, k, |pages|)) else r == tree
    ensures ComputedBy(cfg, r, x, p)
  {
    hide Pages;
    assert r.entries[p].(tick := 0) == tree.entries[p].(tick := 0);
  }

  lemma NewHandles(cfg: Config, reqs: map<nat, Request>, id: nat, tree: Tree, k: nat, r: Tree, p: Path)
    requires cfg.tpp > 0 && id in reqs && p !in tree.entries && PrefixOf(cfg, reqs, id, p)
    requires var pages := Pages(reqs[id].prompt, cfg.tpp);
      && k <= |pages|
      && (forall j :: 0 < j <= k ==> Prefix(pages, j) in tree.entries)
      && if |pages| > k then GainsPrefixes(tree, r, pages, k, |pages|, HandlesFrom(cfg.pageK, id, k, |pages|),
                                           HandlesFrom(cfg.pageV, id, k, |pages|)) else r == tree
    ensures ComputedBy(cfg, r, id, p)
  {
    hide Pages;
    assert p == Prefix(Pages(reqs[id].prompt, cfg.tpp), Len(p)) && Len(p) > k;
  }

  lemma SeenBy(cfg: Config, reqs: map<nat, Request>, n: int, id: nat, p: Path)
    requires 1 <= id < n && PrefixOf(cfg, reqs, id, p)
    ensures Seen(cfg, reqs, n, p)
  {
  }

  /** The values a prefill starts from and ends in, spelled out. */
  lemma PrefillParts(cfg: Config, s: State)
    requires cfg.tpp > 0 && CanAdmit(s) && s.caching
    ensures var id := s.pending[0]; var r := Prefill(cfg, s);
      var pages := Pages(s.reqs[id].prompt, cfg.tpp);
      var (k, t) := Match(s.tree, pages);
      var t1 := if k == 0 then t else RetainAll(t, PrefixesTo(pages, k));
      && r.tree == (if |pages| > k then Insert(t1, cfg.hash, pages, k, HandlesFrom(cfg.pageK, id, k, |pages|),
                                               HandlesFrom(cfg.pageV, id, k, |pages|)) else t1)
      && r.reqs[id].prefixMatched == (if k == 0 then s.reqs[id].prefixMatched else Times(k, cfg.tpp))
      && r.saved == s.saved + (if k == 0 then 0 else Times(k, cfg.tpp))
      && r.hits == s.hits + (if k == 0 then 0 else 1)
      && r.caching && r.nextId == s.nextId
      && (exists q {:trigger s.reqs[id := q]} :: r.reqs == s.reqs[id := q] && q.prompt == s.reqs[id].prompt
            && q.prefixMatched == r.reqs[id].prefixMatched)
  {
    hide Match, RetainAll, Insert, PrefixesTo, Pages, Times, FirstFree, HandlesFrom;
    var id := s.pending[0];
    assert Prefill(cfg, s).reqs == s.reqs[id := Prefill(cfg, s).reqs[id]];
  }

  /** The tree after matching and retaining stores the same paths, and the matched ones among them. */
  lemma MatchedTree(cfg: Config, tree: Tree, pages: seq<Chunk>)
    requires Wf(tree, cfg.hash)
    ensures var (k, t) := Match(tree, pages);
      var t1 := if k == 0 then t else RetainAll(t, PrefixesTo(pages, k));
      && Wf(t1, cfg.hash)
      && SameHandles(tree, t1)
      && (forall j :: 0 < j <= k ==> Prefix(pages, j) in t1.entries)
  {
    hide MatchFrom, Match, RetainAll, Wf, SameHandles, PrefixesTo, Prefix;
    var (k, t) := Match(tree, pages);
    MatchedHandles(cfg.hash, tree, pages);
    RetainAllCounts(t, cfg.hash, PrefixesTo(pages, k));
    RetainedToo(tree, t, RetainAll(t, PrefixesTo(pages, k)), pages, k);
  }

  lemma MatchedHandles(hash: Chunk -> int, tree: Tree, pages: seq<Chunk>)
    requires Wf(tree, hash)
    ensures var (k, t) := Match(tree, pages);
      && Wf(t, hash)
      && SameHandles(tree, t)
      && (forall i :: 0 <= i < k ==> PrefixesTo(pages, k)[i] in t.entries)
      && (forall j :: 0 < j <= k ==> Prefix(pages, j) in t.entries)
  {
    hide MatchFrom, Match, Wf;
    MatchedStored(hash, tree, pages);
    var (k, t) := Match(tree, pages);
    forall j | 0 < j <= k ensures Prefix(pages, j) in t.entries { assert PrefixesTo(pages, k)[j - 1] in t.entries; }
  }

  lemma RetainedToo(tree: Tree, t: Tree, r: Tree, pages: seq<Chunk>, k: nat)
    requires SameHandles(tree, t) && SameHandles(t, r) && k <= |pages|
    requires forall j :: 0 < j <= k ==> Prefix(pages, j) in t.entries
    ensures SameHandles(tree, r) && forall j :: 0 < j <= k ==> Prefix(pages, j) in r.entries
  {
  }

  lemma TokensPositive(k: nat, tpp: nat)
    requires k > 0 && tpp > 0
    ensures Times(k, tpp) > 0
  {
  }

  lemma PrefillTotals(cfg: Config, s: State)
    requires cfg.tpp > 0 && CanAdmit(s) && s.caching && IdsInv(s)
    requires TotalsExact(s) && s.reqs[s.pending[0]].prefixMatched == 0
    ensures TotalsExact(Prefill(cfg, s))
  {
    hide Sum, Prefill, IdsInv, Match, Pages, RetainAll, Insert, PrefixesTo, HandlesFrom, Times;
    var id := s.pending[0];
    var r := Prefill(cfg, s);
    PrefillParts(cfg, s);
    PendingBounds(s);
    var q :| r.reqs == s.reqs[id := q] && q.prompt == s.reqs[id].prompt && q.prefixMatched == r.reqs[id].prefixMatched;
    SumUpdate(s.reqs, s.nextId, id, q, MATCHED_TOKENS);
    SumUpdate(s.reqs, s.nextId, id, q, IS_HIT);
    var k := Match(s.tree, Pages(s.reqs[id].prompt, cfg.tpp)).0;
    if k > 0 { TokensPositive(k, cfg.tpp); }
  }

  lemma PendingBounds(s: State)
    requires IdsInv(s) && s.pending != []
    ensures s.pending[0] == First(s) && 1 <= s.pending[0] < s.nextId && s.pending[0] in s.reqs
  {
    assert s.pending[0] == First(s) + 0;
  }

  lemma PrefillMatches(cfg: Config, s: State)
    requires cfg.tpp > 0 && CanAdmit(s) && s.caching && IdsInv(s) && Wf(s.tree, cfg.hash)
    requires TreeExact(cfg, s.reqs, First(s), s.tree) && MatchesExact(cfg, s.reqs, First(s))
    ensures MatchesExact(cfg, Prefill(cfg, s).reqs, First(s) + 1)
  {
    hide Prefill, Match, Pages, RetainAll, Insert, PrefixesTo, HandlesFrom, Seen, SharedOk, TreeExact, IdsInv;
    var id := s.pending[0];
    var r := Prefill(cfg, s).reqs;
    PrefillParts(cfg, s);
    PendingBounds(s);
    var q :| r == s.reqs[id := q] && q.prompt == s.reqs[id].prompt && q.prefixMatched == r[id].prefixMatched;
    MatchShared(cfg, s.reqs, id, s.tree, q);
    forall x | x in r && x < id ensures SharedOk(cfg, r, x) {
      assert SharedOk(cfg, s.reqs, x);
      AllPositive(s, x);
      SharedSame(cfg, s.reqs, r, x);
    }
  }

  lemma AllPositive(s: State, id: nat)
    requires IdsInv(s) && id in s.reqs
    ensures id >= 1
  {
  }

  lemma MatchShared(cfg: Config, reqs: map<nat, Request>, id: nat, tree: Tree, q: Request)
    requires cfg.tpp > 0 && id in reqs && id >= 1 && Wf(tree, cfg.hash) && TreeExact(cfg, reqs, id, tree)
    requires q.prompt == reqs[id].prompt
    requires var k := Match(tree, Pages(reqs[id].prompt, cfg.tpp)).0;
      q.prefixMatched == if k == 0 then 0 else Times(k, cfg.tpp)
    ensures SharedOk(cfg, reqs[id := q], id)
  {
    hide Match, Pages, Seen, Prefix;
    var k := Match(tree, Pages(reqs[id].prompt, cfg.tpp)).0;
    MatchIsShared(cfg, reqs, id, tree);
    var r := reqs[id := q];
    var pages := Pages(reqs[id].prompt, cfg.tpp);
    forall j | 0 < j <= |pages| ensures j <= k <==> Seen(cfg, r, id, Prefix(pages, j)) {
      SeenSame(cfg, reqs, r, id, Prefix(pages, j));
    }
    assert LongestShared(cfg, r, id, k);
    assert q.prefixMatched == Times(k, cfg.tpp);
  }

  lemma PrefillTree(cfg: Config, s: State, chunks: set<Chunk>)
    requires cfg.tpp > 0 && CanAdmit(s) && s.caching && IdsInv(s) && Wf(s.tree, cfg.hash)
    requires Collisionless(cfg.hash, chunks) && AllWithin(cfg, s.reqs, chunks)
    requires TreeExact(cfg, s.reqs, First(s), s.tree)
    requires HandlesExact(cfg, s.reqs, First(s), s.tree)
    ensures TreeExact(cfg, Prefill(cfg, s).reqs, First(s) + 1, Prefill(cfg, s).tree)
    ensures HandlesExact(cfg, Prefill(cfg, s).reqs, First(s) + 1, Prefill(cfg, s).tree)
  {
    hide Prefill, Match, Pages, RetainAll, Insert, PrefixesTo, HandlesFrom, Seen, IdsInv, Wf, Collisionless, AllWithin;
    hide HandlesExact, GainsPrefixes;
    var id := s.pending[0];
    var r := Prefill(cfg, s);
    PrefillParts(cfg, s);
    PendingBounds(s);
    var pages := Pages(s.reqs[id].prompt, cfg.tpp);
    var (k, t) := Match(s.tree, pages);
    var t1 := if k == 0 then t else RetainAll(t, PrefixesTo(pages, k));
    MatchedTree(cfg, s.tree, pages);
    RegisterExact(cfg, s.reqs, id, t1, k, r.tree, chunks,
                  HandlesFrom(cfg.pageK, id, k, |pages|), HandlesFrom(cfg.pageV, id, k, |pages|));
    HandlesSame(cfg, s.reqs, s.reqs, id, s.tree, t1);
    RegisterHandles(cfg, s.reqs, id, t1, k, r.tree);
    HandlesSame(cfg, s.reqs, r.reqs, id + 1, r.tree, r.tree);
    forall p ensures p in r.tree.entries <==> Seen(cfg, r.reqs, id + 1, p) {
      SeenSame(cfg, s.reqs, r.reqs, id + 1, p);
    }
  }

  lemma PrefillWithin(cfg: Config, s: State, chunks: set<Chunk>)
    requires cfg.tpp > 0 && CanAdmit(s) && s.caching && AllWithin(cfg, s.reqs, chunks)
    ensures AllWithin(cfg, Prefill(cfg, s).reqs, chunks)
  {
    hide Prefill, Match, Pages, RetainAll, Insert, PrefixesTo, HandlesFrom, PagesWithin;
    PrefillParts(cfg, s);
    var id := s.pending[0];
    assert PagesWithin(cfg, s.reqs[id].prompt, chunks);
    forall x | x in Prefill(cfg, s).reqs && x in s.reqs ensures PagesWithin(cfg, Prefill(cfg, s).reqs[x].prompt, chunks) {
      assert PagesWithin(cfg, s.reqs[x].prompt, chunks);
    }
  }

  lemma PrefillPrefix(cfg: Config, s: State, chunks: set<Chunk>)
    requires Inv(cfg, s) && CanAdmit(s) && PrefixInv(cfg, s, chunks) && Collisionless(cfg.hash, chunks)
    ensures PrefixInv(cfg, Prefill(cfg, s), chunks)
  {
    hide InvAt, NoLeak, IdsInv, Prefill, TreeExact, MatchesExact, TotalsExact, AllWithin, Wf, Match, Collisionless;
    hide HandlesExact;
    hide RetainAll, Insert, PrefixesTo, Pages, Times;
    InvParts(cfg, s, 0);
    PendingBounds(s);
    RefsWf(cfg.hash, s.tree, s.held);
    PrefillKeeps(cfg, s);
    PrefillParts(cfg, s);
    PrefillWithin(cfg, s, chunks);
    PrefillTree(cfg, s, chunks);
    PrefillMatches(cfg, s);
    HeadUnmatched(cfg, s);
    PrefillTotals(cfg, s);
  }

  lemma HeadUnmatched(cfg: Config, s: State)
    requires IdsInv(s) && s.pending != [] && MatchesExact(cfg, s.reqs, First(s))
    ensures s.reqs[s.pending[0]].prefixMatched == 0
  {
    PendingBounds(s);
  }

  /* ---------- Steps and runs ---------- */

  lemma AdmitOnePrefix(cfg: Config, s: State, chunks: set<Chunk>)
    requires Inv(cfg, s) && CanAdmit(s) && PrefixInv(cfg, s, chunks) && Collisionless(cfg.hash, chunks)
    ensures PrefixInv(cfg, AdmitOne(cfg, s).0, chunks)
  {
    hide InvAt, NoLeak, IdsInv, Prefill, PrefixInv, Emit, SameView, Collisionless;
    hide RefsInv, TokensInv, HeldInv, AllocInv;
    var id, b := s.pending[0], FirstFree(s.slots, 0);
    InvParts(cfg, s, 0);
    PendingBounds(s);
    PrefillPrefix(cfg, s, chunks);
    PrefillKeeps(cfg, s);
    InvParts(cfg, Prefill(cfg, s), id);
    EmitView(cfg, Prefill(cfg, s), b, id, |s.reqs[id].prompt|);
    SameViewKeeps(cfg, Prefill(cfg, s), AdmitOne(cfg, s).0, chunks);
  }

  lemma {:induction false} AdmitAllPrefix(cfg: Config, s: State, chunks: set<Chunk>)
    requires Inv(cfg, s) && PrefixInv(cfg, s, chunks) && Collisionless(cfg.hash, chunks)
    ensures PrefixInv(cfg, AdmitAll(cfg, s).0, chunks)
    decreases |s.pending|
  {
    hide InvAt, NoLeak, AdmitOne, CanAdmit, PrefixInv, Collisionless, IdsInv, RefsInv, TokensInv, HeldInv, AllocInv;
    InvParts(cfg, s, 0);
    if CanAdmit(s) {
      AdmitOneKeeps(cfg, s);
      AdmitOnePrefix(cfg, s, chunks);
      AdmitAllPrefix(cfg, AdmitOne(cfg, s).0, chunks);
    }
  }

  lemma StepPrefix(cfg: Config, s: State, chunks: set<Chunk>)
    requires Inv(cfg, s) && PrefixInv(cfg, s, chunks) && Collisionless(cfg.hash, chunks)
    ensures PrefixInv(cfg, Step(cfg, s).0, chunks)
  {
    hide InvAt, NoLeak, AdmitAll, CanAdmit, DecodeFrom, PrefixInv, Bucket, SameView, Collisionless;
    hide RefsInv, TokensInv, HeldInv, AllocInv, IdsInv;
    InvParts(cfg, s, 0);
    if CanAdmit(s) {
      AdmitAllPrefix(cfg, s, chunks);
    } else if !Idle(s.slots) {
      DecodeStepView(cfg, s);
      SameViewKeeps(cfg, s, FreeIfIdle(DecodeFrom(cfg, Pad(s, Bucket(s)), 0, Bucket(s)).0), chunks);
    }
  }

  lemma DecodeStepView(cfg: Config, s: State)
    ensures SameView(s, FreeIfIdle(DecodeFrom(cfg, Pad(s, Bucket(s)), 0, Bucket(s)).0))
  {
    hide DecodeFrom, Bucket;
    DecodeView(cfg, Pad(s, Bucket(s)), 0, Bucket(s));
  }

  lemma AddPrefix(cfg: Config, s: State, prompt: seq<int>, maxNew: int, eos: int, chunks: set<Chunk>)
    requires Inv(cfg, s) && PrefixInv(cfg, s, chunks) && PagesWithin(cfg, prompt, chunks)
    ensures PrefixInv(cfg, Add(cfg, s, prompt, maxNew, eos), chunks)
  {
    hide Seen, SharedOk, PagesWithin, Sum, RefsInv, TokensInv, HeldInv, AllocInv, HandlesExact;
    HandlesSame(cfg, s.reqs, Add(cfg, s, prompt, maxNew, eos).reqs, First(s), s.tree, s.tree);
    var r := Add(cfg, s, prompt, maxNew, eos);
    assert First(r) == First(s);
    forall p ensures p in r.tree.entries <==> Seen(cfg, r.reqs, First(s), p) {
      SeenSame(cfg, s.reqs, r.reqs, First(s), p);
    }
    forall id | id in r.reqs && id < First(s) ensures SharedOk(cfg, r.reqs, id) {
      assert SharedOk(cfg, s.reqs, id);
      SharedSame(cfg, s.reqs, r.reqs, id);
    }
    forall id | id in r.reqs && id >= First(s) ensures r.reqs[id].prefixMatched == 0 {
      if id in s.reqs { assert s.reqs[id].prefixMatched == 0; }
    }
    forall id | id in r.reqs ensures PagesWithin(cfg, r.reqs[id].prompt, chunks) {
      if id in s.reqs { assert PagesWithin(cfg, s.reqs[id].prompt, chunks); }
    }
    SumFresh(s.reqs, r.reqs, s.nextId, MATCHED_TOKENS);
    SumFresh(s.reqs, r.reqs, s.nextId, IS_HIT);
  }

  lemma {:induction false} SumFresh(a: map<nat, Request>, b: map<nat, Request>, n: nat, f: Request -> nat)
    requires n !in a && n in b && b == a[n := b[n]] && n + 1 !in b && f(b[n]) == 0
    ensures Sum(b, n + 1, f) == Sum(a, n, f)
  {
    SumBelow(a, b, n, n, f);
  }

  lemma {:induction false} SumBelow(a: map<nat, Request>, b: map<nat, Request>, n: nat, m: nat, f: Request -> nat)
    requires n !in a && n in b && b == a[n := b[n]] && m <= n && f(b[n]) == 0
    ensures Sum(b, m, f) == Sum(a, m, f)
  {
    if m > 0 { SumBelow(a, b, n, m - 1, f); }
  }

  /** The events of a closed workload: prompts with pages among chunks arrive, steps run. */
  ghost predicate PlainEvents(cfg: Config, es: seq<Event>, chunks: set<Chunk>) {
    forall i :: 0 <= i < |es| ==>
      match es[i]
      case AddRequest(prompt, _, _) => PagesWithin(cfg, prompt, chunks)
      case RunStep => true
      case _ => false
  }

  /**
   Over any run of arrivals and steps: the tree holds exactly the page prefixes of the admitted prompts, every
   stored page is the one computed for the first admitted prompt that has the prefix, every admitted request was
   credited with the tokens of the longest page prefix it shares with an earlier prompt, and the totals are the
   sums over the requests.
   */
  lemma {:induction false} RunPrefix(cfg: Config, maxBatch: nat, es: seq<Event>, chunks: set<Chunk>)
    requires cfg.tpp > 0 && Collisionless(cfg.hash, chunks) && PlainEvents(cfg, es, chunks)
    ensures PrefixInv(cfg, Run(cfg, Init(maxBatch), es).0, chunks)
  {
    hide InvAt, NoLeak, Step, Add, PrefixInv, Collisionless, PagesWithin;
    if es == [] {
      InitPrefix(cfg, maxBatch, chunks);
    } else {
      var s := Run(cfg, Init(maxBatch), es[..|es| - 1]).0;
      RunPrefix(cfg, maxBatch, es[..|es| - 1], chunks);
      RunInv(cfg, maxBatch, es[..|es| - 1]);
      var e := es[|es| - 1];
      match e
      case AddRequest(prompt, maxNew, eos) => AddPrefix(cfg, s, prompt, maxNew, eos, chunks);
      case RunStep => StepPrefix(cfg, s, chunks);
      case _ =>
    }
  }

  lemma InitPrefix(cfg: Config, maxBatch: nat, chunks: set<Chunk>)
    ensures PrefixInv(cfg, Init(maxBatch), chunks)
  {
    assert forall p :: !Seen(cfg, map[], 1, p);
    assert Sum(map[], 1, MATCHED_TOKENS) == 0 == Sum(map[], 1, IS_HIT) by {
      assert Sum(map[], 0, MATCHED_TOKENS) == 0 == Sum(map[], 0, IS_HIT);
    }
  }

  /* ---------- The same in tokens ---------- */

  lemma {:induction false} PagesPrefix(a: seq<int>, b: seq<int>, tpp: nat, n: nat)
    requires tpp > 0 && n <= |Pages(a, tpp)| && n <= |Pages(b, tpp)|
    ensures 0 <= n * tpp <= |a| && n * tpp <= |b|
    ensures Pages(a, tpp)[..n] == Pages(b, tpp)[..n] <==> a[..n * tpp] == b[..n * tpp]
  {
    hide Pages;
    PagesFit(a, tpp, n);
    PagesFit(b, tpp, n);
    if n > 0 {
      var m := (n - 1) * tpp;
      MulStep(n - 1, tpp);
      PagesPrefix(a, b, tpp, n - 1);
      PageAt(a, tpp, n - 1);
      PageAt(b, tpp, n - 1);
      OneMorePage(Pages(a, tpp), Pages(b, tpp), n);
      CutEqual(a, b, m, m + tpp);
    }
  }

  lemma OneMorePage(s: seq<Chunk>, t: seq<Chunk>, n: nat)
    requires 0 < n <= |s| && n <= |t|
    ensures s[..n] == t[..n] <==> s[..n - 1] == t[..n - 1] && s[n - 1].tokens == t[n - 1].tokens
  {
    assert s[..n] == s[..n - 1] + [s[n - 1]] && t[..n] == t[..n - 1] + [t[n - 1]];
  }

  lemma CutEqual(a: seq<int>, b: seq<int>, m: nat, n: nat)
    requires m <= n <= |a| && n <= |b|
    ensures a[..n] == b[..n] <==> a[..m] == b[..m] && a[m..n] == b[m..n]
  {
    assert a[..n] == a[..m] + a[m..n] && b[..n] == b[..m] + b[m..n];
    assert a[..n][..m] == a[..m] && a[..n][m..] == a[m..n];
    assert b[..n][..m] == b[..m] && b[..n][m..] == b[m..n];
  }

  /** Both prompts begin with the same n pages of tokens. */
  predicate Agree(a: seq<int>, b: seq<int>, n: nat, tpp: nat) {
    0 <= n * tpp <= |a| && n * tpp <= |b| && a[..n * tpp] == b[..n * tpp]
  }

  lemma PrefixOfIs(cfg: Config, reqs: map<nat, Request>, id: nat, x: nat, j: nat)
    requires cfg.tpp > 0 && id in reqs && 0 < j <= |Pages(reqs[id].prompt, cfg.tpp)|
    ensures PrefixOf(cfg, reqs, x, Prefix(Pages(reqs[id].prompt, cfg.tpp), j))
            <==> x in reqs && Agree(reqs[x].prompt, reqs[id].prompt, j, cfg.tpp)
  {
    hide Pages;
    if x in reqs {
      var (a, b) := (reqs[x].prompt, reqs[id].prompt);
      PageWindow(a, cfg.tpp, j - 1);
      MulStep(j - 1, cfg.tpp);
      if j <= |Pages(a, cfg.tpp)| {
        PrefixOfEqual(Pages(a, cfg.tpp), Pages(b, cfg.tpp), j);
        PagesPrefix(a, b, cfg.tpp, j);
      }
    }
  }

  /** The credit of an admitted request: the most pages of tokens its prompt shares with an earlier one. */
  lemma CreditIs(cfg: Config, maxBatch: nat, es: seq<Event>, chunks: set<Chunk>, id: nat) returns (k: nat)
    requires cfg.tpp > 0 && Collisionless(cfg.hash, chunks) && PlainEvents(cfg, es, chunks)
    requires var s := Run(cfg, Init(maxBatch), es).0; id in s.reqs && id !in s.pending
    ensures var reqs := Run(cfg, Init(maxBatch), es).0.reqs;
      && reqs[id].prefixMatched == k * cfg.tpp <= |reqs[id].prompt|
      && (forall x, n: nat :: 1 <= x < id && x in reqs && Agree(reqs[x].prompt, reqs[id].prompt, n, cfg.tpp) ==> n <= k)
      && (k > 0 ==> exists x {:trigger reqs[x]} :: 1 <= x < id && x in reqs && Agree(reqs[x].prompt, reqs[id].prompt, k, cfg.tpp))
  {
    hide Run, Pages, Prefix, PrefixOf, TreeExact, HandlesExact, TotalsExact, Agree, Collisionless, PlainEvents;
    hide AllWithin, RefsInv, TokensInv, HeldInv, AllocInv, NoLeak;
    RunPrefix(cfg, maxBatch, es, chunks);
    RunInv(cfg, maxBatch, es);
    var s := Run(cfg, Init(maxBatch), es).0;
    var reqs := s.reqs;
    NotPending(s, id);
    assert SharedOk(cfg, reqs, id);
    k :| reqs[id].prefixMatched == Times(k, cfg.tpp) && LongestShared(cfg, reqs, id, k);
    var pages := Pages(reqs[id].prompt, cfg.tpp);
    PagesFit(reqs[id].prompt, cfg.tpp, k);
    forall x, n: nat | 1 <= x < id && x in reqs && Agree(reqs[x].prompt, reqs[id].prompt, n, cfg.tpp) ensures n <= k {
      AgreeFits(reqs[x].prompt, reqs[id].prompt, n, cfg.tpp);
      if n > 0 {
        PrefixOfIs(cfg, reqs, id, x, n);
        assert Seen(cfg, reqs, id, Prefix(pages, n));
      }
    }
    if k > 0 {
      var x: nat :| 1 <= x < id && PrefixOf(cfg, reqs, x, Prefix(pages, k));
      PrefixOfIs(cfg, reqs, id, x, k);
    }
  }

  lemma AgreeFits(a: seq<int>, b: seq<int>, n: nat, tpp: nat)
    requires tpp > 0 && Agree(a, b, n, tpp)
    ensures n <= |Pages(b, tpp)|
  {
    if n > 0 {
      PageWindow(b, tpp, n - 1);
      MulStep(n - 1, tpp);
    }
  }

  lemma {:induction false} FirstAgreeing(cfg: Config, reqs: map<nat, Request>, id: nat, j: nat, n: nat) returns (o: nat)
    requires id in reqs && 1 <= n <= id && Agree(reqs[id].prompt, reqs[id].prompt, j, cfg.tpp)
    requires forall x {:trigger reqs[x]} :: 1 <= x < n && x in reqs ==> !Agree(reqs[x].prompt, reqs[id].prompt, j, cfg.tpp)
    ensures n <= o <= id && o in reqs && Agree(reqs[o].prompt, reqs[id].prompt, j, cfg.tpp)
    ensures forall x {:trigger reqs[x]} :: 1 <= x < o && x in reqs ==> !Agree(reqs[x].prompt, reqs[id].prompt, j, cfg.tpp)
    decreases id - n
  {
    hide Agree;
    if n in reqs && Agree(reqs[n].prompt, reqs[id].prompt, j, cfg.tpp) {
      o := n;
    } else {
      o := FirstAgreeing(cfg, reqs, id, j, n + 1);
    }
  }

  /**
   Page j - 1 of an admitted prompt is stored under its tokens, as the page computed for the first prompt
   that begins with the same j pages.
   */
  lemma ServedBy(cfg: Config, maxBatch: nat, es: seq<Event>, chunks: set<Chunk>, id: nat, j: nat) returns (o: nat)
    requires cfg.tpp > 0 && Collisionless(cfg.hash, chunks) && PlainEvents(cfg, es, chunks)
    requires var s := Run(cfg, Init(maxBatch), es).0; id in s.reqs && id !in s.pending
    requires 0 < j <= |Pages(Run(cfg, Init(maxBatch), es).0.reqs[id].prompt, cfg.tpp)|
    ensures var s := Run(cfg, Init(maxBatch), es).0;
      var p := Prefix(Pages(s.reqs[id].prompt, cfg.tpp), j);
      && 1 <= o <= id && o in s.reqs && Agree(s.reqs[o].prompt, s.reqs[id].prompt, j, cfg.tpp)
      && (forall x :: 1 <= x < o && x in s.reqs ==> !Agree(s.reqs[x].prompt, s.reqs[id].prompt, j, cfg.tpp))
      && p in s.tree.entries
      && s.tree.entries[p].k == cfg.pageK(o, j - 1) && s.tree.entries[p].v == cfg.pageV(o, j - 1)
  {
    hide Run, Pages, Prefix, PrefixOf, MatchesExact, TotalsExact, Agree, Collisionless, PlainEvents;
    hide AllWithin, RefsInv, TokensInv, HeldInv, AllocInv, NoLeak;
    RunPrefix(cfg, maxBatch, es, chunks);
    RunInv(cfg, maxBatch, es);
    var s := Run(cfg, Init(maxBatch), es).0;
    NotPending(s, id);
    var p := Prefix(Pages(s.reqs[id].prompt, cfg.tpp), j);
    AgreesSelf(s.reqs[id].prompt, cfg.tpp, j);
    o := FirstAgreeing(cfg, s.reqs, id, j, 1);
    PrefixOfIs(cfg, s.reqs, id, o, j);
    SeenBy(cfg, s.reqs, First(s), o, p);
    NotSeen(cfg, s.reqs, id, j, o);
    assert FirstWith(cfg, s.reqs, o, p);
    assert ComputedBy(cfg, s.tree, o, p);
  }

  lemma AgreesSelf(a: seq<int>, tpp: nat, j: nat)
    requires tpp > 0 && j <= |Pages(a, tpp)|
    ensures Agree(a, a, j, tpp)
  {
    PagesFit(a, tpp, j);
  }

  lemma NotSeen(cfg: Config, reqs: map<nat, Request>, id: nat, j: nat, o: nat)
    requires cfg.tpp > 0 && id in reqs && 0 < j <= |Pages(reqs[id].prompt, cfg.tpp)|
    requires forall x {:trigger reqs[x]} :: 1 <= x < o && x in reqs ==> !Agree(reqs[x].prompt, reqs[id].prompt, j, cfg.tpp)
    ensures !Seen(cfg, reqs, o, Prefix(Pages(reqs[id].prompt, cfg.tpp), j))
  {
    hide Pages, Prefix, PrefixOf, Agree;
    var p := Prefix(Pages(reqs[id].prompt, cfg.tpp), j);
    if x: nat :| 1 <= x < o && PrefixOf(cfg, reqs, x, p) { PrefixOfIs(cfg, reqs, id, x, j); }
  }

  /** The hits are as many as there are requests credited with something. */
  lemma HitsAre(cfg: Config, maxBatch: nat, es: seq<Event>, chunks: set<Chunk>)
    requires cfg.tpp > 0 && Collisionless(cfg.hash, chunks) && PlainEvents(cfg, es, chunks)
    ensures var s := Run(cfg, Init(maxBatch), es).0; s.hits == |set id | id in s.reqs && s.reqs[id].prefixMatched > 0|
  {
    hide Run, TreeExact, HandlesExact, MatchesExact, Collisionless, PlainEvents, Sum;
    hide AllWithin, RefsInv, TokensInv, HeldInv, AllocInv, NoLeak;
    RunPrefix(cfg, maxBatch, es, chunks);
    RunInv(cfg, maxBatch, es);
    var s := Run(cfg, Init(maxBatch), es).0;
    SumHits(s.reqs, s.nextId);
    assert HitIds(s.reqs, s.nextId) == (set id | id in s.reqs && s.reqs[id].prefixMatched > 0);
  }

  ghost function HitIds(reqs: map<nat, Request>, n: nat): set<nat> {
    set id | id in reqs && 1 <= id <= n && reqs[id].prefixMatched > 0
  }

  lemma NoHitIds(reqs: map<nat, Request>)
    ensures HitIds(reqs, 0) == {}
  {
  }

  lemma HitIdsNext(reqs: map<nat, Request>, n: nat)
    requires n > 0
    ensures HitIds(reqs, n) == HitIds(reqs, n - 1) + if n in reqs && reqs[n].prefixMatched > 0 then {n} else {}
    ensures n !in HitIds(reqs, n - 1)
  {
  }

  lemma {:induction false} SumHits(reqs: map<nat, Request>, n: nat)
    ensures Sum(reqs, n, IS_HIT) == |HitIds(reqs, n)|
  {
    hide HitIds;
    if n > 0 {
      SumHits(reqs, n - 1);
      HitIdsNext(reqs, n);
    } else {
      NoHitIds(reqs);
    }
  }
}
