/**
 The paged radix tree as a value: a dictionary from page paths to entries.

 A page is a chunk of exactly tokensPerPage token ids; a path is the pages from the root down to a node.
 The functions here say what each operation of PagedRadixTree does to that dictionary, for an
 arbitrary hash function; the class in radix_tree.dfy is proved to do exactly this, and what the
 tree promises is proved here about these functions.
 */
module RadixModel {
  import opened Arith
  import opened Bags
  import opened Options

  datatype Chunk = Chunk(tokens: seq<int>)

  datatype Path = Root | Ext(parent: Path, page: Chunk)

  /** Page handles per attention op, as the list of pairs in the iteration order of the dictionary. */
  type Handles = seq<(nat, nat)>

  datatype Entry = Entry(k: Handles, v: Handles, refs: nat, tick: nat)
  datatype Tree = Tree(tick: nat, entries: map<Path, Entry>)

  /* ---------- Pages of a prompt ---------- */

  /** The full pages of a prompt; a fractional tail is dropped. */
  function Pages(prompt: seq<int>, tpp: nat): (r: seq<Chunk>)
    requires tpp > 0
    ensures forall i :: 0 <= i < |r| ==> |r[i].tokens| == tpp
    decreases |prompt|
  {
    if |prompt| < tpp then [] else [Chunk(prompt[..tpp])] + Pages(prompt[tpp..], tpp)
  }

  /** There are as many pages as the integer quotient of the lengths says. */
  lemma {:induction false} PageCount(prompt: seq<int>, tpp: nat)
    requires tpp > 0
    ensures 0 <= |prompt| - |Pages(prompt, tpp)| * tpp < tpp
    ensures |Pages(prompt, tpp)| == |prompt| / tpp
    decreases |prompt|
  {
    var n := |Pages(prompt, tpp)|;
    if |prompt| >= tpp {
      PageCount(prompt[tpp..], tpp);
      assert n * tpp == (n - 1) * tpp + tpp;
    }
    QuotientUnique(|prompt|, tpp, n);
  }

  /** Page i is the i-th window of the prompt. */
  lemma {:induction false} PageAt(prompt: seq<int>, tpp: nat, i: nat)
    requires tpp > 0 && i < |Pages(prompt, tpp)|
    ensures 0 <= i * tpp && i * tpp + tpp <= |prompt|
    ensures Pages(prompt, tpp)[i].tokens == prompt[i * tpp..i * tpp + tpp]
  {
    if i > 0 {
      PageAt(prompt[tpp..], tpp, i - 1);
      assert (i - 1) * tpp == i * tpp - tpp;
      assert prompt[tpp..][(i - 1) * tpp..(i - 1) * tpp + tpp] == prompt[i * tpp..i * tpp + tpp];
    }
  }

  /** A window fits in the prompt exactly when it is one of its pages. */
  lemma PageWindow(prompt: seq<int>, tpp: nat, i: nat)
    requires tpp > 0
    ensures 0 <= i * tpp
    ensures i * tpp + tpp <= |prompt| <==> i < |Pages(prompt, tpp)|
    ensures i < |Pages(prompt, tpp)| ==> Pages(prompt, tpp)[i].tokens == prompt[i * tpp..i * tpp + tpp]
  {
    if i < |Pages(prompt, tpp)| {
      PageAt(prompt, tpp, i);
    } else {
      PageCount(prompt, tpp);
      MulMono(|Pages(prompt, tpp)|, i, tpp);
    }
  }

  /** Whole pages of tokens, as many as the prompt has, fit into it. */
  lemma PagesFit(prompt: seq<int>, tpp: nat, n: nat)
    requires tpp > 0 && n <= |Pages(prompt, tpp)|
    ensures Times(n, tpp) == n * tpp <= |prompt|
  {
    TimesIs(n, tpp);
    PageCount(prompt, tpp);
    MulMono(n, |Pages(prompt, tpp)|, tpp);
  }

  function Len(p: Path): nat { if p.Root? then 0 else Len(p.parent) + 1 }

  /** The path of the first n pages. */
  function Prefix(pages: seq<Chunk>, n: nat): (r: Path)
    requires n <= |pages|
    ensures Len(r) == n
  {
    if n == 0 then Root else Ext(Prefix(pages, n - 1), pages[n - 1])
  }

  /** The path of a prefix depends on those pages only. */
  lemma {:induction false} PrefixOfEqual(a: seq<Chunk>, b: seq<Chunk>, n: nat)
    requires n <= |a| && n <= |b|
    ensures Prefix(a, n) == Prefix(b, n) <==> a[..n] == b[..n]
  {
    if n > 0 {
      PrefixOfEqual(a, b, n - 1);
      assert a[..n] == a[..n - 1] + [a[n - 1]];
      assert b[..n] == b[..n - 1] + [b[n - 1]];
    }
  }

  /* ---------- Well-formed trees ---------- */

  ghost predicate PrefixClosed(t: Tree) {
    && Root !in t.entries
    && forall p :: p in t.entries && !p.parent.Root? ==> p.parent in t.entries
  }

  /** p and q hang off the same parent under the same hash. */
  ghost predicate SameBucket(hash: Chunk -> int, p: Path, q: Path) {
    p.Ext? && q.Ext? && p.parent == q.parent && hash(p.page) == hash(q.page)
  }

  /** A node keeps one child per hash. */
  ghost predicate OneChildPerHash(t: Tree, hash: Chunk -> int) {
    forall p, q {:trigger SameBucket(hash, p, q)} ::
      p in t.entries && q in t.entries && SameBucket(hash, p, q) ==> p == q
  }

  ghost predicate SameTick(t: Tree, p: Path, q: Path) {
    p in t.entries && q in t.entries && t.entries[p].tick == t.entries[q].tick
  }

  /** Every access time is in the past and no two entries share one. */
  ghost predicate TicksDistinct(t: Tree) {
    && (forall p :: p in t.entries ==> t.entries[p].tick <= t.tick)
    && (forall p, q {:trigger SameTick(t, p, q)} :: SameTick(t, p, q) ==> p == q)
  }

  ghost predicate Wf(t: Tree, hash: Chunk -> int) {
    PrefixClosed(t) && OneChildPerHash(t, hash) && TicksDistinct(t)
  }

  lemma {:induction false} PrefixStored(t: Tree, pages: seq<Chunk>, i: nat, j: nat)
    requires PrefixClosed(t) && 0 < i <= j <= |pages| && Prefix(pages, j) in t.entries
    ensures Prefix(pages, i) in t.entries
    decreases j
  {
    if i < j {
      assert Prefix(pages, j).parent == Prefix(pages, j - 1);
      PrefixStored(t, pages, i, j - 1);
    }
  }

  /* ---------- match_prefix ---------- */

  /** Marks one entry as used now. */
  function Touch(t: Tree, p: Path): Tree
    requires p in t.entries
  {
    Tree(t.tick + 1, t.entries[p := t.entries[p].(tick := t.tick + 1)])
  }

  /** With k pages matched: how many match in the end, and the tree with the matched entries marked used. */
  ghost function MatchFrom(t: Tree, pages: seq<Chunk>, k: nat): (r: (nat, Tree))
    requires k <= |pages|
    ensures k <= r.0 <= |pages|
    decreases |pages| - k
  {
    if k < |pages| && Prefix(pages, k + 1) in t.entries then MatchFrom(Touch(t, Prefix(pages, k + 1)), pages, k + 1)
    else (k, t)
  }

  lemma MatchFromStep(t: Tree, pages: seq<Chunk>, k: nat)
    requires k < |pages| && Prefix(pages, k + 1) in t.entries
    ensures MatchFrom(t, pages, k) == MatchFrom(Touch(t, Prefix(pages, k + 1)), pages, k + 1)
  {
  }

  /** What match_prefix does. */
  ghost function Match(t: Tree, pages: seq<Chunk>): (r: (nat, Tree))
    ensures r.0 <= |pages|
  {
    MatchFrom(t, pages, 0)
  }

  /** The match is the longest stored prefix: a non-empty prefix is stored exactly when it is no longer. */
  lemma MatchIsLongest(t: Tree, pages: seq<Chunk>, j: nat)
    requires PrefixClosed(t) && 0 < j <= |pages|
    ensures Prefix(pages, j) in t.entries <==> j <= Match(t, pages).0
  {
    MatchFromLongest(t, pages, 0, j);
  }

  lemma {:induction false} MatchFromLongest(t: Tree, pages: seq<Chunk>, k: nat, j: nat)
    requires PrefixClosed(t) && k < j <= |pages|
    ensures Prefix(pages, j) in t.entries <==> j <= MatchFrom(t, pages, k).0
    decreases |pages| - k
  {
    if Prefix(pages, k + 1) in t.entries {
      if k + 1 < j {
        MatchFromLongest(Touch(t, Prefix(pages, k + 1)), pages, k + 1, j);
      }
    } else if Prefix(pages, j) in t.entries {
      PrefixStored(t, pages, k + 1, j);
    }
  }

  lemma TouchKeeps(t: Tree, hash: Chunk -> int, p: Path)
    requires Wf(t, hash) && p in t.entries
    ensures Wf(Touch(t, p), hash)
  {
    var r := Touch(t, p);
    forall a, b | SameTick(r, a, b) ensures a == b {
      if a != p && b != p { assert SameTick(t, a, b); }
    }
  }

  /** Same paths, handles and reference counts: only access times may differ. */
  ghost predicate SameButTicks(a: Tree, b: Tree) {
    && (forall p :: p in a.entries <==> p in b.entries)
    && forall p :: p in a.entries ==> a.entries[p].(tick := 0) == b.entries[p].(tick := 0)
  }

  /** Matching changes access times only. */
  lemma {:induction false} MatchFromKeeps(t: Tree, hash: Chunk -> int, pages: seq<Chunk>, k: nat)
    requires Wf(t, hash) && k <= |pages|
    ensures Wf(MatchFrom(t, pages, k).1, hash)
    ensures SameButTicks(t, MatchFrom(t, pages, k).1)
    decreases |pages| - k
  {
    if k < |pages| && Prefix(pages, k + 1) in t.entries {
      TouchKeeps(t, hash, Prefix(pages, k + 1));
      MatchFromKeeps(Touch(t, Prefix(pages, k + 1)), hash, pages, k + 1);
    }
  }

  lemma PrefixesDiffer(pages: seq<Chunk>, i: nat, j: nat)
    requires i <= |pages| && j <= |pages| && i != j
    ensures Prefix(pages, i) != Prefix(pages, j)
  {
    assert Len(Prefix(pages, i)) == i && Len(Prefix(pages, j)) == j;
  }

  /** Each page matched from k on is stamped with the next time of the clock, nothing else is. */
  lemma {:induction false} MatchFromTimes(t: Tree, pages: seq<Chunk>, k: nat, p: Path)
    requires k <= |pages| && p in t.entries
    ensures var (m, r) := MatchFrom(t, pages, k);
      && r.tick == t.tick + (m - k) && p in r.entries
      && (forall i :: k < i <= m && p == Prefix(pages, i) ==> r.entries[p].tick == t.tick + (i - k))
      && ((forall i :: k < i <= m ==> p != Prefix(pages, i)) ==> r.entries[p].tick == t.entries[p].tick)
    decreases |pages| - k
  {
    hide Prefix;
    if k < |pages| && Prefix(pages, k + 1) in t.entries {
      var t1 := Touch(t, Prefix(pages, k + 1));
      MatchFromTimes(t1, pages, k + 1, p);
      var m := MatchFrom(t1, pages, k + 1).0;
      forall i | k + 1 < i <= m ensures Prefix(pages, i) != Prefix(pages, k + 1) { PrefixesDiffer(pages, i, k + 1); }
    }
  }

  /** A match makes its nodes the most recently used, the last page the most. */
  lemma MatchIsFreshest(t: Tree, hash: Chunk -> int, pages: seq<Chunk>, i: nat, p: Path)
    requires Wf(t, hash) && 0 < i <= Match(t, pages).0 && p in t.entries
    ensures var (m, r) := Match(t, pages);
      && Prefix(pages, i) in r.entries && p in r.entries
      && ((forall j :: 0 < j <= m ==> p != Prefix(pages, j)) ==> r.entries[p].tick < r.entries[Prefix(pages, i)].tick)
      && (forall j :: 0 < j < i && p == Prefix(pages, j) ==> r.entries[p].tick < r.entries[Prefix(pages, i)].tick)
  {
    hide MatchFrom, Prefix;
    MatchIsLongest(t, pages, i);
    MatchFromTimes(t, pages, 0, p);
    MatchFromTimes(t, pages, 0, Prefix(pages, i));
  }

  /* ---------- insert_prefix ---------- */

  ghost predicate HasChild(t: Tree, hash: Chunk -> int, p: Path, c: Chunk) {
    exists q {:trigger SameBucket(hash, q, Ext(p, c))} :: q in t.entries && SameBucket(hash, q, Ext(p, c))
  }

  /** The stored path found under parent p by the hash of c, whatever its tokens are. */
  ghost function Child(t: Tree, hash: Chunk -> int, p: Path, c: Chunk): (r: Path)
    requires HasChild(t, hash, p, c)
    ensures r in t.entries && SameBucket(hash, r, Ext(p, c))
  {
    var q :| q in t.entries && SameBucket(hash, q, Ext(p, c)); q
  }

  /** Follows pages j..n from p by hash alone. */
  ghost function Walk(t: Tree, hash: Chunk -> int, p: Path, pages: seq<Chunk>, j: nat, n: nat): Option<Path>
    requires j <= n <= |pages|
    decreases n - j
  {
    if j == n then Some(p)
    else if !HasChild(t, hash, p, pages[j]) then None
    else Walk(t, hash, Child(t, hash, p, pages[j]), pages, j + 1, n)
  }

  function NewEntry(t: Tree, q: Path, k: Handles, v: Handles): Tree {
    Tree(t.tick + 1, t.entries[q := Entry(k, v, 0, t.tick + 1)])
  }

  /** Steps from p to the child for chunk c, reusing whatever child has the right hash and attaching one otherwise. */
  ghost function Attach(t: Tree, hash: Chunk -> int, p: Path, c: Chunk, k: Handles, v: Handles): (Path, Tree)
  {
    if HasChild(t, hash, p, c) then (Child(t, hash, p, c), Touch(t, Child(t, hash, p, c)))
    else (Ext(p, c), NewEntry(t, Ext(p, c), k, v))
  }

  /** Attaches pages start..n below p and says where that ends; page i has the (i - start)-th handles given. */
  ghost function InsertTo(t: Tree, hash: Chunk -> int, p: Path, pages: seq<Chunk>, start: nat, n: nat,
                          ks: seq<Handles>, vs: seq<Handles>): (Path, Tree)
    requires start <= n <= |pages| && n - start <= |ks| == |vs|
    decreases n
  {
    if n == start then (p, t) else
      var (q, t1) := InsertTo(t, hash, p, pages, start, n - 1, ks, vs);
      Attach(t1, hash, q, pages[n - 1], ks[n - 1 - start], vs[n - 1 - start])
  }

  lemma InsertToStep(t: Tree, hash: Chunk -> int, p: Path, pages: seq<Chunk>, start: nat, j: nat,
                     ks: seq<Handles>, vs: seq<Handles>, q: Path, t1: Tree, q2: Path, t2: Tree)
    requires start + j < |pages| && j < |ks| == |vs|
    requires (q, t1) == InsertTo(t, hash, p, pages, start, start + j, ks, vs)
    requires (q2, t2) == Attach(t1, hash, q, pages[start + j], ks[j], vs[j])
    ensures (q2, t2) == InsertTo(t, hash, p, pages, start, start + j + 1, ks, vs)
  {
  }

  /** What insert_prefix does with handles ks, vs for the pages from start on. */
  ghost function Insert(t: Tree, hash: Chunk -> int, pages: seq<Chunk>, start: nat,
                        ks: seq<Handles>, vs: seq<Handles>): Tree
  {
    if ks == [] || |ks| != |vs| || start > |pages| then t
    else match Walk(t, hash, Root, pages, 0, start)
      case None => t
      case Some(p) => InsertTo(t, hash, p, pages, start, Min(start + |ks|, |pages|), ks, vs).1
  }

  /** Old entries keep their handles and counts, new ones start unreferenced. */
  ghost predicate Grows(t: Tree, r: Tree) {
    && (forall q :: q in t.entries ==> q in r.entries && r.entries[q].(tick := 0) == t.entries[q].(tick := 0))
    && (forall q :: q in r.entries && q !in t.entries ==> r.entries[q].refs == 0)
  }

  lemma AttachKeeps(t: Tree, hash: Chunk -> int, p: Path, c: Chunk, k: Handles, v: Handles)
    requires Wf(t, hash) && (p == Root || p in t.entries)
    ensures Wf(Attach(t, hash, p, c, k, v).1, hash)
    ensures Grows(t, Attach(t, hash, p, c, k, v).1)
    ensures Attach(t, hash, p, c, k, v).0 in Attach(t, hash, p, c, k, v).1.entries
  {
    if HasChild(t, hash, p, c) {
      TouchKeeps(t, hash, Child(t, hash, p, c));
    } else {
      NewEntryKeeps(t, hash, p, c, k, v);
    }
  }

  lemma NewEntryKeeps(t: Tree, hash: Chunk -> int, p: Path, c: Chunk, k: Handles, v: Handles)
    requires Wf(t, hash) && (p == Root || p in t.entries)
    requires !HasChild(t, hash, p, c)
    ensures Ext(p, c) !in t.entries
    ensures Wf(NewEntry(t, Ext(p, c), k, v), hash)
  {
    var q := Ext(p, c);
    assert SameBucket(hash, q, q);
    var r := NewEntry(t, q, k, v);
    forall a, b | a in r.entries && b in r.entries && SameBucket(hash, a, b) ensures a == b {
      assert SameBucket(hash, b, a);
    }
    forall a, b | SameTick(r, a, b) ensures a == b {
      if a != q && b != q { assert SameTick(t, a, b); }
    }
  }

  /** Well-formedness survives any insertion, colliding or not. */
  lemma {:induction false} InsertToKeeps(t: Tree, hash: Chunk -> int, p: Path, pages: seq<Chunk>, start: nat, n: nat,
                                         ks: seq<Handles>, vs: seq<Handles>)
    requires Wf(t, hash) && (p == Root || p in t.entries)
    requires start <= n <= |pages| && n - start <= |ks| == |vs|
    ensures Wf(InsertTo(t, hash, p, pages, start, n, ks, vs).1, hash)
    ensures Grows(t, InsertTo(t, hash, p, pages, start, n, ks, vs).1)
    ensures var (q, r) := InsertTo(t, hash, p, pages, start, n, ks, vs); q == Root || q in r.entries
    decreases n
  {
    if start < n {
      InsertToKeeps(t, hash, p, pages, start, n - 1, ks, vs);
      var (q, t1) := InsertTo(t, hash, p, pages, start, n - 1, ks, vs);
      AttachKeeps(t1, hash, q, pages[n - 1], ks[n - 1 - start], vs[n - 1 - start]);
    }
  }

  lemma {:induction false} WalkStored(t: Tree, hash: Chunk -> int, p: Path, pages: seq<Chunk>, j: nat, n: nat)
    requires j <= n <= |pages| && (p == Root || p in t.entries)
    ensures var r := Walk(t, hash, p, pages, j, n); r.Some? ==> r.value == Root || r.value in t.entries
    decreases n - j
  {
    if j < n && HasChild(t, hash, p, pages[j]) {
      WalkStored(t, hash, Child(t, hash, p, pages[j]), pages, j + 1, n);
    }
  }

  lemma InsertKeeps(t: Tree, hash: Chunk -> int, pages: seq<Chunk>, start: nat, ks: seq<Handles>, vs: seq<Handles>)
    requires Wf(t, hash)
    ensures Wf(Insert(t, hash, pages, start, ks, vs), hash)
    ensures Grows(t, Insert(t, hash, pages, start, ks, vs))
  {
    if !(ks == [] || |ks| != |vs| || start > |pages|) {
      var w := Walk(t, hash, Root, pages, 0, start);
      WalkStored(t, hash, Root, pages, 0, start);
      if w.Some? {
        InsertToKeeps(t, hash, w.value, pages, start, Min(start + |ks|, |pages|), ks, vs);
      }
    }
  }

  /** No stored page sits under the same parent and hash as one of the first n pages without being it. */
  ghost predicate NoClash(t: Tree, hash: Chunk -> int, pages: seq<Chunk>, n: nat)
    requires n <= |pages|
  {
    forall j, q {:trigger SameBucket(hash, q, Prefix(pages, j))} ::
      0 < j <= n && q in t.entries && SameBucket(hash, q, Prefix(pages, j)) ==> q == Prefix(pages, j)
  }

  /** Without a clash, looking up by hash finds exactly the page's own path. */
  lemma ChildExact(t: Tree, hash: Chunk -> int, pages: seq<Chunk>, j: nat)
    requires j < |pages| && NoClash(t, hash, pages, j + 1)
    ensures HasChild(t, hash, Prefix(pages, j), pages[j]) <==> Prefix(pages, j + 1) in t.entries
    ensures HasChild(t, hash, Prefix(pages, j), pages[j]) ==>
              Child(t, hash, Prefix(pages, j), pages[j]) == Prefix(pages, j + 1)
  {
    var q := Prefix(pages, j + 1);
    assert q == Ext(Prefix(pages, j), pages[j]);
    assert SameBucket(hash, q, q);
  }

  lemma {:induction false} WalkExact(t: Tree, hash: Chunk -> int, pages: seq<Chunk>, j: nat, n: nat)
    requires j <= n <= |pages| && NoClash(t, hash, pages, n)
    requires forall i :: j < i <= n ==> Prefix(pages, i) in t.entries
    ensures Walk(t, hash, Prefix(pages, j), pages, j, n) == Some(Prefix(pages, n))
    decreases n - j
  {
    if j < n {
      ChildExact(t, hash, pages, j);
      WalkExact(t, hash, pages, j + 1, n);
    }
  }

  /** What attaching page n - 1 does when nothing clashes. */
  function AttachOwn(t: Tree, pages: seq<Chunk>, n: nat, k: Handles, v: Handles): Tree
    requires 0 < n <= |pages|
  {
    if Prefix(pages, n) in t.entries then Touch(t, Prefix(pages, n)) else NewEntry(t, Prefix(pages, n), k, v)
  }

  lemma AttachExact(t: Tree, hash: Chunk -> int, pages: seq<Chunk>, n: nat, m: nat, k: Handles, v: Handles)
    requires 0 < n <= m <= |pages| && NoClash(t, hash, pages, m)
    ensures Attach(t, hash, Prefix(pages, n - 1), pages[n - 1], k, v) == (Prefix(pages, n), AttachOwn(t, pages, n, k, v))
    ensures NoClash(AttachOwn(t, pages, n, k, v), hash, pages, m)
  {
    ChildExact(t, hash, pages, n - 1);
    var r := AttachOwn(t, pages, n, k, v);
    forall j, q | 0 < j <= m && q in r.entries && SameBucket(hash, q, Prefix(pages, j)) ensures q == Prefix(pages, j) {
      if q !in t.entries {
        assert Len(q) == n && Len(Prefix(pages, j)) == Len(q);
      }
    }
  }

  /** Without a clash the insertion stays on the prompt's own pages. */
  lemma {:induction false} InsertToPath(t: Tree, hash: Chunk -> int, pages: seq<Chunk>, start: nat, n: nat, m: nat,
                                        ks: seq<Handles>, vs: seq<Handles>)
    requires start <= n <= m <= |pages| && n - start <= |ks| == |vs|
    requires NoClash(t, hash, pages, m)
    ensures InsertTo(t, hash, Prefix(pages, start), pages, start, n, ks, vs).0 == Prefix(pages, n)
    ensures NoClash(InsertTo(t, hash, Prefix(pages, start), pages, start, n, ks, vs).1, hash, pages, m)
    decreases n
  {
    if start < n {
      InsertToPath(t, hash, pages, start, n - 1, m, ks, vs);
      AttachExact(InsertTo(t, hash, Prefix(pages, start), pages, start, n - 1, ks, vs).1, hash, pages, n, m,
                  ks[n - 1 - start], vs[n - 1 - start]);
    }
  }

  /** q is the prefix of pages of its own length, which is in lo+1..hi. */
  ghost predicate IsPrefix(q: Path, pages: seq<Chunk>, lo: nat, hi: nat)
    requires hi <= |pages|
  {
    lo < Len(q) <= hi && q == Prefix(pages, Len(q))
  }

  /** The dictionary gains exactly the missing prefixes of lengths start+1..n, with their own handles. */
  ghost predicate GainsPrefixes(t: Tree, r: Tree, pages: seq<Chunk>, start: nat, n: nat,
                                ks: seq<Handles>, vs: seq<Handles>)
    requires start <= n <= |pages| && n - start <= |ks| == |vs|
  {
    && (forall q {:trigger q in r.entries} :: q in r.entries <==> q in t.entries || IsPrefix(q, pages, start, n))
    && (forall q :: q in t.entries ==> r.entries[q].(tick := 0) == t.entries[q].(tick := 0))
    && (forall q :: q in r.entries && q !in t.entries && start < Len(q) <= n ==>
          r.entries[q].(tick := 0) == Entry(ks[Len(q) - 1 - start], vs[Len(q) - 1 - start], 0, 0))
  }

  lemma IsPrefixNext(q: Path, pages: seq<Chunk>, lo: nat, n: nat)
    requires lo < n <= |pages|
    ensures IsPrefix(q, pages, lo, n) <==> IsPrefix(q, pages, lo, n - 1) || q == Prefix(pages, n)
    ensures !IsPrefix(Prefix(pages, n), pages, lo, n - 1)
  {
  }

  lemma GainsOneMore(t: Tree, t1: Tree, pages: seq<Chunk>, start: nat, n: nat, ks: seq<Handles>, vs: seq<Handles>)
    requires start < n <= |pages| && n - start <= |ks| == |vs|
    requires GainsPrefixes(t, t1, pages, start, n - 1, ks, vs)
    ensures GainsPrefixes(t, AttachOwn(t1, pages, n, ks[n - 1 - start], vs[n - 1 - start]), pages, start, n, ks, vs)
  {
    hide Prefix, Len, IsPrefix;
    var p := Prefix(pages, n);
    assert Len(p) == n;
    var r := AttachOwn(t1, pages, n, ks[n - 1 - start], vs[n - 1 - start]);
    IsPrefixNext(p, pages, start, n);
    assert p in t1.entries <==> p in t.entries;
    forall q ensures q in r.entries <==> q in t.entries || IsPrefix(q, pages, start, n) {
      IsPrefixNext(q, pages, start, n);
      assert q in t1.entries <==> q in t.entries || IsPrefix(q, pages, start, n - 1);
    }
    forall q | q in r.entries && q !in t.entries && start < Len(q) <= n
      ensures r.entries[q].(tick := 0) == Entry(ks[Len(q) - 1 - start], vs[Len(q) - 1 - start], 0, 0)
    {
      IsPrefixNext(q, pages, start, n);
      if q != p { PrefixLength(q, pages, start, n - 1); }
    }
  }

  lemma PrefixLength(q: Path, pages: seq<Chunk>, lo: nat, hi: nat)
    requires hi <= |pages| && IsPrefix(q, pages, lo, hi)
    ensures lo < Len(q) <= hi
  {
  }

  lemma InsertToSnoc(t: Tree, hash: Chunk -> int, pages: seq<Chunk>, start: nat, n: nat, ks: seq<Handles>, vs: seq<Handles>)
    requires start < n <= |pages| && n - start <= |ks| == |vs|
    requires NoClash(t, hash, pages, n)
    ensures InsertTo(t, hash, Prefix(pages, start), pages, start, n, ks, vs).1 ==
            AttachOwn(InsertTo(t, hash, Prefix(pages, start), pages, start, n - 1, ks, vs).1, pages, n,
                      ks[n - 1 - start], vs[n - 1 - start])
  {
    InsertToPath(t, hash, pages, start, n - 1, n, ks, vs);
    AttachExact(InsertTo(t, hash, Prefix(pages, start), pages, start, n - 1, ks, vs).1, hash, pages, n, n,
                ks[n - 1 - start], vs[n - 1 - start]);
  }

  lemma GainsStep(t: Tree, hash: Chunk -> int, pages: seq<Chunk>, start: nat, n: nat, ks: seq<Handles>, vs: seq<Handles>)
    requires start < n <= |pages| && n - start <= |ks| == |vs|
    requires NoClash(t, hash, pages, n)
    requires GainsPrefixes(t, InsertTo(t, hash, Prefix(pages, start), pages, start, n - 1, ks, vs).1,
                           pages, start, n - 1, ks, vs)
    ensures GainsPrefixes(t, InsertTo(t, hash, Prefix(pages, start), pages, start, n, ks, vs).1, pages, start, n, ks, vs)
  {
    var t1 := InsertTo(t, hash, Prefix(pages, start), pages, start, n - 1, ks, vs).1;
    InsertToSnoc(t, hash, pages, start, n, ks, vs);
    GainsOneMore(t, t1, pages, start, n, ks, vs);
  }

  lemma {:induction false} InsertToGains(t: Tree, hash: Chunk -> int, pages: seq<Chunk>, start: nat, n: nat,
                                         ks: seq<Handles>, vs: seq<Handles>)
    requires start <= n <= |pages| && n - start <= |ks| == |vs|
    requires NoClash(t, hash, pages, n)
    ensures GainsPrefixes(t, InsertTo(t, hash, Prefix(pages, start), pages, start, n, ks, vs).1, pages, start, n, ks, vs)
    decreases n
  {
    if start < n {
      InsertToGains(t, hash, pages, start, n - 1, ks, vs);
      GainsStep(t, hash, pages, start, n, ks, vs);
    }
  }

  /** q is as long as the first n pages, and each of its pages has the hash of the page there. */
  ghost predicate SameHashes(hash: Chunk -> int, q: Path, pages: seq<Chunk>, n: nat)
    requires n <= |pages|
  {
    if n == 0 then q.Root? else q.Ext? && hash(q.page) == hash(pages[n - 1]) && SameHashes(hash, q.parent, pages, n - 1)
  }

  lemma {:induction false} WalkSame(t: Tree, hash: Chunk -> int, p: Path, pages: seq<Chunk>, j: nat, n: nat)
    requires j <= n <= |pages| && SameHashes(hash, p, pages, j)
    ensures var r := Walk(t, hash, p, pages, j, n); r.Some? ==> SameHashes(hash, r.value, pages, n)
    decreases n - j
  {
    if j < n && HasChild(t, hash, p, pages[j]) {
      assert SameBucket(hash, Child(t, hash, p, pages[j]), Ext(p, pages[j]));
      WalkSame(t, hash, Child(t, hash, p, pages[j]), pages, j + 1, n);
    }
  }

  /** Insertion does nothing with handles that do not pair up or with no stored path of the hashes of the first pages. */
  lemma InsertRefused(t: Tree, hash: Chunk -> int, pages: seq<Chunk>, start: nat, ks: seq<Handles>, vs: seq<Handles>)
    requires ks == [] || |ks| != |vs| || start > |pages|
      || (start > 0 && forall q :: q in t.entries ==> !SameHashes(hash, q, pages, start))
    ensures Insert(t, hash, pages, start, ks, vs) == t
  {
    if !(ks == [] || |ks| != |vs| || start > |pages|) {
      WalkSame(t, hash, Root, pages, 0, start);
      WalkStored(t, hash, Root, pages, 0, start);
    }
  }

  /** With fewer handles than pages left, only the prefixes that have handles are added. */
  lemma InsertSome(t: Tree, hash: Chunk -> int, pages: seq<Chunk>, start: nat, ks: seq<Handles>, vs: seq<Handles>)
    requires Wf(t, hash) && start <= |pages| && (start == 0 || Prefix(pages, start) in t.entries) && 0 < |ks| == |vs|
    requires NoClash(t, hash, pages, |pages|)
    ensures var n := Min(start + |ks|, |pages|);
      GainsPrefixes(t, Insert(t, hash, pages, start, ks, vs), pages, start, n, ks, vs)
  {
    hide Prefix, NoClash, GainsPrefixes, Wf, Walk, InsertTo;
    var n := Min(start + |ks|, |pages|);
    NoClashBelow(t, hash, pages, start);
    NoClashBelow(t, hash, pages, n);
    PrefixesStored(t, hash, pages, start);
    WalkOwn(t, hash, pages, start);
    InsertToGains(t, hash, pages, start, n, ks, vs);
  }

  lemma NoClashBelow(t: Tree, hash: Chunk -> int, pages: seq<Chunk>, n: nat)
    requires n <= |pages| && NoClash(t, hash, pages, |pages|)
    ensures NoClash(t, hash, pages, n)
  {
  }

  lemma PrefixesStored(t: Tree, hash: Chunk -> int, pages: seq<Chunk>, n: nat)
    requires Wf(t, hash) && n <= |pages| && (n == 0 || Prefix(pages, n) in t.entries)
    ensures forall i :: 0 < i <= n ==> Prefix(pages, i) in t.entries
  {
    forall i | 0 < i <= n ensures Prefix(pages, i) in t.entries { PrefixStored(t, pages, i, n); }
  }

  lemma WalkOwn(t: Tree, hash: Chunk -> int, pages: seq<Chunk>, n: nat)
    requires n <= |pages| && NoClash(t, hash, pages, n)
    requires forall i :: 0 < i <= n ==> Prefix(pages, i) in t.entries
    ensures Walk(t, hash, Root, pages, 0, n) == Some(Prefix(pages, n))
  {
    WalkExact(t, hash, pages, 0, n);
    assert Prefix(pages, 0) == Root;
  }

  /** Where the caller attaches: start pages are stored and handles for the rest are given. */
  ghost predicate Attachable(t: Tree, pages: seq<Chunk>, start: nat, ks: seq<Handles>, vs: seq<Handles>) {
    && start < |pages|
    && (start == 0 || Prefix(pages, start) in t.entries)
    && |ks| == |vs| == |pages| - start
  }

  /** Without a clash insert_prefix adds exactly the new prefixes and keeps the first-inserted handles. */
  lemma InsertExact(t: Tree, hash: Chunk -> int, pages: seq<Chunk>, start: nat, ks: seq<Handles>, vs: seq<Handles>)
    requires Wf(t, hash) && Attachable(t, pages, start, ks, vs)
    requires NoClash(t, hash, pages, |pages|)
    ensures GainsPrefixes(t, Insert(t, hash, pages, start, ks, vs), pages, start, |pages|, ks, vs)
  {
    InsertSome(t, hash, pages, start, ks, vs);
  }

  /**
   insert_prefix compares hashes only, so the promise that every full page of the prompt is cached
   afterwards holds exactly when no stored page clashes with one of the prompt's.
   */
  lemma InsertStoresAllIff(t: Tree, hash: Chunk -> int, pages: seq<Chunk>, start: nat, ks: seq<Handles>, vs: seq<Handles>)
    requires Wf(t, hash) && Attachable(t, pages, start, ks, vs)
    ensures (forall j :: 0 < j <= |pages| ==> Prefix(pages, j) in Insert(t, hash, pages, start, ks, vs).entries)
            <==> NoClash(t, hash, pages, |pages|)
  {
    var r := Insert(t, hash, pages, start, ks, vs);
    InsertKeeps(t, hash, pages, start, ks, vs);
    if NoClash(t, hash, pages, |pages|) {
      InsertExact(t, hash, pages, start, ks, vs);
      forall j | 0 < j <= |pages| ensures Prefix(pages, j) in r.entries {
        if j <= start {
          PrefixStored(t, pages, j, start);
        }
      }
    } else {
      var j, q :| 0 < j <= |pages| && q in t.entries && SameBucket(hash, q, Prefix(pages, j)) && q != Prefix(pages, j);
      assert q in r.entries;
      assert Prefix(pages, j) !in r.entries;
    }
  }

  lemma MissingUnder(t: Tree, hash: Chunk -> int, p: Path, c: Chunk)
    requires !HasChild(t, hash, p, c)
    ensures Ext(p, c) !in t.entries
  {
    assert SameBucket(hash, Ext(p, c), Ext(p, c));
  }

  /**
   What a clash does, for any hash: with page c1 stored and nothing below it under the hash of c3, inserting c2, c3
   files c3 below c1. A prompt of c1, c3 then matches two pages, the second with handles computed behind c2.
   */
  lemma ClashServesOther(t: Tree, hash: Chunk -> int, c1: Chunk, c2: Chunk, c3: Chunk, ks: seq<Handles>, vs: seq<Handles>)
    requires Wf(t, hash) && Ext(Root, c1) in t.entries && !HasChild(t, hash, Ext(Root, c1), c3)
    requires c1 != c2 && hash(c1) == hash(c2) && |ks| == |vs| == 2
    ensures var r := Insert(t, hash, [c2, c3], 0, ks, vs); var p := Ext(Ext(Root, c1), c3);
      && Ext(Root, c2) !in r.entries
      && Match(r, [c1, c3]).0 == 2
      && p !in t.entries && p in r.entries && r.entries[p].k == ks[1] && r.entries[p].v == vs[1]
  {
    hide Match;
    var p1, p2 := Ext(Root, c1), Ext(Ext(Root, c1), c3);
    assert SameBucket(hash, p1, Ext(Root, c2));
    assert SameBucket(hash, Child(t, hash, Root, c2), p1);
    MissingUnder(t, hash, p1, c3);
    var t1 := Touch(t, p1);
    assert !HasChild(t1, hash, p1, c3);
    var t2 := NewEntry(t1, p2, ks[1], vs[1]);
    assert InsertTo(t, hash, Root, [c2, c3], 0, 1, ks, vs) == (p1, t1);
    assert InsertTo(t, hash, Root, [c2, c3], 0, 2, ks, vs) == (p2, t2);
    assert Insert(t, hash, [c2, c3], 0, ks, vs) == t2;
    InsertKeeps(t, hash, [c2, c3], 0, ks, vs);
    assert SameBucket(hash, p1, Ext(Root, c2));
    assert Prefix([c1, c3], 1) == p1;
    assert Prefix([c1, c3], 2) == p2;
    MatchIsLongest(t2, [c1, c3], 2);
  }

  /* Every hash of 64 bits has such clashes. */

  const HASHES: nat := 0x1_0000_0000_0000_0000

  /** More arguments than values: two arguments share a value. */
  lemma {:induction false} Pigeonhole(f: nat -> int, n: nat) returns (i: nat, j: nat)
    requires forall x :: 0 <= x <= n ==> 0 <= f(x) < n
    ensures i < j <= n && f(i) == f(j)
    decreases n
  {
    if x: nat :| x < n && f(x) == f(n) {
      i, j := x, n;
    } else {
      assert 0 <= f(n) < n;
      var g := (x: nat) => if f(x) == n - 1 then f(n) else f(x);
      i, j := Pigeonhole(g, n - 1);
    }
  }

  /** Tokens are 32-bit integers. */
  ghost predicate Int32s(c: Chunk) { forall i :: 0 <= i < |c.tokens| ==> -0x8000_0000 <= c.tokens[i] < 0x8000_0000 }

  /** Page number x of n tokens: x in three digits, then zeros. */
  function Numbered(x: nat, n: nat): (c: Chunk)
    requires n >= 3
    ensures |c.tokens| == n
  {
    Chunk([x % 0x8000_0000, x / 0x8000_0000 % 0x8000_0000, x / 0x8000_0000 / 0x8000_0000] + seq(n - 3, i => 0))
  }

  lemma NumberedDiffer(x: nat, y: nat, n: nat)
    requires n >= 3 && x < y <= HASHES
    ensures Numbered(x, n) != Numbered(y, n) && Int32s(Numbered(x, n)) && Int32s(Numbered(y, n))
  {
    var a, b := Numbered(x, n).tokens, Numbered(y, n).tokens;
    assert a[0] != b[0] || a[1] != b[1] || a[2] != b[2];
  }

  /** However it is computed, a 64-bit hash sends two different pages of three or more tokens to the same value. */
  lemma HashCollides(hash: Chunk -> int, n: nat) returns (c: Chunk, d: Chunk)
    requires n >= 3 && forall c {:trigger hash(c)} :: 0 <= hash(c) < HASHES
    ensures c != d && hash(c) == hash(d) && |c.tokens| == |d.tokens| == n && Int32s(c) && Int32s(d)
  {
    var f := (x: nat) => hash(Numbered(x, n));
    forall x: nat | x <= HASHES ensures 0 <= f(x) < HASHES { assert f(x) == hash(Numbered(x, n)); }
    var i, j := Pigeonhole(f, HASHES);
    NumberedDiffer(i, j, n);
    c, d := Numbered(i, n), Numbered(j, n);
  }

  /**
   So under any 64-bit hash two insertions into an empty tree make it serve handles computed behind another page:
   c1 is stored, then c2, c3, and a prompt of c1, c3 matches both its pages with the handles given for c2, c3.
   */
  lemma ClashReachable(hash: Chunk -> int, n: nat, c3: Chunk, k: Handles, v: Handles, ks: seq<Handles>, vs: seq<Handles>)
    returns (c1: Chunk, c2: Chunk)
    requires n >= 3 && (forall c {:trigger hash(c)} :: 0 <= hash(c) < HASHES) && |ks| == |vs| == 2
    ensures c1 != c2 && |c1.tokens| == |c2.tokens| == n && Int32s(c1) && Int32s(c2)
    ensures var r := Insert(Insert(Tree(0, map[]), hash, [c1], 0, [k], [v]), hash, [c2, c3], 0, ks, vs);
      && Match(r, [c1, c3]).0 == 2
      && Ext(Ext(Root, c1), c3) in r.entries
      && r.entries[Ext(Ext(Root, c1), c3)].k == ks[1] && r.entries[Ext(Ext(Root, c1), c3)].v == vs[1]
  {
    hide Match, Insert;
    c1, c2 := HashCollides(hash, n);
    var t := Insert(Tree(0, map[]), hash, [c1], 0, [k], [v]);
    FirstInsert(hash, c1, k, v);
    ClashServesOther(t, hash, c1, c2, c3, ks, vs);
  }

  lemma FirstInsert(hash: Chunk -> int, c: Chunk, k: Handles, v: Handles)
    ensures var t := Insert(Tree(0, map[]), hash, [c], 0, [k], [v]);
      Wf(t, hash) && (forall p :: p in t.entries <==> p == Ext(Root, c))
  {
    var t := Tree(0, map[]);
    InsertKeeps(t, hash, [c], 0, [k], [v]);
    InsertExact(t, hash, [c], 0, [k], [v]);
    var r := Insert(t, hash, [c], 0, [k], [v]);
    assert Prefix([c], 1) == Ext(Root, c);
    forall p ensures p in r.entries <==> p == Ext(Root, c) {
      assert p in r.entries <==> p in t.entries || IsPrefix(p, [c], 0, 1);
      if Len(p) == 1 && p == Prefix([c], 1) { assert IsPrefix(p, [c], 0, 1); }
    }
  }

  /* ---------- retain_node and release_node ---------- */

  function Retain(t: Tree, p: Path): Tree
    requires p in t.entries
  {
    var e := t.entries[p];
    Tree(t.tick + 1, t.entries[p := e.(refs := e.refs + 1, tick := t.tick + 1)])
  }

  function Release(t: Tree, p: Path): Tree
    requires p in t.entries
  {
    var e := t.entries[p];
    if e.refs > 0 then t.(entries := t.entries[p := e.(refs := e.refs - 1)]) else t
  }

  /** Retaining makes the node the most recently used. */
  lemma RetainKeeps(t: Tree, hash: Chunk -> int, p: Path)
    requires Wf(t, hash) && p in t.entries
    ensures Wf(Retain(t, p), hash)
    ensures forall q :: q in Retain(t, p).entries && q != p ==> Retain(t, p).entries[q].tick < Retain(t, p).entries[p].tick
  {
    var r := Retain(t, p);
    forall a, b | SameTick(r, a, b) ensures a == b {
      if a != p && b != p { assert SameTick(t, a, b); }
    }
  }

  lemma ReleaseKeeps(t: Tree, hash: Chunk -> int, p: Path)
    requires Wf(t, hash) && p in t.entries
    ensures Wf(Release(t, p), hash)
  {
    var r := Release(t, p);
    forall a, b | SameTick(r, a, b) ensures a == b { assert SameTick(t, a, b); }
  }

  /** Retains the nodes of a list in order; a path that is not stored has no node to retain. */
  ghost function RetainAll(t: Tree, ps: seq<Path>): Tree
  {
    if ps == [] then t else
      var t1 := RetainAll(t, ps[..|ps| - 1]);
      if ps[|ps| - 1] in t1.entries then Retain(t1, ps[|ps| - 1]) else t1
  }

  ghost function ReleaseAll(t: Tree, ps: seq<Path>): Tree
  {
    if ps == [] then t else
      var t1 := ReleaseAll(t, ps[..|ps| - 1]);
      if ps[|ps| - 1] in t1.entries then Release(t1, ps[|ps| - 1]) else t1
  }

  /** The same paths with the same handles. */
  ghost predicate SameHandles(a: Tree, b: Tree) {
    && (forall p :: p in a.entries <==> p in b.entries)
    && forall p :: p in a.entries ==> a.entries[p].k == b.entries[p].k && a.entries[p].v == b.entries[p].v
  }

  /** Retaining a list adds to each count the number of times the path is listed. */
  lemma {:induction false} RetainAllCounts(t: Tree, hash: Chunk -> int, ps: seq<Path>)
    requires Wf(t, hash)
    requires forall i :: 0 <= i < |ps| ==> ps[i] in t.entries
    ensures Wf(RetainAll(t, ps), hash) && SameHandles(t, RetainAll(t, ps))
    ensures forall p :: p in t.entries ==> RetainAll(t, ps).entries[p].refs == t.entries[p].refs + multiset(ps)[p]
  {
    if ps != [] {
      var n := |ps| - 1;
      RetainAllCounts(t, hash, ps[..n]);
      RetainKeeps(RetainAll(t, ps[..n]), hash, ps[n]);
      assert ps == ps[..n] + [ps[n]];
    }
  }

  /** Releasing a list takes off each count the number of times the path is listed. */
  lemma {:induction false} ReleaseAllCounts(t: Tree, hash: Chunk -> int, ps: seq<Path>)
    requires Wf(t, hash)
    requires forall i :: 0 <= i < |ps| ==> ps[i] in t.entries
    requires forall p :: p in t.entries ==> multiset(ps)[p] <= t.entries[p].refs
    ensures Wf(ReleaseAll(t, ps), hash) && SameHandles(t, ReleaseAll(t, ps))
    ensures forall p :: p in t.entries ==> ReleaseAll(t, ps).entries[p].refs == t.entries[p].refs - multiset(ps)[p]
  {
    if ps != [] {
      var n := |ps| - 1;
      assert ps == ps[..n] + [ps[n]];
      ReleaseAllCounts(t, hash, ps[..n]);
      ReleaseKeeps(ReleaseAll(t, ps[..n]), hash, ps[n]);
    }
  }

  /* ---------- evict_lru ---------- */

  /** q is a proper descendant of p. */
  ghost predicate Below(p: Path, q: Path) { q.Ext? && (q.parent == p || Below(p, q.parent)) }

  lemma {:induction false} BelowTransitive(p: Path, q: Path, x: Path)
    requires Below(p, q) && Below(q, x)
    ensures Below(p, x)
  {
    if x.parent != q { BelowTransitive(p, q, x.parent); }
  }

  lemma {:induction false} BelowLonger(p: Path, q: Path)
    requires Below(p, q)
    ensures Len(p) < Len(q)
  {
    if q.parent != p { BelowLonger(p, q.parent); }
  }

  ghost predicate IsLeaf(t: Tree, p: Path) {
    p in t.entries && forall q {:trigger Below(p, q)} :: q in t.entries ==> !Below(p, q)
  }

  ghost predicate Evictable(t: Tree, p: Path) { IsLeaf(t, p) && t.entries[p].refs == 0 }

  ghost predicate IsVictim(t: Tree, p: Path) {
    Evictable(t, p) && forall q {:trigger Evictable(t, q)} :: Evictable(t, q) ==> t.entries[p].tick <= t.entries[q].tick
  }

  /** Access times are distinct, so the round's victim does not depend on any iteration or sorting order. */
  lemma VictimUnique(t: Tree, hash: Chunk -> int, p: Path, q: Path)
    requires Wf(t, hash) && IsVictim(t, p) && IsVictim(t, q)
    ensures p == q
  {
    assert SameTick(t, p, q);
  }

  function Evict1(t: Tree, p: Path): Tree { t.(entries := t.entries - {p}) }

  /** The oldest evictable leaf. */
  ghost predicate HasVictim(t: Tree) { exists p :: IsVictim(t, p) }

  ghost function Victim(t: Tree): (r: Path)
    requires HasVictim(t)
    ensures IsVictim(t, r)
  {
    var p :| IsVictim(t, p); p
  }

  /** What evict_lru leaves: up to budget rounds, each removing the oldest evictable leaf. */
  ghost function Evict(t: Tree, budget: nat): Tree
    decreases budget
  {
    if budget == 0 || !HasVictim(t) then t else Evict(Evict1(t, Victim(t)), budget - 1)
  }

  /** No stored path runs through p. */
  ghost predicate Childless(t: Tree, p: Path) { forall q :: q in t.entries && q.Ext? ==> q.parent != p }

  lemma {:induction false} ChildlessLeaf(t: Tree, p: Path, q: Path)
    requires PrefixClosed(t) && p in t.entries && Childless(t, p) && (q in t.entries || q == Root)
    ensures !Below(p, q)
  {
    if q.Ext? { ChildlessLeaf(t, p, q.parent); }
  }

  /**
   A round takes one path out: it has no children, no references, and no other path without children and references was
   used longer ago. It takes none exactly when there is no such path.
   */
  lemma EvictOldest(t: Tree, hash: Chunk -> int)
    requires Wf(t, hash)
    ensures var r := Evict(t, 1);
      if forall p :: p in t.entries && Childless(t, p) ==> t.entries[p].refs > 0 then r == t
      else exists p :: p in t.entries && r.entries == t.entries - {p} && r.tick == t.tick
             && Childless(t, p) && t.entries[p].refs == 0
             && forall q :: q in t.entries && Childless(t, q) && t.entries[q].refs == 0 ==> t.entries[p].tick <= t.entries[q].tick
  {
    forall p | p in t.entries ensures IsLeaf(t, p) <==> Childless(t, p) {
      if Childless(t, p) {
        forall q | q in t.entries ensures !Below(p, q) { ChildlessLeaf(t, p, q); }
      } else {
        var q :| q in t.entries && q.Ext? && q.parent == p;
        assert Below(p, q);
      }
    }
    if p :| p in t.entries && Childless(t, p) && t.entries[p].refs == 0 {
      assert Evictable(t, p);
      VictimExists(t, p);
      var v := Victim(t);
      assert Evict(Evict1(t, v), 0) == Evict1(t, v);
      forall q | q in t.entries && Childless(t, q) && t.entries[q].refs == 0 ensures t.entries[v].tick <= t.entries[q].tick {
        assert Evictable(t, q);
      }
    } else {
      assert !HasVictim(t);
    }
  }

  /** More rounds are rounds one after another. */
  lemma {:induction false} EvictRounds(t: Tree, budget: nat)
    ensures Evict(t, budget + 1) == Evict(Evict(t, 1), budget)
    ensures Evict(t, 0) == t
  {
    if HasVictim(t) {
      assert Evict(t, 1) == Evict(Evict1(t, Victim(t)), 0) == Evict1(t, Victim(t));
    } else {
      assert Evict(t, 1) == t;
    }
  }

  /** If any leaf is evictable, one of them is the oldest. */
  lemma {:induction false} VictimExists(t: Tree, p: Path)
    requires Evictable(t, p)
    ensures exists q :: IsVictim(t, q)
    decreases t.entries[p].tick
  {
    if q :| Evictable(t, q) && t.entries[q].tick < t.entries[p].tick {
      VictimExists(t, q);
    } else {
      assert IsVictim(t, p);
    }
  }

  lemma Evict1Keeps(t: Tree, hash: Chunk -> int, p: Path)
    requires Wf(t, hash) && IsLeaf(t, p)
    ensures Wf(Evict1(t, p), hash)
  {
    var r := Evict1(t, p);
    forall q | q in r.entries && !q.parent.Root? ensures q.parent in r.entries {
      assert Below(q.parent, q);
    }
    forall a, b | SameTick(r, a, b) ensures a == b { assert SameTick(t, a, b); }
  }

  /** p is retained, or an ancestor of a retained path. */
  ghost predicate Needed(t: Tree, p: Path) {
    exists q :: q in t.entries && t.entries[q].refs > 0 && (q == p || Below(p, q))
  }

  lemma NeededNotVictim(t: Tree, p: Path)
    requires Evictable(t, p)
    ensures !Needed(t, p)
    ensures forall x :: x != p ==> (Needed(Evict1(t, p), x) <==> Needed(t, x))
  {
    var r := Evict1(t, p);
    forall x | x != p ensures Needed(r, x) <==> Needed(t, x) {
      if Needed(t, x) {
        var q :| q in t.entries && t.entries[q].refs > 0 && (q == x || Below(x, q));
        assert q in r.entries;
      }
      if Needed(r, x) {
        var q :| q in r.entries && r.entries[q].refs > 0 && (q == x || Below(x, q));
        assert q in t.entries;
      }
    }
  }

  /** Entries only disappear, unchanged otherwise, and no retained path or ancestor of one does. */
  ghost predicate Trimmed(t: Tree, r: Tree) {
    && r.tick == t.tick
    && r.entries.Keys <= t.entries.Keys
    && (forall p :: p in r.entries ==> r.entries[p] == t.entries[p])
    && (forall p {:trigger Needed(t, p)} :: p in t.entries && Needed(t, p) ==> p in r.entries)
  }

  lemma TrimmedStep(t: Tree, p: Path, r: Tree)
    requires Evictable(t, p) && Trimmed(Evict1(t, p), r)
    ensures Trimmed(t, r)
  {
    NeededNotVictim(t, p);
  }

  /** Under any budget eviction only trims the tree. */
  lemma {:induction false} EvictSafe(t: Tree, budget: nat)
    ensures Trimmed(t, Evict(t, budget))
    decreases budget
  {
    if budget > 0 && HasVictim(t) {
      var p := Victim(t);
      EvictSafe(Evict1(t, p), budget - 1);
      var r := Evict(Evict1(t, p), budget - 1);
      assert r == Evict(t, budget);
      TrimmedStep(t, p, r);
    }
  }

  lemma {:induction false} EvictWf(t: Tree, hash: Chunk -> int, budget: nat)
    requires Wf(t, hash)
    ensures Wf(Evict(t, budget), hash)
    decreases budget
  {
    if budget > 0 && HasVictim(t) {
      Evict1Keeps(t, hash, Victim(t));
      EvictWf(Evict1(t, Victim(t)), hash, budget - 1);
    }
  }

  /** A tree with nothing evictable holds only retained paths and their ancestors. */
  lemma {:induction false} NoVictimAllNeeded(t: Tree, p: Path)
    requires p in t.entries
    requires forall q :: !IsVictim(t, q)
    ensures Needed(t, p)
    decreases (set q | q in t.entries && Below(p, q))
  {
    if IsLeaf(t, p) {
      if t.entries[p].refs == 0 { VictimExists(t, p); }
    } else {
      var q :| q in t.entries && Below(p, q);
      forall x | x in t.entries && Below(q, x) ensures Below(p, x) { BelowTransitive(p, q, x); }
      var below := set x | x in t.entries && Below(p, x);
      var belowQ := set x | x in t.entries && Below(q, x);
      assert q !in belowQ by { if Below(q, q) { BelowLonger(q, q); } }
      assert belowQ <= below && q in below;
      NoVictimAllNeeded(t, q);
      var x :| x in t.entries && t.entries[x].refs > 0 && (x == q || Below(q, x));
      if x != q { BelowTransitive(p, q, x); }
    }
  }

  ghost predicate KeepsExactlyNeeded(t: Tree, r: Tree) {
    forall p {:trigger p in r.entries} {:trigger Needed(t, p)} :: p in r.entries <==> p in t.entries && Needed(t, p)
  }

  lemma KeepsStep(t: Tree, p: Path, r: Tree)
    requires Evictable(t, p) && KeepsExactlyNeeded(Evict1(t, p), r)
    ensures KeepsExactlyNeeded(t, r)
  {
    NeededNotVictim(t, p);
  }

  /** With enough budget exactly the retained paths and their ancestors stay. */
  lemma {:induction false} EvictAll(t: Tree, budget: nat)
    requires budget >= |t.entries|
    ensures KeepsExactlyNeeded(t, Evict(t, budget))
    decreases budget
  {
    if HasVictim(t) {
      var p := Victim(t);
      assert p in t.entries.Keys;
      var t1 := Evict1(t, p);
      assert t1.entries.Keys == t.entries.Keys - {p};
      EvictAll(t1, budget - 1);
      KeepsStep(t, p, Evict(t1, budget - 1));
    } else {
      forall p | p in t.entries ensures Needed(t, p) { NoVictimAllNeeded(t, p); }
    }
  }

  /** The page handles of an entry, K before V, in iteration order. */
  function EntryHandles(e: Entry): seq<nat> { HandleList(e.k) + HandleList(e.v) }

  function HandleList(h: Handles): (r: seq<nat>)
    ensures |r| == |h|
    ensures forall i :: 0 <= i < |h| ==> r[i] == h[i].1
  {
    if h == [] then [] else [h[0].1] + HandleList(h[1..])
  }

  function EntryMap(t: Tree): map<Path, seq<nat>> {
    map p | p in t.entries :: EntryHandles(t.entries[p])
  }

  /** All page handles the tree holds. */
  ghost function HandleBag(t: Tree): multiset<nat> { BagOf(EntryMap(t)) }

  /** The handles evict_lru returns, in order. */
  ghost function EvictedHandles(t: Tree, budget: nat): seq<nat>
    decreases budget
  {
    if budget == 0 || !HasVictim(t) then [] else
      var p := Victim(t);
      EntryHandles(t.entries[p]) + EvictedHandles(Evict1(t, p), budget - 1)
  }

  lemma EntryMapRemove(t: Tree, p: Path)
    requires p in t.entries
    ensures EntryMap(Evict1(t, p)) == EntryMap(t) - {p}
  {
  }

  lemma HandleBagRemove(t: Tree, p: Path)
    requires p in t.entries
    ensures HandleBag(t) == multiset(EntryHandles(t.entries[p])) + HandleBag(Evict1(t, p))
  {
    EntryMapRemove(t, p);
    BagRemove(EntryMap(t), p);
  }

  lemma ConserveStep(t: Tree, p: Path, r: Tree, rest: seq<nat>)
    requires p in t.entries && HandleBag(Evict1(t, p)) == HandleBag(r) + multiset(rest)
    ensures HandleBag(t) == HandleBag(r) + multiset(EntryHandles(t.entries[p]) + rest)
  {
    HandleBagRemove(t, p);
    assert multiset(EntryHandles(t.entries[p]) + rest) == multiset(EntryHandles(t.entries[p])) + multiset(rest);
  }

  lemma EvictStep(t: Tree, budget: nat)
    requires budget > 0 && HasVictim(t)
    ensures Evict(t, budget) == Evict(Evict1(t, Victim(t)), budget - 1)
    ensures Victim(t) in t.entries
    ensures EvictedHandles(t, budget) ==
            EntryHandles(t.entries[Victim(t)]) + EvictedHandles(Evict1(t, Victim(t)), budget - 1)
  {
  }

  lemma EvictStop(t: Tree, budget: nat)
    requires budget == 0 || !HasVictim(t)
    ensures Evict(t, budget) == t && EvictedHandles(t, budget) == []
  {
  }

  /** No page handle is lost or returned twice. */
  lemma {:induction false} EvictConserves(t: Tree, budget: nat)
    ensures HandleBag(t) == HandleBag(Evict(t, budget)) + multiset(EvictedHandles(t, budget))
    decreases budget
  {
    hide Evict, EvictedHandles, HandleBag, HasVictim, Evict1;
    if budget == 0 || !HasVictim(t) {
      EvictStop(t, budget);
    } else {
      EvictStep(t, budget);
      var p := Victim(t);
      EvictConserves(Evict1(t, p), budget - 1);
      ConserveStep(t, p, Evict(Evict1(t, p), budget - 1), EvictedHandles(Evict1(t, p), budget - 1));
    }
  }
}
