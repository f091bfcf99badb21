/**
 The paged radix tree as the program keeps it: shared, parent-linked nodes with children in a
 dictionary keyed by page hash, reference counts and a logical clock.

 The ghost dictionary `nodes` names every linked node by its page path. The invariant is flat: it
 speaks of one node and its parent or children at a time, so no operation needs a recursive predicate.
 Every operation is proved to do to `contents` exactly what RadixModel says.
 */
module RadixTree {
  import opened Arith
  import opened Bags
  import opened Options
  import opened RadixModel

  class RadixNode {
    const tokenChunk: Chunk
    const chunkHash: int
    const kHandles: Handles
    const vHandles: Handles
    const parent: RadixNode?
    var children: map<int, RadixNode>
    var refCount: nat
    var lastAccessed: nat
    ghost const path: Path

    constructor (tokenChunk: Chunk, chunkHash: int, k: Handles, v: Handles, parent: RadixNode?, tick: nat, ghost path: Path)
      ensures this.tokenChunk == tokenChunk && this.chunkHash == chunkHash
      ensures kHandles == k && vHandles == v && this.parent == parent
      ensures children == map[] && refCount == 0 && lastAccessed == tick && this.path == path
    {
      this.tokenChunk := tokenChunk;
      this.chunkHash := chunkHash;
      kHandles := k;
      vHandles := v;
      this.parent := parent;
      children := map[];
      refCount := 0;
      lastAccessed := tick;
      this.path := path;
    }
  }

  function Given(node: RadixNode?): set<RadixNode> { if node == null then {} else {node} }

  /** b has all of a's bindings. */
  ghost predicate Extends(a: map<Path, RadixNode>, b: map<Path, RadixNode>) {
    forall p :: p in a ==> p in b && b[p] == a[p]
  }

  lemma ExtendsTransitive(a: map<Path, RadixNode>, b: map<Path, RadixNode>, c: map<Path, RadixNode>)
    requires Extends(a, b) && Extends(b, c)
    ensures Extends(a, c)
  {
  }

  lemma ExtendsSelf(a: map<Path, RadixNode>)
    ensures Extends(a, a)
  {
  }

  datatype PrefixMatch = PrefixMatch(matchedTokens: nat, matchedPages: nat,
                                     pageK: seq<Handles>, pageV: seq<Handles>, matchedNodes: seq<RadixNode>)

  class PagedRadixTree {
    const tokensPerPage: nat
    const hash: Chunk -> int
    const root: RadixNode
    var currentTick: nat
    ghost var nodes: map<Path, RadixNode>
    ghost var contents: Tree  // what the tree stores, as a value

    /** p's node hangs under its parent's, by the hash of its tokens. */
    ghost predicate LinkedUp(p: Path)
      reads this`nodes, nodes.Values`children
      requires p in nodes
    {
      p.Ext? ==>
        var n := nodes[p];
        && p.parent in nodes
        && n.parent == nodes[p.parent]
        && n.tokenChunk == p.page
        && n.chunkHash == hash(n.tokenChunk)
        && n.chunkHash in n.parent.children
        && n.parent.children[n.chunkHash] == n
    }

    /** The child of p's node under hash h is the named node of its own path. */
    ghost predicate LinkedDown(p: Path, h: int)
      reads this`nodes, nodes.Values`children
      requires p in nodes && h in nodes[p].children
    {
      var c := nodes[p].children[h];
      && c.path in nodes && nodes[c.path] == c
      && c.path.Ext? && c.path.parent == p
      && c.chunkHash == h
    }

    /** The links. Access times and counts play no part in them. */
    ghost predicate Linked()
      reads this`nodes, nodes.Values`children
    {
      && tokensPerPage > 0
      && Root in nodes && nodes[Root] == root
      && (forall p :: p in nodes ==> nodes[p].path == p)
      && (forall p {:trigger LinkedUp(p)} :: p in nodes ==> LinkedUp(p))
      && (forall p, h {:trigger LinkedDown(p, h)} :: p in nodes && h in nodes[p].children ==> LinkedDown(p, h))
    }

    ghost function Shown(n: RadixNode): Entry
      reads n
    {
      Entry(n.kHandles, n.vHandles, n.refCount, n.lastAccessed)
    }

    /** The public view says what the linked nodes hold. */
    ghost predicate Agrees()
      reads this, nodes.Values
    {
      && contents.tick == currentTick
      && (forall p :: p in contents.entries <==> p in nodes && p.Ext?)
      && (forall p :: p in contents.entries ==> contents.entries[p] == Shown(nodes[p]))
    }

    ghost predicate Valid()
      reads this, nodes.Values
    {
      Linked() && Agrees()
    }

    constructor (tokensPerPage: nat, hash: Chunk -> int)
      ensures Valid() && fresh(root) && nodes == map[Root := root]
      ensures this.tokensPerPage == (if tokensPerPage > 0 then tokensPerPage else 1024) && this.hash == hash
      ensures contents == Tree(0, map[])
    {
      this.tokensPerPage := if tokensPerPage > 0 then tokensPerPage else 1024;
      this.hash := hash;
      var r := new RadixNode(Chunk([]), 0, [], [], null, 0, Root);
      root := r;
      currentTick := 0;
      nodes := map[Root := r];
      contents := Tree(0, map[]);
    }

    /** Looking up a hash among p's children finds the path RadixModel.Child finds. */
    lemma ChildLink(p: Path, c: Chunk)
      requires Valid() && p in nodes
      ensures hash(c) in nodes[p].children <==> HasChild(contents, hash, p, c)
      ensures hash(c) in nodes[p].children ==>
        var n := nodes[p].children[hash(c)];
        && n.path == Child(contents, hash, p, c)
        && n.path in nodes && nodes[n.path] == n
        && n.path == Ext(p, n.tokenChunk)
      ensures Ext(p, c) in nodes ==> hash(c) in nodes[p].children && nodes[p].children[hash(c)] == nodes[Ext(p, c)]
    {
      var t := contents;
      if hash(c) in nodes[p].children {
        var n := nodes[p].children[hash(c)];
        assert LinkedDown(p, hash(c));
        assert LinkedUp(n.path);
        assert SameBucket(hash, n.path, Ext(p, c));
        assert LinkedUp(Child(t, hash, p, c));
      }
      if HasChild(t, hash, p, c) {
        assert LinkedUp(Child(t, hash, p, c));
      }
      if Ext(p, c) in nodes {
        assert LinkedUp(Ext(p, c));
      }
    }

    /** The result lists, page by page, the linked nodes of the prompt's prefixes and their handles. */
    ghost predicate Collected(pages: seq<Chunk>, r: PrefixMatch)
      reads this`nodes
    {
      && |r.matchedNodes| == |r.pageK| == |r.pageV| == r.matchedPages <= |pages|
      && forall i :: 0 <= i < r.matchedPages ==>
           && Prefix(pages, i + 1) in nodes && r.matchedNodes[i] == nodes[Prefix(pages, i + 1)]
           && r.pageK[i] == r.matchedNodes[i].kHandles && r.pageV[i] == r.matchedNodes[i].vHandles
    }

    function Append(r: PrefixMatch, n: RadixNode): PrefixMatch {
      PrefixMatch(r.matchedTokens + tokensPerPage, r.matchedPages + 1,
                  r.pageK + [n.kHandles], r.pageV + [n.vHandles], r.matchedNodes + [n])
    }

    lemma CollectedSnoc(pages: seq<Chunk>, r: PrefixMatch, n: RadixNode)
      requires Collected(pages, r) && r.matchedPages < |pages|
      requires Prefix(pages, r.matchedPages + 1) in nodes && n == nodes[Prefix(pages, r.matchedPages + 1)]
      ensures Collected(pages, Append(r, n))
    {
    }

    method FullPages(prompt: seq<int>) returns (n: nat)
      requires tokensPerPage > 0
      ensures n == |Pages(prompt, tokensPerPage)|
    {
      PageCount(prompt, tokensPerPage);
      n := |prompt| / tokensPerPage;
    }

    /** Page i of the prompt, or None where the prompt is too short to have it. */
    method ReadPage(prompt: seq<int>, i: nat) returns (chunk: Option<Chunk>)
      requires tokensPerPage > 0
      ensures chunk == if i < |Pages(prompt, tokensPerPage)| then Some(Pages(prompt, tokensPerPage)[i]) else None
    {
      var chunkStart := i * tokensPerPage;
      PageWindow(prompt, tokensPerPage, i);
      if chunkStart + tokensPerPage > |prompt| {
        return None;
      }
      return Some(Chunk(prompt[chunkStart..chunkStart + tokensPerPage]));
    }

    /** The child of current that holds exactly these tokens, if its hash leads to one. */
    method FindPage(current: RadixNode, chunk: Chunk) returns (r: RadixNode?)
      requires Valid() && current.path in nodes && nodes[current.path] == current
      ensures r != null <==> Ext(current.path, chunk) in nodes
      ensures r != null <==> Ext(current.path, chunk) in contents.entries
      ensures r != null ==> r == nodes[Ext(current.path, chunk)] && r.path == Ext(current.path, chunk)
    {
      var h := hash(chunk);
      ChildLink(current.path, chunk);
      if h !in current.children {
        return null;
      }
      var candidate := current.children[h];
      if candidate.tokenChunk != chunk {
        return null;
      }
      return candidate;
    }

    lemma RootNode()
      requires Valid()
      ensures tokensPerPage > 0 && root.path == Root && Root in nodes && nodes[Root] == root
    {
    }

    /** The longest stored page prefix of the prompt, whatever the hash function collides on. */
    method MatchPrefix(prompt: seq<int>) returns (r: PrefixMatch)
      requires Valid()
      modifies this`currentTick, this`contents, nodes.Values`lastAccessed
      ensures Valid() && nodes == old(nodes)
      ensures (r.matchedPages, contents) == Match(old(contents), Pages(prompt, tokensPerPage))
      ensures r.matchedTokens == Times(r.matchedPages, tokensPerPage)
      ensures Collected(Pages(prompt, tokensPerPage), r)
      ensures old(Wf(contents, hash)) ==> forall i, p {:trigger r.matchedNodes[i], nodes[p]} ::
        0 <= i < r.matchedPages && p in nodes && p.Ext? && nodes[p] !in r.matchedNodes ==>
          nodes[p].lastAccessed < r.matchedNodes[i].lastAccessed
    {
      ghost var t0, pages := contents, Pages(prompt, tokensPerPage);
      r := Descend(prompt);
      if Wf(t0, hash) {
        hide Valid, Wf, Match, Collected;
        forall i: nat, p | i < r.matchedPages && p in nodes && p.Ext? && nodes[p] !in r.matchedNodes
          ensures nodes[p].lastAccessed < r.matchedNodes[i].lastAccessed
        {
          NewerThan(t0, pages, r, i, p);
        }
      }
    }

    lemma NewerThan(t0: Tree, pages: seq<Chunk>, r: PrefixMatch, i: nat, p: Path)
      requires Valid() && Wf(t0, hash) && (r.matchedPages, contents) == Match(t0, pages) && Collected(pages, r)
      requires i < r.matchedPages && p in nodes && p.Ext? && nodes[p] !in r.matchedNodes
      ensures nodes[p].lastAccessed < r.matchedNodes[i].lastAccessed
    {
      hide MatchFrom, Match, Linked, Prefix;
      SameButTicksIn(t0, pages, p);
      forall j | 0 < j <= r.matchedPages ensures p != Prefix(pages, j) {
        CollectedAt(pages, r, j);
      }
      MatchIsFreshest(t0, hash, pages, i + 1, p);
    }

    lemma CollectedAt(pages: seq<Chunk>, r: PrefixMatch, j: nat)
      requires Collected(pages, r) && 0 < j <= r.matchedPages
      ensures j <= |pages| && Prefix(pages, j) in nodes && nodes[Prefix(pages, j)] == r.matchedNodes[j - 1]
    {
      var i: nat := j - 1;
      var n := r.matchedNodes[i];
      assert r.pageK[i] == n.kHandles;
    }

    lemma SameButTicksIn(t0: Tree, pages: seq<Chunk>, p: Path)
      requires Wf(t0, hash)
      ensures p in Match(t0, pages).1.entries <==> p in t0.entries
    {
      MatchFromKeeps(t0, hash, pages, 0);
    }

    /** The walk down the children. */
    method Descend(prompt: seq<int>) returns (r: PrefixMatch)
      requires Valid()
      modifies this`currentTick, this`contents, nodes.Values`lastAccessed
      ensures Valid() && nodes == old(nodes)
      ensures (r.matchedPages, contents) == Match(old(contents), Pages(prompt, tokensPerPage))
      ensures r.matchedTokens == Times(r.matchedPages, tokensPerPage)
      ensures Collected(Pages(prompt, tokensPerPage), r)
    {
      hide Valid;
      RootNode();
      r := PrefixMatch(0, 0, [], [], []);
      ghost var pages := Pages(prompt, tokensPerPage);
      ghost var t0 := contents;
      if |prompt| < tokensPerPage {
        return;
      }
      var numFullPages := FullPages(prompt);
      var current: RadixNode := root;
      var p: nat := 0;
      while p < numFullPages
        invariant 0 <= p <= numFullPages == |pages|
        invariant Valid() && nodes == old(nodes)
        invariant Match(t0, pages) == MatchFrom(contents, pages, p)
        invariant current.path == Prefix(pages, p) && current.path in nodes && current == nodes[current.path]
        invariant r.matchedPages == p && r.matchedTokens == Times(p, tokensPerPage)
        invariant Collected(pages, r)
      {
        var chunk := ReadPage(prompt, p);
        var candidate := FindPage(current, chunk.value);
        if candidate == null {
          break;
        }
        current := candidate;
        MatchFromStep(contents, pages, p);
        TouchNode(current);
        CollectedSnoc(pages, r, current);
        r := Append(r, current);
        p := p + 1;
      }
    }

    /** Advances the clock and marks a linked node as used now. */
    method TouchNode(n: RadixNode)
      requires Valid() && n.path.Ext? && n.path in nodes && nodes[n.path] == n
      modifies this`currentTick, this`contents, n`lastAccessed
      ensures Valid() && nodes == old(nodes)
      ensures contents == Touch(old(contents), n.path)
    {
      currentTick := currentTick + 1;
      n.lastAccessed := currentTick;
      contents := Touch(contents, n.path);
    }

    /* ---------- insert_prefix ---------- */

    /** Steps to the child under the chunk's hash, or links a new node there. The child's tokens are not compared. */
    method AttachPage(current: RadixNode, chunk: Chunk, k: Handles, v: Handles) returns (next: RadixNode)
      requires Valid() && current.path in nodes && nodes[current.path] == current
      modifies this, current`children, nodes.Values`lastAccessed
      ensures Valid() && Extends(old(nodes), nodes)
      ensures fresh(nodes.Values - old(nodes.Values))
      ensures next.path in nodes && nodes[next.path] == next
      ensures (next.path, contents) == Attach(old(contents), hash, current.path, chunk, k, v)
    {
      var h := hash(chunk);
      ChildLink(current.path, chunk);
      if h in current.children {
        next := current.children[h];
        TouchNode(next);
      } else {
        assert SameBucket(hash, Ext(current.path, chunk), Ext(current.path, chunk));
        next := NewPage(current, chunk, h, k, v);
      }
    }

    /** Makes the node for a chunk no child of current has the hash of. */
    method NewPage(current: RadixNode, chunk: Chunk, h: int, k: Handles, v: Handles) returns (next: RadixNode)
      requires Valid() && current.path in nodes && nodes[current.path] == current
      requires h == hash(chunk) && h !in current.children && Ext(current.path, chunk) !in contents.entries
      modifies this, current`children
      ensures Valid() && fresh(next) && next.path == Ext(current.path, chunk)
      ensures nodes == old(nodes)[next.path := next] && next.path !in old(nodes)
      ensures contents == NewEntry(old(contents), next.path, k, v)
    {
      ghost var q := Ext(current.path, chunk);
      currentTick := currentTick + 1;
      next := new RadixNode(chunk, h, k, v, current, currentTick, q);
      LinkNew(current, next, h);
      contents := NewEntry(contents, q, k, v);
    }

    /** Hangs a new node below current under a hash that is free there; every other link stays. */
    method LinkNew(current: RadixNode, next: RadixNode, h: int)
      requires Linked() && current.path in nodes && nodes[current.path] == current
      requires next.path !in nodes && next !in nodes.Values
      requires next.path == Ext(current.path, next.tokenChunk) && next.parent == current && next.children == map[]
      requires h == next.chunkHash == hash(next.tokenChunk) && h !in current.children
      modifies this`nodes, current`children
      ensures Linked() && nodes == old(nodes)[next.path := next]
    {
      ghost var q := next.path;
      current.children := current.children[h := next];
      nodes := nodes[q := next];
      forall p | p in nodes ensures LinkedUp(p) {
        if p != q {
          assert old(LinkedUp(p));
        }
      }
      forall p, g | p in nodes && g in nodes[p].children ensures LinkedDown(p, g) {
        if p != q && !(p == current.path && g == h) {
          assert g in old(nodes[p].children);
          assert old(LinkedDown(p, g));
          assert nodes[p].children[g] == old(nodes[p].children[g]);
        }
      }
    }

    /** Follows the first startPage pages by hash alone; null where the program gives up. */
    method WalkPrefix(prompt: seq<int>, startPage: nat) returns (current: RadixNode?)
      requires Valid()
      ensures var pages := Pages(prompt, tokensPerPage);
        if startPage > |pages| || Walk(contents, hash, Root, pages, 0, startPage).None? then current == null
        else
          && current != null
          && Walk(contents, hash, Root, pages, 0, startPage) == Some(current.path)
          && current.path in nodes && nodes[current.path] == current
    {
      ghost var pages := Pages(prompt, tokensPerPage);
      current := root;
      var p := 0;
      while p < startPage
        invariant 0 <= p <= startPage && p <= |pages|
        invariant current != null && current.path in nodes && nodes[current.path] == current
        invariant startPage <= |pages| ==>
          Walk(contents, hash, Root, pages, 0, startPage) == Walk(contents, hash, current.path, pages, p, startPage)
      {
        var chunk := ReadPage(prompt, p);
        if chunk.None? {
          return null;
        }
        var h := hash(chunk.value);
        ChildLink(current.path, pages[p]);
        if h !in current.children {
          return null;
        }
        current := current.children[h];
        p := p + 1;
      }
    }

    /** Adds handles for the pages from startPage on; existing children win, looked up by hash alone. */
    method InsertPrefix(prompt: seq<int>, startPage: nat, pageK: seq<Handles>, pageV: seq<Handles>)
      requires Valid()
      modifies this, nodes.Values
      ensures Valid() && Extends(old(nodes), nodes)
      ensures fresh(nodes.Values - old(nodes.Values))
      ensures contents == Insert(old(contents), hash, Pages(prompt, tokensPerPage), startPage, pageK, pageV)
    {
      hide Valid, Attach, Pages, Walk, Extends;
      RootNode();
      ExtendsSelf(nodes);
      if |pageK| == 0 || |pageK| != |pageV| {
        return;
      }
      ghost var pages := Pages(prompt, tokensPerPage);
      ghost var t0 := contents;
      var walked := WalkPrefix(prompt, startPage);
      if walked == null {
        return;
      }
      var current: RadixNode := walked;
      ghost var n := Min(startPage + |pageK|, |pages|);
      ghost var p0 := current.path;
      var j := 0;
      while j < |pageK|
        invariant 0 <= j <= |pageK| && startPage + j <= n
        invariant Valid() && Extends(old(nodes), nodes) && fresh(nodes.Values - old(nodes.Values))
        invariant current.path in nodes && nodes[current.path] == current
        invariant (current.path, contents) == InsertTo(t0, hash, p0, pages, startPage, startPage + j, pageK, pageV)
      {
        var chunk := ReadPage(prompt, startPage + j);
        if chunk.None? {
          return; // a fractional tail cannot form an immutable page
        }
        ghost var q, t1 := current.path, contents;
        ghost var before := nodes;
        current := AttachPage(current, chunk.value, pageK[j], pageV[j]);
        ExtendsTransitive(old(nodes), before, nodes);
        InsertToStep(t0, hash, p0, pages, startPage, j, pageK, pageV, q, t1, current.path, contents);
        j := j + 1;
      }
    }

    /* ---------- retain_node and release_node ---------- */

    /** The node is one the dictionary has an entry for; eviction unlinks nodes that a caller may still point to. */
    ghost predicate Stored(node: RadixNode)
      reads this`nodes
    {
      node.path.Ext? && node.path in nodes && nodes[node.path] == node
    }

    /** Counts one more reference at the node's next access time. The public view is not told yet. */
    method CountReference(node: RadixNode)
      requires Valid()
      modifies this`currentTick, node`refCount, node`lastAccessed
      ensures Linked() && nodes == old(nodes) && contents == old(contents) && currentTick == old(currentTick) + 1
      ensures node.refCount == old(node.refCount) + 1 && node.lastAccessed == currentTick
      ensures forall p :: p in nodes && nodes[p] != node ==> Shown(nodes[p]) == old(Shown(nodes[p]))
    {
      hide Linked;
      node.refCount := node.refCount + 1;
      currentTick := currentTick + 1;
      node.lastAccessed := currentTick;
    }

    lemma OnlyItself(node: RadixNode)
      requires Valid()
      ensures forall p {:trigger nodes[p]} :: p in nodes && nodes[p] == node ==> p == node.path
    {
    }

    method RetainGiven(node: RadixNode)
      requires Valid()
      modifies this`currentTick, this`contents, node`refCount, node`lastAccessed
      ensures Valid() && nodes == old(nodes) && node.refCount == old(node.refCount) + 1
      ensures contents ==
        if Stored(node) then Retain(old(contents), node.path) else old(contents).(tick := old(contents.tick) + 1)
    {
      OnlyItself(node);
      hide Linked;
      CountReference(node);
      contents := if Stored(node) then Retain(contents, node.path) else contents.(tick := contents.tick + 1);
    }

    /** One more reference, from now on the most recently used. On a node that is not stored only the clock shows it. */
    method RetainNode(node: RadixNode?)
      requires Valid()
      modifies this`currentTick, this`contents, Given(node)`refCount, Given(node)`lastAccessed
      ensures Valid() && nodes == old(nodes)
      ensures node == null ==> contents == old(contents)
      ensures node != null ==> node.refCount == old(node.refCount) + 1
      ensures node != null ==>
        contents == if Stored(node) then Retain(old(contents), node.path) else old(contents).(tick := old(contents.tick) + 1)
    {
      if node == null {
        return;
      }
      hide Valid, Retain;
      RetainGiven(node);
    }

    /** One reference less, never below zero; on a node that is not stored the tree does not change. */
    method ReleaseNode(node: RadixNode?)
      requires Valid()
      modifies this`contents, Given(node)`refCount
      ensures Valid() && nodes == old(nodes)
      ensures node != null ==> node.refCount == if old(node.refCount) > 0 then old(node.refCount) - 1 else 0
      ensures contents == if node != null && Stored(node) then Release(old(contents), node.path) else old(contents)
    {
      if node == null {
        return;
      }
      if node.refCount > 0 {
        node.refCount := node.refCount - 1;
      }
      contents := if Stored(node) then Release(contents, node.path) else contents;
    }

    /* ---------- evict_lru ---------- */

    /** Between a linked node and a linked descendant lies one of its children. */
    lemma {:induction false} ChildToward(p: Path, q: Path) returns (c: Path)
      requires Linked() && p in nodes && q in nodes && Below(p, q)
      ensures c in nodes && c.Ext? && c.parent == p && (c == q || Below(c, q))
      ensures nodes[c].chunkHash in nodes[p].children && nodes[p].children[nodes[c].chunkHash] == nodes[c]
    {
      assert LinkedUp(q);
      if q.parent == p {
        c := q;
      } else {
        c := ChildToward(p, q.parent);
      }
      assert LinkedUp(c);
    }

    /** A linked node without children is a leaf of the dictionary, and only such a node. */
    lemma LeafLink(p: Path)
      requires Valid() && p in nodes && p.Ext?
      ensures nodes[p].children == map[] <==> IsLeaf(contents, p)
    {
      if nodes[p].children == map[] {
        forall q | q in contents.entries ensures !Below(p, q) {
          if Below(p, q) { var c := ChildToward(p, q); }
        }
      } else {
        var h := SomeOf(nodes[p].children.Keys);
        assert LinkedDown(p, h);
        assert Below(p, nodes[p].children[h].path);
      }
    }

    /** The program's test for a candidate, and what lies below a node that fails it. */
    lemma CandidateLink(p: Path)
      requires Valid() && p in nodes && p.Ext?
      ensures (nodes[p].children == map[] && nodes[p].refCount == 0) <==> Evictable(contents, p)
    {
      LeafLink(p);
    }

    lemma ChildFacts(p: Path, h: int)
      requires Valid() && p in nodes && h in nodes[p].children
      ensures var c := nodes[p].children[h];
        c.path in nodes && nodes[c.path] == c && c.path.Ext? && c.path.parent == p
    {
      assert LinkedDown(p, h);
    }

    lemma AllListed(p: Path, cs: seq<RadixNode>)
      requires Valid() && p in nodes
      requires forall h, q {:trigger h in nodes[p].children, Evictable(contents, q)} ::
        (h in nodes[p].children && Evictable(contents, q)
         && (q == nodes[p].children[h].path || Below(nodes[p].children[h].path, q)))
        ==> Lists(cs, q)
      ensures forall q {:trigger Evictable(contents, q)} :: Evictable(contents, q) && Below(p, q) ==> Lists(cs, q)
    {
      forall q | Evictable(contents, q) && Below(p, q) ensures Lists(cs, q) {
        var c := ChildToward(p, q);
      }
    }

    ghost function Descendants(p: Path): set<Path>
      reads this`nodes
    {
      set q | q in nodes && Below(p, q)
    }

    lemma DescendantsShrink(p: Path, c: Path)
      requires c in nodes && c.Ext? && c.parent == p
      ensures Descendants(c) < Descendants(p)
    {
      forall q | q in Descendants(c) ensures q in Descendants(p) { BelowTransitive(p, c, q); }
      assert c in Descendants(p);
      if Below(c, c) { BelowLonger(c, c); }
    }

    /** cs lists evictable leaves below p only. */
    ghost predicate CandidatesBelow(p: Path, cs: seq<RadixNode>)
      reads this`nodes, this`contents
    {
      forall i :: 0 <= i < |cs| ==>
        Evictable(contents, cs[i].path) && Below(p, cs[i].path) && cs[i].path in nodes && nodes[cs[i].path] == cs[i]
    }

    ghost predicate Lists(cs: seq<RadixNode>, q: Path)
      reads this`nodes
    {
      q in nodes && nodes[q] in cs
    }

    method CollectEvictionCandidates(node: RadixNode) returns (cs: seq<RadixNode>)
      requires Valid() && node.path in nodes && nodes[node.path] == node
      ensures CandidatesBelow(node.path, cs)
      ensures forall q {:trigger Evictable(contents, q)} :: Evictable(contents, q) && Below(node.path, q) ==> Lists(cs, q)
      decreases Descendants(node.path)
    {
      hide Valid, Evictable;
      ghost var p := node.path;
      cs := [];
      var todo := node.children.Keys;
      while todo != {}
        invariant todo <= node.children.Keys
        invariant CandidatesBelow(p, cs)
        invariant forall h, q {:trigger h in node.children, Evictable(contents, q)} ::
          (h in node.children && h !in todo && Evictable(contents, q)
           && (q == node.children[h].path || Below(node.children[h].path, q)))
          ==> Lists(cs, q)
        decreases todo
      {
        var h := AnyOf(todo);
        var child := node.children[h];
        ChildFacts(p, h);
        CandidateLink(child.path);
        if child.children == map[] && child.refCount == 0 {
          cs := cs + [child];
          EvictableAlone(child.path);
        } else {
          DescendantsShrink(p, child.path);
          var more := CollectEvictionCandidates(child);
          CandidatesUp(p, child.path, more);
          cs := cs + more;
        }
        todo := todo - {h};
      }
      AllListed(p, cs);
    }

    lemma EvictableAlone(p: Path)
      requires Evictable(contents, p)
      ensures forall q {:trigger Evictable(contents, q)} :: Evictable(contents, q) ==> !Below(p, q)
    {
    }

    lemma CandidatesUp(p: Path, c: Path, cs: seq<RadixNode>)
      requires c.Ext? && c.parent == p && CandidatesBelow(c, cs)
      ensures CandidatesBelow(p, cs)
    {
      forall i | 0 <= i < |cs| ensures Below(p, cs[i].path) { BelowTransitive(p, c, cs[i].path); }
    }

    /** The front of the candidates sorted by last access: a least recently used one. */
    method Oldest(cs: seq<RadixNode>) returns (target: RadixNode)
      requires |cs| > 0
      ensures target in cs
      ensures forall i :: 0 <= i < |cs| ==> target.lastAccessed <= cs[i].lastAccessed
    {
      target := cs[0];
      for i := 1 to |cs|
        invariant target in cs
        invariant forall j :: 0 <= j < i ==> target.lastAccessed <= cs[j].lastAccessed
      {
        if cs[i].lastAccessed < target.lastAccessed {
          target := cs[i];
        }
      }
    }

    /** Takes a childless node out of its parent's children; every other link stays. */
    method EraseChild(parent: RadixNode, target: RadixNode)
      requires Linked() && target.path in nodes && nodes[target.path] == target && target.path.Ext?
      requires parent == target.parent && target.children == map[]
      modifies this`nodes, parent`children
      ensures Linked() && nodes == old(nodes) - {target.path}
    {
      ghost var q := target.path;
      assert LinkedUp(q);
      parent.children := parent.children - {target.chunkHash};
      nodes := nodes - {q};
      forall p | p in nodes ensures LinkedUp(p) {
        assert old(LinkedUp(p));
        if p.Ext? {
          assert p.parent != q;
        }
      }
      forall p, h | p in nodes && h in nodes[p].children ensures LinkedDown(p, h) {
        assert h in old(nodes[p].children);
        assert old(LinkedDown(p, h));
        assert nodes[p].children[h] == old(nodes[p].children[h]);
        assert nodes[p].children[h] != target;
      }
    }

    /** Unlinks a leaf; the program reads the parent through a weak pointer and skips the erase if it is gone. */
    method UnlinkLeaf(target: RadixNode)
      requires Valid() && target.path in nodes && nodes[target.path] == target && IsLeaf(contents, target.path)
      modifies this`nodes, this`contents, nodes.Values`children
      ensures Valid() && nodes == old(nodes) - {target.path}
      ensures contents == Evict1(old(contents), target.path)
    {
      LeafLink(target.path);
      assert LinkedUp(target.path);
      var parent := target.parent;
      if parent != null {
        EraseChild(parent, target);
      }
      contents := Evict1(contents, target.path);
    }

    /** One round picks the victim RadixModel names, whatever order the children come in. */
    lemma TargetIsVictim(cs: seq<RadixNode>, target: RadixNode)
      requires Valid() && Wf(contents, hash)
      requires CandidatesBelow(Root, cs) && target in cs
      requires forall q {:trigger Evictable(contents, q)} :: Evictable(contents, q) && Below(Root, q) ==> Lists(cs, q)
      requires forall i :: 0 <= i < |cs| ==> target.lastAccessed <= cs[i].lastAccessed
      ensures IsLeaf(contents, target.path) && HasVictim(contents) && Victim(contents) == target.path
    {
      forall q | Evictable(contents, q) ensures contents.entries[target.path].tick <= contents.entries[q].tick {
        BelowRoot(q);
        assert Lists(cs, q);
      }
      assert IsVictim(contents, target.path);
      VictimUnique(contents, hash, target.path, Victim(contents));
    }

    lemma {:induction false} BelowRoot(q: Path)
      requires q.Ext?
      ensures Below(Root, q)
    {
      if q.parent.Ext? { BelowRoot(q.parent); }
    }

    lemma NoCandidatesNoVictim(cs: seq<RadixNode>)
      requires |cs| == 0 && Valid()
      requires forall q {:trigger Evictable(contents, q)} :: Evictable(contents, q) && Below(Root, q) ==> Lists(cs, q)
      ensures !HasVictim(contents)
    {
      if p :| IsVictim(contents, p) { BelowRoot(p); }
    }

    method HandlesOf(h: Handles) returns (r: seq<nat>)
      ensures r == HandleList(h)
    {
      r := [];
      for i := 0 to |h|
        invariant |r| == i && forall j :: 0 <= j < i ==> r[j] == h[j].1
      {
        r := r + [h[i].1];
      }
    }

    /** Up to maxPages rounds of unlinking the least recently used unreferenced leaf. */
    method EvictLru(maxPages: nat) returns (freed: seq<nat>)
      requires Valid() && Wf(contents, hash)
      modifies this`nodes, this`contents, nodes.Values`children
      ensures Valid() && Extends(nodes, old(nodes))
      ensures contents == Evict(old(contents), maxPages)
      ensures freed == EvictedHandles(old(contents), maxPages)
    {
      hide Valid, Extends, Wf, Evictable, IsVictim, Evict, EvictedHandles, HasVictim, EntryHandles, HandleList;
      freed := [];
      ExtendsSelf(nodes);
      ghost var t0 := contents;
      var evicted := 0;
      while evicted < maxPages
        invariant 0 <= evicted <= maxPages
        invariant Valid() && Wf(contents, hash) && Extends(nodes, old(nodes)) && nodes.Values <= old(nodes.Values)
        invariant Evict(t0, maxPages) == Evict(contents, maxPages - evicted)
        invariant EvictedHandles(t0, maxPages) == freed + EvictedHandles(contents, maxPages - evicted)
      {
        RootNode();
        var candidates := CollectEvictionCandidates(root);
        if |candidates| == 0 {
          NoCandidatesNoVictim(candidates);
          EvictStop(contents, maxPages - evicted);
          return;
        }
        var target := Oldest(candidates);
        TargetIsVictim(candidates, target);
        var k := HandlesOf(target.kHandles);
        var v := HandlesOf(target.vHandles);
        ShownHandles(target);
        EvictStep(contents, maxPages - evicted);
        freed := freed + k + v;
        Evict1Keeps(contents, hash, target.path);
        ghost var before := nodes;
        UnlinkLeaf(target);
        ExtendsMinus(before, target.path);
        ExtendsTransitive(nodes, before, old(nodes));
        evicted := evicted + 1;
      }
      EvictStop(contents, maxPages - evicted);
    }

    lemma ExtendsMinus(a: map<Path, RadixNode>, p: Path)
      ensures Extends(a - {p}, a) && (a - {p}).Values <= a.Values
    {
    }

    lemma ShownHandles(n: RadixNode)
      requires Valid() && n.path.Ext? && n.path in nodes && nodes[n.path] == n
      ensures n.path in contents.entries
      ensures EntryHandles(contents.entries[n.path]) == HandleList(n.kHandles) + HandleList(n.vHandles)
    {
    }

    /* ---------- counts ---------- */

    ghost function Subtree(p: Path): set<Path>
      reads this`nodes
    {
      Descendants(p) + {p}
    }

    /** One for the node and the counts of its children's subtrees. */
    method CountNodes(node: RadixNode) returns (n: nat)
      requires Valid() && node.path in nodes && nodes[node.path] == node
      ensures n == |Subtree(node.path)|
      decreases Descendants(node.path)
    {
      hide Valid;
      ghost var p := node.path;
      n := 1;
      ghost var seen := {p};
      var todo := node.children.Keys;
      while todo != {}
        invariant todo <= node.children.Keys
        invariant n == |seen|
        invariant forall q :: q in seen <==>
          q == p || exists h :: h in node.children && h !in todo && q in Subtree(node.children[h].path)
        decreases todo
      {
        var h := AnyOf(todo);
        var child := node.children[h];
        ChildFacts(p, h);
        DescendantsShrink(p, child.path);
        var m := CountNodes(child);
        forall q | q in seen ensures q !in Subtree(child.path) {
          SubtreesApart(p, h, q, todo);
        }
        assert |seen + Subtree(child.path)| == |seen| + |Subtree(child.path)|;
        seen := seen + Subtree(child.path);
        n := n + m;
        todo := todo - {h};
      }
      forall q ensures q in seen <==> q in Subtree(p) {
        SubtreeSplit(p, q);
      }
      assert seen == Subtree(p);
    }

    /** What lies below a node lies in exactly one child's subtree. */
    lemma SubtreeSplit(p: Path, q: Path)
      requires Valid() && p in nodes
      ensures q in Descendants(p) <==> exists h :: h in nodes[p].children && q in Subtree(nodes[p].children[h].path)
    {
      if q in Descendants(p) {
        var c := ChildToward(p, q);
        assert nodes[c].chunkHash in nodes[p].children;
      }
      if h :| h in nodes[p].children && q in Subtree(nodes[p].children[h].path) {
        assert LinkedDown(p, h);
        DescendantsShrink(p, nodes[p].children[h].path);
      }
    }

    lemma SubtreesApart(p: Path, h: int, q: Path, todo: set<int>)
      requires Valid() && p in nodes && h in nodes[p].children && h in todo
      requires q == p || exists g :: g in nodes[p].children && g !in todo && q in Subtree(nodes[p].children[g].path)
      ensures q !in Subtree(nodes[p].children[h].path)
    {
      var c := nodes[p].children[h].path;
      assert LinkedDown(p, h);
      assert LinkedUp(c);
      if q == p {
        if q in Descendants(c) { BelowTransitive(p, c, p); BelowLonger(p, p); }
      } else {
        var g :| g in nodes[p].children && g !in todo && q in Subtree(nodes[p].children[g].path);
        var d := nodes[p].children[g].path;
        assert LinkedDown(p, g);
        assert LinkedUp(d);
        if q in Subtree(c) { SameChild(c, d, q); }
      }
    }

    lemma {:induction false} SameChild(c: Path, d: Path, q: Path)
      requires c.Ext? && d.Ext? && c.parent == d.parent
      requires q == c || Below(c, q)
      requires q == d || Below(d, q)
      ensures c == d
    {
      if q == c && q != d { BelowLonger(d, c); }
      else if q == d && q != c { BelowLonger(c, d); }
      else if q != c { SameChild(c, d, q.parent); }
    }

    method TotalNodes() returns (n: nat)
      requires Valid()
      ensures n == |contents.entries| + 1
    {
      RootNode();
      n := CountNodes(root);
      forall q ensures q in Subtree(Root) <==> q in contents.entries.Keys + {Root} {
        if q.Ext? { BelowRoot(q); }
      }
      assert Subtree(Root) == contents.entries.Keys + {Root};
    }
  }
}
