/** Two helpers on tensor graphs: reachability with a visited set, and zero-copy reshape of a strided view. */
module TensorGraph {
  import opened Arith
  import opened Options

  /* ---------- tensor_derived_from_roots ---------- */

  /** A tensor's view source, and its first operand if its op only looks at that. */
  datatype Tensor = Tensor(viewSrc: Option<nat>, viewLike: bool, src0: Option<nat>)

  type Graph = map<nat, Tensor>

  /** Edges stay in the graph. Tensors may be shared, and nothing forbids cycles. */
  ghost predicate Closed(g: Graph) {
    forall t {:trigger g[t]} :: t in g ==>
      (g[t].viewSrc.Some? ==> g[t].viewSrc.value in g) && (g[t].src0.Some? ==> g[t].src0.value in g)
  }

  function ViaSrc0(x: Tensor): Option<nat> { if x.viewLike then x.src0 else None }

  /** A root can be reached from t in at most n steps without passing through a tensor of avoid. */
  ghost predicate ReachIn(g: Graph, roots: set<nat>, avoid: set<nat>, t: Option<nat>, n: nat)
    decreases n
  {
    t.Some? && (t.value in roots
      || (n > 0 && t.value in g && t.value !in avoid
          && (ReachIn(g, roots, avoid, g[t.value].viewSrc, n - 1) || ReachIn(g, roots, avoid, ViaSrc0(g[t.value]), n - 1))))
  }

  ghost predicate Reaches(g: Graph, roots: set<nat>, avoid: set<nat>, t: Option<nat>) {
    exists n: nat :: ReachIn(g, roots, avoid, t, n)
  }

  /** Avoiding less reaches no less, and so do more steps. */
  lemma {:induction false} ReachMore(g: Graph, roots: set<nat>, avoid: set<nat>, less: set<nat>, t: Option<nat>, n: nat, m: nat)
    requires less <= avoid && n <= m && ReachIn(g, roots, avoid, t, n)
    ensures ReachIn(g, roots, less, t, m)
    decreases n
  {
    if t.value !in roots {
      var x := g[t.value];
      if ReachIn(g, roots, avoid, x.viewSrc, n - 1) {
        ReachMore(g, roots, avoid, less, x.viewSrc, n - 1, m - 1);
      } else {
        ReachMore(g, roots, avoid, less, ViaSrc0(x), n - 1, m - 1);
      }
    }
  }

  /** One step along an edge of t. */
  lemma ReachStep(g: Graph, roots: set<nat>, avoid: set<nat>, t: nat, avoid2: set<nat>, next: Option<nat>)
    requires t in g && t !in avoid && avoid <= avoid2
    requires next == g[t].viewSrc || next == ViaSrc0(g[t])
    requires Reaches(g, roots, avoid2, next)
    ensures Reaches(g, roots, avoid, Some(t))
  {
    var n: nat :| ReachIn(g, roots, avoid2, next, n);
    ReachMore(g, roots, avoid2, avoid, next, n, n);
    assert ReachIn(g, roots, avoid, Some(t), n + 1);
  }

  /** The edges of x lead to no root, and to nothing but tensors of seen. */
  ghost predicate Exhausted(roots: set<nat>, seen: set<nat>, x: Tensor) {
    && (x.viewSrc.Some? ==> x.viewSrc.value !in roots && x.viewSrc.value in seen)
    && (ViaSrc0(x).Some? ==> ViaSrc0(x).value !in roots && ViaSrc0(x).value in seen)
  }

  /** From was to seen, every tensor added is exhausted and no root. */
  ghost predicate Explored(g: Graph, roots: set<nat>, was: set<nat>, seen: set<nat>) {
    && was <= seen
    && forall t {:trigger t in seen} :: t in seen && t !in was ==> t in g && t !in roots && Exhausted(roots, seen, g[t])
  }

  /** So no root is reachable from an explored tensor around the ones seen before. */
  lemma {:induction false} ExploredNoReach(g: Graph, roots: set<nat>, was: set<nat>, seen: set<nat>, t: Option<nat>, n: nat)
    requires Explored(g, roots, was, seen) && (t.Some? ==> t.value in seen && t.value !in roots)
    ensures !ReachIn(g, roots, was, t, n)
    decreases n
  {
    if t.Some? && n > 0 && t.value !in was {
      assert Exhausted(roots, seen, g[t.value]);
      ExploredNoReach(g, roots, was, seen, g[t.value].viewSrc, n - 1);
      ExploredNoReach(g, roots, was, seen, ViaSrc0(g[t.value]), n - 1);
    }
  }

  lemma ExploredTwice(g: Graph, roots: set<nat>, a: set<nat>, b: set<nat>, c: set<nat>)
    requires Explored(g, roots, a, b) && Explored(g, roots, b, c)
    ensures Explored(g, roots, a, c)
  {
    forall t | t in c && t !in a ensures t in g && t !in roots && Exhausted(roots, c, g[t]) {
      if t in b { assert Exhausted(roots, b, g[t]); }
    }
  }

  /** The tensors not seen yet. */
  ghost function Unseen(g: Graph, seen: set<nat>): set<nat> { g.Keys - seen }

  /**
   Whatever was seen before, the answer is whether a root can be reached around it; with nothing seen, whether a
   root is reachable at all. It ends on any finite graph.
   */
  method DerivedFromRoots(g: Graph, t: Option<nat>, roots: set<nat>, seen: set<nat>) returns (r: bool, seen2: set<nat>)
    requires Closed(g) && (t.Some? ==> t.value in g)
    ensures seen <= seen2
    ensures r <==> Reaches(g, roots, seen, t)
    ensures !r ==> Explored(g, roots, seen, seen2) && (t.Some? ==> t.value in seen2 && t.value !in roots)
    decreases Unseen(g, seen)
  {
    hide ReachIn, Explored;
    seen2 := seen;
    if t.None? {
      NoneReaches(g, roots, seen);
      ExploredSelf(g, roots, seen);
      return false, seen2;
    }
    if t.value in roots {
      RootReaches(g, roots, seen, t.value);
      return true, seen2;
    }
    if t.value in seen {
      SeenReaches(g, roots, seen, t.value);
      ExploredSelf(g, roots, seen);
      return false, seen2;
    }
    ghost var seen1 := seen + {t.value};
    seen2 := seen2 + {t.value};
    var x := g[t.value];
    r, seen2 := DerivedFromRoots(g, x.viewSrc, roots, seen2);
    if r {
      ReachStep(g, roots, seen, t.value, seen1, x.viewSrc);
      return true, seen2;
    }
    ghost var mid := seen2;
    if x.viewLike {
      r, seen2 := DerivedFromRoots(g, x.src0, roots, seen2);
      if r {
        ReachStep(g, roots, seen, t.value, mid, x.src0);
        return true, seen2;
      }
      ExploredTwice(g, roots, seen1, mid, seen2);
    }
    ExploredHere(g, roots, seen, t.value, seen2);
    ghost var all := seen2;
    forall n: nat ensures !ReachIn(g, roots, seen, t, n) {
      ExploredNoReach(g, roots, seen, all, t, n);
    }
    r := false;
  }

  lemma NoneReaches(g: Graph, roots: set<nat>, avoid: set<nat>)
    ensures !Reaches(g, roots, avoid, None)
  {
  }

  lemma RootReaches(g: Graph, roots: set<nat>, avoid: set<nat>, t: nat)
    requires t in roots
    ensures Reaches(g, roots, avoid, Some(t))
  {
    assert ReachIn(g, roots, avoid, Some(t), 0);
  }

  lemma SeenReaches(g: Graph, roots: set<nat>, avoid: set<nat>, t: nat)
    requires t !in roots && t in avoid
    ensures !Reaches(g, roots, avoid, Some(t))
  {
  }

  lemma ExploredSelf(g: Graph, roots: set<nat>, seen: set<nat>)
    ensures Explored(g, roots, seen, seen)
  {
  }

  /** A tensor whose own edges are exhausted joins the explored ones. */
  lemma ExploredHere(g: Graph, roots: set<nat>, seen: set<nat>, t: nat, seen2: set<nat>)
    requires t in g && t !in roots && t !in seen && Explored(g, roots, seen + {t}, seen2) && Exhausted(roots, seen2, g[t])
    ensures Explored(g, roots, seen, seen2)
  {
  }

  ghost predicate Edge(g: Graph, a: nat, b: nat) {
    a in g && (g[a].viewSrc == Some(b) || (g[a].viewLike && g[a].src0 == Some(b)))
  }

  /** A chain of edges that ends in a root. */
  ghost predicate PathToRoot(g: Graph, roots: set<nat>, path: seq<nat>) {
    |path| > 0 && (if |path| == 1 then path[0] in roots else Edge(g, path[0], path[1]) && PathToRoot(g, roots, path[1..]))
  }

  lemma {:induction false} PathReaches(g: Graph, roots: set<nat>, path: seq<nat>)
    requires PathToRoot(g, roots, path)
    ensures Reaches(g, roots, {}, Some(path[0]))
  {
    if |path| == 1 {
      RootReaches(g, roots, {}, path[0]);
    } else {
      PathReaches(g, roots, path[1..]);
      ReachStep(g, roots, {}, path[0], {}, Some(path[1]));
    }
  }

  lemma {:induction false} ReachPath(g: Graph, roots: set<nat>, t: nat, n: nat) returns (path: seq<nat>)
    requires ReachIn(g, roots, {}, Some(t), n)
    ensures PathToRoot(g, roots, path) && path[0] == t
    decreases n
  {
    if t in roots {
      path := [t];
    } else {
      var next := if ReachIn(g, roots, {}, g[t].viewSrc, n - 1) then g[t].viewSrc else ViaSrc0(g[t]);
      var rest := ReachPath(g, roots, next.value, n - 1);
      path := [t] + rest;
      assert path[1..] == rest;
    }
  }

  /** With nothing to avoid, a root is reached exactly when a chain of edges leads to one. */
  lemma ReachesIff(g: Graph, roots: set<nat>, t: nat)
    ensures Reaches(g, roots, {}, Some(t)) <==> exists path :: PathToRoot(g, roots, path) && path[0] == t
  {
    if n: nat :| ReachIn(g, roots, {}, Some(t), n) {
      var path := ReachPath(g, roots, t, n);
      assert PathToRoot(g, roots, path) && path[0] == t;
    }
    if path :| PathToRoot(g, roots, path) && path[0] == t {
      PathReaches(g, roots, path);
    }
  }

  /* ---------- try_reshape_strided_view ---------- */

  /** lo in a row of n, and hi rows before it. */
  function Mix(n: nat, lo: nat, hi: nat): nat { lo + n * hi }

  /** Four extents. */
  datatype Ne = Ne(a: nat, b: nat, c: nat, d: nat) {
    function Elements(): nat { a * b * c * d }

    predicate Has(i: Index) { i.a < a && i.b < b && i.c < c && i.d < d }

    /** The position of an index in row-major order, first extent fastest. */
    function Linear(i: Index): nat { Mix(a, i.a, Mix(b, i.b, Mix(c, i.c, i.d))) }
  }

  datatype Index = Index(a: nat, b: nat, c: nat, d: nat)

  /** Extents, byte strides, and the width of the tensor this is a view of, if it is one. */
  datatype Strided = Strided(ne: Ne, nb: Index, parentWidth: Option<nat>) {
    function Address(i: Index): nat { i.a * nb.a + i.b * nb.b + i.c * nb.c + i.d * nb.d }

    /** ggml_is_contiguous_rows, for types of block size one. */
    predicate ContiguousRows(typeSize: nat) { ne.a == 1 || nb.a == typeSize }
  }

  /** The view laid over in0 without copying, or none. */
  function TryReshape(in0: Strided, ne: Ne, typeSize: nat): Option<Strided> {
    if in0.parentWidth.None? then None
    else if in0.ne.Elements() != ne.Elements() then None
    else if !in0.ContiguousRows(typeSize) then None
    else if in0.parentWidth.value <= in0.ne.a then None
    else if in0.nb.b <= in0.ne.a * in0.nb.a then None
    else if in0.ne.a == ne.a * ne.b && in0.ne.b == ne.c && in0.ne.c == ne.d && in0.ne.d == 1 then
      Some(Strided(ne, Index(typeSize, in0.nb.a * ne.a, in0.nb.b, in0.nb.b * ne.c), in0.parentWidth))
    else if in0.ne.a == ne.a * ne.b && in0.ne.b == ne.c && ne.d == 1 && in0.ne.c == 1 && in0.ne.d == 1 then
      Some(Strided(ne, Index(typeSize, in0.nb.a * ne.a, in0.nb.b, in0.nb.b * ne.c), in0.parentWidth))
    else None
  }

  /** The slice index of the element that index j of the view names. */
  function SliceIndex(ne: Ne, j: Index): Index { Index(j.a + ne.a * j.b, j.c, j.d, 0) }

  lemma Split(n: nat, a: nat, b: nat, a2: nat, b2: nat)
    requires a < n && a2 < n && Mix(n, a, b) == Mix(n, a2, b2)
    ensures a == a2 && b == b2
  {
    if b < b2 { MulGap(n, b, b2); }
    if b2 < b { MulGap(n, b2, b); }
  }

  lemma MulGap(n: nat, x: nat, y: nat)
    requires x < y
    ensures n * x + n <= n * y
  {
    assert n * y == n * x + n * (y - x);
    MulAtLeast(n, y - x);
  }

  lemma MulAtLeast(n: nat, x: nat)
    requires x >= 1
    ensures n * x >= n
  {
  }

  /** A position in row-major order names one index. */
  lemma LinearInjective(ne: Ne, i: Index, j: Index)
    requires ne.Has(i) && ne.Has(j) && ne.Linear(i) == ne.Linear(j)
    ensures i == j
  {
    hide Mix;
    var ic, jc := Mix(ne.c, i.c, i.d), Mix(ne.c, j.c, j.d);
    var ib, jb := Mix(ne.b, i.b, ic), Mix(ne.b, j.b, jc);
    Split(ne.a, i.a, ib, j.a, jb);
    Split(ne.b, i.b, ic, j.b, jc);
    Split(ne.c, i.c, i.d, j.c, j.d);
  }

  /** SliceIndex names the same position. */
  lemma SameLinear(in0: Ne, ne: Ne, j: Index)
    requires in0.a == ne.a * ne.b && in0.b == ne.c && in0.c == ne.d && in0.d == 1 && ne.Has(j)
    ensures in0.Has(SliceIndex(ne, j)) && in0.Linear(SliceIndex(ne, j)) == ne.Linear(j)
  {
    var i := SliceIndex(ne, j);
    assert ne.a * (j.b + 1) <= ne.a * ne.b by { MulMono(j.b + 1, ne.b, ne.a); }
    assert ne.a * (j.b + 1) == ne.a * j.b + ne.a;
    var rest := j.c + ne.c * j.d;
    assert in0.c * 0 == 0;
    assert in0.Linear(i) == j.a + ne.a * j.b + ne.a * ne.b * rest;
    assert ne.a * (j.b + ne.b * rest) == ne.a * j.b + ne.a * (ne.b * rest);
    assert ne.a * (ne.b * rest) == ne.a * ne.b * rest;
  }

  /** What a view promises: each of its elements is the slice's element at the same position. */
  ghost predicate SameBytes(in0: Strided, v: Strided) {
    forall i, j {:trigger in0.ne.Linear(i), v.ne.Linear(j)} ::
      in0.ne.Has(i) && v.ne.Has(j) && in0.ne.Linear(i) == v.ne.Linear(j) ==> in0.Address(i) == v.Address(j)
  }

  /** Address of a view's element, and of the slice's element at its position. */
  lemma Addresses(in0: Strided, ne: Ne, typeSize: nat, j: Index)
    requires TryReshape(in0, ne, typeSize).Some? && ne.Has(j)
    ensures var v := TryReshape(in0, ne, typeSize).value; var i := SliceIndex(ne, j);
      v.Address(j) + j.d * in0.nb.c == in0.Address(i) + j.d * (in0.nb.b * in0.ne.b)
  {
    var v := TryReshape(in0, ne, typeSize).value;
    assert j.a * v.nb.a == j.a * in0.nb.a by {
      if in0.nb.a != typeSize {
        assert ne.a * ne.b == 1;
        OneEach(ne.a, ne.b);
      }
    }
    assert j.b * (in0.nb.a * ne.a) == ne.a * j.b * in0.nb.a;
    assert (j.a + ne.a * j.b) * in0.nb.a == j.a * in0.nb.a + ne.a * j.b * in0.nb.a;
  }

  lemma OneEach(a: nat, b: nat)
    requires a * b == 1
    ensures a == 1 && b == 1
  {
    assert a == 0 || b == 0 ==> a * b == 0;
    if a >= 2 && b >= 1 { MulAtLeast(a, b); }
    if b >= 2 && a >= 1 { Commute(a, b); MulAtLeast(b, a); }
  }

  lemma Commute(a: nat, b: nat)
    ensures a * b == b * a
  {
  }

  /**
   The check does not look at the third stride. The view is right exactly when there is nothing to see, at most one
   plane, or planes that follow one another without a gap.
   */
  lemma ReshapeRightIff(in0: Strided, ne: Ne, typeSize: nat)
    requires TryReshape(in0, ne, typeSize).Some?
    ensures SameBytes(in0, TryReshape(in0, ne, typeSize).value) <==>
            (ne.a == 0 || ne.b == 0 || ne.c == 0 || in0.ne.c <= 1 || in0.nb.c == in0.nb.b * in0.ne.b)
  {
    var v := TryReshape(in0, ne, typeSize).value;
    var gap := in0.nb.c == in0.nb.b * in0.ne.b;
    if in0.ne.c <= 1 || gap {
      forall i, j | in0.ne.Has(i) && ne.Has(j) && in0.ne.Linear(i) == ne.Linear(j) ensures in0.Address(i) == v.Address(j) {
        SameLinear(in0.ne, ne, j);
        LinearInjective(in0.ne, i, SliceIndex(ne, j));
        Addresses(in0, ne, typeSize, j);
      }
    } else if ne.a > 0 && ne.b > 0 && ne.c > 0 {
      var j := Index(0, 0, 0, 1);
      SameLinear(in0.ne, ne, j);
      Addresses(in0, ne, typeSize, j);
      assert in0.Address(SliceIndex(ne, j)) != v.Address(j);
      assert in0.ne.Linear(SliceIndex(ne, j)) == v.ne.Linear(j);
    }
  }

  /** Contiguous in row-major order, each element typeSize bytes. */
  ghost predicate Contiguous(t: Strided, typeSize: nat) {
    t.nb.a == typeSize && t.nb.b == t.nb.a * t.ne.a && t.nb.c == t.nb.b * t.ne.b && t.nb.d == t.nb.c * t.ne.c
  }

  /** A slice along the first dimension keeps the strides and the other extents of its parent. */
  ghost predicate RowSlice(parent: Strided, t: Strided) {
    t.nb == parent.nb && t.ne == parent.ne.(a := t.ne.a) && t.parentWidth == Some(parent.ne.a)
  }

  /** Reshaping such a slice of a packed parent without copying is always right. */
  lemma PackedSliceReshape(parent: Strided, in0: Strided, ne: Ne, typeSize: nat)
    requires Contiguous(parent, typeSize) && RowSlice(parent, in0) && TryReshape(in0, ne, typeSize).Some?
    ensures SameBytes(in0, TryReshape(in0, ne, typeSize).value)
  {
    ReshapeRightIff(in0, ne, typeSize);
  }

  /** For a proper slice it succeeds exactly when the first extent is split in two and the others move up by one. */
  lemma ReshapeSucceedsIff(parent: Strided, in0: Strided, ne: Ne, typeSize: nat)
    requires Contiguous(parent, typeSize) && RowSlice(parent, in0) && in0.ne.a < parent.ne.a && typeSize > 0
    ensures TryReshape(in0, ne, typeSize).Some? <==>
      ne.a * ne.b == in0.ne.a && ne.c == in0.ne.b && ne.d == in0.ne.c && in0.ne.d == 1
  {
    assert in0.ne.a * typeSize < parent.ne.a * typeSize by {
      MulMono(in0.ne.a + 1, parent.ne.a, typeSize);
      MulStep(in0.ne.a, typeSize);
    }
  }

  /* Which slices the VIEW lowering makes. */

  /** ggml_is_contiguous: strides of extents of one do not count. */
  predicate IsContiguous(t: Strided, typeSize: nat) {
    && (t.ne.a == 1 || t.nb.a == typeSize)
    && (t.ne.b == 1 || t.nb.b == typeSize * t.ne.a)
    && (t.ne.c == 1 || t.nb.c == typeSize * t.ne.a * t.ne.b)
    && (t.ne.d == 1 || t.nb.d == typeSize * t.ne.a * t.ne.b * t.ne.c)
  }

  /** A packed copy. */
  function Copy(t: Strided, typeSize: nat): (r: Strided)
    ensures Contiguous(r, typeSize)
  {
    var nb1 := typeSize * t.ne.a;
    Strided(t.ne, Index(typeSize, nb1, nb1 * t.ne.b, nb1 * t.ne.b * t.ne.c), None)
  }

  /** What the slice is cut from: a view that is not contiguous is copied first. */
  function ViewSource(in0: Strided, typeSize: nat): Strided {
    if in0.parentWidth.Some? && !IsContiguous(in0, typeSize) then Copy(in0, typeSize) else in0
  }

  /** A slice with the given extents of every step-th index along one dimension; its parent is where the views start. */
  function LowerView(in0: Strided, ne: Ne, dim: nat, step: nat, typeSize: nat): Strided {
    var src := ViewSource(in0, typeSize);
    Strided(ne, Index(typeSize, src.nb.b * (if dim == 1 then step else 1), src.nb.c * (if dim == 2 then step else 1),
                      src.nb.d * (if dim == 3 then step else 1)),
            Some(if src.parentWidth.Some? then src.parentWidth.value else src.ne.a))
  }

  /** Only one extent shrinks. */
  predicate SliceAlong(from: Ne, to: Ne, dim: nat) {
    && (dim != 0 ==> to.a == from.a) && (dim != 1 ==> to.b == from.b)
    && (dim != 2 ==> to.c == from.c) && (dim != 3 ==> to.d == from.d)
  }

  /** Index i of the slice is the element that is steps of the same index into its source, from where the slice starts. */
  lemma SliceAddress(in0: Strided, ne: Ne, dim: nat, step: nat, typeSize: nat, i: Index)
    requires ViewSource(in0, typeSize).nb.a == typeSize && 1 <= dim < 4
    ensures var src := ViewSource(in0, typeSize);
      LowerView(in0, ne, dim, step, typeSize).Address(i) ==
      src.Address(if dim == 1 then i.(b := i.b * step) else if dim == 2 then i.(c := i.c * step) else i.(d := i.d * step))
  {
    var src := ViewSource(in0, typeSize);
    assert i.b * (src.nb.b * step) == i.b * step * src.nb.b;
    assert i.c * (src.nb.c * step) == i.c * step * src.nb.c;
    assert i.d * (src.nb.d * step) == i.d * step * src.nb.d;
    assert src.nb.b * 1 == src.nb.b && src.nb.c * 1 == src.nb.c && src.nb.d * 1 == src.nb.d;
  }

  lemma CancelStride(nb: nat, step: nat, n: nat, h: nat)
    requires nb > 0
    ensures nb * h == nb * step * n <==> h == step * n
  {
    assert nb * step * n == nb * (step * n);
    if nb * h == nb * (step * n) { CancelFactor(nb, h, step * n); }
  }

  lemma CancelFactor(n: nat, x: nat, y: nat)
    requires n > 0 && n * x == n * y
    ensures x == y
  {
    if x < y { MulGap(n, x, y); }
    if y < x { MulGap(n, y, x); }
  }

  /**
   Reshaping a slice of a packed source without copying happens for slices along the first two dimensions only. It is
   right along the first; along the second, exactly when the slice is empty or has at most one plane, or the steps taken
   cover the whole extent.
   */
  lemma SliceReshapeIff(in0: Strided, slice: Ne, dim: nat, step: nat, ne: Ne, typeSize: nat)
    requires Contiguous(ViewSource(in0, typeSize), typeSize) && dim < 4
    requires SliceAlong(in0.ne, slice, dim)
    requires TryReshape(LowerView(in0, slice, dim, step, typeSize), ne, typeSize).Some?
    ensures dim <= 1
    ensures var v := LowerView(in0, slice, dim, step, typeSize);
      SameBytes(v, TryReshape(v, ne, typeSize).value) <==>
      (dim == 0 || ne.a == 0 || ne.b == 0 || ne.c == 0 || slice.c <= 1 || in0.ne.b == step * slice.b)
  {
    var src, v := ViewSource(in0, typeSize), LowerView(in0, slice, dim, step, typeSize);
    assert src.ne == in0.ne;
    hide SameBytes;
    ReshapeRightIff(v, ne, typeSize);
    if dim == 1 {
      assert src.nb.b > 0;
      CancelStride(src.nb.b, step, slice.b, in0.ne.b);
    }
  }

  /**
   It does go wrong: twenty floats reshaped to (2, 5, 2), every second of the five rows taken, and that reshaped to
   (1, 2, 3, 2). The second plane is then read one row too late.
   */
  lemma SliceReshapeExample()
    ensures var in0 := Strided(Ne(2, 5, 2, 1), Index(4, 8, 40, 80), Some(20));
      var v := LowerView(in0, Ne(2, 3, 2, 1), 1, 2, 4);
      && IsContiguous(in0, 4) && !IsContiguous(v, 4)
      && TryReshape(v, Ne(1, 2, 3, 2), 4).Some? && !SameBytes(v, TryReshape(v, Ne(1, 2, 3, 2), 4).value)
  {
    SliceReshapeIff(Strided(Ne(2, 5, 2, 1), Index(4, 8, 40, 80), Some(20)), Ne(2, 3, 2, 1), 1, 2, Ne(1, 2, 3, 2), 4);
  }
}
