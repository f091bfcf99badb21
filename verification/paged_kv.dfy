/**
 Paged KV slots: physical pages mapped into per-slot windows of reserved address ranges, with reference counts.

 The page manager is an abstract pool: a fresh page has count 1, retaining a live page adds one, releasing takes one
 off, mapping an address that is already mapped fails. Page lists are kept per slot, op and kind.
 */
module PagedKv {
  import opened Arith
  import opened Bags

  datatype Kind = K | V

  datatype Pos = Pos(slot: nat, op: nat, kind: Kind)

  /** The address ranges reserved for one op, and how many pages each slot has in them. */
  datatype Window = Window(vaK: int, vaV: int, pages: nat)

  type Windows = map<nat, Window>

  /* ---------- Addresses ---------- */

  function Base(ws: Windows, op: nat, kind: Kind): int
    requires op in ws
  {
    if kind == K then ws[op].vaK else ws[op].vaV
  }

  /** Bytes one slot has in a window. */
  function SlotBytes(ws: Windows, pageSz: nat, op: nat): nat
    requires op in ws
  {
    Times(ws[op].pages, pageSz)
  }

  /** Where page i of a position is mapped: its own offset in its slot's window. */
  function Addr(ws: Windows, pageSz: nat, p: Pos, i: nat): int
    requires p.op in ws
  {
    Base(ws, p.op, p.kind) + Times(p.slot, SlotBytes(ws, pageSz, p.op)) + Times(i, pageSz)
  }

  /** That is its window's base, past the slots before it and the pages before it. */
  lemma AddrIs(ws: Windows, pageSz: nat, p: Pos, i: nat)
    requires p.op in ws
    ensures Addr(ws, pageSz, p, i) ==
            (if p.kind == K then ws[p.op].vaK else ws[p.op].vaV) + p.slot * (ws[p.op].pages * pageSz) + i * pageSz
  {
    TimesIs(ws[p.op].pages, pageSz);
    TimesIs(p.slot, ws[p.op].pages * pageSz);
    TimesIs(i, pageSz);
  }

  ghost predicate Apart(a: int, aSize: int, b: int, bSize: int) { a + aSize <= b || b + bSize <= a }

  /** Reserved ranges do not overlap. */
  ghost predicate Layout(ws: Windows, pageSz: nat, maxBatch: nat) {
    && pageSz > 0
    && forall o, k, o2, k2 {:trigger Base(ws, o, k), Base(ws, o2, k2)} :: o in ws && o2 in ws && (o, k) != (o2, k2) ==>
         Apart(Base(ws, o, k), Times(maxBatch, SlotBytes(ws, pageSz, o)),
               Base(ws, o2, k2), Times(maxBatch, SlotBytes(ws, pageSz, o2)))
  }

  ghost predicate InBounds(ws: Windows, maxBatch: nat, p: Pos, i: nat) {
    p.op in ws && p.slot < maxBatch && i < ws[p.op].pages
  }

  /** A page lies inside its slot's part of the window. */
  lemma PageInside(ws: Windows, pageSz: nat, maxBatch: nat, p: Pos, i: nat)
    requires InBounds(ws, maxBatch, p, i)
    ensures var from := Base(ws, p.op, p.kind) + Times(p.slot, SlotBytes(ws, pageSz, p.op));
      && from <= Addr(ws, pageSz, p, i)
      && Addr(ws, pageSz, p, i) + pageSz <= from + SlotBytes(ws, pageSz, p.op)
      && from + SlotBytes(ws, pageSz, p.op) <= Base(ws, p.op, p.kind) + Times(maxBatch, SlotBytes(ws, pageSz, p.op))
  {
    hide Times;
    TimesMono(i, ws[p.op].pages, pageSz);
    TimesMono(p.slot, maxBatch, SlotBytes(ws, pageSz, p.op));
  }

  /** The memory of two different pages does not overlap. */
  lemma PagesApart(ws: Windows, pageSz: nat, maxBatch: nat, p: Pos, i: nat, q: Pos, j: nat)
    requires Layout(ws, pageSz, maxBatch) && InBounds(ws, maxBatch, p, i) && InBounds(ws, maxBatch, q, j)
    requires (p, i) != (q, j)
    ensures Apart(Addr(ws, pageSz, p, i), pageSz, Addr(ws, pageSz, q, j), pageSz)
  {
    hide Times;
    PageInside(ws, pageSz, maxBatch, p, i);
    PageInside(ws, pageSz, maxBatch, q, j);
    if p.op == q.op && p.kind == q.kind {
      var size := SlotBytes(ws, pageSz, p.op);
      if p.slot < q.slot {
        TimesMono(p.slot, q.slot, size);
      } else if q.slot < p.slot {
        TimesMono(q.slot, p.slot, size);
      } else if i < j {
        TimesMono(i, j, pageSz);
      } else {
        TimesMono(j, i, pageSz);
      }
    } else {
      assert Apart(Base(ws, p.op, p.kind), Times(maxBatch, SlotBytes(ws, pageSz, p.op)),
                   Base(ws, q.op, q.kind), Times(maxBatch, SlotBytes(ws, pageSz, q.op)));
    }
  }

  /** The windows of two slots do not overlap. */
  lemma SlotsApart(ws: Windows, pageSz: nat, maxBatch: nat, op: nat, kind: Kind, slot: nat, slot2: nat)
    requires Layout(ws, pageSz, maxBatch) && op in ws && slot < slot2 < maxBatch
    ensures var size := SlotBytes(ws, pageSz, op);
      Apart(Base(ws, op, kind) + Times(slot, size), size, Base(ws, op, kind) + Times(slot2, size), size)
  {
    TimesMono(slot, slot2, SlotBytes(ws, pageSz, op));
  }

  /* ---------- Page lists and the page table ---------- */

  type Lists = map<Pos, seq<nat>>

  function PagesAt(held: Lists, p: Pos): seq<nat> { if p in held then held[p] else [] }

  ghost predicate Cell(held: Lists, p: Pos, i: nat) { p in held && i < |held[p]| }

  /** Only existing slots and ops have pages, and no more than their window has room for. */
  ghost predicate Fits(ws: Windows, maxBatch: nat, held: Lists) {
    forall p {:trigger held[p]} :: p in held ==> p.op in ws && p.slot < maxBatch && |held[p]| <= ws[p.op].pages
  }

  /** The page table maps the addresses of the listed pages, and no others. */
  ghost predicate Keyed(ws: Windows, pageSz: nat, held: Lists, table: map<int, nat>) {
    && (forall p, i: nat {:trigger Cell(held, p, i)} :: Cell(held, p, i) && p.op in ws ==> Addr(ws, pageSz, p, i) in table)
    && (forall a {:trigger a in table} :: a in table ==>
          exists p, i: nat {:trigger Cell(held, p, i)} :: Cell(held, p, i) && p.op in ws && a == Addr(ws, pageSz, p, i))
  }

  /** Page i of every list is what the table maps at its own address. */
  ghost predicate Agrees(ws: Windows, pageSz: nat, held: Lists, table: map<int, nat>) {
    forall p, i: nat {:trigger Cell(held, p, i)} ::
      Cell(held, p, i) && p.op in ws && Addr(ws, pageSz, p, i) in table ==> table[Addr(ws, pageSz, p, i)] == held[p][i]
  }

  /** One more page at the end of a list: its address is free, and it is mapped there. */
  lemma MappedPush(ws: Windows, pageSz: nat, maxBatch: nat, held: Lists, table: map<int, nat>, p: Pos, h: nat)
    requires Layout(ws, pageSz, maxBatch) && Fits(ws, maxBatch, held) && Keyed(ws, pageSz, held, table)
    requires InBounds(ws, maxBatch, p, |PagesAt(held, p)|)
    ensures Addr(ws, pageSz, p, |PagesAt(held, p)|) !in table
    ensures var held2, table2 := held[p := PagesAt(held, p) + [h]], table[Addr(ws, pageSz, p, |PagesAt(held, p)|) := h];
      && Fits(ws, maxBatch, held2) && Keyed(ws, pageSz, held2, table2)
      && (Agrees(ws, pageSz, held, table) ==> Agrees(ws, pageSz, held2, table2))
  {
    hide Layout;
    var n := |PagesAt(held, p)|;
    var at := Addr(ws, pageSz, p, n);
    var held2, table2 := held[p := PagesAt(held, p) + [h]], table[at := h];
    forall q, j: nat | Cell(held, q, j) && q.op in ws ensures Addr(ws, pageSz, q, j) != at {
      AddrDiffers(ws, pageSz, maxBatch, p, n, q, j);
    }
    forall q, j: nat | Cell(held2, q, j) && q.op in ws
      ensures Addr(ws, pageSz, q, j) in table2
      ensures Agrees(ws, pageSz, held, table) ==> table2[Addr(ws, pageSz, q, j)] == held2[q][j]
    {
      if q != p || j < n { assert Cell(held, q, j); }
    }
    forall a | a in table2
      ensures exists q, j: nat {:trigger Cell(held2, q, j)} :: Cell(held2, q, j) && q.op in ws && a == Addr(ws, pageSz, q, j)
    {
      if a == at {
        assert Cell(held2, p, n);
      } else {
        var q, j: nat :| Cell(held, q, j) && q.op in ws && a == Addr(ws, pageSz, q, j);
        assert Cell(held2, q, j);
      }
    }
  }

  /** A listed page replaced by another: the table is not touched, so its keys still fit and the old page stays mapped. */
  lemma KeyedOver(ws: Windows, pageSz: nat, maxBatch: nat, held: Lists, table: map<int, nat>, p: Pos, i: nat, h: nat)
    requires Fits(ws, maxBatch, held) && Keyed(ws, pageSz, held, table) && Cell(held, p, i) && p.op in ws
    ensures Addr(ws, pageSz, p, i) in table
    ensures Fits(ws, maxBatch, held[p := Put(held[p], i, h)]) && Keyed(ws, pageSz, held[p := Put(held[p], i, h)], table)
  {
    hide Addr;
    var held2 := held[p := Put(held[p], i, h)];
    assert forall q, j: nat {:trigger Cell(held, q, j)} {:trigger Cell(held2, q, j)} :: Cell(held2, q, j) <==> Cell(held, q, j);
  }

  lemma AddrDiffers(ws: Windows, pageSz: nat, maxBatch: nat, p: Pos, i: nat, q: Pos, j: nat)
    requires Layout(ws, pageSz, maxBatch) && InBounds(ws, maxBatch, p, i) && InBounds(ws, maxBatch, q, j)
    requires (p, i) != (q, j)
    ensures Addr(ws, pageSz, p, i) != Addr(ws, pageSz, q, j)
  {
    PagesApart(ws, pageSz, maxBatch, p, i, q, j);
  }

  /** The addresses of the first n pages of a position. */
  function AddrSet(ws: Windows, pageSz: nat, p: Pos, n: nat): set<int>
    requires p.op in ws
  {
    if n == 0 then {} else AddrSet(ws, pageSz, p, n - 1) + {Addr(ws, pageSz, p, n - 1)}
  }

  lemma {:induction false} AddrSetIs(ws: Windows, pageSz: nat, p: Pos, n: nat)
    requires p.op in ws
    ensures forall i: nat {:trigger Addr(ws, pageSz, p, i)} :: i < n ==> Addr(ws, pageSz, p, i) in AddrSet(ws, pageSz, p, n)
    ensures forall a {:trigger a in AddrSet(ws, pageSz, p, n)} :: a in AddrSet(ws, pageSz, p, n) ==>
      exists i: nat {:trigger Addr(ws, pageSz, p, i)} :: i < n && a == Addr(ws, pageSz, p, i)
  {
    hide Addr;
    if n > 0 { AddrSetIs(ws, pageSz, p, n - 1); }
  }

  lemma AddrSetStep(ws: Windows, pageSz: nat, p: Pos, i: nat, table: map<int, nat>)
    requires p.op in ws
    ensures table - AddrSet(ws, pageSz, p, i) - {Addr(ws, pageSz, p, i)} == table - AddrSet(ws, pageSz, p, i + 1)
    ensures table - AddrSet(ws, pageSz, p, 0) == table
  {
    hide Addr;
  }

  lemma ReleaseStep(refs: multiset<nat>, pages: seq<nat>, i: nat)
    requires i < |pages|
    ensures refs - multiset(pages[..i]) - multiset{pages[i]} == refs - multiset(pages[..i + 1])
  {
    assert pages[..i + 1] == pages[..i] + [pages[i]];
  }

  /** A list and all its mappings taken down. */
  lemma MappedClear(ws: Windows, pageSz: nat, maxBatch: nat, held: Lists, table: map<int, nat>, p: Pos)
    requires Layout(ws, pageSz, maxBatch) && Fits(ws, maxBatch, held) && Keyed(ws, pageSz, held, table)
    requires p in held
    ensures p.op in ws
    ensures Fits(ws, maxBatch, held - {p})
    ensures Keyed(ws, pageSz, held - {p}, table - AddrSet(ws, pageSz, p, |held[p]|))
    ensures Agrees(ws, pageSz, held, table) ==> Agrees(ws, pageSz, held - {p}, table - AddrSet(ws, pageSz, p, |held[p]|))
  {
    hide Addr, Layout, AddrSet;
    AddrSetIs(ws, pageSz, p, |held[p]|);
    var held2, table2 := held - {p}, table - AddrSet(ws, pageSz, p, |held[p]|);
    forall q, j: nat | Cell(held2, q, j) && q.op in ws
      ensures Addr(ws, pageSz, q, j) in table2
      ensures Agrees(ws, pageSz, held, table) ==> table2[Addr(ws, pageSz, q, j)] == held2[q][j]
    {
      assert Cell(held, q, j);
      forall i: nat | i < |held[p]| ensures Addr(ws, pageSz, p, i) != Addr(ws, pageSz, q, j) {
        AddrDiffers(ws, pageSz, maxBatch, p, i, q, j);
      }
    }
    forall a | a in table2
      ensures exists q, j: nat {:trigger Cell(held2, q, j)} :: Cell(held2, q, j) && q.op in ws && a == Addr(ws, pageSz, q, j)
    {
      var q, j: nat :| Cell(held, q, j) && q.op in ws && a == Addr(ws, pageSz, q, j);
      assert q != p;
      assert Cell(held2, q, j);
    }
  }

  ghost predicate Kept(a: map<int, nat>, b: map<int, nat>) {
    forall x {:trigger x in a} {:trigger x in b} :: x in a ==> x in b && b[x] == a[x]
  }

  /* ---------- Counts ---------- */

  /**
   A page's count is base (what holds it outside the slots), plus the positions that list it, plus leaked (counts that
   no list accounts for any more).
   */
  ghost predicate Counted(refs: multiset<nat>, base: multiset<nat>, leaked: multiset<nat>, held: Lists) {
    refs == base + leaked + BagOf(held)
  }

  lemma CountedPush(refs: multiset<nat>, base: multiset<nat>, leaked: multiset<nat>, held: Lists, p: Pos, h: nat)
    requires Counted(refs, base, leaked, held)
    ensures Counted(refs + multiset{h}, base, leaked, held[p := PagesAt(held, p) + [h]])
  {
    BagUpdate(held, p, PagesAt(held, p) + [h]);
    assert multiset(PagesAt(held, p) + [h]) == multiset(PagesAt(held, p)) + multiset{h};
  }

  function Put(s: seq<nat>, i: nat, h: nat): seq<nat>
    requires i < |s|
  {
    s[i := h]
  }

  /** A list entry that is overwritten without a release keeps its count. */
  lemma CountedOver(refs: multiset<nat>, base: multiset<nat>, leaked: multiset<nat>, held: Lists, p: Pos, i: nat, h: nat)
    requires Counted(refs, base, leaked, held) && Cell(held, p, i)
    ensures Counted(refs + multiset{h}, base, leaked + multiset{held[p][i]}, held[p := Put(held[p], i, h)])
  {
    hide BagOf;
    var s := held[p];
    BagUpdate(held, p, Put(s, i, h));
    assert s == s[..i] + [s[i]] + s[i + 1..];
    assert Put(s, i, h) == s[..i] + [h] + s[i + 1..];
    assert multiset(Put(s, i, h)) + multiset{s[i]} == multiset(s) + multiset{h};
  }

  lemma CountedSame(refs: multiset<nat>, base: multiset<nat>, leaked: multiset<nat>, held: Lists, p: Pos)
    requires Counted(refs, base, leaked, held) && p in held
    ensures multiset(held[p]) <= refs
    ensures Counted(refs - multiset(held[p]), base, leaked, held - {p})
  {
    BagRemove(held, p);
  }

  /** A page a list holds has a positive count. */
  lemma CountedLive(refs: multiset<nat>, base: multiset<nat>, leaked: multiset<nat>, held: Lists, p: Pos, i: nat)
    requires Counted(refs, base, leaked, held) && Cell(held, p, i)
    ensures held[p][i] in refs
  {
    BagMember(held, held[p][i]);
  }

  lemma NoCells(ws: Windows, pageSz: nat, held: Lists, table: map<int, nat>)
    requires Keyed(ws, pageSz, held, table) && forall p, i: nat :: !Cell(held, p, i)
    ensures table == map[]
  {
    hide Cell, Addr;
    assert forall a :: a !in table;
  }

  /** A table that only grew still maps every page listed before at its address. */
  lemma StillMapped(ws: Windows, pageSz: nat, held: Lists, table: map<int, nat>, table2: map<int, nat>)
    requires Keyed(ws, pageSz, held, table) && Kept(table, table2)
    ensures Agrees(ws, pageSz, held, table) ==>
      forall p: Pos, i: nat {:trigger Addr(ws, pageSz, p, i)} :: Cell(held, p, i) && p.op in ws ==>
        Addr(ws, pageSz, p, i) in table2 && table2[Addr(ws, pageSz, p, i)] == held[p][i]
  {
    hide Addr;
  }

  ghost predicate Paired(ws: Windows, held: Lists) {
    forall s: nat, o: nat {:trigger Pos(s, o, K)} {:trigger Pos(s, o, V)} ::
      |PagesAt(held, Pos(s, o, K))| == |PagesAt(held, Pos(s, o, V))|
  }

  /** The lists of other slots, and of this slot's other ops, are as before. */
  ghost predicate SameElsewhere(a: Lists, b: Lists, slot: nat) {
    forall p: Pos {:trigger PagesAt(b, p)} :: p.slot != slot ==> PagesAt(b, p) == PagesAt(a, p)
  }

  /** The lists of one slot have n pages, for every op. */
  ghost predicate Sized(ws: Windows, held: Lists, slot: nat, n: nat) {
    forall o: nat {:trigger Pos(slot, o, K)} :: o in ws ==> |PagesAt(held, Pos(slot, o, K))| == n
  }

  /** Every list of the slot reaches n, and room for more more pages is left in every window. */
  ghost predicate Reaches(ws: Windows, held: Lists, slot: nat, n: nat, more: nat) {
    forall o: nat {:trigger Pos(slot, o, K)} :: o in ws ==> n <= |PagesAt(held, Pos(slot, o, K))| && n + more <= ws[o].pages
  }

  lemma LaidLength(a: seq<nat>, b: seq<nat>, start: nat, n: nat, maps: seq<map<nat, nat>>, op: nat)
    requires n <= |maps| && Laid(a, b, start, n, maps, op)
    ensures |b| == if |a| < start + n then start + n else |a|
  {
  }

  /** b is list a with n handles laid over it from start on: handle i is what maps[i] has for op. */
  ghost predicate Laid(a: seq<nat>, b: seq<nat>, start: nat, n: nat, maps: seq<map<nat, nat>>, op: nat)
    requires n <= |maps|
  {
    && |b| == (if |a| < start + n then start + n else |a|)
    && (forall i :: 0 <= i < n ==> op in maps[i] && start + i < |b| && b[start + i] == maps[i][op])
    && (forall i :: 0 <= i < |a| && !(start <= i < start + n) ==> b[i] == a[i])
  }

  lemma LaidAt(a: seq<nat>, b: seq<nat>, start: nat, n: nat, maps: seq<map<nat, nat>>, op: nat, i: nat)
    requires i < n <= |maps| && Laid(a, b, start, n, maps, op)
    ensures op in maps[i] && start + i < |b| && b[start + i] == maps[i][op]
  {
  }

  function Lay(s: seq<nat>, i: nat, h: nat): seq<nat>
    requires i <= |s|
  {
    if i < |s| then s[i := h] else s + [h]
  }

  lemma LaidStep(a: seq<nat>, b: seq<nat>, start: nat, n: nat, maps: seq<map<nat, nat>>, op: nat)
    requires n < |maps| && start <= |a| && Laid(a, b, start, n, maps, op) && op in maps[n]
    ensures start + n <= |b|
    ensures Laid(a, Lay(b, start + n, maps[n][op]), start, n + 1, maps, op)
  {
  }

  /** Every map names a live page for every op. */
  ghost predicate Complete(ws: Windows, refs: multiset<nat>, maps: seq<map<nat, nat>>) {
    forall i, o {:trigger maps[i][o]} {:trigger o in maps[i]} :: 0 <= i < |maps| && o in ws ==>
      o in maps[i] && maps[i][o] in refs
  }

  class PagedKvCache {
    const ws: Windows
    const pageSz: nat
    const maxBatch: nat
    var active: seq<bool>
    var tokens: seq<int>
    var held: Lists
    var refs: multiset<nat>
    var table: map<int, nat>
    var nextPage: nat
    ghost const base: multiset<nat>
    ghost var leaked: multiset<nat>

    ghost predicate Sizes()
      reads this
    {
      Layout(ws, pageSz, maxBatch) && |active| == |tokens| == maxBatch && forall h :: h in refs ==> h < nextPage
    }

    ghost predicate Counts()
      reads this
    {
      Counted(refs, base, leaked, held)
    }

    /** The lists fit their windows and the table maps exactly the addresses of their pages. */
    ghost predicate Keys()
      reads this
    {
      Fits(ws, maxBatch, held) && Keyed(ws, pageSz, held, table)
    }

    /** Every listed page is the one mapped at its address. */
    ghost predicate Shows()
      reads this
    {
      Agrees(ws, pageSz, held, table)
    }

    /** What every operation keeps, even where a map leaks. */
    ghost predicate Sound()
      reads this
    {
      Sizes() && Counts() && Keys() && Paired(ws, held)
    }

    ghost predicate Valid()
      reads this
    {
      Sound() && Shows()
    }

    constructor (ws: Windows, pageSz: nat, maxBatch: nat, refs: multiset<nat>, nextPage: nat)
      requires Layout(ws, pageSz, maxBatch) && forall h :: h in refs ==> h < nextPage
      ensures Valid() && this.ws == ws && base == refs && leaked == multiset{} && held == map[]
      ensures this.pageSz == pageSz && this.maxBatch == maxBatch
    {
      this.ws, this.pageSz, this.maxBatch := ws, pageSz, maxBatch;
      active, tokens := seq(maxBatch, i => false), seq(maxBatch, i => 0);
      held, table := map[], map[];
      this.refs, base, leaked := refs, refs, multiset{};
      this.nextPage := nextPage;
      new;
      NoLists();
    }

    lemma NoLists()
      ensures BagOf<Pos, nat>(map[]) == multiset{}
    {
    }

    /** Page i of a list is mapped i pages into its slot's part of its window. */
    ghost predicate InPlace(slot: nat, o: nat, kind: Kind, i: nat)
      reads this
      requires o in ws && i < |PagesAt(held, Pos(slot, o, kind))|
    {
      var at := (if kind == K then ws[o].vaK else ws[o].vaV) + slot * (ws[o].pages * pageSz) + i * pageSz;
      at in table && table[at] == PagesAt(held, Pos(slot, o, kind))[i]
    }

    lemma ShownAt(slot: nat)
      requires Keys() && Shows()
      ensures forall o: nat, kind, i: nat {:trigger InPlace(slot, o, kind, i)} ::
        o in ws && i < |PagesAt(held, Pos(slot, o, kind))| ==> InPlace(slot, o, kind, i)
    {
      hide Addr;
      forall o: nat, kind, i: nat | o in ws && i < |PagesAt(held, Pos(slot, o, kind))| ensures InPlace(slot, o, kind, i) {
        var p := Pos(slot, o, kind);
        assert Cell(held, p, i);
        AddrIs(ws, pageSz, p, i);
      }
    }

    /* ---------- The page manager ---------- */

    method AllocPage() returns (h: nat)
      requires forall x :: x in refs ==> x < nextPage
      modifies this`refs, this`nextPage
      ensures h !in old(refs) && refs == old(refs) + multiset{h} && forall x :: x in refs ==> x < nextPage
    {
      h := nextPage;
      nextPage := nextPage + 1;
      refs := refs + multiset{h};
    }

    method RetainPage(h: nat)
      modifies this`refs
      ensures refs == if h in old(refs) then old(refs) + multiset{h} else old(refs)
    {
      if h in refs {
        refs := refs + multiset{h};
      }
    }

    method ReleasePage(h: nat)
      modifies this`refs
      ensures refs == old(refs) - multiset{h}
    {
      refs := refs - multiset{h};
    }

    method MapPage(a: int, h: nat)
      modifies this`table
      ensures table == if a in old(table) then old(table) else old(table)[a := h]
    {
      if a !in table {
        table := table[a := h];
      }
    }

    /* ---------- Slots ---------- */

    method Alloc(slot: int)
      requires Sound()
      modifies this`active, this`tokens
      ensures Sound() && held == old(held) && table == old(table)
      ensures 0 <= slot < maxBatch ==> active == old(active)[slot := true] && tokens == old(tokens)[slot := 0]
      ensures !(0 <= slot < maxBatch) ==> unchanged(this)
    {
      if slot < 0 || slot >= |active| {
        return;
      }
      active := active[slot := true];
      tokens := tokens[slot := 0];
    }

    /** Maps a page whose count is already taken at the end of a list. */
    method PushPage(p: Pos, h: nat, ghost before: multiset<nat>)
      requires Sizes() && Keys() && InBounds(ws, maxBatch, p, |PagesAt(held, p)|)
      requires refs == before + multiset{h} && Counted(before, base, leaked, held)
      modifies this`held, this`table
      ensures Sizes() && Counts() && Keys() && (old(Shows()) ==> Shows()) && Kept(old(table), table)
      ensures held == old(held)[p := PagesAt(old(held), p) + [h]]
    {
      hide Layout, Fits, Keyed, Agrees, Addr, Counted, BagOf;
      ghost var n := |PagesAt(held, p)|;
      MappedPush(ws, pageSz, maxBatch, held, table, p, h);
      CountedPush(before, base, leaked, held, p, h);
      var pages := PagesAt(held, p);
      MapPage(Addr(ws, pageSz, p, |pages|), h);
      held := held[p := pages + [h]];
    }

    /** A fresh page at the end of both lists of one op. */
    method PushPair(slot: nat, op: nat)
      requires Sound() && InBounds(ws, maxBatch, Pos(slot, op, K), |PagesAt(held, Pos(slot, op, K))|)
      modifies this`held, this`table, this`refs, this`nextPage
      ensures Sound() && (old(Shows()) ==> Shows()) && old(refs) <= refs
      ensures forall p: Pos {:trigger PagesAt(held, p)} ::
        if p.slot == slot && p.op == op then
          PagesAt(old(held), p) <= PagesAt(held, p) && |PagesAt(held, p)| == |PagesAt(old(held), p)| + 1
        else PagesAt(held, p) == PagesAt(old(held), p)
    {
      hide Layout, Keyed, Agrees, Counted, BagOf, Fits, Addr;
      var pk, pv := Pos(slot, op, K), Pos(slot, op, V);
      assert |PagesAt(held, pk)| == |PagesAt(held, pv)|;
      ghost var r0 := refs;
      var hk := AllocPage();
      PushPage(pk, hk, r0);
      ghost var r1 := refs;
      var hv := AllocPage();
      PushPage(pv, hv, r1);
      forall p: Pos | p.slot == slot && p.op == op ensures p == pk || p == pv { match p.kind case K => case V => }
    }

    /** Fills one op's window of a slot. */
    method EnsureOp(slot: nat, op: nat)
      requires Sound() && slot < maxBatch && op in ws
      modifies this`held, this`table, this`refs, this`nextPage
      ensures Sound() && (old(Shows()) ==> Shows()) && old(refs) <= refs
      ensures forall p: Pos {:trigger PagesAt(held, p)} ::
        !(p.slot == slot && p.op == op) ==> PagesAt(held, p) == PagesAt(old(held), p)
      ensures forall k {:trigger Pos(slot, op, k)} ::
        && |PagesAt(held, Pos(slot, op, k))| == ws[op].pages
        && PagesAt(old(held), Pos(slot, op, k)) <= PagesAt(held, Pos(slot, op, k))
    {
      hide Layout, Keyed, Agrees, Counted, BagOf, Fits, Addr;
      var pk, pv := Pos(slot, op, K), Pos(slot, op, V);
      FitsAt(pk);
      var n := |PagesAt(held, pk)|;
      while n < ws[op].pages
        invariant Sound() && (old(Shows()) ==> Shows()) && old(refs) <= refs && n <= ws[op].pages
        invariant n == |PagesAt(held, pk)| == |PagesAt(held, pv)|
        invariant PagesAt(old(held), pk) <= PagesAt(held, pk) && PagesAt(old(held), pv) <= PagesAt(held, pv)
        invariant forall p: Pos {:trigger PagesAt(held, p)} ::
          !(p.slot == slot && p.op == op) ==> PagesAt(held, p) == PagesAt(old(held), p)
      {
        ghost var before := held;
        PushPair(slot, op);
        n := n + 1;
        assert forall p: Pos {:trigger PagesAt(held, p)} ::
          !(p.slot == slot && p.op == op) ==> PagesAt(held, p) == PagesAt(before, p);
      }
      forall k
        ensures |PagesAt(held, Pos(slot, op, k))| == n && PagesAt(old(held), Pos(slot, op, k)) <= PagesAt(held, Pos(slot, op, k))
      {
        match k case K => case V =>
      }
    }

    lemma FitsAt(p: Pos)
      requires Keys() && p.op in ws
      ensures |PagesAt(held, p)| <= ws[p.op].pages
    {
    }

    /**
     paged_kv_ensure_tokens. The number of tokens asked for plays no part in what is mapped: every window of the
     slot is filled, and the pages it had stay where they were.
     */
    method EnsureTokens(slot: int, totalTokens: int)
      requires Sound()
      modifies this
      ensures Sound() && (old(Shows()) ==> Shows()) && leaked == old(leaked) && old(refs) <= refs
      ensures !(0 <= slot < maxBatch) ==> held == old(held) && refs == old(refs)
      ensures 0 <= slot < maxBatch ==>
        && SameElsewhere(old(held), held, slot)
        && tokens == old(tokens)[slot := totalTokens]
        && forall o: nat, k {:trigger Pos(slot, o, k)} :: o in ws ==>
             && |PagesAt(held, Pos(slot, o, k))| == ws[o].pages
             && PagesAt(old(held), Pos(slot, o, k)) <= PagesAt(held, Pos(slot, o, k))
      ensures 0 <= slot && old(Shows()) ==> forall o: nat, kind, i: nat {:trigger InPlace(slot, o, kind, i)} ::
        o in ws && i < |PagesAt(held, Pos(slot, o, kind))| ==> InPlace(slot, o, kind, i)
    {
      FillWindows(slot, totalTokens);
      if 0 <= slot && Shows() {
        ShownAt(slot);
      }
    }

    /** The loop over the ops. */
    method FillWindows(slot: int, totalTokens: int)
      requires Sound()
      modifies this
      ensures Sound() && (old(Shows()) ==> Shows()) && leaked == old(leaked) && old(refs) <= refs
      ensures !(0 <= slot < maxBatch) ==> held == old(held) && refs == old(refs)
      ensures 0 <= slot < maxBatch ==>
        && SameElsewhere(old(held), held, slot)
        && tokens == old(tokens)[slot := totalTokens]
        && forall o: nat, k {:trigger Pos(slot, o, k)} :: o in ws ==>
             && |PagesAt(held, Pos(slot, o, k))| == ws[o].pages
             && PagesAt(old(held), Pos(slot, o, k)) <= PagesAt(held, Pos(slot, o, k))
    {
      hide Layout, Keyed, Agrees, Counted, BagOf, Fits;
      if slot < 0 || slot >= |active| {
        return;
      }
      var todo := ws.Keys;
      while todo != {}
        invariant Sound() && (old(Shows()) ==> Shows()) && old(refs) <= refs && leaked == old(leaked)
        invariant todo <= ws.Keys && tokens == old(tokens) && active == old(active)
        invariant SameElsewhere(old(held), held, slot)
        invariant forall o: nat, k {:trigger Pos(slot, o, k)} :: o in ws ==>
          PagesAt(old(held), Pos(slot, o, k)) <= PagesAt(held, Pos(slot, o, k))
          && (o !in todo ==> |PagesAt(held, Pos(slot, o, k))| == ws[o].pages)
        decreases todo
      {
        var op := AnyOf(todo);
        ghost var before := held;
        EnsureOp(slot, op);
        assert forall o: nat, k {:trigger Pos(slot, o, k)} :: o != op ==>
          PagesAt(held, Pos(slot, o, k)) == PagesAt(before, Pos(slot, o, k));
        todo := todo - {op};
      }
      tokens := tokens[slot := totalTokens];
    }

    /** Unmaps and releases every page of one list. */
    method FreeList(p: Pos)
      requires Sizes() && Counts() && Keys() && p in held
      modifies this`held, this`table, this`refs
      ensures Sizes() && Counts() && Keys() && (old(Shows()) ==> Shows()) && held == old(held) - {p}
    {
      hide Layout, Keyed, Agrees, Counted, BagOf, Fits, Addr, AddrSet;
      var pages := held[p];
      MappedClear(ws, pageSz, maxBatch, held, table, p);
      CountedSame(refs, base, leaked, held, p);
      ReleaseAll(p, pages);
      held := held - {p};
    }

    /** Unmaps the pages of a list from its addresses and releases each once. */
    method ReleaseAll(p: Pos, pages: seq<nat>)
      requires p.op in ws
      modifies this`table, this`refs
      ensures table == old(table) - AddrSet(ws, pageSz, p, |pages|)
      ensures refs == old(refs) - multiset(pages)
    {
      hide Addr, AddrSet;
      AddrSetStep(ws, pageSz, p, 0, table);
      for i := 0 to |pages|
        invariant table == old(table) - AddrSet(ws, pageSz, p, i)
        invariant refs == old(refs) - multiset(pages[..i])
      {
        AddrSetStep(ws, pageSz, p, i, old(table));
        ReleaseStep(old(refs), pages, i);
        table := table - {Addr(ws, pageSz, p, i)};
        ReleasePage(pages[i]);
      }
      assert pages[..|pages|] == pages;
    }

    /** paged_kv_free_slot: the slot's lists are gone, their pages unmapped and their counts given back. */
    method FreeSlot(slot: int)
      requires Sound()
      modifies this
      ensures Sound() && (old(Shows()) ==> Shows()) && leaked == old(leaked)
      ensures !(0 <= slot < maxBatch) ==> held == old(held)
      ensures 0 <= slot < maxBatch ==>
        && SameElsewhere(old(held), held, slot)
        && (forall p: Pos {:trigger PagesAt(held, p)} :: p.slot == slot ==> PagesAt(held, p) == [])
        && !active[slot]
    {
      hide Layout, Keyed, Agrees, Counted, BagOf, Fits, Addr;
      if slot < 0 || slot >= |active| {
        return;
      }
      if !active[slot] && NoKList(slot) {
        NoPages(slot);
        return;
      }
      OutsideEmpty();
      var todo := ws.Keys;
      while todo != {}
        invariant Sound() && (old(Shows()) ==> Shows()) && leaked == old(leaked)
        invariant tokens == old(tokens) && active == old(active) && todo <= ws.Keys
        invariant SameElsewhere(old(held), held, slot)
        invariant forall p: Pos {:trigger PagesAt(held, p)} :: p.slot == slot && p.op !in todo ==> PagesAt(held, p) == []
        decreases todo
      {
        var op := AnyOf(todo);
        FreeOp(slot, op);
        todo := todo - {op};
      }
      tokens := tokens[slot := 0];
      active := active[slot := false];
    }

    /** Both lists of one op. */
    method FreeOp(slot: nat, op: nat)
      requires Sound()
      modifies this`held, this`table, this`refs
      ensures Sound() && (old(Shows()) ==> Shows())
      ensures forall p: Pos {:trigger PagesAt(held, p)} ::
        PagesAt(held, p) == if p.slot == slot && p.op == op then [] else PagesAt(old(held), p)
    {
      hide Layout, Keyed, Agrees, Counted, BagOf, Fits, Addr;
      var pk, pv := Pos(slot, op, K), Pos(slot, op, V);
      if pk in held {
        FreeList(pk);
      }
      if pv in held {
        FreeList(pv);
      }
      assert held == old(held) - {pk, pv};
      forall p: Pos ensures PagesAt(held, p) == if p.slot == slot && p.op == op then [] else PagesAt(old(held), p) {
        match p.kind case K => case V =>
      }
    }

    /** The slot has no K list at all. */
    predicate NoKList(slot: nat)
      reads this
    {
      forall p :: p in held ==> !(p.slot == slot && p.kind == K)
    }

    lemma OutsideEmpty()
      requires Keys()
      ensures forall p: Pos {:trigger PagesAt(held, p)} :: p.op !in ws ==> PagesAt(held, p) == []
    {
    }

    lemma NoPages(slot: nat)
      requires Sound() && NoKList(slot)
      ensures forall p: Pos {:trigger PagesAt(held, p)} :: p.slot == slot ==> PagesAt(held, p) == []
    {
      forall p: Pos | p.slot == slot ensures PagesAt(held, p) == [] {
        assert PagesAt(held, Pos(slot, p.op, K)) == [];
        assert |PagesAt(held, Pos(slot, p.op, V))| == 0;
        match p.kind case K => case V =>
      }
    }

    /** The teardown of every slot leaves no mapping and the counts from outside, plus whatever leaked in the run. */
    method FreeAll()
      requires Sound()
      modifies this
      ensures Valid() && leaked == old(leaked) && refs == base + leaked && table == map[]
    {
      hide Layout, Keyed, Agrees, Counted, BagOf, Fits, Addr;
      var i := 0;
      while i < |active|
        invariant 0 <= i <= |active| && Sound() && leaked == old(leaked)
        invariant forall p: Pos {:trigger PagesAt(held, p)} :: p.slot < i ==> PagesAt(held, p) == []
      {
        ghost var before := held;
        FreeSlot(i);
        assert forall p: Pos {:trigger PagesAt(held, p)} :: p.slot < i ==> PagesAt(held, p) == PagesAt(before, p);
        i := i + 1;
      }
      AllFree();
    }

    lemma AllFree()
      requires Sound() && forall p: Pos {:trigger PagesAt(held, p)} :: p.slot < maxBatch ==> PagesAt(held, p) == []
      ensures refs == base + leaked && table == map[] && Shows()
    {
      forall p | p in held ensures held[p] == [] { assert PagesAt(held, p) == []; }
      BagEmpty(held);
      NoCells(ws, pageSz, held, table);
    }

    /* ---------- Mapping existing pages ---------- */

    /** Retains a live page and puts it at place i of a list, mapped at its address unless something is mapped there. */
    method LayPage(p: Pos, i: nat, h: nat)
      requires Sizes() && Counts() && Keys() && i <= |PagesAt(held, p)| && InBounds(ws, maxBatch, p, i) && h in refs
      modifies this`held, this`table, this`refs, this`leaked
      ensures Sizes() && Counts() && Keys() && Kept(old(table), table) && refs == old(refs) + multiset{h}
      ensures held == old(held)[p := Lay(PagesAt(old(held), p), i, h)]
      ensures i == |PagesAt(old(held), p)| ==> leaked == old(leaked) && (old(Shows()) ==> Shows())
      ensures i < |PagesAt(old(held), p)| ==> leaked == old(leaked) + multiset{PagesAt(old(held), p)[i]}
    {
      hide Layout, Fits, Keyed, Agrees, Addr, Counted, BagOf;
      var pages := PagesAt(held, p);
      ghost var before := refs;
      RetainPage(h);
      if i < |pages| {
        OverPage(p, i, h, before);
      } else {
        PushPage(p, h, before);
      }
    }

    /** Replaces a listed page without releasing it; the address is taken, so mapping the new page there does nothing. */
    method OverPage(p: Pos, i: nat, h: nat, ghost before: multiset<nat>)
      requires Sizes() && Keys() && Cell(held, p, i) && p.op in ws
      requires refs == before + multiset{h} && Counted(before, base, leaked, held)
      modifies this`held, this`table, this`leaked
      ensures Sizes() && Counts() && Keys() && held == old(held)[p := Put(old(held)[p], i, h)] && table == old(table)
      ensures leaked == old(leaked) + multiset{old(held)[p][i]}
    {
      hide Layout, Fits, Keyed, Agrees, Addr, Counted, BagOf;
      CountedOver(before, base, leaked, held, p, i, h);
      KeyedOver(ws, pageSz, maxBatch, held, table, p, i, h);
      leaked := leaked + multiset{held[p][i]};
      MapPage(Addr(ws, pageSz, p, i), h);
      held := held[p := Put(held[p], i, h)];
    }

    /** One page of one op, K and V. */
    method LayPair(slot: nat, op: nat, i: nat, hk: nat, hv: nat)
      requires Sound() && slot < maxBatch && op in ws && i < ws[op].pages
      requires i <= |PagesAt(held, Pos(slot, op, K))| && hk in refs && hv in refs
      modifies this`held, this`table, this`refs, this`leaked
      ensures Sound() && Kept(old(table), table) && refs == old(refs) + multiset{hk} + multiset{hv}
      ensures var pk, pv := Pos(slot, op, K), Pos(slot, op, V);
        held == old(held)[pk := Lay(PagesAt(old(held), pk), i, hk)][pv := Lay(PagesAt(old(held), pv), i, hv)]
      ensures i == |PagesAt(old(held), Pos(slot, op, K))| ==> leaked == old(leaked) && (old(Shows()) ==> Shows())
      ensures i < |PagesAt(old(held), Pos(slot, op, K))| ==> |leaked| > |old(leaked)|
      ensures |leaked| >= |old(leaked)|
    {
      hide Layout, Fits, Keyed, Agrees, Addr, Counted, BagOf;
      var pk, pv := Pos(slot, op, K), Pos(slot, op, V);
      assert |PagesAt(held, pk)| == |PagesAt(held, pv)|;
      LayPage(pk, i, hk);
      LayPage(pv, i, hv);
    }

    /** The loop over the pages. */
    method LayRows(slot: int, start: nat, ks: seq<map<nat, nat>>, vs: seq<map<nat, nat>>)
      requires Sound() && |ks| <= |vs| && Complete(ws, refs, ks) && Complete(ws, refs, vs)
      requires 0 <= slot < maxBatch ==> Reaches(ws, held, slot, start, |ks|)
      modifies this
      ensures Sound() && Kept(old(table), table)
      ensures !(0 <= slot < maxBatch) ==> unchanged(this)
      ensures 0 <= slot < maxBatch ==>
        && SameElsewhere(old(held), held, slot)
        && forall o: nat {:trigger Pos(slot, o, K)} {:trigger Pos(slot, o, V)} :: o in ws ==>
             && Laid(PagesAt(old(held), Pos(slot, o, K)), PagesAt(held, Pos(slot, o, K)), start, |ks|, ks, o)
             && Laid(PagesAt(old(held), Pos(slot, o, V)), PagesAt(held, Pos(slot, o, V)), start, |ks|, vs, o)
      ensures 0 <= slot < maxBatch && (|ks| == 0 || Sized(ws, old(held), slot, start)) ==>
        leaked == old(leaked) && (old(Shows()) ==> Shows())
      ensures 0 <= slot < maxBatch && |ks| > 0 && !Sized(ws, old(held), slot, start) ==> |leaked| > |old(leaked)|
      ensures old(Shows()) ==> forall p: Pos, i: nat {:trigger Addr(ws, pageSz, p, i)} :: Cell(old(held), p, i) && p.op in ws ==>
        Addr(ws, pageSz, p, i) in table && table[Addr(ws, pageSz, p, i)] == old(held)[p][i]
    {
      hide Layout, Fits, Keyed, Agrees, Addr, Counted, BagOf, Laid;
      if slot < 0 || slot >= |active| {
        StillMapped(ws, pageSz, held, table, table);
        return;
      }
      ghost var was, tableWas := held, table;
      LaidNothing(slot, start, ks, vs);
      LeakIff(was, slot, start);
      for p := 0 to |ks|
        invariant Sound() && Kept(tableWas, table) && SameElsewhere(was, held, slot)
        invariant AllLaid(was, slot, start, p, {}, ks, vs) && old(refs) <= refs
        invariant Sized(ws, was, slot, start) || p == 0 ==> leaked == old(leaked) && (old(Shows()) ==> Shows())
        invariant p > 0 && !Sized(ws, was, slot, start) ==> |leaked| > |old(leaked)|
      {
        LayRow(was, slot, start, p, ks, vs, old(refs));
      }
      StillMapped(ws, pageSz, was, tableWas, table);
    }

    /**
     paged_kv_map_existing_pages, for live pages named for every op. Onto a slot whose lists end at start it keeps
     page table and counts exact. Where a list already had a page, the count of the page it replaces leaks and the
     address keeps that page: the list names the new one, which the slot never sees.
     */
    method MapExisting(slot: int, start: nat, ks: seq<map<nat, nat>>, vs: seq<map<nat, nat>>)
      requires Sound() && |ks| <= |vs| && Complete(ws, refs, ks) && Complete(ws, refs, vs)
      requires 0 <= slot < maxBatch ==> Reaches(ws, held, slot, start, |ks|)
      modifies this
      ensures Sound() && Kept(old(table), table)
      ensures !(0 <= slot < maxBatch) ==> unchanged(this)
      ensures 0 <= slot < maxBatch ==>
        && SameElsewhere(old(held), held, slot)
        && (forall o: nat, k {:trigger Pos(slot, o, k)} :: o in ws ==>
              var was, now := PagesAt(old(held), Pos(slot, o, k)), PagesAt(held, Pos(slot, o, k));
              && |now| == (if |was| < start + |ks| then start + |ks| else |was|)
              && (forall i :: 0 <= i < |was| && !(start <= i < start + |ks|) ==> now[i] == was[i]))
        && (forall o: nat, i: nat {:trigger ks[i][o]} ::
              o in ws && i < |ks| ==> PagesAt(held, Pos(slot, o, K))[start + i] == ks[i][o])
        && (forall o: nat, i: nat {:trigger vs[i][o]} ::
              o in ws && i < |ks| ==> PagesAt(held, Pos(slot, o, V))[start + i] == vs[i][o])
      ensures 0 <= slot < maxBatch && (|ks| == 0 || Sized(ws, old(held), slot, start)) ==>
        leaked == old(leaked) && (old(Shows()) ==> Shows())
      ensures 0 <= slot < maxBatch && |ks| > 0 && !Sized(ws, old(held), slot, start) ==> |leaked| > |old(leaked)|
      ensures 0 <= slot < maxBatch && (|ks| == 0 || Sized(ws, old(held), slot, start)) && old(Shows()) ==>
        forall o: nat, kind, i: nat {:trigger InPlace(slot, o, kind, i)} ::
          o in ws && i < |PagesAt(held, Pos(slot, o, kind))| ==> InPlace(slot, o, kind, i)
      ensures old(Shows()) ==> forall p: Pos, i: nat {:trigger Addr(ws, pageSz, p, i)} :: Cell(old(held), p, i) && p.op in ws ==>
        Addr(ws, pageSz, p, i) in table && table[Addr(ws, pageSz, p, i)] == old(held)[p][i]
    {
      ghost var before := held;
      LayRows(slot, start, ks, vs);
      if 0 <= slot < |active| {
        AllLaidIs(before, held, slot, start, ks, vs);
        if Shows() {
          ShownAt(slot);
        }
      }
    }

    lemma AllLaidIs(was: Lists, now: Lists, slot: nat, start: nat, ks: seq<map<nat, nat>>, vs: seq<map<nat, nat>>)
      requires |ks| <= |vs|
      requires forall o: nat {:trigger Pos(slot, o, K)} {:trigger Pos(slot, o, V)} :: o in ws ==>
        && Laid(PagesAt(was, Pos(slot, o, K)), PagesAt(now, Pos(slot, o, K)), start, |ks|, ks, o)
        && Laid(PagesAt(was, Pos(slot, o, V)), PagesAt(now, Pos(slot, o, V)), start, |ks|, vs, o)
      ensures forall o: nat, k {:trigger Pos(slot, o, k)} :: o in ws ==>
        var a, b := PagesAt(was, Pos(slot, o, k)), PagesAt(now, Pos(slot, o, k));
        && |b| == (if |a| < start + |ks| then start + |ks| else |a|)
        && (forall i :: 0 <= i < |a| && !(start <= i < start + |ks|) ==> b[i] == a[i])
      ensures forall o: nat, i: nat {:trigger ks[i][o]} :: o in ws && i < |ks| ==>
        o in ks[i] && PagesAt(now, Pos(slot, o, K))[start + i] == ks[i][o]
      ensures forall o: nat, i: nat {:trigger vs[i][o]} :: o in ws && i < |ks| ==>
        o in vs[i] && PagesAt(now, Pos(slot, o, V))[start + i] == vs[i][o]
    {
      forall o: nat, k | o in ws
        ensures var a, b := PagesAt(was, Pos(slot, o, k)), PagesAt(now, Pos(slot, o, k));
          && |b| == (if |a| < start + |ks| then start + |ks| else |a|)
          && (forall i :: 0 <= i < |a| && !(start <= i < start + |ks|) ==> b[i] == a[i])
      {
        match k case K => case V =>
      }
      forall o: nat, i: nat | o in ws && i < |ks| {
        LaidAt(PagesAt(was, Pos(slot, o, K)), PagesAt(now, Pos(slot, o, K)), start, |ks|, ks, o, i);
      }
      forall o: nat, i: nat | o in ws && i < |ks| {
        LaidAt(PagesAt(was, Pos(slot, o, V)), PagesAt(now, Pos(slot, o, V)), start, |ks|, vs, o, i);
      }
    }

    /** Page p of every op, in whatever order the ops come. */
    method LayRow(ghost was: Lists, slot: nat, start: nat, p: nat, ks: seq<map<nat, nat>>, vs: seq<map<nat, nat>>,
                  ghost refs0: multiset<nat>)
      requires Sound() && slot < maxBatch && p < |ks| <= |vs|
      requires Complete(ws, refs0, ks) && Complete(ws, refs0, vs) && refs0 <= refs
      requires Reaches(ws, was, slot, start, |ks|) && Paired(ws, was) && AllLaid(was, slot, start, p, {}, ks, vs)
      modifies this`held, this`table, this`refs, this`leaked
      ensures Sound() && Kept(old(table), table) && refs0 <= refs && SameElsewhere(old(held), held, slot)
      ensures AllLaid(was, slot, start, p + 1, {}, ks, vs)
      ensures |leaked| >= |old(leaked)|
      ensures Sized(ws, was, slot, start) ==> leaked == old(leaked) && (old(Shows()) ==> Shows())
      ensures p == 0 && !Sized(ws, was, slot, start) ==> |leaked| > |old(leaked)|
    {
      hide Layout, Fits, Keyed, Agrees, Addr, Counted, BagOf, Laid;
      var todo := ws.Keys;
      while todo != {}
        invariant Sound() && Kept(old(table), table) && todo <= ws.Keys
        invariant refs0 <= refs && SameElsewhere(old(held), held, slot)
        invariant AllLaid(was, slot, start, p, ws.Keys - todo, ks, vs)
        invariant |leaked| >= |old(leaked)|
        invariant Sized(ws, was, slot, start) ==> leaked == old(leaked) && (old(Shows()) ==> Shows())
        invariant p == 0 ==> forall o: nat {:trigger Pos(slot, o, K)} ::
          (o in ws && o !in todo && |PagesAt(was, Pos(slot, o, K))| > start) ==> |leaked| > |old(leaked)|
        decreases todo
      {
        var op := AnyOf(todo);
        LayOp(was, slot, start, p, ws.Keys - todo, op, ks, vs);
        assert ws.Keys - todo + {op} == ws.Keys - (todo - {op});
        todo := todo - {op};
      }
      AllDone(was, slot, start, p, ks, vs);
    }

    /** One op's step of a row. */
    method LayOp(ghost was: Lists, slot: nat, start: nat, p: nat, ghost done: set<nat>, op: nat,
                 ks: seq<map<nat, nat>>, vs: seq<map<nat, nat>>)
      requires Sound() && slot < maxBatch && p < |ks| <= |vs|
      requires op in ws && op !in done && op in ks[p] && op in vs[p] && ks[p][op] in refs && vs[p][op] in refs
      requires Reaches(ws, was, slot, start, |ks|) && Paired(ws, was) && AllLaid(was, slot, start, p, done, ks, vs)
      modifies this`held, this`table, this`refs, this`leaked
      ensures Sound() && Kept(old(table), table) && old(refs) <= refs && SameElsewhere(old(held), held, slot)
      ensures AllLaid(was, slot, start, p, done + {op}, ks, vs)
      ensures |leaked| >= |old(leaked)|
      ensures |PagesAt(was, Pos(slot, op, K))| == start ==> leaked == old(leaked) && (old(Shows()) ==> Shows())
      ensures p == 0 && |PagesAt(was, Pos(slot, op, K))| > start ==> |leaked| > |old(leaked)|
    {
      hide Layout, Fits, Keyed, Agrees, Addr, Counted, BagOf, Laid;
      ghost var pk, pv := Pos(slot, op, K), Pos(slot, op, V);
      ghost var before := held;
      LaidLength(PagesAt(was, pk), PagesAt(held, pk), start, p, ks, op);
      LaidLength(PagesAt(was, pv), PagesAt(held, pv), start, p, vs, op);
      assert |PagesAt(was, pk)| == |PagesAt(was, pv)|;
      LaidStep(PagesAt(was, pk), PagesAt(held, pk), start, p, ks, op);
      LaidStep(PagesAt(was, pv), PagesAt(held, pv), start, p, vs, op);
      LayPair(slot, op, start + p, ks[p][op], vs[p][op]);
      assert forall q: Pos {:trigger PagesAt(held, q)} :: q != pk && q != pv ==> PagesAt(held, q) == PagesAt(before, q);
    }

    /** Lists laid over up to page p, and to p + 1 for the ops in done. */
    ghost predicate AllLaid(was: Lists, slot: nat, start: nat, p: nat, done: set<nat>,
                            ks: seq<map<nat, nat>>, vs: seq<map<nat, nat>>)
      requires p <= |ks| <= |vs| && (done != {} ==> p < |ks|)
      reads this
    {
      forall o: nat {:trigger Pos(slot, o, K)} {:trigger Pos(slot, o, V)} :: o in ws ==>
        && Laid(PagesAt(was, Pos(slot, o, K)), PagesAt(held, Pos(slot, o, K)), start, if o in done then p + 1 else p, ks, o)
        && Laid(PagesAt(was, Pos(slot, o, V)), PagesAt(held, Pos(slot, o, V)), start, if o in done then p + 1 else p, vs, o)
    }

    lemma AllDone(was: Lists, slot: nat, start: nat, p: nat, ks: seq<map<nat, nat>>, vs: seq<map<nat, nat>>)
      requires p < |ks| <= |vs| && AllLaid(was, slot, start, p, ws.Keys, ks, vs)
      ensures AllLaid(was, slot, start, p + 1, {}, ks, vs)
    {
      hide Laid;
    }

    lemma LeakIff(was: Lists, slot: nat, start: nat)
      requires Reaches(ws, was, slot, start, 0)
      ensures !Sized(ws, was, slot, start) <==>
              exists o: nat {:trigger Pos(slot, o, K)} :: o in ws && |PagesAt(was, Pos(slot, o, K))| > start
    {
    }

    lemma LaidNothing(slot: nat, start: nat, ks: seq<map<nat, nat>>, vs: seq<map<nat, nat>>)
      requires |ks| <= |vs| && Paired(ws, held)
      requires forall o: nat {:trigger Pos(slot, o, K)} :: o in ws ==> start <= |PagesAt(held, Pos(slot, o, K))|
      ensures AllLaid(held, slot, start, 0, {}, ks, vs)
    {
    }

    /* ---------- How a scheduler gets there ---------- */

    /** What a decode step does with every slot of its bucket, occupied or not. */
    method PadSlot(slot: nat, totalTokens: int)
      requires Sound() && slot < maxBatch
      modifies this
      ensures Sound() && (old(Shows()) ==> Shows()) && leaked == old(leaked) && old(refs) <= refs
      ensures forall o: nat, k {:trigger Pos(slot, o, k)} :: o in ws ==> |PagesAt(held, Pos(slot, o, k))| == ws[o].pages
    {
      hide Layout, Fits, Keyed, Agrees, Addr, Counted, BagOf, Paired;
      if !active[slot] {
        Alloc(slot);
      }
      EnsureTokens(slot, totalTokens);
    }

    /** What an admission does with the pages it matched. */
    method AdmitSlot(slot: nat, ks: seq<map<nat, nat>>, vs: seq<map<nat, nat>>, totalTokens: int)
      requires Sound() && slot < maxBatch && |ks| <= |vs| && Complete(ws, refs, ks) && Complete(ws, refs, vs)
      requires forall o {:trigger o in ws} :: o in ws ==> |ks| <= ws[o].pages
      modifies this
      ensures Sound()
      ensures |ks| == 0 || Sized(ws, old(held), slot, 0) ==> leaked == old(leaked) && (old(Shows()) ==> Shows())
      ensures |ks| > 0 && !Sized(ws, old(held), slot, 0) ==> |leaked| > |old(leaked)|
    {
      hide Layout, Fits, Keyed, Agrees, Addr, Counted, BagOf, Paired, Laid, Complete;
      Alloc(slot);
      MapExisting(slot, 0, ks, vs);
      EnsureTokens(slot, totalTokens);
    }

    /** A slot that a decode step filled as padding is admitted to with matched pages: the counts never all come back. */
    method PadThenAdmit(slot: nat, ks: seq<map<nat, nat>>, vs: seq<map<nat, nat>>, tokens0: int, tokens1: int)
      requires Sound() && slot < maxBatch && 0 < |ks| <= |vs| && Complete(ws, refs, ks) && Complete(ws, refs, vs)
      requires ws != map[] && forall o {:trigger o in ws} :: o in ws ==> |ks| <= ws[o].pages
      modifies this
      ensures Valid() && table == map[] && refs == base + leaked && |leaked| > |old(leaked)|
    {
      hide Layout, Fits, Keyed, Agrees, Addr, Counted, BagOf, Paired;
      PadSlot(slot, tokens0);
      ghost var op := SomeOf(ws.Keys);
      assert |PagesAt(held, Pos(slot, op, K))| == ws[op].pages;
      AdmitSlot(slot, ks, vs, tokens1);
      FreeAll();
    }

    /** paged_kv_extract_page_handles: the pages at one index of a slot, all live as long as the slot holds them. */
    method ExtractHandles(slot: int, page: nat) returns (ks: map<nat, nat>, vs: map<nat, nat>)
      requires Sound()
      ensures forall o: nat {:trigger o in ks} {:trigger o in vs} :: (o in ks <==> o in vs)
      ensures forall o: nat {:trigger o in ks} :: o in ks <==>
        (o in ws && 0 <= slot < maxBatch && page < |PagesAt(held, Pos(slot, o, K))|)
      ensures forall o: nat {:trigger ks[o]} {:trigger vs[o]} :: o in ks && o in vs ==>
        && ks[o] in refs && vs[o] in refs
        && Cell(held, Pos(slot, o, K), page) && ks[o] == held[Pos(slot, o, K)][page]
        && Cell(held, Pos(slot, o, V), page) && vs[o] == held[Pos(slot, o, V)][page]
    {
      hide Layout, Fits, Keyed, Agrees, Counted, BagOf;
      ks, vs := map[], map[];
      if slot < 0 || slot >= |active| {
        return;
      }
      var todo := ws.Keys;
      while todo != {}
        invariant todo <= ws.Keys
        invariant forall o: nat {:trigger o in ks} {:trigger o in vs} :: (o in ks <==> o in vs)
        invariant forall o: nat {:trigger o in ks} :: o in ks <==>
          (o in ws && o !in todo && page < |PagesAt(held, Pos(slot, o, K))|)
        invariant forall o: nat {:trigger ks[o]} {:trigger vs[o]} :: o in ks && o in vs ==>
          && ks[o] in refs && vs[o] in refs
          && Cell(held, Pos(slot, o, K), page) && ks[o] == held[Pos(slot, o, K)][page]
          && Cell(held, Pos(slot, o, V), page) && vs[o] == held[Pos(slot, o, V)][page]
        decreases todo
      {
        var op := AnyOf(todo);
        var pk, pv := PagesAt(held, Pos(slot, op, K)), PagesAt(held, Pos(slot, op, V));
        assert |pk| == |pv|;
        if page < |pk| && page < |pv| {
          CountedLive(refs, base, leaked, held, Pos(slot, op, K), page);
          CountedLive(refs, base, leaked, held, Pos(slot, op, V), page);
          ks, vs := ks[op := pk[page]], vs[op := pv[page]];
        }
        todo := todo - {op};
      }
    }
  }
}
