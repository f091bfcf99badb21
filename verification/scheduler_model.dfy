/**
 The continuous batching scheduler as a state machine on values.

 The sampler is an arbitrary function of the request and of how many tokens it has already: one run asks
 it at most once for each such pair, so this is any sampler. Page handles computed by the executor are an
 arbitrary function of the request and the page.
 */
module SchedulerModel {
  import opened Arith
  import opened Bags
  import opened Options
  import opened RadixModel

  datatype Reason = Running | Stop | Length

  datatype Request = Request(prompt: seq<int>, generated: seq<int>, slotId: int, currentPos: int,
                             maxNew: int, eos: int, reason: Reason, prefixMatched: nat)

  /** Requests are kept by id; held lists the radix nodes each one has matched; execSlots, the slots allocated in the executor. */
  datatype State = State(nextId: nat, pending: seq<nat>, slots: seq<Option<nat>>,
                         reqs: map<nat, Request>, held: map<nat, seq<Path>>, tree: Tree,
                         hits: nat, saved: nat, execSlots: set<nat>, caching: bool, buckets: bool)

  datatype Output = Output(newTokens: seq<(nat, int)>, completed: seq<nat>)

  datatype Config = Config(defaultEos: int, tpp: nat, hash: Chunk -> int, sample: (nat, nat) -> int,
                           pageK: (nat, nat) -> Handles, pageV: (nat, nat) -> Handles)

  function Init(maxBatch: nat): State {
    State(1, [], seq(maxBatch, i => None), map[], map[], Tree(0, map[]), 0, 0, {}, true, false)
  }

  function Join(a: Output, b: Output): Output { Output(a.newTokens + b.newTokens, a.completed + b.completed) }

  const NOTHING := Output([], [])

  /* ---------- add_request and queries ---------- */

  function Add(cfg: Config, s: State, prompt: seq<int>, maxNew: int, eos: int): State {
    var r := Request(prompt, [], -1, 0, maxNew, if eos >= 0 then eos else cfg.defaultEos, Running, 0);
    s.(nextId := s.nextId + 1, pending := s.pending + [s.nextId],
       reqs := s.reqs[s.nextId := r], held := s.held[s.nextId := []])
  }

  /** The first free slot from i on, or the number of slots. */
  function FirstFree(slots: seq<Option<nat>>, i: nat): (r: nat)
    requires i <= |slots|
    ensures i <= r <= |slots|
    ensures r < |slots| ==> slots[r].None?
    ensures forall j :: i <= j < r ==> slots[j].Some?
    decreases |slots| - i
  {
    if i == |slots| || slots[i].None? then i else FirstFree(slots, i + 1)
  }

  ghost predicate Idle(slots: seq<Option<nat>>) { forall b :: 0 <= b < |slots| ==> slots[b].None? }

  ghost predicate HasWork(s: State) { s.pending != [] || !Idle(s.slots) }

  /** One past the highest occupied slot, 0 if there is none. */
  function TopSlot(slots: seq<Option<nat>>): (r: nat)
    ensures r <= |slots|
    ensures r > 0 ==> slots[r - 1].Some?
    ensures forall b :: r <= b < |slots| ==> slots[b].None?
  {
    if slots == [] then 0
    else if slots[|slots| - 1].Some? then |slots|
    else TopSlot(slots[..|slots| - 1])
  }

  /** select_batch_bucket: how many slots a decode step with highest occupied slot maxSlot serves. */
  function SelectBucket(buckets: bool, maxSlot: nat): nat {
    if !buckets then maxSlot + 1
    else if maxSlot < 1 then 1
    else if maxSlot < 2 then 2
    else if maxSlot < 4 then 4
    else if maxSlot < 8 then 8
    else 16
  }

  /** The number of slots the next decode step serves. */
  function Bucket(s: State): (n: nat)
    ensures n <= |s.slots|
  {
    var top := TopSlot(s.slots);
    if top == 0 then 0 else Min(SelectBucket(s.buckets, top - 1), |s.slots|)
  }

  /* ---------- step ---------- */

  predicate IsEos(r: Request, token: int) { r.eos >= 0 && token == r.eos }

  /** Appends the sampled token; on end-of-text or a full quota, completes the request and frees what it holds. */
  ghost function Emit(cfg: Config, s: State, b: nat, id: nat, newPos: int): (r: (State, Output))
    requires b < |s.slots| && id in s.reqs && id in s.held
    ensures |r.0.slots| == |s.slots| && r.0.pending == s.pending
  {
    var q := s.reqs[id];
    var token := cfg.sample(id, |q.generated|);
    var q1 := q.(generated := q.generated + [token], currentPos := newPos);
    if IsEos(q, token) || |q1.generated| >= q.maxNew then
      (s.(reqs := s.reqs[id := q1.(reason := if IsEos(q, token) then Stop else Length)],
          held := s.held[id := []], tree := ReleaseAll(s.tree, s.held[id]),
          slots := s.slots[b := None], execSlots := s.execSlots - {b}),
       Output([(id, token)], [id]))
    else
      (s.(reqs := s.reqs[id := q1]), Output([(id, token)], []))
  }

  ghost predicate CanAdmit(s: State) {
    s.pending != [] && FirstFree(s.slots, 0) < |s.slots| && s.pending[0] in s.reqs && s.pending[0] in s.held
  }

  /** Pops the head of the queue into the first free slot. */
  ghost function TakeSlot(s: State): (r: State)
    requires CanAdmit(s)
    ensures s.pending[0] in r.reqs && s.pending[0] in r.held
    ensures |r.slots| == |s.slots| && |r.pending| == |s.pending| - 1
  {
    var b, id := FirstFree(s.slots, 0), s.pending[0];
    s.(pending := s.pending[1..], slots := s.slots[b := Some(id)], execSlots := s.execSlots + {b},
       reqs := s.reqs[id := s.reqs[id].(slotId := b)])
  }

  /** The paths of the first k prefixes of pages, shortest first. */
  function PrefixesTo(pages: seq<Chunk>, k: nat): (r: seq<Path>)
    requires k <= |pages|
    ensures |r| == k
    ensures forall i :: 0 <= i < k ==> r[i] == Prefix(pages, i + 1)
  {
    if k == 0 then [] else PrefixesTo(pages, k - 1) + [Prefix(pages, k)]
  }

  /** Matches the prompt against the tree and retains what matched; the first result is the matched page count. */
  ghost function MatchPrompt(cfg: Config, s: State, id: nat): (r: (nat, State))
    requires cfg.tpp > 0 && id in s.reqs && id in s.held
    ensures id in r.1.reqs && id in r.1.held && |r.1.slots| == |s.slots| && r.1.pending == s.pending
  {
    if !s.caching then (0, s) else
      var pages := Pages(s.reqs[id].prompt, cfg.tpp);
      var (k, t) := Match(s.tree, pages);
      if k == 0 then (0, s.(tree := t)) else
        var saved := Times(k, cfg.tpp);
        (k, s.(reqs := s.reqs[id := s.reqs[id].(prefixMatched := saved)],
               held := s.held[id := PrefixesTo(pages, k)],
               tree := RetainAll(t, PrefixesTo(pages, k)),
               hits := s.hits + 1, saved := s.saved + saved))
  }

  function HandlesFrom(f: (nat, nat) -> Handles, id: nat, k: nat, n: nat): (r: seq<Handles>)
    requires k <= n
    ensures |r| == n - k
    ensures forall i :: 0 <= i < n - k ==> r[i] == f(id, k + i)
    decreases n - k
  {
    if k == n then [] else [f(id, k)] + HandlesFrom(f, id, k + 1, n)
  }

  /** Registers the prompt's pages beyond the k matched ones. */
  ghost function Register(cfg: Config, s: State, id: nat, k: nat): (r: State)
    requires cfg.tpp > 0 && id in s.reqs
    ensures r == s.(tree := r.tree)
  {
    var pages := Pages(s.reqs[id].prompt, cfg.tpp);
    if s.caching && |pages| > k then
      s.(tree := Insert(s.tree, cfg.hash, pages, k, HandlesFrom(cfg.pageK, id, k, |pages|),
                        HandlesFrom(cfg.pageV, id, k, |pages|)))
    else s
  }

  /** The part of an admission before the first token is sampled. */
  ghost function Prefill(cfg: Config, s: State): (r: State)
    requires cfg.tpp > 0 && CanAdmit(s)
    ensures |r.slots| == |s.slots| && |r.pending| == |s.pending| - 1
    ensures s.pending[0] in r.reqs && s.pending[0] in r.held
  {
    var id := s.pending[0];
    var (k, s1) := MatchPrompt(cfg, TakeSlot(s), id);
    Register(cfg, s1, id, k)
  }

  ghost function AdmitOne(cfg: Config, s: State): (r: (State, Output))
    requires cfg.tpp > 0 && CanAdmit(s)
    ensures |r.0.slots| == |s.slots| && |r.0.pending| == |s.pending| - 1
  {
    var id := s.pending[0];
    Emit(cfg, Prefill(cfg, s), FirstFree(s.slots, 0), id, |s.reqs[id].prompt|)
  }

  ghost function AdmitAll(cfg: Config, s: State): (State, Output)
    requires cfg.tpp > 0
    decreases |s.pending|
  {
    if !CanAdmit(s) then (s, NOTHING) else
      var (s1, o1) := AdmitOne(cfg, s);
      var (s2, o2) := AdmitAll(cfg, s1);
      (s2, Join(o1, o2))
  }

  ghost predicate Served(s: State, b: nat) {
    b < |s.slots| && s.slots[b].Some? && s.slots[b].value in s.reqs && s.slots[b].value in s.held
  }

  /** One token for each occupied slot from b up to n. */
  ghost function DecodeFrom(cfg: Config, s: State, b: nat, n: nat): (r: (State, Output))
    requires b <= n <= |s.slots|
    ensures |r.0.slots| == |s.slots| && r.0.pending == s.pending
    decreases n - b
  {
    if b == n then (s, NOTHING)
    else if !Served(s, b) then DecodeFrom(cfg, s, b + 1, n)
    else
      var id := s.slots[b].value;
      var (s1, o1) := Emit(cfg, s, b, id, s.reqs[id].currentPos + 1);
      var (s2, o2) := DecodeFrom(cfg, s1, b + 1, n);
      (s2, Join(o1, o2))
  }

  function UpTo(n: nat): (r: set<nat>)
    ensures forall i :: i in r <==> 0 <= i < n
  {
    if n == 0 then {} else UpTo(n - 1) + {n - 1}
  }

  /** The padding slots of a bucket are allocated in the executor too. */
  function Pad(s: State, n: nat): State {
    s.(execSlots := s.execSlots + UpTo(n))
  }

  ghost function FreeIfIdle(s: State): State {
    if Idle(s.slots) then s.(execSlots := s.execSlots - UpTo(|s.slots|)) else s
  }

  ghost function Step(cfg: Config, s: State): (State, Output)
    requires cfg.tpp > 0
  {
    if CanAdmit(s) then AdmitAll(cfg, s)
    else if Idle(s.slots) then (s, NOTHING)
    else
      var (s1, o) := DecodeFrom(cfg, Pad(s, Bucket(s)), 0, Bucket(s));
      (FreeIfIdle(s1), o)
  }

  /* ---------- The invariant ---------- */

  /** The id at the head of the queue: ids below it have been admitted, ids from it on have not. */
  function First(s: State): int { s.nextId - |s.pending| }

  function Quota(r: Request): nat { if r.maxNew < 1 then 1 else r.maxNew }

  /** The queue holds the ids not yet admitted, in id order. */
  ghost predicate QueueInv(s: State) {
    && First(s) >= 1
    && (forall id :: id in s.reqs <==> 1 <= id < s.nextId)
    && (forall id :: id in s.held <==> id in s.reqs)
    && (forall i :: 0 <= i < |s.pending| ==> s.pending[i] == First(s) + i)
  }

  /** An occupied slot holds an admitted running request that knows its slot, and each of those is in its slot. */
  ghost predicate SlotsInv(s: State) {
    && (forall b :: 0 <= b < |s.slots| && s.slots[b].Some? ==>
          var id := s.slots[b].value;
          1 <= id < First(s) && id in s.reqs && s.reqs[id].reason == Running && s.reqs[id].slotId == b)
    && (forall id :: id in s.reqs && id < First(s) && s.reqs[id].reason == Running ==>
          0 <= s.reqs[id].slotId < |s.slots| && s.slots[s.reqs[id].slotId] == Some(id))
  }

  /** A queued request has no tokens yet, and only admitted running requests hold nodes. */
  ghost predicate RestInv(s: State) {
    && (forall id :: id in s.reqs && id in s.held && id >= First(s) ==>
          s.reqs[id].reason == Running && s.reqs[id].generated == [] && s.held[id] == [])
    && (forall id :: id in s.reqs && id in s.held && s.reqs[id].reason != Running ==> s.held[id] == [])
  }

  /** Each id is in exactly one place: the queue, its own slot, or finished. */
  ghost predicate IdsInv(s: State) { QueueInv(s) && SlotsInv(s) && RestInv(s) }

  /** An admitted request has exactly the sampler's tokens, cut at the first end-of-text or at the quota. */
  ghost predicate TokensOk(cfg: Config, id: nat, r: Request) {
    var n := |r.generated|;
    && 1 <= n <= Quota(r)
    && r.currentPos == |r.prompt| + n - 1
    && (forall i :: 0 <= i < n ==> r.generated[i] == cfg.sample(id, i))
    && (forall i :: 0 <= i < n - 1 ==> !IsEos(r, r.generated[i]))
    && match r.reason
       case Running => n < Quota(r) && !IsEos(r, r.generated[n - 1])
       case Stop => IsEos(r, r.generated[n - 1])
       case Length => n == Quota(r) && !IsEos(r, r.generated[n - 1])
  }

  /** All admitted requests are as TokensOk says, except one that is being prefilled (cur; 0 for none). */
  ghost predicate TokensInv(cfg: Config, reqs: map<nat, Request>, first: int, cur: nat) {
    forall id {:trigger reqs[id]} :: id in reqs && id < first ==>
      if id == cur then reqs[id].generated == [] && reqs[id].reason == Running else TokensOk(cfg, id, reqs[id])
  }

  /** Each node's reference count is the number of active requests that hold it, and held nodes are in the tree. */
  ghost predicate RefsInv(hash: Chunk -> int, tree: Tree, held: map<nat, seq<Path>>) {
    && Wf(tree, hash)
    && (forall p :: p in tree.entries ==> tree.entries[p].refs == BagOf(held)[p])
    && (forall p :: p in BagOf(held) ==> p in tree.entries)
  }

  /** What a request holds is the chain of its own first pages, each once. */
  ghost predicate HeldOk(cfg: Config, prompt: seq<int>, h: seq<Path>) {
    && cfg.tpp > 0
    && |h| <= |Pages(prompt, cfg.tpp)|
    && h == PrefixesTo(Pages(prompt, cfg.tpp), |h|)
  }

  ghost predicate HeldInv(cfg: Config, reqs: map<nat, Request>, held: map<nat, seq<Path>>) {
    forall id {:trigger held[id]} :: id in held && id in reqs ==> HeldOk(cfg, reqs[id].prompt, held[id])
  }

  ghost predicate AllocInv(slots: seq<Option<nat>>, execSlots: set<nat>) {
    && (forall b :: 0 <= b < |slots| && slots[b].Some? ==> b in execSlots)
    && (forall a :: a in execSlots ==> a < |slots|)
  }

  /** With no active request the executor holds no slot. */
  ghost predicate NoLeak(s: State) { Idle(s.slots) ==> s.execSlots == {} }

  ghost predicate InvAt(cfg: Config, s: State, cur: nat) {
    && cfg.tpp > 0
    && IdsInv(s)
    && TokensInv(cfg, s.reqs, First(s), cur)
    && RefsInv(cfg.hash, s.tree, s.held)
    && HeldInv(cfg, s.reqs, s.held)
    && AllocInv(s.slots, s.execSlots)
  }

  ghost predicate Inv(cfg: Config, s: State) { InvAt(cfg, s, 0) && NoLeak(s) }

  lemma InitInv(cfg: Config, maxBatch: nat)
    requires cfg.tpp > 0
    ensures Inv(cfg, Init(maxBatch))
  {
  }

  /* ---------- Each part keeps the invariant ---------- */

  lemma AddIds(cfg: Config, s: State, prompt: seq<int>, maxNew: int, eos: int)
    requires IdsInv(s)
    ensures IdsInv(Add(cfg, s, prompt, maxNew, eos)) && First(Add(cfg, s, prompt, maxNew, eos)) == First(s)
    ensures s.nextId !in s.reqs && s.nextId !in s.held
  {
  }

  lemma AddKeeps(cfg: Config, s: State, prompt: seq<int>, maxNew: int, eos: int)
    requires Inv(cfg, s)
    ensures Inv(cfg, Add(cfg, s, prompt, maxNew, eos))
  {
    hide IdsInv, RefsInv, TokensOk, Wf, BagOf;
    var r := Add(cfg, s, prompt, maxNew, eos);
    AddIds(cfg, s, prompt, maxNew, eos);
    HoldNothing(cfg, s.tree, s.held, s.nextId);
    assert First(s) <= s.nextId;
    assert HeldOk(cfg, prompt, []);
  }

  /** A request that holds nothing adds nothing to the counts. */
  lemma HoldNothing(cfg: Config, tree: Tree, held: map<nat, seq<Path>>, id: nat)
    requires RefsInv(cfg.hash, tree, held) && id !in held
    ensures RefsInv(cfg.hash, tree, held[id := []])
  {
    BagUpdate(held, id, []);
  }

  lemma TakeSlotIds(s: State)
    requires IdsInv(s) && CanAdmit(s)
    ensures IdsInv(TakeSlot(s)) && First(TakeSlot(s)) == First(s) + 1 == s.pending[0] + 1
  {
    hide RestInv, SlotsInv;
    var r := TakeSlot(s);
    assert s.pending[0] == First(s) + 0;
    assert First(r) == First(s) + 1;
    forall i | 0 <= i < |r.pending| ensures r.pending[i] == First(r) + i { assert r.pending[i] == s.pending[i + 1]; }
    PendingFresh(s);
    TakeSlotSlots(s);
    TakeSlotRest(s);
  }

  lemma TakeSlotSlots(s: State)
    requires SlotsInv(s) && CanAdmit(s) && s.pending[0] == First(s) >= 1 && s.reqs[s.pending[0]].reason == Running
    ensures SlotsInv(TakeSlot(s))
  {
    hide RestInv, QueueInv;
    assert First(TakeSlot(s)) == First(s) + 1;
  }

  lemma TakeSlotRest(s: State)
    requires RestInv(s) && CanAdmit(s) && s.pending[0] == First(s)
    ensures RestInv(TakeSlot(s))
  {
    hide QueueInv;
    assert First(TakeSlot(s)) == First(s) + 1;
  }

  lemma TakeSlotKeeps(cfg: Config, s: State)
    requires InvAt(cfg, s, 0) && CanAdmit(s)
    ensures InvAt(cfg, TakeSlot(s), s.pending[0])
  {
    hide IdsInv, RefsInv, TokensOk, HeldOk;
    TakeSlotIds(s);
    PendingFresh(s);
  }

  lemma PendingFresh(s: State)
    requires IdsInv(s) && s.pending != []
    ensures s.pending[0] == First(s) >= 1 && s.pending[0] in s.reqs && s.pending[0] in s.held && 0 !in s.reqs
    ensures s.reqs[s.pending[0]].generated == [] && s.reqs[s.pending[0]].reason == Running && s.held[s.pending[0]] == []
  {
    assert s.pending[0] == First(s) + 0;
  }

  /* Reference counts under the tree operations. */

  lemma RefsSameButTicks(hash: Chunk -> int, tree: Tree, r: Tree, held: map<nat, seq<Path>>)
    requires RefsInv(hash, tree, held) && SameButTicks(tree, r) && Wf(r, hash)
    ensures RefsInv(hash, r, held)
  {
    hide Wf, BagOf;
    forall p | p in r.entries ensures r.entries[p].refs == BagOf(held)[p] {
      assert r.entries[p].(tick := 0) == tree.entries[p].(tick := 0);
    }
  }

  lemma RefsGrows(hash: Chunk -> int, tree: Tree, r: Tree, held: map<nat, seq<Path>>)
    requires RefsInv(hash, tree, held) && Grows(tree, r) && Wf(r, hash)
    ensures RefsInv(hash, r, held)
  {
    hide Wf, BagOf;
    forall p | p in r.entries ensures r.entries[p].refs == BagOf(held)[p] {
      if p in tree.entries {
        assert r.entries[p].(tick := 0) == tree.entries[p].(tick := 0);
      }
    }
  }

  lemma RefsTrimmed(hash: Chunk -> int, tree: Tree, r: Tree, held: map<nat, seq<Path>>)
    requires RefsInv(hash, tree, held) && Trimmed(tree, r) && Wf(r, hash)
    ensures RefsInv(hash, r, held)
  {
    hide Wf, BagOf;
    forall p | p in BagOf(held) ensures p in r.entries {
      assert Needed(tree, p);
    }
  }

  lemma HoldMore(hash: Chunk -> int, tree: Tree, held: map<nat, seq<Path>>, id: nat, ps: seq<Path>)
    requires RefsInv(hash, tree, held) && id in held && held[id] == []
    requires forall i :: 0 <= i < |ps| ==> ps[i] in tree.entries
    ensures RefsInv(hash, RetainAll(tree, ps), held[id := ps])
  {
    hide Wf, BagOf, RetainAll;
    RetainAllCounts(tree, hash, ps);
    BagUpdate(held, id, ps);
    assert forall p :: p in multiset(ps) ==> p in ps;
  }

  lemma HoldLess(hash: Chunk -> int, tree: Tree, held: map<nat, seq<Path>>, id: nat)
    requires RefsInv(hash, tree, held) && id in held
    ensures RefsInv(hash, ReleaseAll(tree, held[id]), held[id := []])
  {
    hide Wf, BagOf, ReleaseAll;
    var ps := held[id];
    BagUpdate(held, id, []);
    assert forall p :: multiset(ps)[p] <= BagOf(held)[p];
    forall i | 0 <= i < |ps| ensures ps[i] in tree.entries {
      assert ps[i] in multiset(ps);
    }
    ReleaseAllCounts(tree, hash, ps);
  }

  /* Prefill. */

  lemma MatchedStored(hash: Chunk -> int, tree: Tree, pages: seq<Chunk>)
    requires Wf(tree, hash)
    ensures var (k, t) := Match(tree, pages);
      && Wf(t, hash) && SameButTicks(tree, t)
      && forall i :: 0 <= i < k ==> PrefixesTo(pages, k)[i] in t.entries
  {
    hide MatchFrom;
    var (k, t) := Match(tree, pages);
    MatchFromKeeps(tree, hash, pages, 0);
    forall i | 0 <= i < k ensures PrefixesTo(pages, k)[i] in t.entries {
      MatchIsLongest(tree, pages, i + 1);
    }
  }

  /** Matching the stored prefix and retaining its nodes. */
  lemma MatchRefs(cfg: Config, tree: Tree, held: map<nat, seq<Path>>, id: nat, pages: seq<Chunk>)
    requires RefsInv(cfg.hash, tree, held) && id in held && held[id] == []
    ensures var (k, t) := Match(tree, pages);
      && RefsInv(cfg.hash, t, held)
      && RefsInv(cfg.hash, RetainAll(t, PrefixesTo(pages, k)), held[id := PrefixesTo(pages, k)])
      && SameButTicks(tree, t)
      && (k > 0 ==> Prefix(pages, k) in RetainAll(t, PrefixesTo(pages, k)).entries)
  {
    hide BagOf, RetainAll, Wf, RefsInv, SameButTicks, MatchFrom, Match;
    var (k, t) := Match(tree, pages);
    RefsWf(cfg.hash, tree, held);
    MatchedStored(cfg.hash, tree, pages);
    RefsSameButTicks(cfg.hash, tree, t, held);
    var ps := PrefixesTo(pages, k);
    HoldMore(cfg.hash, t, held, id, ps);
    RetainAllCounts(t, cfg.hash, ps);
    if k > 0 { assert ps[k - 1] in t.entries; }
  }

  lemma MatchKeeps(cfg: Config, s: State, id: nat)
    requires InvAt(cfg, s, id) && id in s.reqs && id in s.held && id < First(s) && s.held[id] == []
    ensures InvAt(cfg, MatchPrompt(cfg, s, id).1, id)
    ensures var (k, r) := MatchPrompt(cfg, s, id);
      && First(r) == First(s) && r.slots == s.slots && r.execSlots == s.execSlots && r.caching == s.caching
      && r.reqs[id].prompt == s.reqs[id].prompt
      && k <= |Pages(s.reqs[id].prompt, cfg.tpp)|
      && (k == 0 || Prefix(Pages(s.reqs[id].prompt, cfg.tpp), k) in r.tree.entries)
  {
    hide IdsInv, RefsInv, TokensOk, Match, RetainAll, Pages, Times;
    assert s.reqs[id].generated == [] && s.reqs[id].reason == Running;
    MatchIds(cfg, s, id);
    if s.caching {
      MatchRefs(cfg, s.tree, s.held, id, Pages(s.reqs[id].prompt, cfg.tpp));
    }
  }

  lemma MatchIds(cfg: Config, s: State, id: nat)
    requires cfg.tpp > 0 && IdsInv(s) && id in s.reqs && id in s.held && id < First(s) && s.reqs[id].reason == Running
    ensures IdsInv(MatchPrompt(cfg, s, id).1)
  {
    hide Match, RetainAll, PrefixesTo, Pages, Times, SlotsInv;
    MatchSlots(cfg, s, id);
  }

  lemma MatchSlots(cfg: Config, s: State, id: nat)
    requires cfg.tpp > 0 && SlotsInv(s) && id in s.reqs && id in s.held
    ensures SlotsInv(MatchPrompt(cfg, s, id).1)
  {
    hide Match, RetainAll, PrefixesTo, Pages, Times;
    assert First(MatchPrompt(cfg, s, id).1) == First(s);
  }

  lemma RegisterKeeps(cfg: Config, s: State, id: nat, k: nat, cur: nat)
    requires InvAt(cfg, s, cur) && id in s.reqs
    ensures InvAt(cfg, Register(cfg, s, id, k), cur)
    ensures var r := Register(cfg, s, id, k); r == s.(tree := r.tree) && Grows(s.tree, r.tree)
  {
    hide RefsInv, TokensInv, HeldInv, AllocInv, Wf, Insert, Pages;
    var pages := Pages(s.reqs[id].prompt, cfg.tpp);
    if s.caching && |pages| > k {
      var ks, vs := HandlesFrom(cfg.pageK, id, k, |pages|), HandlesFrom(cfg.pageV, id, k, |pages|);
      RefsWf(cfg.hash, s.tree, s.held);
      InsertKeeps(s.tree, cfg.hash, pages, k, ks, vs);
      RefsGrows(cfg.hash, s.tree, Insert(s.tree, cfg.hash, pages, k, ks, vs), s.held);
    }
  }

  lemma RefsWf(hash: Chunk -> int, tree: Tree, held: map<nat, seq<Path>>)
    requires RefsInv(hash, tree, held)
    ensures Wf(tree, hash)
  {
  }

  lemma PrefillKeeps(cfg: Config, s: State)
    requires InvAt(cfg, s, 0) && CanAdmit(s)
    ensures InvAt(cfg, Prefill(cfg, s), s.pending[0])
    ensures var r := Prefill(cfg, s); var id := s.pending[0]; var b := FirstFree(s.slots, 0);
      && First(r) == First(s) + 1 == id + 1
      && r.slots == s.slots[b := Some(id)] && r.execSlots == s.execSlots + {b}
      && r.reqs[id].prompt == s.reqs[id].prompt
  {
    hide IdsInv, RefsInv, TokensInv, HeldInv, AllocInv, MatchPrompt, Register;
    var id := s.pending[0];
    PendingFresh(s);
    TakeSlotIds(s);
    TakeSlotKeeps(cfg, s);
    MatchKeeps(cfg, TakeSlot(s), id);
    var (k, s1) := MatchPrompt(cfg, TakeSlot(s), id);
    RegisterKeeps(cfg, s1, id, k, id);
  }

  /* Sampling a token. */

  /** id sits in slot b and is owed another token (its first, if it is being prefilled). */
  ghost predicate Due(cfg: Config, s: State, b: nat, id: nat, cur: nat) {
    && b < |s.slots| && s.slots[b] == Some(id)
    && id in s.reqs && id in s.held && id < First(s)
    && (cur == 0 || cur == id)
  }

  lemma EmitIds(cfg: Config, s: State, b: nat, id: nat, newPos: int)
    requires IdsInv(s) && b < |s.slots| && s.slots[b] == Some(id) && id in s.reqs && id in s.held
    ensures IdsInv(Emit(cfg, s, b, id, newPos).0) && First(Emit(cfg, s, b, id, newPos).0) == First(s)
  {
    hide Emit, QueueInv, SlotsInv, RestInv;
    SlotId(s, b);
    EmitQueue(cfg, s, b, id, newPos);
    EmitSlots(cfg, s, b, id, newPos);
    EmitRest(cfg, s, b, id, newPos);
  }

  lemma EmitQueue(cfg: Config, s: State, b: nat, id: nat, newPos: int)
    requires QueueInv(s) && b < |s.slots| && id in s.reqs && id in s.held
    ensures QueueInv(Emit(cfg, s, b, id, newPos).0) && First(Emit(cfg, s, b, id, newPos).0) == First(s)
  {
    hide ReleaseAll;
  }

  lemma EmitRest(cfg: Config, s: State, b: nat, id: nat, newPos: int)
    requires RestInv(s) && b < |s.slots| && id in s.reqs && id in s.held && id < First(s) && s.reqs[id].reason == Running
    ensures RestInv(Emit(cfg, s, b, id, newPos).0)
  {
    hide ReleaseAll;
    assert First(Emit(cfg, s, b, id, newPos).0) == First(s);
  }

  lemma SlotId(s: State, b: nat)
    requires SlotsInv(s) && b < |s.slots| && s.slots[b].Some?
    ensures s.slots[b].value in s.reqs && s.slots[b].value < First(s)
    ensures s.reqs[s.slots[b].value].reason == Running && s.reqs[s.slots[b].value].slotId == b
  {
  }

  lemma EmitSlots(cfg: Config, s: State, b: nat, id: nat, newPos: int)
    requires SlotsInv(s) && b < |s.slots| && s.slots[b] == Some(id) && id in s.reqs && id in s.held
    ensures SlotsInv(Emit(cfg, s, b, id, newPos).0)
  {
    hide ReleaseAll;
    SlotId(s, b);
    assert First(Emit(cfg, s, b, id, newPos).0) == First(s);
  }

  lemma EmitToken(cfg: Config, id: nat, q: Request, newPos: int)
    requires q.reason == Running
    requires q.generated == [] || TokensOk(cfg, id, q)
    requires newPos == |q.prompt| + |q.generated|
    ensures var token := cfg.sample(id, |q.generated|);
      var q1 := q.(generated := q.generated + [token], currentPos := newPos);
      TokensOk(cfg, id, if IsEos(q, token) || |q1.generated| >= q.maxNew
                        then q1.(reason := if IsEos(q, token) then Stop else Length) else q1)
  {
  }

  lemma EmitKeeps(cfg: Config, s: State, b: nat, id: nat, newPos: int, cur: nat)
    requires InvAt(cfg, s, cur) && Due(cfg, s, b, id, cur)
    requires newPos == |s.reqs[id].prompt| + |s.reqs[id].generated|
    ensures InvAt(cfg, Emit(cfg, s, b, id, newPos).0, 0)
  {
    hide IdsInv, RefsInv, HeldOk, TokensOk, ReleaseAll;
    SlotRunning(s, b);
    EmitIds(cfg, s, b, id, newPos);
    EmitToken(cfg, id, s.reqs[id], newPos);
    HoldLess(cfg.hash, s.tree, s.held, id);
    assert HeldOk(cfg, s.reqs[id].prompt, []) by { HeldNothing(cfg, s.reqs[id].prompt); }
    EmitAlloc(cfg, s, b, id, newPos);
  }

  lemma HeldNothing(cfg: Config, prompt: seq<int>)
    requires cfg.tpp > 0
    ensures HeldOk(cfg, prompt, [])
  {
  }

  lemma SlotRunning(s: State, b: nat)
    requires IdsInv(s) && b < |s.slots| && s.slots[b].Some?
    ensures var id := s.slots[b].value;
      id >= 1 && id in s.reqs && id in s.held && id < First(s) && s.reqs[id].reason == Running && s.reqs[id].slotId == b
    ensures 0 !in s.reqs
  {
  }

  lemma EmitAlloc(cfg: Config, s: State, b: nat, id: nat, newPos: int)
    requires AllocInv(s.slots, s.execSlots) && b < |s.slots| && id in s.reqs && id in s.held
    ensures AllocInv(Emit(cfg, s, b, id, newPos).0.slots, Emit(cfg, s, b, id, newPos).0.execSlots)
  {
    hide ReleaseAll;
  }

  /* Whole steps. */

  lemma AdmitOneKeeps(cfg: Config, s: State)
    requires Inv(cfg, s) && CanAdmit(s)
    ensures Inv(cfg, AdmitOne(cfg, s).0)
  {
    hide InvAt, Emit, Prefill;
    var id, b := s.pending[0], FirstFree(s.slots, 0);
    InvParts(cfg, s, 0);
    PendingFresh(s);
    PrefillKeeps(cfg, s);
    var s1 := Prefill(cfg, s);
    PrefillDue(cfg, s);
    EmitKeeps(cfg, s1, b, id, |s.reqs[id].prompt|, id);
    EmitNoLeak(cfg, s, s1, b, id, |s.reqs[id].prompt|);
  }

  lemma InvParts(cfg: Config, s: State, cur: nat)
    requires InvAt(cfg, s, cur)
    ensures cfg.tpp > 0 && IdsInv(s) && RefsInv(cfg.hash, s.tree, s.held)
    ensures TokensInv(cfg, s.reqs, First(s), cur) && HeldInv(cfg, s.reqs, s.held) && AllocInv(s.slots, s.execSlots)
  {
  }

  lemma PrefillDue(cfg: Config, s: State)
    requires InvAt(cfg, s, 0) && CanAdmit(s)
    ensures Due(cfg, Prefill(cfg, s), FirstFree(s.slots, 0), s.pending[0], s.pending[0])
    ensures Prefill(cfg, s).reqs[s.pending[0]].generated == []
  {
    hide IdsInv, RefsInv, HeldInv, AllocInv, Prefill, TokensOk;
    PrefillKeeps(cfg, s);
  }

  /** If no slot was occupied before, the one just taken is the only one allocated. */
  lemma EmitNoLeak(cfg: Config, s: State, s1: State, b: nat, id: nat, newPos: int)
    requires NoLeak(s) && b < |s.slots| && s.slots[b].None? && id in s1.reqs && id in s1.held
    requires s1.slots == s.slots[b := Some(id)] && s1.execSlots == s.execSlots + {b}
    ensures NoLeak(Emit(cfg, s1, b, id, newPos).0)
  {
    hide ReleaseAll;
    var r := Emit(cfg, s1, b, id, newPos).0;
    if Idle(r.slots) {
      assert r.slots[b].None?;
      assert Idle(s.slots) by {
        forall c | 0 <= c < |s.slots| ensures s.slots[c].None? {
          assert r.slots[c].None?;
        }
      }
      assert r.execSlots == {};
    }
  }

  lemma {:induction false} AdmitAllKeeps(cfg: Config, s: State)
    requires Inv(cfg, s)
    ensures Inv(cfg, AdmitAll(cfg, s).0)
    decreases |s.pending|
  {
    hide InvAt, NoLeak, AdmitOne, CanAdmit;
    InvParts(cfg, s, 0);
    if CanAdmit(s) {
      AdmitOneKeeps(cfg, s);
      AdmitAllKeeps(cfg, AdmitOne(cfg, s).0);
    }
  }

  lemma ServedIff(s: State, b: nat)
    requires IdsInv(s)
    ensures Served(s, b) <==> b < |s.slots| && s.slots[b].Some?
  {
    if b < |s.slots| && s.slots[b].Some? { SlotRunning(s, b); }
  }

  lemma ServedKeeps(cfg: Config, s: State, b: nat)
    requires InvAt(cfg, s, 0) && Served(s, b)
    ensures var id := s.slots[b].value;
      && Due(cfg, s, b, id, 0) && id >= 1
      && TokensOk(cfg, id, s.reqs[id]) && s.reqs[id].reason == Running
      && s.reqs[id].currentPos + 1 == |s.reqs[id].prompt| + |s.reqs[id].generated|
      && InvAt(cfg, Emit(cfg, s, b, id, s.reqs[id].currentPos + 1).0, 0)
  {
    hide InvAt, RefsInv, HeldInv, AllocInv, Emit, IdsInv;
    InvParts(cfg, s, 0);
    SlotRunning(s, b);
    var id := s.slots[b].value;
    assert TokensOk(cfg, id, s.reqs[id]);
    EmitKeeps(cfg, s, b, id, s.reqs[id].currentPos + 1, 0);
  }

  lemma {:induction false} DecodeKeeps(cfg: Config, s: State, b: nat, n: nat)
    requires InvAt(cfg, s, 0) && b <= n <= |s.slots|
    ensures InvAt(cfg, DecodeFrom(cfg, s, b, n).0, 0)
    decreases n - b
  {
    hide InvAt, Emit, Due, TokensOk;
    if b < n {
      if Served(s, b) {
        var id := s.slots[b].value;
        ServedKeeps(cfg, s, b);
        DecodeKeeps(cfg, Emit(cfg, s, b, id, s.reqs[id].currentPos + 1).0, b + 1, n);
      } else {
        DecodeKeeps(cfg, s, b + 1, n);
      }
    }
  }

  lemma PadKeeps(cfg: Config, s: State, n: nat)
    requires InvAt(cfg, s, 0) && n <= |s.slots|
    ensures InvAt(cfg, Pad(s, n), 0)
  {
    hide RefsInv, HeldInv, TokensInv;
  }

  lemma FreeIfIdleKeeps(cfg: Config, s: State)
    requires InvAt(cfg, s, 0)
    ensures Inv(cfg, FreeIfIdle(s))
  {
    hide RefsInv, HeldInv, TokensInv;
  }

  /** Every step keeps the invariant, whatever the sampler returns. */
  lemma StepKeeps(cfg: Config, s: State)
    requires Inv(cfg, s)
    ensures Inv(cfg, Step(cfg, s).0)
  {
    hide InvAt, NoLeak, AdmitAll, CanAdmit, DecodeFrom, Pad, FreeIfIdle, Bucket;
    InvParts(cfg, s, 0);
    if CanAdmit(s) {
      AdmitAllKeeps(cfg, s);
    } else if !Idle(s.slots) {
      PadKeeps(cfg, s, Bucket(s));
      assert |Pad(s, Bucket(s)).slots| == |s.slots| by { PadSlots(s, Bucket(s)); }
      DecodeKeeps(cfg, Pad(s, Bucket(s)), 0, Bucket(s));
      FreeIfIdleKeeps(cfg, DecodeFrom(cfg, Pad(s, Bucket(s)), 0, Bucket(s)).0);
    }
  }

  lemma PadSlots(s: State, n: nat)
    ensures Pad(s, n).slots == s.slots
  {
  }

  /** An eviction from outside, under any budget, keeps the invariant: what active requests hold stays. */
  lemma EvictKeeps(cfg: Config, s: State, budget: nat)
    requires Inv(cfg, s)
    ensures Inv(cfg, s.(tree := Evict(s.tree, budget)))
    ensures forall id, i :: id in s.held && 0 <= i < |s.held[id]| ==> s.held[id][i] in Evict(s.tree, budget).entries
  {
    hide Wf, Evict, HeldOk, TokensOk, Trimmed;
    var r := s.(tree := Evict(s.tree, budget));
    assert First(r) == First(s);
    EvictSafe(s.tree, budget);
    EvictWf(s.tree, cfg.hash, budget);
    RefsTrimmed(cfg.hash, s.tree, r.tree, s.held);
    forall id, i | id in s.held && 0 <= i < |s.held[id]| ensures s.held[id][i] in r.tree.entries {
      BagMember(s.held, s.held[id][i]);
    }
  }
}
