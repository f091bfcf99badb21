/**
 The continuous batching scheduler as the program runs it: fields updated in place, over a shared radix tree.

 S() is the scheduler's value. Every method is proved to take S() where SchedulerModel says, so what is
 proved about that state machine holds of these methods.
 */
module Scheduler {
  import opened Arith
  import opened Options
  import opened RadixModel
  import opened RadixTree
  import opened SchedulerModel
  import opened SchedulerRuns

  /** The nodes kept for each request are the linked nodes of the paths it holds. */
  ghost predicate HeldLinked(held: map<nat, seq<Path>>, matched: map<nat, seq<RadixNode>>, nodes: map<Path, RadixNode>) {
    forall id {:trigger held[id]} :: id in held ==> id in matched && NodesAt(held[id], matched[id], nodes)
  }

  ghost predicate NodesAt(ps: seq<Path>, ns: seq<RadixNode>, nodes: map<Path, RadixNode>) {
    && |ps| == |ns|
    && forall i :: 0 <= i < |ps| ==> ps[i].Ext? && ps[i] in nodes && nodes[ps[i]] == ns[i]
  }

  lemma HeldLinkedGrows(held: map<nat, seq<Path>>, matched: map<nat, seq<RadixNode>>,
                        a: map<Path, RadixNode>, b: map<Path, RadixNode>)
    requires HeldLinked(held, matched, a) && Extends(a, b)
    ensures HeldLinked(held, matched, b)
  {
    forall id | id in held ensures NodesAt(held[id], matched[id], b) { assert NodesAt(held[id], matched[id], a); }
  }

  lemma HeldLinkedUpdate(held: map<nat, seq<Path>>, matched: map<nat, seq<RadixNode>>, nodes: map<Path, RadixNode>,
                         id: nat, ps: seq<Path>, ns: seq<RadixNode>)
    requires HeldLinked(held, matched, nodes) && NodesAt(ps, ns, nodes)
    ensures HeldLinked(held[id := ps], matched[id := ns], nodes)
  {
  }

  lemma JoinAssociative(a: Output, b: Output, c: Output)
    ensures Join(Join(a, b), c) == Join(a, Join(b, c))
  {
    assert a.newTokens + b.newTokens + c.newTokens == a.newTokens + (b.newTokens + c.newTokens);
    assert a.completed + b.completed + c.completed == a.completed + (b.completed + c.completed);
  }

  lemma InvIds(cfg: Config, s: State)
    requires Inv(cfg, s)
    ensures IdsInv(s) && InvAt(cfg, s, 0) && cfg.tpp > 0
  {
  }

  lemma InvWf(cfg: Config, s: State)
    requires Inv(cfg, s)
    ensures Wf(s.tree, cfg.hash)
  {
  }

  /** Nodes may go, as long as none that is held does. */
  lemma HeldLinkedStays(held: map<nat, seq<Path>>, matched: map<nat, seq<RadixNode>>,
                        a: map<Path, RadixNode>, b: map<Path, RadixNode>)
    requires HeldLinked(held, matched, a) && Extends(b, a)
    requires forall id, i :: id in held && 0 <= i < |held[id]| ==> held[id][i] in b
    ensures HeldLinked(held, matched, b)
  {
    forall id | id in held ensures NodesAt(held[id], matched[id], b) { assert NodesAt(held[id], matched[id], a); }
  }

  /** The prompt is not changed by the prefill. */
  lemma PrefillPrompt(cfg: Config, s: State)
    requires cfg.tpp > 0 && CanAdmit(s)
    ensures Prefill(cfg, s).reqs[s.pending[0]].prompt == s.reqs[s.pending[0]].prompt
  {
    hide Prefill;
    PrefillSame(cfg, s);
    var id := s.pending[0];
    assert Prefill(cfg, s).reqs[id].(slotId := 0, prefixMatched := 0) == s.reqs[id].(slotId := 0, prefixMatched := 0);
  }

  lemma AtIds(cfg: Config, s: State)
    requires InvAt(cfg, s, 0)
    ensures IdsInv(s)
  {
  }

  lemma RetainAllStart(t: Tree, ps: seq<Path>)
    ensures RetainAll(t, ps[..0]) == t
  {
  }

  lemma ReleaseAllStart(t: Tree, ps: seq<Path>)
    ensures ReleaseAll(t, ps[..0]) == t
  {
  }

  lemma RetainAllStep(t: Tree, ps: seq<Path>, i: nat)
    requires i < |ps|
    ensures RetainAll(t, ps[..i + 1]) ==
            var t1 := RetainAll(t, ps[..i]); if ps[i] in t1.entries then Retain(t1, ps[i]) else t1
  {
    assert ps[..i + 1][..i] == ps[..i];
  }

  lemma ReleaseAllStep(t: Tree, ps: seq<Path>, i: nat)
    requires i < |ps|
    ensures ReleaseAll(t, ps[..i + 1]) ==
            var t1 := ReleaseAll(t, ps[..i]); if ps[i] in t1.entries then Release(t1, ps[i]) else t1
  {
    assert ps[..i + 1][..i] == ps[..i];
  }

  class ContinuousBatchScheduler {
    const cfg: Config
    const tree: PagedRadixTree
    var nextId: nat
    var pending: seq<nat>
    var slots: seq<Option<nat>>
    var reqs: map<nat, Request>
    var matchedNodes: map<nat, seq<RadixNode>>
    ghost var held: map<nat, seq<Path>>
    var hits: nat
    var saved: nat
    var execSlots: set<nat>
    var caching: bool
    var buckets: bool

    ghost function S(): State
      reads this, tree
    {
      State(nextId, pending, slots, reqs, held, tree.contents, hits, saved, execSlots, caching, buckets)
    }

    /** The objects fit together. */
    ghost predicate Linked()
      reads this, tree, tree.nodes.Values
    {
      && tree.Valid() && tree.tokensPerPage == cfg.tpp && tree.hash == cfg.hash
      && HeldLinked(held, matchedNodes, tree.nodes)
    }

    ghost predicate Valid()
      reads this, tree, tree.nodes.Values
    {
      Linked() && Inv(cfg, S())
    }

    constructor (defaultEos: int, maxBatch: nat, tokensPerPage: nat, hash: Chunk -> int, sample: (nat, nat) -> int,
                 pageK: (nat, nat) -> Handles, pageV: (nat, nat) -> Handles)
      ensures Valid() && fresh(tree) && fresh(tree.nodes.Values)
      ensures cfg == Config(defaultEos, if tokensPerPage > 0 then tokensPerPage else 1024, hash, sample, pageK, pageV)
      ensures S() == Init(maxBatch)
    {
      cfg := Config(defaultEos, if tokensPerPage > 0 then tokensPerPage else 1024, hash, sample, pageK, pageV);
      tree := new PagedRadixTree(tokensPerPage, hash);
      nextId := 1;
      pending := [];
      slots := seq(maxBatch, i => None);
      reqs := map[];
      matchedNodes := map[];
      held := map[];
      hits, saved := 0, 0;
      execSlots := {};
      caching := true;
      buckets := false;
      new;
      InitInv(cfg, maxBatch);
    }

    method AddRequest(prompt: seq<int>, maxNew: int, eos: int) returns (id: nat)
      requires Valid()
      modifies this
      ensures Valid()
      ensures S() == Add(cfg, old(S()), prompt, maxNew, eos) && id == old(nextId)
    {
      hide Inv, HeldLinked, PagedRadixTree.Valid;
      AddKeeps(cfg, S(), prompt, maxNew, eos);
      id := nextId;
      nextId := nextId + 1;
      var req := Request(prompt, [], -1, 0, maxNew, if eos >= 0 then eos else cfg.defaultEos, Running, 0);
      pending := pending + [id];
      reqs := reqs[id := req];
      matchedNodes := matchedNodes[id := []];
      held := held[id := []];
      HeldLinkedUpdate(old(held), old(matchedNodes), tree.nodes, id, [], []);
    }

    method HasWork() returns (b: bool)
      ensures b <==> SchedulerModel.HasWork(S())
    {
      if |pending| > 0 {
        return true;
      }
      for i := 0 to |slots|
        invariant forall j :: 0 <= j < i ==> slots[j].None?
      {
        if slots[i].Some? {
          return true;
        }
      }
      return false;
    }

    method ActiveCount() returns (n: nat)
      ensures n == |set b | 0 <= b < |slots| && slots[b].Some?|
      ensures n == 0 <==> Idle(slots)
    {
      n := 0;
      ghost var seen := {};
      for i := 0 to |slots|
        invariant seen == set b | 0 <= b < i && slots[b].Some?
        invariant n == |seen|
        invariant n == 0 <==> forall b :: 0 <= b < i ==> slots[b].None?
      {
        if slots[i].Some? {
          n := n + 1;
          seen := seen + {i};
        }
      }
    }

    method FindAvailableSlot() returns (i: int)
      ensures i == if FirstFree(slots, 0) < |slots| then FirstFree(slots, 0) else -1
    {
      i := 0;
      while i < |slots|
        invariant 0 <= i <= |slots| && FirstFree(slots, 0) == FirstFree(slots, i)
      {
        if slots[i].None? {
          return;
        }
        i := i + 1;
      }
      return -1;
    }

    method SelectBatchBucket(maxSlot: nat) returns (n: nat)
      ensures n == SelectBucket(buckets, maxSlot)
      ensures !buckets ==> n == maxSlot + 1
      ensures buckets && maxSlot < 16 ==> n in {1, 2, 4, 8, 16} && maxSlot < n && (n == 1 || n <= 2 * maxSlot)
      ensures buckets && maxSlot >= 16 ==> n == 16
    {
      if !buckets {
        return maxSlot + 1;
      }
      var sizes := [1, 2, 4, 8, 16];
      for i := 0 to |sizes|
        invariant i > 0 ==> sizes[i - 1] <= maxSlot
      {
        if sizes[i] > maxSlot {
          return sizes[i];
        }
      }
      return sizes[|sizes| - 1];
    }

    /** The highest occupied slot, or -1. */
    method HighestSlot() returns (top: int)
      ensures top == TopSlot(slots) - 1
    {
      top := -1;
      for i := 0 to |slots|
        invariant top == TopSlot(slots[..i]) - 1
      {
        assert slots[..i + 1][..i] == slots[..i];
        if slots[i].Some? {
          top := i;
        }
      }
      assert slots[..|slots|] == slots;
    }

    /** The nodes at stored paths are stored ones. */
    lemma NodeStored(ps: seq<Path>, ns: seq<RadixNode>, i: nat)
      requires tree.Valid() && NodesAt(ps, ns, tree.nodes) && i < |ps|
      ensures tree.Stored(ns[i]) && ns[i].path == ps[i] && ps[i] in tree.contents.entries
    {
    }

    method ReleaseNodes(ghost ps: seq<Path>, ns: seq<RadixNode>)
      requires Linked() && NodesAt(ps, ns, tree.nodes)
      modifies tree`contents, tree.nodes.Values`refCount
      ensures Linked() && tree.nodes == old(tree.nodes)
      ensures tree.contents == ReleaseAll(old(tree.contents), ps)
    {
      hide ReleaseAll, Release, PagedRadixTree.Valid;
      assert ps[..|ps|] == ps;
      ReleaseAllStart(tree.contents, ps);
      for i := 0 to |ns|
        invariant Linked() && tree.nodes == old(tree.nodes)
        invariant tree.contents == ReleaseAll(old(tree.contents), ps[..i])
      {
        ReleaseAllStep(old(tree.contents), ps, i);
        NodeStored(ps, ns, i);
        tree.ReleaseNode(ns[i]);
      }
    }

    /** Drops the request's hold on the radix nodes it matched. */
    method ReleaseMatched(id: nat)
      requires Linked() && id in held
      modifies this`matchedNodes, this`held, tree`contents, tree.nodes.Values`refCount
      ensures Linked() && tree.nodes == old(tree.nodes)
      ensures held == old(held)[id := []] && tree.contents == ReleaseAll(old(tree.contents), old(held[id]))
    {
      hide ReleaseAll, PagedRadixTree.Valid;
      assert NodesAt(held[id], matchedNodes[id], tree.nodes);
      ReleaseNodes(held[id], matchedNodes[id]);
      matchedNodes := matchedNodes[id := []];
      held := held[id := []];
    }

    /** Releases what the request holds and frees its slot. */
    method Vacate(b: nat, id: nat)
      requires Linked() && b < |slots| && id in held
      modifies this`matchedNodes, this`held, this`execSlots, this`slots, tree`contents, tree.nodes.Values`refCount
      ensures Linked() && tree.nodes == old(tree.nodes)
      ensures S() == old(S()).(held := old(held)[id := []], tree := ReleaseAll(old(tree.contents), old(held[id])),
                               execSlots := old(execSlots) - {b}, slots := old(slots)[b := None])
    {
      hide HeldLinked, ReleaseAll, PagedRadixTree.Valid;
      ReleaseMatched(id);
      execSlots := execSlots - {b};
      slots := slots[b := None];
    }

    /** Appends a sampled token to the request in slot b and completes the request if it is done. */
    method PushToken(b: nat, id: nat, newPos: int) returns (o: Output)
      requires Linked() && b < |slots| && id in reqs && id in held
      modifies this, tree`contents, tree.nodes.Values`refCount
      ensures Linked() && tree.nodes == old(tree.nodes)
      ensures (S(), o) == Emit(cfg, old(S()), b, id, newPos)
    {
      hide HeldLinked, ReleaseAll, PagedRadixTree.Valid;
      var req := reqs[id];
      var token := cfg.sample(id, |req.generated|);
      req := req.(generated := req.generated + [token], currentPos := newPos);
      o := Output([(id, token)], []);
      var hitEos := req.eos >= 0 && token == req.eos;
      var hitMax := |req.generated| >= req.maxNew;
      if hitEos || hitMax {
        req := req.(reason := if hitEos then Stop else Length);
        o := o.(completed := [id]);
        Vacate(b, id);
      }
      reqs := reqs[id := req];
    }

    /** Matches the prompt of request id and retains the nodes found; k is the number of pages matched. */
    method MatchPrompt(id: nat) returns (k: nat)
      requires Linked() && id in reqs && id in held && cfg.tpp > 0
      modifies this, tree`currentTick, tree`contents, tree.nodes.Values`lastAccessed, tree.nodes.Values`refCount
      ensures Linked() && tree.nodes == old(tree.nodes)
      ensures (k, S()) == SchedulerModel.MatchPrompt(cfg, old(S()), id)
    {
      hide HeldLinked, Pages, Match, RetainAll, Times, NodesAt, PrefixesTo, PagedRadixTree.Valid, PagedRadixTree.Collected;
      k := 0;
      if caching {
        ghost var pages := Pages(reqs[id].prompt, cfg.tpp);
        var found := tree.MatchPrefix(reqs[id].prompt);
        if found.matchedPages > 0 {
          k := found.matchedPages;
          MatchedNodesAt(pages, found);
          RetainMatched(PrefixesTo(pages, k), found.matchedNodes);
          CreditMatch(id, PrefixesTo(pages, k), found.matchedNodes, found.matchedTokens);
        }
      }
    }

    /** The request keeps the nodes it matched, and the totals count them. */
    method CreditMatch(id: nat, ghost ps: seq<Path>, ns: seq<RadixNode>, n: nat)
      requires Linked() && NodesAt(ps, ns, tree.nodes) && id in reqs
      modifies this`reqs, this`matchedNodes, this`held, this`hits, this`saved
      ensures Linked()
      ensures S() == old(S()).(reqs := old(reqs)[id := old(reqs)[id].(prefixMatched := n)], held := old(held)[id := ps],
                               hits := old(hits) + 1, saved := old(saved) + n)
    {
      hide HeldLinked, NodesAt, PagedRadixTree.Valid;
      HeldLinkedUpdate(held, matchedNodes, tree.nodes, id, ps, ns);
      reqs := reqs[id := reqs[id].(prefixMatched := n)];
      matchedNodes := matchedNodes[id := ns];
      held := held[id := ps];
      hits := hits + 1;
      saved := saved + n;
    }

    lemma MatchedNodesAt(pages: seq<Chunk>, r: PrefixMatch)
      requires tree.Collected(pages, r)
      ensures NodesAt(PrefixesTo(pages, r.matchedPages), r.matchedNodes, tree.nodes)
    {
    }

    method RetainMatched(ghost ps: seq<Path>, ns: seq<RadixNode>)
      requires Linked() && NodesAt(ps, ns, tree.nodes)
      modifies tree`currentTick, tree`contents, tree.nodes.Values`lastAccessed, tree.nodes.Values`refCount
      ensures Linked() && tree.nodes == old(tree.nodes)
      ensures tree.contents == RetainAll(old(tree.contents), ps)
    {
      hide RetainAll, Retain, PagedRadixTree.Valid;
      assert ps[..|ps|] == ps;
      RetainAllStart(tree.contents, ps);
      for i := 0 to |ns|
        invariant Linked() && tree.nodes == old(tree.nodes)
        invariant tree.contents == RetainAll(old(tree.contents), ps[..i])
      {
        RetainAllStep(old(tree.contents), ps, i);
        NodeStored(ps, ns, i);
        tree.RetainNode(ns[i]);
      }
    }

    /** The handles the executor reports for pages k to n of request id. */
    method ExtractHandles(id: nat, k: nat, n: nat) returns (ks: seq<Handles>, vs: seq<Handles>)
      requires k <= n
      ensures ks == HandlesFrom(cfg.pageK, id, k, n) && vs == HandlesFrom(cfg.pageV, id, k, n)
    {
      ks, vs := [], [];
      for p := k to n
        invariant |ks| == |vs| == p - k
        invariant forall i :: 0 <= i < p - k ==> ks[i] == cfg.pageK(id, k + i) && vs[i] == cfg.pageV(id, k + i)
      {
        ks, vs := ks + [cfg.pageK(id, p)], vs + [cfg.pageV(id, p)];
      }
    }

    /** Files the pages computed by the prefill under the prompt's prefix. */
    method Register(id: nat, k: nat)
      requires Linked() && id in reqs && cfg.tpp > 0
      modifies tree, tree.nodes.Values
      ensures Linked() && fresh(tree.nodes.Values - old(tree.nodes.Values))
      ensures S() == SchedulerModel.Register(cfg, old(S()), id, k)
    {
      if caching {
        PageCount(reqs[id].prompt, cfg.tpp);
        var totalFullPages := |reqs[id].prompt| / cfg.tpp;
        if totalFullPages > k {
          var ks, vs := ExtractHandles(id, k, totalFullPages);
          tree.InsertPrefix(reqs[id].prompt, k, ks, vs);
          HeldLinkedGrows(held, matchedNodes, old(tree.nodes), tree.nodes);
        }
      }
    }

    /** Pops the head of the queue into slot b and allocates the slot in the executor. */
    method TakeHead(b: nat) returns (id: nat)
      requires Linked() && CanAdmit(S()) && b == FirstFree(slots, 0)
      modifies this`pending, this`reqs, this`slots, this`execSlots
      ensures Linked() && S() == TakeSlot(old(S())) && id == old(pending[0])
      ensures id in reqs && id in held && reqs[id].prompt == old(reqs[id].prompt)
    {
      hide HeldLinked, PagedRadixTree.Valid, FirstFree;
      id := pending[0];
      pending := pending[1..];
      reqs := reqs[id := reqs[id].(slotId := b)];
      slots := slots[b := Some(id)];
      execSlots := execSlots + {b};
    }

    /** Moves the head of the queue into slot b, prefills it and samples its first token. */
    method AdmitHead(b: nat) returns (o: Output)
      requires Valid() && CanAdmit(S()) && b == FirstFree(slots, 0)
      modifies this, tree, tree.nodes.Values
      ensures Valid() && fresh(tree.nodes.Values - old(tree.nodes.Values))
      ensures (S(), o) == AdmitOne(cfg, old(S()))
    {
      hide Inv, HeldLinked, Emit, SchedulerModel.MatchPrompt, SchedulerModel.Register, FirstFree, PagedRadixTree.Valid, TakeSlot,
        InvAt, IdsInv;
      InvIds(cfg, S());
      AdmitOneKeeps(cfg, S());
      PrefillPrompt(cfg, S());
      var id := TakeHead(b);
      var k := MatchPrompt(id);
      Register(id, k);
      assert S() == Prefill(cfg, old(S()));
      o := PushToken(b, id, |reqs[id].prompt|);
    }

    /** Admits from the queue while there is a free slot. */
    method Admit() returns (o: Output, admittedAny: bool)
      requires Valid()
      modifies this, tree, tree.nodes.Values
      ensures Valid() && fresh(tree.nodes.Values - old(tree.nodes.Values))
      ensures admittedAny <==> CanAdmit(old(S()))
      ensures (S(), o) == AdmitAll(cfg, old(S()))
      ensures !admittedAny ==> S() == old(S()) && o == NOTHING
    {
      hide Inv, InvAt, HeldLinked, AdmitOne, Join, FirstFree, IdsInv, PagedRadixTree.Valid;
      o, admittedAny := NOTHING, false;
      ghost var s0 := S();
      InvIds(cfg, s0);
      JoinNothing(AdmitAll(cfg, s0).1);
      while |pending| > 0
        invariant Valid() && fresh(tree.nodes.Values - old(tree.nodes.Values))
        invariant admittedAny || S() == s0
        invariant admittedAny ==> CanAdmit(s0)
        invariant AdmitAll(cfg, s0) == (AdmitAll(cfg, S()).0, Join(o, AdmitAll(cfg, S()).1))
        decreases |pending|
      {
        var freeSlot := FindAvailableSlot();
        if freeSlot < 0 {
          break;
        }
        InvIds(cfg, S());
        AdmitIff(S());
        ghost var s := S();
        var one := AdmitHead(freeSlot);
        JoinAssociative(o, one, AdmitAll(cfg, S()).1);
        o := Join(o, one);
        admittedAny := true;
      }
      InvIds(cfg, S());
      AdmitIff(S());
      JoinNothing(o);
    }

    /** Allocates the executor slots a bucket of n covers. */
    method PadSlots(n: nat)
      modifies this`execSlots
      ensures S() == Pad(old(S()), n)
    {
      for b := 0 to n
        invariant execSlots == old(execSlots) + UpTo(b)
      {
        if b !in execSlots {
          execSlots := execSlots + {b};
        }
      }
    }

    /** One token for every occupied slot below n. */
    method Decode(n: nat) returns (o: Output)
      requires Linked() && InvAt(cfg, S(), 0) && n <= |slots|
      modifies this, tree`contents, tree.nodes.Values`refCount
      ensures Linked() && InvAt(cfg, S(), 0) && tree.nodes == old(tree.nodes)
      ensures (S(), o) == DecodeFrom(cfg, old(S()), 0, n)
    {
      hide InvAt, HeldLinked, Emit, Join, IdsInv, Due, TokensOk;
      o := NOTHING;
      ghost var s0 := S();
      JoinNothing(DecodeFrom(cfg, s0, 0, n).1);
      for b := 0 to n
        invariant Linked() && InvAt(cfg, S(), 0) && tree.nodes == old(tree.nodes) && |slots| == |s0.slots|
        invariant DecodeFrom(cfg, s0, 0, n) == (DecodeFrom(cfg, S(), b, n).0, Join(o, DecodeFrom(cfg, S(), b, n).1))
      {
        AtIds(cfg, S());
        ServedIff(S(), b);
        if slots[b].Some? {
          var id := slots[b].value;
          ServedKeeps(cfg, S(), b);
          var one := PushToken(b, id, reqs[id].currentPos + 1);
          JoinAssociative(o, one, DecodeFrom(cfg, S(), b + 1, n).1);
          o := Join(o, one);
        }
      }
      JoinNothing(o);
    }

    /** Frees whatever padding the executor still has once nothing is active. */
    method FreeIdleSlots()
      modifies this`execSlots
      ensures S() == FreeIfIdle(old(S()))
    {
      var active := ActiveCount();
      if active == 0 {
        for i := 0 to |slots|
          invariant execSlots == old(execSlots) - UpTo(i)
        {
          if i in execSlots {
            execSlots := execSlots - {i};
          }
        }
      }
    }

    method Step() returns (o: Output)
      requires Valid()
      modifies this, tree, tree.nodes.Values
      ensures Valid() && fresh(tree.nodes.Values - old(tree.nodes.Values))
      ensures (S(), o) == SchedulerModel.Step(cfg, old(S()))
    {
      hide Inv, InvAt, IdsInv, HeldLinked, AdmitAll, DecodeFrom, FreeIfIdle, CanAdmit, PagedRadixTree.Valid, Pad, Bucket;
      ghost var s0 := S();
      InvIds(cfg, s0);
      StepKeeps(cfg, s0);
      var admittedAny;
      o, admittedAny := Admit();
      if admittedAny {
        return;
      }
      o := DecodeStep();
    }

    /** How many slots the next decode covers, or -1 when none is occupied. */
    method DecodeWidth() returns (n: int)
      ensures n == if Idle(slots) then -1 else Bucket(S())
    {
      var maxSlot := HighestSlot();
      if maxSlot < 0 {
        return -1;
      }
      n := SelectBatchBucket(maxSlot);
      n := if n < |slots| then n else |slots|;
    }

    /** The decode part of a step. */
    method DecodeStep() returns (o: Output)
      requires Valid() && !CanAdmit(S())
      modifies this, tree`contents, tree.nodes.Values`refCount
      ensures Linked() && tree.nodes == old(tree.nodes)
      ensures (S(), o) == SchedulerModel.Step(cfg, old(S()))
    {
      hide Inv, InvAt, IdsInv, HeldLinked, AdmitAll, DecodeFrom, FreeIfIdle, CanAdmit, PagedRadixTree.Valid, Bucket, Pad;
      var bucket := DecodeWidth();
      if bucket < 0 {
        return NOTHING;
      }
      InvIds(cfg, S());
      PadKeeps(cfg, S(), bucket);
      PadSlots(bucket);
      o := Decode(bucket);
      FreeIdleSlots();
    }

    /** The destructor: releases what active requests hold and frees their slots. */
    method Close()
      requires Valid()
      modifies this, tree`contents, tree.nodes.Values`refCount
      ensures Linked() && S() == CloseFrom(old(S()), 0)
      ensures forall p :: p in tree.contents.entries ==> tree.contents.entries[p].refs == 0
    {
      hide Inv, InvAt, IdsInv, HeldLinked, ReleaseAll, PagedRadixTree.Valid;
      ghost var s0 := S();
      InvIds(cfg, s0);
      CloseReleases(cfg, s0);
      for i := 0 to |slots|
        invariant Linked() && tree.nodes == old(tree.nodes) && |slots| == |s0.slots|
        invariant SlotsKnown(S(), i)
        invariant CloseFrom(s0, 0) == CloseFrom(S(), i)
      {
        if slots[i].Some? {
          Vacate(i, slots[i].value);
        }
      }
    }

    /** The owner of the tree evicts between steps: what active requests hold stays linked. */
    method EvictPages(budget: nat) returns (freed: seq<nat>)
      requires Valid()
      modifies tree, tree.nodes.Values
      ensures Valid()
      ensures S() == old(S()).(tree := Evict(old(tree.contents), budget))
      ensures freed == EvictedHandles(old(tree.contents), budget)
    {
      hide Inv, HeldLinked, Evict, EvictedHandles, Wf;
      EvictKeeps(cfg, S(), budget);
      InvWf(cfg, S());
      freed := tree.EvictLru(budget);
      KeptStay();
      HeldLinkedStays(held, matchedNodes, old(tree.nodes), tree.nodes);
    }

    lemma KeptStay()
      requires tree.Valid()
      ensures forall p :: p in tree.contents.entries ==> p in tree.nodes
    {
    }
  }
}
