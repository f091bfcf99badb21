/**
 Padding slots: a decode step allocates and fills every slot of its bucket, free ones too. What comes of it: the next
 admission takes such a slot with its pages still listed, and the destructor leaves it allocated.
 */
module SchedulerPadding {
  import opened Options
  import opened RadixModel
  import opened SchedulerModel
  import opened SchedulerRuns
  import opened SchedulerPrefix

  /** One full page of a prompt. */
  function OnePage(tpp: nat): seq<int> { seq(tpp, i => 0) }

  /** Requests 1 and 2 share slots 0 and 1; the first ends with its second token. */
  function Want(id: nat): nat { if id == 1 then 2 else 4 }

  function Add2(cfg: Config): seq<Event> {
    [] + [AddRequest(OnePage(cfg.tpp), Want(1), Unsampled(cfg, 1))] + [AddRequest(OnePage(cfg.tpp), Want(2), Unsampled(cfg, 2))]
  }

  function Padding(cfg: Config): seq<Event> { Add2(cfg) + [RunStep] + [RunStep] + [RunStep] }

  ghost predicate Waiting(cfg: Config, s: State, id: nat, generated: nat) {
    && id in s.reqs && id in s.held && s.reqs[id].prompt == OnePage(cfg.tpp)
    && s.reqs[id].maxNew == Want(id) && s.reqs[id].eos == Unsampled(cfg, id)
    && s.reqs[id].reason == Running && |s.reqs[id].generated| == generated
  }

  /** Two or more slots, of which only the first two may be occupied. */
  ghost predicate TwoSlots(s: State, pending: seq<nat>, first: Option<nat>, second: Option<nat>) {
    && |s.slots| >= 2 && s.caching && !s.buckets && s.nextId == 3 && s.pending == pending
    && (forall i :: 0 <= i < |s.slots| ==> s.slots[i] == if i == 0 then first else if i == 1 then second else None)
  }

  lemma Queued(cfg: Config, maxBatch: nat)
    requires cfg.tpp > 0 && maxBatch >= 2
    ensures var s := Run(cfg, Init(maxBatch), Add2(cfg)).0;
      TwoSlots(s, [1, 2], None, None) && Waiting(cfg, s, 1, 0) && Waiting(cfg, s, 2, 0)
  {
    hide Run, Unsampled;
    var es := [] + [AddRequest(OnePage(cfg.tpp), Want(1), Unsampled(cfg, 1))];
    RunNone(cfg, Init(maxBatch));
    RunSnoc(cfg, Init(maxBatch), [], es[0]);
    RunSnoc(cfg, Init(maxBatch), es, AddRequest(OnePage(cfg.tpp), Want(2), Unsampled(cfg, 2)));
  }

  lemma AdmitShape(cfg: Config, s: State, b: nat, id: nat, other: nat, g: nat)
    requires cfg.tpp > 0 && s.pending != [] && s.pending[0] == id && Waiting(cfg, s, id, 0)
    requires b < |s.slots| && FirstFree(s.slots, 0) == b && other != id && Waiting(cfg, s, other, g) && (id == 1 || id == 2)
    ensures CanAdmit(s)
    ensures var r := AdmitOne(cfg, s).0;
      && Waiting(cfg, r, id, 1) && Waiting(cfg, r, other, g) && r.slots == s.slots[b := Some(id)]
      && r.pending == s.pending[1..] && r.caching == s.caching && r.buckets == s.buckets && r.nextId == s.nextId
  {
    hide Match, RetainAll, Insert, PrefixesTo, Pages, ReleaseAll, Unsampled, FirstFree;
  }

  /** Both are admitted, with one token each. */
  lemma BothIn(cfg: Config, s: State)
    requires cfg.tpp > 0 && TwoSlots(s, [1, 2], None, None) && Waiting(cfg, s, 1, 0) && Waiting(cfg, s, 2, 0)
    ensures var r := Step(cfg, s).0;
      TwoSlots(r, [], Some(1), Some(2)) && Waiting(cfg, r, 1, 1) && Waiting(cfg, r, 2, 1)
  {
    hide AdmitOne, FirstFree, Waiting;
    FreeIs(s.slots, 0);
    AdmitShape(cfg, s, 0, 1, 2, 0);
    var s1 := AdmitOne(cfg, s).0;
    FreeIs(s1.slots, 1);
    AdmitShape(cfg, s1, 1, 2, 1, 1);
    var s2 := AdmitOne(cfg, s1).0;
    assert s2.pending == [];
    assert AdmitAll(cfg, s2).0 == s2;
    assert AdmitAll(cfg, s1).0 == s2;
    assert AdmitAll(cfg, s).0 == s2;
  }

  lemma FreeIs(slots: seq<Option<nat>>, b: nat)
    requires b < |slots| && slots[b].None? && forall i :: 0 <= i < b ==> slots[i].Some?
    ensures FirstFree(slots, 0) == b
  {
  }

  lemma {:induction false} TopTwo(s: State, first: Option<nat>, id: nat)
    requires TwoSlots(s, [], first, Some(id))
    ensures Bucket(s) == 2
  {
    var top := TopSlot(s.slots);
    assert s.slots[1].Some?;
  }

  /** The first one ends and frees its slot. */
  lemma FirstEnds(cfg: Config, s: State)
    requires cfg.tpp > 0 && TwoSlots(s, [], Some(1), Some(2)) && Waiting(cfg, s, 1, 1) && Waiting(cfg, s, 2, 1)
    ensures var r := Step(cfg, s).0; TwoSlots(r, [], None, Some(2)) && Waiting(cfg, r, 2, 2)
  {
    hide ReleaseAll, Unsampled, Bucket, FirstFree;
    TopTwo(s, Some(1), 2);
    var p := Pad(s, 2);
    assert Served(p, 0);
    var s1 := Emit(cfg, p, 0, 1, p.reqs[1].currentPos + 1).0;
    assert Served(s1, 1);
    var s2 := Emit(cfg, s1, 1, 2, s1.reqs[2].currentPos + 1).0;
    assert DecodeFrom(cfg, s2, 2, 2).0 == s2;
    assert DecodeFrom(cfg, s1, 1, 2).0 == s2;
    assert DecodeFrom(cfg, p, 0, 2).0 == s2;
    assert s2.slots[1].Some?;
  }

  /** The next step pads its slot. */
  lemma Padded(cfg: Config, s: State)
    requires cfg.tpp > 0 && TwoSlots(s, [], None, Some(2)) && Waiting(cfg, s, 2, 2)
    ensures var r := Step(cfg, s).0; TwoSlots(r, [], None, Some(2)) && Waiting(cfg, r, 2, 3) && 0 in r.execSlots
  {
    hide ReleaseAll, Unsampled, Bucket, FirstFree;
    TopTwo(s, None, 2);
    var p := Pad(s, 2);
    assert 0 in p.execSlots;
    assert Served(p, 1) && !Served(p, 0);
    var s1 := Emit(cfg, p, 1, 2, p.reqs[2].currentPos + 1).0;
    assert DecodeFrom(cfg, s1, 2, 2).0 == s1;
    assert DecodeFrom(cfg, p, 1, 2).0 == s1;
    assert DecodeFrom(cfg, p, 0, 2).0 == s1;
    assert s1.slots[1].Some?;
  }

  /** The run leaves slot 0 free and allocated, with a request still in slot 1. */
  lemma PaddingReached(cfg: Config, maxBatch: nat)
    requires cfg.tpp > 0 && maxBatch >= 2
    ensures var s := Run(cfg, Init(maxBatch), Padding(cfg)).0;
      TwoSlots(s, [], None, Some(2)) && Waiting(cfg, s, 2, 3) && 0 in s.execSlots && |s.slots| == maxBatch
  {
    hide Run, Step, Waiting, TwoSlots;
    var s0 := Init(maxBatch);
    Queued(cfg, maxBatch);
    RunSnoc(cfg, s0, Add2(cfg), RunStep);
    BothIn(cfg, Run(cfg, s0, Add2(cfg)).0);
    RunSnoc(cfg, s0, Add2(cfg) + [RunStep], RunStep);
    FirstEnds(cfg, Run(cfg, s0, Add2(cfg) + [RunStep]).0);
    RunSnoc(cfg, s0, Add2(cfg) + [RunStep] + [RunStep], RunStep);
    Padded(cfg, Run(cfg, s0, Add2(cfg) + [RunStep] + [RunStep]).0);
    SlotsStay(cfg, maxBatch, Padding(cfg));
  }

  lemma {:induction false} SlotsStay(cfg: Config, maxBatch: nat, es: seq<Event>)
    requires cfg.tpp > 0
    ensures |Run(cfg, Init(maxBatch), es).0.slots| == maxBatch
  {
    hide Inv, Step, Evict;
    if es != [] {
      var n := |es| - 1;
      SlotsStay(cfg, maxBatch, es[..n]);
      RunInv(cfg, maxBatch, es[..n]);
      StepSizes(cfg, Run(cfg, Init(maxBatch), es[..n]).0);
    }
  }

  /* ---------- An admission over listed pages ---------- */

  /**
   The next admission takes a slot that is still allocated, with the pages of its padding listed, and has matched pages
   to map there: the case in which PagedKv.PagedKvCache.AdmitSlot leaks.
   */
  ghost predicate AdmitsOverPadding(cfg: Config, s: State) {
    && cfg.tpp > 0 && s.caching && CanAdmit(s) && FirstFree(s.slots, 0) in s.execSlots
    && Match(s.tree, Pages(s.reqs[s.pending[0]].prompt, cfg.tpp)).0 > 0
  }

  /** A third request for the same page comes to that slot. */
  function Reusing(cfg: Config): seq<Event> { Padding(cfg) + [AddRequest(OnePage(cfg.tpp), 1, -1)] }

  lemma PageOf(tpp: nat)
    requires tpp > 0
    ensures Pages(OnePage(tpp), tpp) == [Chunk(OnePage(tpp))]
  {
    var p := OnePage(tpp);
    assert p[..tpp] == p && p[tpp..] == [];
    assert Pages([], tpp) == [];
  }

  lemma ReusePlain(cfg: Config)
    requires cfg.tpp > 0
    ensures Collisionless(cfg.hash, {Chunk(OnePage(cfg.tpp))})
    ensures PlainEvents(cfg, Reusing(cfg), {Chunk(OnePage(cfg.tpp))})
  {
    hide Unsampled, OnePage, Pages;
    PageOf(cfg.tpp);
  }

  lemma ReuseReached(cfg: Config, maxBatch: nat)
    requires cfg.tpp > 0 && maxBatch >= 2
    ensures AdmitsOverPadding(cfg, Run(cfg, Init(maxBatch), Reusing(cfg)).0)
  {
    hide Run, Match, Pages, FirstFree, OnePage, Collisionless, PlainEvents, Inv;
    var es, page := Padding(cfg), OnePage(cfg.tpp);
    PaddingReached(cfg, maxBatch);
    var s := Run(cfg, Init(maxBatch), es).0;
    RunSnoc(cfg, Init(maxBatch), es, AddRequest(page, 1, -1));
    var r := Run(cfg, Init(maxBatch), Reusing(cfg)).0;
    FreeIs(r.slots, 0);
    ReusePlain(cfg);
    RunPrefix(cfg, maxBatch, Reusing(cfg), {Chunk(page)});
    RunInv(cfg, maxBatch, Reusing(cfg));
    PageOf(cfg.tpp);
    var pages := Pages(page, cfg.tpp);
    assert PrefixOf(cfg, r.reqs, 2, Prefix(pages, 1));
    assert Seen(cfg, r.reqs, 3, Prefix(pages, 1));
    TreeWf(cfg, r);
    MatchIsLongest(r.tree, pages, 1);
  }

  lemma TreeWf(cfg: Config, s: State)
    requires Inv(cfg, s)
    ensures Wf(s.tree, cfg.hash)
  {
    hide IdsInv, TokensInv, HeldInv, AllocInv, NoLeak;
  }

  lemma OneSlotIdle(cfg: Config, s: State)
    requires Inv(cfg, s) && |s.slots| <= 1
    ensures forall b :: 0 <= b < |s.slots| && s.slots[b].None? ==> b !in s.execSlots
  {
    hide IdsInv, TokensInv, HeldInv, RefsInv;
    if |s.slots| == 1 && s.slots[0].None? { assert Idle(s.slots); }
  }

  /** Whatever the sampler and the hash, a run gets there exactly when there are two slots. */
  lemma AdmitsOverPaddingIff(cfg: Config, maxBatch: nat)
    requires cfg.tpp > 0
    ensures (exists es {:trigger Run(cfg, Init(maxBatch), es)} :: AdmitsOverPadding(cfg, Run(cfg, Init(maxBatch), es).0))
            <==> maxBatch >= 2
  {
    hide Run, Match, Pages, FirstFree, Inv;
    if maxBatch >= 2 {
      ReuseReached(cfg, maxBatch);
    } else {
      forall es ensures !AdmitsOverPadding(cfg, Run(cfg, Init(maxBatch), es).0) {
        RunInv(cfg, maxBatch, es);
        SlotsStay(cfg, maxBatch, es);
        OneSlotIdle(cfg, Run(cfg, Init(maxBatch), es).0);
      }
    }
  }

  /* ---------- Padding left by the destructor ---------- */

  /** Closing after the run leaves a slot allocated in the executor. */
  ghost predicate CloseLeaves(s: State) { SlotsKnown(s, 0) && CloseFrom(s, 0).execSlots != {} }

  /** A run after which the destructor leaves a slot allocated exists exactly when there are two slots. */
  lemma CloseLeavesIff(cfg: Config, maxBatch: nat)
    requires cfg.tpp > 0
    ensures (exists es {:trigger Run(cfg, Init(maxBatch), es)} :: CloseLeaves(Run(cfg, Init(maxBatch), es).0))
            <==> maxBatch >= 2
  {
    hide Run, Inv, CloseFrom, SlotsKnown;
    if maxBatch >= 2 {
      var s := Run(cfg, Init(maxBatch), Padding(cfg)).0;
      PaddingReached(cfg, maxBatch);
      RunInv(cfg, maxBatch, Padding(cfg));
      CloseReleases(cfg, s);
      assert 0 in CloseFrom(s, 0).execSlots;
    } else {
      forall es ensures !CloseLeaves(Run(cfg, Init(maxBatch), es).0) {
        var s := Run(cfg, Init(maxBatch), es).0;
        RunInv(cfg, maxBatch, es);
        SlotsStay(cfg, maxBatch, es);
        OneSlotIdle(cfg, s);
        CloseReleases(cfg, s);
        AllocKnown(cfg, s);
        assert forall a :: a !in CloseFrom(s, 0).execSlots;
      }
    }
  }

  lemma AllocKnown(cfg: Config, s: State)
    requires Inv(cfg, s)
    ensures forall a :: a in s.execSlots ==> a < |s.slots|
  {
    hide IdsInv, TokensInv, HeldInv, RefsInv;
  }
}
