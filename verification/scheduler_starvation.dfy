/**
 Which configurations drain every closed workload: with graph buckets on and more than 16 slots, a request in slot 16
 is above every bucket. Seventeen short requests leave one alone there in two steps.
 */
module SchedulerStarvation {
  import opened Options
  import opened RadixModel
  import opened SchedulerModel
  import opened SchedulerRuns

  const LAST: nat := 17

  /** The first sixteen requests want two tokens, the last one wants three. */
  function Want(id: nat): nat { if id < LAST then 2 else 3 }

  function Adds(cfg: Config, n: nat): seq<Event> {
    if n == 0 then [SetCaching(false)] else Adds(cfg, n - 1) + [AddRequest([0], Want(n), Unsampled(cfg, n))]
  }

  function Starving(cfg: Config): seq<Event> { Adds(cfg, LAST) + [RunStep] + [RunStep] }

  /** A new scheduler, with graph buckets on or off. */
  function Start(maxBatch: nat, buckets: bool): State { Init(maxBatch).(buckets := buckets) }

  /** Requests above k are queued untouched; those up to k sit in the slots below, with one token each. */
  ghost predicate Admitted(cfg: Config, s: State, n: nat, k: nat) {
    && k <= n <= LAST <= |s.slots| && !s.caching && s.buckets && s.nextId == n + 1
    && |s.pending| == n - k && (forall i :: 0 <= i < n - k ==> s.pending[i] == k + 1 + i)
    && (forall i :: 0 <= i < |s.slots| ==> s.slots[i] == if i < k then Some(i + 1) else None)
    && (forall id :: 1 <= id <= n ==> id in s.reqs && id in s.held && Waiting(cfg, s.reqs[id], id, if id <= k then 1 else 0))
  }

  ghost predicate Waiting(cfg: Config, r: Request, id: nat, generated: nat) {
    r.maxNew == Want(id) && r.eos == Unsampled(cfg, id) && r.reason == Running && |r.generated| == generated
  }

  lemma {:induction false} AddsQueue(cfg: Config, maxBatch: nat, n: nat)
    requires cfg.tpp > 0 && n <= LAST <= maxBatch
    ensures Admitted(cfg, Run(cfg, Start(maxBatch, true), Adds(cfg, n)).0, n, 0)
    ensures |Run(cfg, Start(maxBatch, true), Adds(cfg, n)).0.slots| == maxBatch
  {
    hide Run, Unsampled;
    var s := Start(maxBatch, true);
    if n == 0 {
      RunSnoc(cfg, s, [], SetCaching(false));
      RunNone(cfg, s);
      assert [] + [SetCaching(false)] == Adds(cfg, 0);
    } else {
      AddsQueue(cfg, maxBatch, n - 1);
      RunSnoc(cfg, s, Adds(cfg, n - 1), AddRequest([0], Want(n), Unsampled(cfg, n)));
    }
  }

  lemma FreeAt(cfg: Config, s: State, n: nat, k: nat)
    requires Admitted(cfg, s, n, k) && k < LAST
    ensures FirstFree(s.slots, 0) == k
  {
    assert s.slots[k].None?;
    assert forall i :: 0 <= i < k ==> s.slots[i].Some?;
  }

  lemma AdmitNext(cfg: Config, s: State, n: nat, k: nat)
    requires cfg.tpp > 0 && Admitted(cfg, s, n, k) && k < n
    ensures CanAdmit(s) && Admitted(cfg, AdmitOne(cfg, s).0, n, k + 1)
  {
    hide FirstFree, ReleaseAll, Match, Pages, Insert, Unsampled;
    FreeAt(cfg, s, n, k);
    assert s.pending[0] == k + 1 + 0;
    assert Waiting(cfg, s.reqs[k + 1], k + 1, 0);
    var r := AdmitOne(cfg, s).0;
    forall i | 0 <= i < n - (k + 1) ensures r.pending[i] == k + 1 + 1 + i { assert r.pending[i] == s.pending[i + 1]; }
    forall id | 1 <= id <= n
      ensures id in r.reqs && id in r.held && Waiting(cfg, r.reqs[id], id, if id <= k + 1 then 1 else 0)
    {
      assert Waiting(cfg, s.reqs[id], id, if id <= k then 1 else 0);
    }
  }

  lemma {:induction false} AdmitThem(cfg: Config, s: State, n: nat, k: nat)
    requires cfg.tpp > 0 && Admitted(cfg, s, n, k)
    ensures Admitted(cfg, AdmitAll(cfg, s).0, n, n)
    decreases n - k
  {
    hide AdmitOne, FirstFree;
    if k < n {
      AdmitNext(cfg, s, n, k);
      AdmitThem(cfg, AdmitOne(cfg, s).0, n, k + 1);
    }
  }

  /** After the slots below b are served: they are empty, and the requests above still have one token. */
  ghost predicate Served16(cfg: Config, s: State, b: nat) {
    && b <= 16 && |s.slots| >= LAST && s.buckets && s.pending == []
    && (forall i :: 0 <= i < |s.slots| ==> s.slots[i] == if i < b || i >= LAST then None else Some(i + 1))
    && (forall id :: b < id <= LAST ==> id in s.reqs && id in s.held && Waiting(cfg, s.reqs[id], id, 1))
  }

  lemma {:induction false} DecodeThem(cfg: Config, s: State, b: nat)
    requires Served16(cfg, s, b)
    ensures Served16(cfg, DecodeFrom(cfg, s, b, 16).0, 16)
    decreases 16 - b
  {
    hide ReleaseAll, Unsampled;
    if b < 16 {
      assert s.slots[b] == Some(b + 1);
      assert Waiting(cfg, s.reqs[b + 1], b + 1, 1);
      var r := Emit(cfg, s, b, b + 1, s.reqs[b + 1].currentPos + 1).0;
      assert Served16(cfg, r, b + 1);
      DecodeThem(cfg, r, b + 1);
    }
  }

  lemma {:induction false} TopIs(slots: seq<Option<nat>>)
    requires |slots| >= LAST && slots[LAST - 1].Some? && forall i :: LAST <= i < |slots| ==> slots[i].None?
    ensures TopSlot(slots) == LAST
  {
  }

  /** Once they are all in their slots, one decode step leaves the last request alone. */
  lemma LastAlone(cfg: Config, s: State)
    requires cfg.tpp > 0 && Admitted(cfg, s, LAST, LAST)
    ensures Served16(cfg, Step(cfg, s).0, 16)
  {
    hide DecodeFrom, FirstFree, TopSlot, Unsampled;
    TopIs(s.slots);
    assert s.slots[LAST - 1] == Some(LAST);
    DecodeThem(cfg, Pad(s, 16), 0);
    var d := DecodeFrom(cfg, Pad(s, 16), 0, 16).0;
    assert d.slots[LAST - 1] == Some(LAST);
  }

  /** The run leaves the last request alone in slot 16, unfinished; and however long it goes on, it gets no other token. */
  lemma StarvationReachable(cfg: Config, maxBatch: nat, n: nat)
    requires cfg.tpp > 0 && maxBatch > 16
    ensures var s := Run(cfg, Start(maxBatch, true), Starving(cfg)).0;
      && LAST in s.reqs && |s.reqs[LAST].generated| == 1 < s.reqs[LAST].maxNew && s.reqs[LAST].reason == Running
      && Steps(cfg, s, n).reqs == s.reqs && HasWork(Steps(cfg, s, n))
  {
    hide Run, AdmitAll, AdmitOne, DecodeFrom, Inv, Steps, FirstFree, TopSlot, Unsampled;
    var s0 := Start(maxBatch, true);
    var s1 := Run(cfg, s0, Adds(cfg, LAST)).0;
    AddsQueue(cfg, maxBatch, LAST);
    AdmitNext(cfg, s1, LAST, 0);
    AdmitThem(cfg, s1, LAST, 0);
    RunSnoc(cfg, s0, Adds(cfg, LAST), RunStep);
    RunSnoc(cfg, s0, Adds(cfg, LAST) + [RunStep], RunStep);
    LastAlone(cfg, Step(cfg, s1).0);
    var s2 := Run(cfg, s0, Starving(cfg)).0;
    assert s2.slots[LAST - 1] == Some(LAST);
    assert Waiting(cfg, s2.reqs[LAST], LAST, 1);
    StartInv(cfg, maxBatch, true);
    RunKeeps(cfg, s0, Starving(cfg));
    TopIs(s2.slots);
    StarvesForever(cfg, s2, n);
  }

  lemma StartInv(cfg: Config, maxBatch: nat, buckets: bool)
    requires cfg.tpp > 0
    ensures Inv(cfg, Start(maxBatch, buckets))
  {
    hide InvAt, NoLeak;
    InitInv(cfg, maxBatch);
    SwitchKeeps(cfg, Init(maxBatch), true, buckets);
  }

  /* ---------- Exactly which configurations drain ---------- */

  /** Graph buckets stay as they are. */
  ghost predicate NoSwitch(es: seq<Event>) { forall i :: 0 <= i < |es| ==> !es[i].SetBuckets? }

  lemma {:induction false} RunSizes(cfg: Config, s: State, es: seq<Event>)
    requires Inv(cfg, s) && cfg.tpp > 0 && NoSwitch(es)
    ensures |Run(cfg, s, es).0.slots| == |s.slots| && Run(cfg, s, es).0.buckets == s.buckets
  {
    hide Inv, Step, Evict;
    if es != [] {
      var n := |es| - 1;
      RunSizes(cfg, s, es[..n]);
      RunKeeps(cfg, s, es[..n]);
      var s1 := Run(cfg, s, es[..n]).0;
      StepSizes(cfg, s1);
      assert !es[n].SetBuckets?;
    }
  }

  /** Once arrivals stop, the steps run out of work. */
  ghost predicate RunsDry(cfg: Config, s: State)
    requires cfg.tpp > 0
  {
    exists n: nat :: !HasWork(Steps(cfg, s, n))
  }

  /** Everything that can happen to such a scheduler leaves a workload that runs dry. */
  ghost predicate AlwaysDrains(cfg: Config, maxBatch: nat, buckets: bool)
    requires cfg.tpp > 0
  {
    forall es: seq<Event> {:trigger Run(cfg, Start(maxBatch, buckets), es)} ::
      NoSwitch(es) ==> RunsDry(cfg, Run(cfg, Start(maxBatch, buckets), es).0)
  }

  lemma DrainsAfter(cfg: Config, maxBatch: nat, buckets: bool, es: seq<Event>)
    requires cfg.tpp > 0 && maxBatch >= 1 && (!buckets || maxBatch <= 16) && NoSwitch(es)
    ensures RunsDry(cfg, Run(cfg, Start(maxBatch, buckets), es).0)
  {
    hide Inv, Run, Steps, HasWork, Work;
    StartInv(cfg, maxBatch, buckets);
    RunKeeps(cfg, Start(maxBatch, buckets), es);
    RunSizes(cfg, Start(maxBatch, buckets), es);
    var s := Run(cfg, Start(maxBatch, buckets), es).0;
    WorkZeroIff(cfg, s);
    Drains(cfg, s, Work(s));
  }

  /** Without a slot nothing is ever admitted. */
  lemma {:induction false} NoSlots(cfg: Config, s: State, n: nat)
    requires cfg.tpp > 0 && s.slots == [] && s.pending != []
    ensures Steps(cfg, s, n) == s
  {
    if n > 0 { NoSlots(cfg, s, n - 1); }
  }

  lemma {:induction false} AddsNoSwitch(cfg: Config, n: nat)
    ensures NoSwitch(Adds(cfg, n))
  {
    if n > 0 { AddsNoSwitch(cfg, n - 1); }
  }

  /** Whatever the sampler, every closed workload drains exactly when there is a slot, and buckets are off or at most 16 slots. */
  lemma AlwaysDrainsIff(cfg: Config, maxBatch: nat, buckets: bool)
    requires cfg.tpp > 0
    ensures AlwaysDrains(cfg, maxBatch, buckets) <==> maxBatch >= 1 && (!buckets || maxBatch <= 16)
  {
    hide Run, Steps, HasWork;
    var s0 := Start(maxBatch, buckets);
    if maxBatch >= 1 && (!buckets || maxBatch <= 16) {
      forall es: seq<Event> | NoSwitch(es) ensures RunsDry(cfg, Run(cfg, s0, es).0) {
        DrainsAfter(cfg, maxBatch, buckets, es);
      }
    } else if maxBatch == 0 {
      var es := [] + [AddRequest([0], 1, -1)];
      RunSnoc(cfg, s0, [], es[0]);
      RunNone(cfg, s0);
      var s := Run(cfg, s0, es).0;
      forall n: nat ensures HasWork(Steps(cfg, s, n)) {
        NoSlots(cfg, s, n);
        StillQueued(s);
      }
      assert !RunsDry(cfg, s);
    } else {
      AddsNoSwitch(cfg, LAST);
      var s := Run(cfg, s0, Starving(cfg)).0;
      forall n: nat ensures HasWork(Steps(cfg, s, n)) { StarvationReachable(cfg, maxBatch, n); }
      assert !RunsDry(cfg, s);
    }
  }

  lemma StillQueued(s: State)
    requires s.pending != []
    ensures HasWork(s)
  {
  }
}
