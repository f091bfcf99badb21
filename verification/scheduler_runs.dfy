/** What the scheduler promises over whole runs: bookkeeping, progress and termination. */
module SchedulerRuns {
  import opened Arith
  import opened Bags
  import opened Options
  import opened RadixModel
  import opened SchedulerModel

  /** What can happen to a scheduler: requests arrive, steps run, and the owner of the tree evicts or flips a switch. */
  datatype Event =
    | AddRequest(prompt: seq<int>, maxNew: int, eos: int)
    | RunStep
    | EvictPages(budget: nat)
    | SetCaching(caching: bool)
    | SetBuckets(buckets: bool)

  ghost function Apply(cfg: Config, s: State, e: Event): (State, Output)
    requires cfg.tpp > 0
  {
    match e
    case AddRequest(prompt, maxNew, eos) => (Add(cfg, s, prompt, maxNew, eos), NOTHING)
    case RunStep => Step(cfg, s)
    case EvictPages(budget) => (s.(tree := Evict(s.tree, budget)), NOTHING)
    case SetCaching(c) => (s.(caching := c), NOTHING)
    case SetBuckets(b) => (s.(buckets := b), NOTHING)
  }

  /** The state after the events, with everything the steps reported. */
  ghost function Run(cfg: Config, s: State, es: seq<Event>): (State, Output)
    requires cfg.tpp > 0
  {
    if es == [] then (s, NOTHING) else
      var (s1, o1) := Run(cfg, s, es[..|es| - 1]);
      var (s2, o2) := Apply(cfg, s1, es[|es| - 1]);
      (s2, Join(o1, o2))
  }

  lemma SwitchKeeps(cfg: Config, s: State, c: bool, b: bool)
    requires Inv(cfg, s)
    ensures Inv(cfg, s.(caching := c)) && Inv(cfg, s.(buckets := b))
  {
    assert First(s.(caching := c)) == First(s) == First(s.(buckets := b));
  }

  lemma ApplyKeeps(cfg: Config, s: State, e: Event)
    requires Inv(cfg, s)
    ensures Inv(cfg, Apply(cfg, s, e).0)
  {
    hide InvAt, NoLeak, Step, Evict, Add;
    match e
    case AddRequest(prompt, maxNew, eos) => AddKeeps(cfg, s, prompt, maxNew, eos);
    case RunStep => StepKeeps(cfg, s);
    case EvictPages(budget) => EvictKeeps(cfg, s, budget);
    case SetCaching(c) => SwitchKeeps(cfg, s, c, s.buckets);
    case SetBuckets(b) => SwitchKeeps(cfg, s, s.caching, b);
  }

  lemma {:induction false} RunKeeps(cfg: Config, s: State, es: seq<Event>)
    requires Inv(cfg, s)
    ensures Inv(cfg, Run(cfg, s, es).0)
  {
    hide InvAt, NoLeak, Apply;
    assert cfg.tpp > 0 by { InvParts(cfg, s, 0); }
    if es != [] {
      RunKeeps(cfg, s, es[..|es| - 1]);
      ApplyKeeps(cfg, Run(cfg, s, es[..|es| - 1]).0, es[|es| - 1]);
    }
  }

  /** Every reachable state satisfies the invariant, whatever the sampler, the handles and the interleaving. */
  lemma RunInv(cfg: Config, maxBatch: nat, es: seq<Event>)
    requires cfg.tpp > 0
    ensures Inv(cfg, Run(cfg, Init(maxBatch), es).0)
  {
    hide InvAt, NoLeak, Run;
    InitInv(cfg, maxBatch);
    RunKeeps(cfg, Init(maxBatch), es);
  }

  lemma RunSnoc(cfg: Config, s: State, es: seq<Event>, e: Event)
    requires cfg.tpp > 0
    ensures Run(cfg, s, es + [e]).0 == Apply(cfg, Run(cfg, s, es).0, e).0
  {
    assert (es + [e])[..|es|] == es;
  }

  lemma RunNone(cfg: Config, s: State)
    requires cfg.tpp > 0
    ensures Run(cfg, s, []).0 == s
  {
  }

  /* ---------- What is reported is what was generated ---------- */

  /** The tokens reported for one id, in order. */
  function TokensFor(log: seq<(nat, int)>, id: nat): seq<int> {
    if log == [] then [] else
      var last := log[|log| - 1];
      TokensFor(log[..|log| - 1], id) + if last.0 == id then [last.1] else []
  }

  lemma {:induction false} TokensForJoin(a: seq<(nat, int)>, b: seq<(nat, int)>, id: nat)
    ensures TokensFor(a + b, id) == TokensFor(a, id) + TokensFor(b, id)
  {
    if b == [] {
      assert a + b == a;
    } else {
      TokensForJoin(a, b[..|b| - 1], id);
      assert (a + b)[..|a + b| - 1] == a + b[..|b| - 1];
    }
  }

  function Done(r: Request): nat { if r.reason == Running then 0 else 1 }

  /** From a to b request id gained exactly the tokens and the completion that o reports for it; its terms stay. */
  ghost predicate GainAt(a: map<nat, Request>, b: map<nat, Request>, o: Output, id: nat) {
    && (id in a <==> id in b)
    && (id !in a ==> TokensFor(o.newTokens, id) == [] && multiset(o.completed)[id] == 0)
    && (id in a ==>
          && b[id].prompt == a[id].prompt && b[id].maxNew == a[id].maxNew && b[id].eos == a[id].eos
          && b[id].generated == a[id].generated + TokensFor(o.newTokens, id)
          && Done(b[id]) == Done(a[id]) + multiset(o.completed)[id])
  }

  ghost predicate Gain(a: map<nat, Request>, b: map<nat, Request>, o: Output) {
    forall id {:trigger GainAt(a, b, o, id)} :: GainAt(a, b, o, id)
  }

  lemma GainNothing(a: map<nat, Request>, b: map<nat, Request>)
    requires forall id :: id in a <==> id in b
    requires forall id :: id in a ==> b[id].generated == a[id].generated && b[id].reason == a[id].reason
    requires forall id :: id in a ==> b[id].prompt == a[id].prompt && b[id].maxNew == a[id].maxNew && b[id].eos == a[id].eos
    ensures Gain(a, b, NOTHING)
  {
    forall id: nat ensures GainAt(a, b, NOTHING, id) { assert TokensFor([], id) == []; }
  }

  lemma GainJoin(a: map<nat, Request>, b: map<nat, Request>, c: map<nat, Request>, o1: Output, o2: Output)
    requires Gain(a, b, o1) && Gain(b, c, o2)
    ensures Gain(a, c, Join(o1, o2))
  {
    hide GainAt, Join;
    forall id: nat ensures GainAt(a, c, Join(o1, o2), id) {
      GainAtJoin(a, b, c, o1, o2, id);
    }
  }

  lemma GainAtJoin(a: map<nat, Request>, b: map<nat, Request>, c: map<nat, Request>, o1: Output, o2: Output, id: nat)
    requires GainAt(a, b, o1, id) && GainAt(b, c, o2, id)
    ensures GainAt(a, c, Join(o1, o2), id)
  {
    hide TokensFor;
    assert TokensFor([], id) == [] by { TokensForNone(id); }
    TokensForJoin(o1.newTokens, o2.newTokens, id);
    assert multiset(o1.completed + o2.completed) == multiset(o1.completed) + multiset(o2.completed);
  }

  lemma TokensForNone(id: nat)
    ensures TokensFor([], id) == []
  {
  }

  lemma EmitGain(cfg: Config, s: State, b: nat, id: nat, newPos: int)
    requires b < |s.slots| && id in s.reqs && id in s.held && s.reqs[id].reason == Running
    ensures Gain(s.reqs, Emit(cfg, s, b, id, newPos).0.reqs, Emit(cfg, s, b, id, newPos).1)
  {
    hide ReleaseAll;
    var (r, o) := Emit(cfg, s, b, id, newPos);
    forall x: nat ensures GainAt(s.reqs, r.reqs, o, x) {
      assert o.newTokens[..|o.newTokens| - 1] == [];
      assert TokensFor([], x) == [];
      assert o.completed == [] || o.completed == [id];
    }
  }

  lemma PrefillGain(cfg: Config, s: State)
    requires Inv(cfg, s) && CanAdmit(s)
    ensures Gain(s.reqs, Prefill(cfg, s).reqs, NOTHING)
  {
    PrefillSame(cfg, s);
    GainNothing(s.reqs, Prefill(cfg, s).reqs);
  }

  /** Prefill touches nothing a request has generated. */
  lemma PrefillSame(cfg: Config, s: State)
    requires cfg.tpp > 0 && CanAdmit(s)
    ensures var r := Prefill(cfg, s).reqs;
      && (forall id :: id in s.reqs <==> id in r)
      && (forall id :: id in s.reqs ==>
            r[id].(slotId := 0, prefixMatched := 0) == s.reqs[id].(slotId := 0, prefixMatched := 0))
  {
    hide Match, RetainAll, Insert, PrefixesTo, Pages, Times, FirstFree;
  }

  lemma AdmitOneGain(cfg: Config, s: State)
    requires Inv(cfg, s) && CanAdmit(s)
    ensures Gain(s.reqs, AdmitOne(cfg, s).0.reqs, AdmitOne(cfg, s).1)
  {
    hide InvAt, NoLeak, Prefill, Emit, Gain, IdsInv;
    var id, b := s.pending[0], FirstFree(s.slots, 0);
    InvParts(cfg, s, 0);
    PendingFresh(s);
    PrefillSame(cfg, s);
    PrefillGain(cfg, s);
    var s1 := Prefill(cfg, s);
    EmitGain(cfg, s1, b, id, |s.reqs[id].prompt|);
    GainJoin(s.reqs, s1.reqs, AdmitOne(cfg, s).0.reqs, NOTHING, AdmitOne(cfg, s).1);
    JoinNothing(AdmitOne(cfg, s).1);
  }

  lemma JoinNothing(o: Output)
    ensures Join(NOTHING, o) == o && Join(o, NOTHING) == o
  {
  }

  lemma {:induction false} AdmitAllGain(cfg: Config, s: State)
    requires Inv(cfg, s)
    ensures Gain(s.reqs, AdmitAll(cfg, s).0.reqs, AdmitAll(cfg, s).1)
    decreases |s.pending|
  {
    hide InvAt, NoLeak, AdmitOne, CanAdmit, Gain;
    InvParts(cfg, s, 0);
    if CanAdmit(s) {
      AdmitOneKeeps(cfg, s);
      AdmitOneGain(cfg, s);
      var (s1, o1) := AdmitOne(cfg, s);
      AdmitAllGain(cfg, s1);
      GainJoin(s.reqs, s1.reqs, AdmitAll(cfg, s1).0.reqs, o1, AdmitAll(cfg, s1).1);
    } else {
      GainNothing(s.reqs, s.reqs);
    }
  }

  lemma {:induction false} DecodeGain(cfg: Config, s: State, b: nat, n: nat)
    requires InvAt(cfg, s, 0) && b <= n <= |s.slots|
    ensures Gain(s.reqs, DecodeFrom(cfg, s, b, n).0.reqs, DecodeFrom(cfg, s, b, n).1)
    decreases n - b
  {
    hide InvAt, Emit, Due, TokensOk, Gain;
    if b == n {
      GainNothing(s.reqs, s.reqs);
    } else if Served(s, b) {
      var id := s.slots[b].value;
      ServedKeeps(cfg, s, b);
      EmitGain(cfg, s, b, id, s.reqs[id].currentPos + 1);
      var (s1, o1) := Emit(cfg, s, b, id, s.reqs[id].currentPos + 1);
      DecodeGain(cfg, s1, b + 1, n);
      GainJoin(s.reqs, s1.reqs, DecodeFrom(cfg, s1, b + 1, n).0.reqs, o1, DecodeFrom(cfg, s1, b + 1, n).1);
    } else {
      DecodeGain(cfg, s, b + 1, n);
    }
  }

  /** The result of a step lists exactly the tokens appended and the requests completed by it. */
  lemma StepGain(cfg: Config, s: State)
    requires Inv(cfg, s)
    ensures Gain(s.reqs, Step(cfg, s).0.reqs, Step(cfg, s).1)
  {
    hide InvAt, NoLeak, AdmitAll, CanAdmit, DecodeFrom, Bucket, Gain;
    InvParts(cfg, s, 0);
    if CanAdmit(s) {
      AdmitAllGain(cfg, s);
    } else if Idle(s.slots) {
      GainNothing(s.reqs, s.reqs);
    } else {
      PadKeeps(cfg, s, Bucket(s));
      DecodeGain(cfg, Pad(s, Bucket(s)), 0, Bucket(s));
    }
  }

  /** log tells, for every id, exactly the tokens generated, in order, and whether it is complete, once. */
  ghost predicate LoggedAt(reqs: map<nat, Request>, log: Output, id: nat) {
    if id in reqs then
      TokensFor(log.newTokens, id) == reqs[id].generated && multiset(log.completed)[id] == Done(reqs[id])
    else TokensFor(log.newTokens, id) == [] && multiset(log.completed)[id] == 0
  }

  ghost predicate Logged(reqs: map<nat, Request>, log: Output) {
    forall id {:trigger LoggedAt(reqs, log, id)} :: LoggedAt(reqs, log, id)
  }

  lemma LoggedGain(a: map<nat, Request>, b: map<nat, Request>, log: Output, o: Output)
    requires Logged(a, log) && Gain(a, b, o)
    ensures Logged(b, Join(log, o))
  {
    forall id: nat ensures LoggedAt(b, Join(log, o), id) {
      assert LoggedAt(a, log, id) && GainAt(a, b, o, id);
      TokensForJoin(log.newTokens, o.newTokens, id);
      assert multiset(log.completed + o.completed) == multiset(log.completed) + multiset(o.completed);
    }
  }

  lemma LoggedAdd(cfg: Config, s: State, log: Output, prompt: seq<int>, maxNew: int, eos: int)
    requires IdsInv(s) && Logged(s.reqs, log)
    ensures Logged(Add(cfg, s, prompt, maxNew, eos).reqs, log)
  {
    var r := Add(cfg, s, prompt, maxNew, eos);
    forall id: nat ensures LoggedAt(r.reqs, log, id) { assert LoggedAt(s.reqs, log, id); }
  }

  /**
   Over any run: what the steps reported for each id is its generated tokens in order, and it is reported
   complete once if it has finished and never otherwise.
   */
  lemma {:induction false} RunLogged(cfg: Config, maxBatch: nat, es: seq<Event>)
    requires cfg.tpp > 0
    ensures Logged(Run(cfg, Init(maxBatch), es).0.reqs, Run(cfg, Init(maxBatch), es).1)
  {
    hide InvAt, NoLeak, Step, Add, Logged, Gain;
    if es == [] {
      LoggedEmpty();
    } else {
      var (s, log) := Run(cfg, Init(maxBatch), es[..|es| - 1]);
      RunLogged(cfg, maxBatch, es[..|es| - 1]);
      RunInv(cfg, maxBatch, es[..|es| - 1]);
      InvParts(cfg, s, 0);
      JoinNothing(log);
      match es[|es| - 1]
      case AddRequest(prompt, maxNew, eos) => LoggedAdd(cfg, s, log, prompt, maxNew, eos);
      case RunStep => StepGain(cfg, s); LoggedGain(s.reqs, Step(cfg, s).0.reqs, log, Step(cfg, s).1);
      case _ =>
    }
  }

  lemma LoggedEmpty()
    ensures Logged(map[], NOTHING)
  {
    forall id: nat ensures LoggedAt(map[], NOTHING, id) { assert TokensFor([], id) == []; }
  }

  /** The requests that arrive during a run, in order. */
  function Arrivals(es: seq<Event>): seq<Event> {
    if es == [] then [] else
      Arrivals(es[..|es| - 1]) + if es[|es| - 1].AddRequest? then [es[|es| - 1]] else []
  }

  /** The i-th arrival has id i and keeps its prompt, its limit and its end token, the default where it names none. */
  lemma {:induction false} RunRequests(cfg: Config, maxBatch: nat, es: seq<Event>, id: nat)
    requires cfg.tpp > 0
    ensures var s := Run(cfg, Init(maxBatch), es).0; var arrivals := Arrivals(es);
      && s.nextId == |arrivals| + 1
      && (id in s.reqs <==> 1 <= id <= |arrivals|)
      && (1 <= id <= |arrivals| ==>
            var r, e := s.reqs[id], arrivals[id - 1];
            && e.AddRequest? && r.prompt == e.prompt && r.maxNew == e.maxNew
            && r.eos == if e.eos >= 0 then e.eos else cfg.defaultEos)
  {
    hide InvAt, NoLeak, Step, Gain;
    if es != [] {
      var n := |es| - 1;
      var s := Run(cfg, Init(maxBatch), es[..n]).0;
      RunRequests(cfg, maxBatch, es[..n], id);
      RunInv(cfg, maxBatch, es[..n]);
      if es[n].RunStep? {
        StepGain(cfg, s);
        StepSizes(cfg, s);
        GainTerms(s.reqs, Step(cfg, s).0.reqs, Step(cfg, s).1);
      }
    }
  }

  lemma GainTerms(a: map<nat, Request>, b: map<nat, Request>, o: Output)
    requires Gain(a, b, o)
    ensures forall id :: id in a <==> id in b
    ensures forall id :: id in a ==> b[id].prompt == a[id].prompt && b[id].maxNew == a[id].maxNew && b[id].eos == a[id].eos
  {
    forall id: nat ensures id in a <==> id in b { assert GainAt(a, b, o, id); }
    forall id | id in a ensures b[id].prompt == a[id].prompt && b[id].maxNew == a[id].maxNew && b[id].eos == a[id].eos {
      assert GainAt(a, b, o, id);
    }
  }

  /* ---------- Progress and termination ---------- */

  /** Tokens a request may still get. */
  function Left(r: Request): int { if r.reason == Running then Quota(r) - |r.generated| else 0 }

  ghost function WorkTo(reqs: map<nat, Request>, n: nat): int {
    if n == 0 then 0 else WorkTo(reqs, n - 1) + if n in reqs then Left(reqs[n]) else 0
  }

  /** The sum of Left over all submitted requests. */
  ghost function Work(s: State): int
  {
    WorkTo(s.reqs, s.nextId)
  }

  lemma {:induction false} WorkUpdate(reqs: map<nat, Request>, n: nat, id: nat, r: Request)
    requires id in reqs
    ensures WorkTo(reqs[id := r], n) == WorkTo(reqs, n) + if 1 <= id <= n then Left(r) - Left(reqs[id]) else 0
  {
    if n > 0 { WorkUpdate(reqs, n - 1, id, r); }
  }

  lemma {:induction false} WorkSame(a: map<nat, Request>, b: map<nat, Request>, n: nat)
    requires forall id :: id in a <==> id in b
    requires forall id :: id in a ==> Left(a[id]) == Left(b[id])
    ensures WorkTo(a, n) == WorkTo(b, n)
  {
    if n > 0 { WorkSame(a, b, n - 1); }
  }

  lemma LeftFacts(cfg: Config, s: State, id: nat)
    requires InvAt(cfg, s, 0) && id in s.reqs
    ensures Left(s.reqs[id]) >= 0
    ensures s.reqs[id].reason == Running ==> Left(s.reqs[id]) >= 1
  {
    hide RefsInv, HeldInv, AllocInv;
    assert id != 0;
    assert id < First(s) ==> TokensOk(cfg, id, s.reqs[id]);
  }

  /** Every running request still has a token to get, so no work left means nothing is pending or active. */
  lemma {:induction false} WorkAtLeast(cfg: Config, s: State, n: nat, id: nat)
    requires InvAt(cfg, s, 0)
    ensures WorkTo(s.reqs, n) >= 0
    ensures 1 <= id <= n && id in s.reqs && s.reqs[id].reason == Running ==> WorkTo(s.reqs, n) >= 1
  {
    hide InvAt, Left;
    if n > 0 {
      WorkAtLeast(cfg, s, n - 1, id);
      if n in s.reqs { LeftFacts(cfg, s, n); }
    }
  }

  lemma WorkZeroIff(cfg: Config, s: State)
    requires Inv(cfg, s)
    ensures Work(s) >= 0
    ensures HasWork(s) ==> Work(s) > 0
  {
    hide InvAt;
    InvParts(cfg, s, 0);
    WorkAtLeast(cfg, s, s.nextId, 0);
    if s.pending != [] {
      PendingFresh(s);
      WorkAtLeast(cfg, s, s.nextId, s.pending[0]);
    } else if b: nat :| b < |s.slots| && s.slots[b].Some? {
      SlotRunning(s, b);
      WorkAtLeast(cfg, s, s.nextId, s.slots[b].value);
    }
  }

  lemma EmitWork(cfg: Config, s: State, b: nat, id: nat, newPos: int)
    requires b < |s.slots| && id in s.reqs && id in s.held && 1 <= id < s.nextId
    requires s.reqs[id].reason == Running && |s.reqs[id].generated| < Quota(s.reqs[id])
    ensures Work(Emit(cfg, s, b, id, newPos).0) < Work(s)
    ensures Emit(cfg, s, b, id, newPos).0.nextId == s.nextId
  {
    hide ReleaseAll, WorkTo;
    WorkUpdate(s.reqs, s.nextId, id, Emit(cfg, s, b, id, newPos).0.reqs[id]);
  }

  lemma PrefillWork(cfg: Config, s: State)
    requires cfg.tpp > 0 && CanAdmit(s)
    ensures Work(Prefill(cfg, s)) == Work(s)
  {
    hide Prefill, WorkTo;
    PrefillSame(cfg, s);
    PrefillNext(cfg, s);
    var r := Prefill(cfg, s).reqs;
    forall x | x in s.reqs ensures Left(s.reqs[x]) == Left(r[x]) {
      assert r[x].(slotId := 0, prefixMatched := 0) == s.reqs[x].(slotId := 0, prefixMatched := 0);
    }
    WorkSame(s.reqs, r, s.nextId);
  }

  lemma AdmitOneWork(cfg: Config, s: State)
    requires Inv(cfg, s) && CanAdmit(s)
    ensures Work(AdmitOne(cfg, s).0) < Work(s)
  {
    hide InvAt, NoLeak, Prefill, Emit, Work, IdsInv;
    var id, b := s.pending[0], FirstFree(s.slots, 0);
    InvParts(cfg, s, 0);
    PendingFresh(s);
    PrefillSame(cfg, s);
    PrefillNext(cfg, s);
    PrefillWork(cfg, s);
    var s1 := Prefill(cfg, s);
    assert s1.reqs[id].(slotId := 0, prefixMatched := 0) == s.reqs[id].(slotId := 0, prefixMatched := 0);
    EmitWork(cfg, s1, b, id, |s.reqs[id].prompt|);
  }

  lemma PrefillNext(cfg: Config, s: State)
    requires cfg.tpp > 0 && CanAdmit(s)
    ensures Prefill(cfg, s).nextId == s.nextId
  {
    hide Match, RetainAll, Insert, PrefixesTo, Pages, Times, FirstFree;
  }

  lemma {:induction false} AdmitAllWork(cfg: Config, s: State)
    requires Inv(cfg, s)
    ensures Work(AdmitAll(cfg, s).0) <= Work(s)
    ensures CanAdmit(s) ==> Work(AdmitAll(cfg, s).0) < Work(s)
    decreases |s.pending|
  {
    hide InvAt, NoLeak, AdmitOne, CanAdmit, Work;
    InvParts(cfg, s, 0);
    if CanAdmit(s) {
      AdmitOneKeeps(cfg, s);
      AdmitOneWork(cfg, s);
      AdmitAllWork(cfg, AdmitOne(cfg, s).0);
    }
  }

  ghost predicate Occupied(s: State, b: nat, n: nat) {
    exists c :: b <= c < n <= |s.slots| && s.slots[c].Some?
  }

  lemma ServedWork(cfg: Config, s: State, b: nat)
    requires InvAt(cfg, s, 0) && Served(s, b)
    ensures var r := Emit(cfg, s, b, s.slots[b].value, s.reqs[s.slots[b].value].currentPos + 1).0;
      InvAt(cfg, r, 0) && Work(r) < Work(s)
  {
    hide InvAt, Emit, Due, TokensOk, Work;
    var id := s.slots[b].value;
    InvParts(cfg, s, 0);
    ServedKeeps(cfg, s, b);
    SlotRunning(s, b);
    RunningOwed(cfg, id, s.reqs[id]);
    EmitWork(cfg, s, b, id, s.reqs[id].currentPos + 1);
  }

  lemma {:induction false} DecodeWork(cfg: Config, s: State, b: nat, n: nat)
    requires InvAt(cfg, s, 0) && b <= n <= |s.slots|
    ensures Work(DecodeFrom(cfg, s, b, n).0) <= Work(s)
    ensures Occupied(s, b, n) ==> Work(DecodeFrom(cfg, s, b, n).0) < Work(s)
    decreases n - b
  {
    hide InvAt, Emit, Work, IdsInv, Occupied, TokensInv, RefsInv, HeldInv, AllocInv;
    InvParts(cfg, s, 0);
    OccupiedStep(s, b, n);
    if b < n {
      ServedIff(s, b);
      if Served(s, b) {
        ServedWork(cfg, s, b);
        DecodeWork(cfg, Emit(cfg, s, b, s.slots[b].value, s.reqs[s.slots[b].value].currentPos + 1).0, b + 1, n);
      } else {
        DecodeWork(cfg, s, b + 1, n);
      }
    }
  }

  lemma {:induction false} DecodeNone(cfg: Config, s: State, b: nat, n: nat)
    requires b <= n <= |s.slots| && !Occupied(s, b, n)
    ensures DecodeFrom(cfg, s, b, n) == (s, NOTHING)
    decreases n - b
  {
    hide Emit, Occupied;
    OccupiedStep(s, b, n);
    if b < n { DecodeNone(cfg, s, b + 1, n); }
  }

  lemma OccupiedStep(s: State, b: nat, n: nat)
    requires b <= n <= |s.slots|
    ensures Occupied(s, b, n) <==> b < n && (s.slots[b].Some? || Occupied(s, b + 1, n))
  {
    if c :| b <= c < n <= |s.slots| && s.slots[c].Some? {
      if c != b { assert Occupied(s, b + 1, n); }
    }
  }

  lemma RunningOwed(cfg: Config, id: nat, r: Request)
    requires TokensOk(cfg, id, r) && r.reason == Running
    ensures |r.generated| < Quota(r)
  {
  }

  /** Something can be admitted, or the decode bucket reaches an occupied slot. */
  ghost predicate CanProgress(s: State) {
    (s.pending != [] && FirstFree(s.slots, 0) < |s.slots|) || Occupied(s, 0, Bucket(s))
  }

  lemma AdmitIff(s: State)
    requires IdsInv(s)
    ensures CanAdmit(s) <==> s.pending != [] && FirstFree(s.slots, 0) < |s.slots|
  {
    if s.pending != [] { PendingFresh(s); }
  }

  /** A step makes progress exactly when it can; otherwise it changes no request, slot or queue and reports nothing. */
  lemma StepProgressIff(cfg: Config, s: State)
    requires Inv(cfg, s)
    ensures Work(Step(cfg, s).0) < Work(s) <==> CanProgress(s)
    ensures !CanProgress(s) ==>
      var (r, o) := Step(cfg, s);
      o == NOTHING && r.reqs == s.reqs && r.slots == s.slots && r.pending == s.pending && r.nextId == s.nextId
      && r.buckets == s.buckets
  {
    hide InvAt, NoLeak, AdmitAll, CanAdmit, DecodeFrom, WorkTo, Bucket, IdsInv;
    InvParts(cfg, s, 0);
    AdmitIff(s);
    if CanAdmit(s) {
      AdmitAllWork(cfg, s);
    } else if Idle(s.slots) {
      assert !Occupied(s, 0, Bucket(s));
    } else {
      DecodeProgress(cfg, s);
    }
  }

  lemma DecodeProgress(cfg: Config, s: State)
    requires Inv(cfg, s)
    ensures var n := Bucket(s); var (d, o) := DecodeFrom(cfg, Pad(s, n), 0, n); var r := FreeIfIdle(d);
      && (Work(r) < Work(s) <==> Occupied(s, 0, n))
      && (!Occupied(s, 0, n) ==>
            && o == NOTHING && r.reqs == s.reqs && r.slots == s.slots && r.pending == s.pending
            && r.nextId == s.nextId && r.buckets == s.buckets)
  {
    hide InvAt, NoLeak, DecodeFrom, WorkTo, Bucket;
    var n := Bucket(s);
    PadKeeps(cfg, s, n);
    DecodeWork(cfg, Pad(s, n), 0, n);
    assert Occupied(Pad(s, n), 0, n) <==> Occupied(s, 0, n);
    if !Occupied(s, 0, n) { DecodeNone(cfg, Pad(s, n), 0, n); }
  }

  /** The bucket reaches every occupied slot exactly when buckets are off or no slot from 16 on is occupied. */
  lemma BucketCoversIff(s: State)
    ensures (forall b :: 0 <= b < |s.slots| && s.slots[b].Some? ==> b < Bucket(s))
            <==> !s.buckets || TopSlot(s.slots) <= 16
  {
    var top := TopSlot(s.slots);
    if top > 0 { assert s.slots[top - 1].Some?; }
  }

  lemma WorkCanProgress(cfg: Config, s: State)
    requires Inv(cfg, s) && HasWork(s)
    requires |s.slots| >= 1 && (!s.buckets || |s.slots| <= 16)
    ensures CanProgress(s)
  {
    BucketCoversIff(s);
    if Idle(s.slots) {
      assert FirstFree(s.slots, 0) == 0;
    } else {
      var b :| 0 <= b < |s.slots| && s.slots[b].Some?;
      assert b < Bucket(s);
    }
  }

  ghost function Steps(cfg: Config, s: State, n: nat): State
    requires cfg.tpp > 0
    decreases n
  {
    if n == 0 then s else Steps(cfg, Step(cfg, s).0, n - 1)
  }

  lemma StepSizes(cfg: Config, s: State)
    requires Inv(cfg, s)
    ensures |Step(cfg, s).0.slots| == |s.slots| && Step(cfg, s).0.buckets == s.buckets
    ensures Step(cfg, s).0.nextId == s.nextId && Step(cfg, s).0.caching == s.caching
  {
    hide InvAt, NoLeak, AdmitAll, CanAdmit, DecodeFrom, Bucket, Pad, FreeIfIdle, IdsInv, Idle;
    InvParts(cfg, s, 0);
    if CanAdmit(s) {
      AdmitAllSizes(cfg, s);
    } else if !Idle(s.slots) {
      PadSame(s, Bucket(s));
      DecodeSizes(cfg, Pad(s, Bucket(s)), 0, Bucket(s));
      FreeSame(DecodeFrom(cfg, Pad(s, Bucket(s)), 0, Bucket(s)).0);
    }
  }

  lemma PadSame(s: State, n: nat)
    ensures Pad(s, n).(execSlots := {}) == s.(execSlots := {})
  {
  }

  lemma FreeSame(s: State)
    ensures FreeIfIdle(s).(execSlots := {}) == s.(execSlots := {})
  {
  }

  lemma {:induction false} AdmitAllSizes(cfg: Config, s: State)
    requires cfg.tpp > 0
    ensures |AdmitAll(cfg, s).0.slots| == |s.slots| && AdmitAll(cfg, s).0.buckets == s.buckets
    ensures AdmitAll(cfg, s).0.nextId == s.nextId && AdmitAll(cfg, s).0.caching == s.caching
    decreases |s.pending|
  {
    hide Match, RetainAll, Insert, PrefixesTo, Pages, Times, FirstFree, ReleaseAll;
    if CanAdmit(s) { AdmitAllSizes(cfg, AdmitOne(cfg, s).0); }
  }

  lemma {:induction false} DecodeSizes(cfg: Config, s: State, b: nat, n: nat)
    requires b <= n <= |s.slots|
    ensures |DecodeFrom(cfg, s, b, n).0.slots| == |s.slots| && DecodeFrom(cfg, s, b, n).0.buckets == s.buckets
    ensures DecodeFrom(cfg, s, b, n).0.nextId == s.nextId && DecodeFrom(cfg, s, b, n).0.caching == s.caching
    decreases n - b
  {
    hide ReleaseAll;
    if b < n {
      if Served(s, b) {
        DecodeSizes(cfg, Emit(cfg, s, b, s.slots[b].value, s.reqs[s.slots[b].value].currentPos + 1).0, b + 1, n);
      } else {
        DecodeSizes(cfg, s, b + 1, n);
      }
    }
  }

  /** Whatever the sampler returns, a closed workload is drained within as many steps as tokens may still come. */
  lemma {:induction false} Drains(cfg: Config, s: State, n: nat)
    requires Inv(cfg, s) && |s.slots| >= 1 && (!s.buckets || |s.slots| <= 16)
    requires n >= Work(s)
    ensures Inv(cfg, Steps(cfg, s, n)) && !HasWork(Steps(cfg, s, n))
    decreases n
  {
    hide InvAt, NoLeak, Step, Work;
    WorkZeroIff(cfg, s);
    if n > 0 {
      StepKeeps(cfg, s);
      StepSizes(cfg, s);
      InvParts(cfg, s, 0);
      if HasWork(s) {
        WorkCanProgress(cfg, s);
        StepProgressIff(cfg, s);
        Drains(cfg, Step(cfg, s).0, n - 1);
      } else {
        IdleStep(cfg, s);
        IdleSteps(cfg, s, n);
      }
    }
  }

  lemma IdleStep(cfg: Config, s: State)
    requires cfg.tpp > 0 && !HasWork(s)
    ensures Step(cfg, s) == (s, NOTHING)
  {
  }

  lemma {:induction false} IdleSteps(cfg: Config, s: State, n: nat)
    requires cfg.tpp > 0 && !HasWork(s)
    ensures Steps(cfg, s, n) == s
  {
    if n > 0 {
      IdleStep(cfg, s);
      IdleSteps(cfg, s, n - 1);
    }
  }

  /** Without those conditions it need not drain: with buckets on, requests only in slots from 16 on are never served. */
  lemma {:induction false} StarvesForever(cfg: Config, s: State, n: nat)
    requires Inv(cfg, s) && s.pending == [] && s.buckets && TopSlot(s.slots) > 16
    requires forall b :: 0 <= b < 16 ==> s.slots[b].None?
    ensures Steps(cfg, s, n).reqs == s.reqs && HasWork(Steps(cfg, s, n))
    decreases n
  {
    hide InvAt, NoLeak, Step, Work, IdsInv, TokensInv, RefsInv, HeldInv, AllocInv;
    assert !Idle(s.slots) by { assert s.slots[TopSlot(s.slots) - 1].Some?; }
    if n > 0 {
      assert Bucket(s) <= 16;
      assert !CanProgress(s);
      StepProgressIff(cfg, s);
      StepKeeps(cfg, s);
      InvParts(cfg, s, 0);
      StarvesForever(cfg, Step(cfg, s).0, n - 1);
    }
  }

  /* ---------- What one decode step gives each slot ---------- */

  /** The next token of each occupied slot from b up to n, in slot order. */
  ghost function NextTokens(cfg: Config, s: State, b: nat, n: nat): seq<(nat, int)>
    requires b <= n <= |s.slots|
    decreases n - b
  {
    if b == n then []
    else NextToken(cfg, s, b) + NextTokens(cfg, s, b + 1, n)
  }

  ghost function NextToken(cfg: Config, s: State, b: nat): seq<(nat, int)>
  {
    if Served(s, b) then
      var id := s.slots[b].value; [(id, cfg.sample(id, |s.reqs[id].generated|))]
    else []
  }

  lemma {:induction false} NextTokensSame(cfg: Config, s: State, r: State, b: nat, n: nat)
    requires b <= n <= |s.slots| == |r.slots|
    requires forall c :: b <= c < n ==> r.slots[c] == s.slots[c]
    requires forall c :: b <= c < n && s.slots[c].Some? ==>
      var id := s.slots[c].value;
      && (id in s.reqs <==> id in r.reqs) && (id in s.held <==> id in r.held)
      && (id in s.reqs ==> r.reqs[id] == s.reqs[id])
    ensures NextTokens(cfg, s, b, n) == NextTokens(cfg, r, b, n)
    decreases n - b
  {
    if b < n { NextTokensSame(cfg, s, r, b + 1, n); }
  }

  lemma EmitOthers(cfg: Config, s: State, b: nat, newPos: int, n: nat)
    requires IdsInv(s) && b < n <= |s.slots| && Served(s, b)
    ensures var r := Emit(cfg, s, b, s.slots[b].value, newPos).0;
      NextTokens(cfg, r, b + 1, n) == NextTokens(cfg, s, b + 1, n)
  {
    hide ReleaseAll;
    var id := s.slots[b].value;
    var r := Emit(cfg, s, b, id, newPos).0;
    forall c | b + 1 <= c < n && s.slots[c].Some? ensures s.slots[c].value != id {
      SlotRunning(s, b);
      SlotRunning(s, c);
    }
    NextTokensSame(cfg, s, r, b + 1, n);
  }

  lemma {:induction false} DecodeTokens(cfg: Config, s: State, b: nat, n: nat)
    requires InvAt(cfg, s, 0) && b <= n <= |s.slots|
    ensures DecodeFrom(cfg, s, b, n).1.newTokens == NextTokens(cfg, s, b, n)
    decreases n - b
  {
    hide InvAt, Emit, IdsInv, Work, NextToken, TokensInv, RefsInv, HeldInv, AllocInv;
    InvParts(cfg, s, 0);
    if b < n {
      NextTokensStep(cfg, s, b, n);
      if Served(s, b) {
        var id := s.slots[b].value;
        ServedWork(cfg, s, b);
        EmitOthers(cfg, s, b, s.reqs[id].currentPos + 1, n);
        EmitOne(cfg, s, b, id, s.reqs[id].currentPos + 1);
        DecodeTokens(cfg, Emit(cfg, s, b, id, s.reqs[id].currentPos + 1).0, b + 1, n);
      } else {
        NotServed(cfg, s, b, n);
        DecodeTokens(cfg, s, b + 1, n);
      }
    }
  }

  lemma NotServed(cfg: Config, s: State, b: nat, n: nat)
    requires b < n <= |s.slots| && !Served(s, b)
    ensures NextTokens(cfg, s, b, n) == NextTokens(cfg, s, b + 1, n)
  {
  }

  lemma NextTokensStep(cfg: Config, s: State, b: nat, n: nat)
    requires b < n <= |s.slots|
    ensures NextTokens(cfg, s, b, n) == NextToken(cfg, s, b) + NextTokens(cfg, s, b + 1, n)
  {
  }

  lemma EmitOne(cfg: Config, s: State, b: nat, id: nat, newPos: int)
    requires b < |s.slots| && id in s.reqs && id in s.held
    ensures Emit(cfg, s, b, id, newPos).1.newTokens == [(id, cfg.sample(id, |s.reqs[id].generated|))]
    ensures Served(s, b) && s.slots[b].value == id ==> Emit(cfg, s, b, id, newPos).1.newTokens == NextToken(cfg, s, b)
  {
  }

  /** A step that admits nothing gives each slot below the bucket exactly its next token, in slot order, and no other. */
  lemma NonAdmittingStep(cfg: Config, s: State)
    requires Inv(cfg, s) && !CanAdmit(s)
    ensures Step(cfg, s).1.newTokens == NextTokens(cfg, s, 0, Bucket(s))
  {
    hide InvAt, NoLeak, CanAdmit, DecodeFrom, Bucket;
    InvParts(cfg, s, 0);
    var n := Bucket(s);
    if Idle(s.slots) {
      NoneServed(cfg, s, 0, n);
    } else {
      PadKeeps(cfg, s, n);
      DecodeTokens(cfg, Pad(s, n), 0, n);
      NextTokensSame(cfg, s, Pad(s, n), 0, n);
    }
  }

  lemma {:induction false} NoneServed(cfg: Config, s: State, b: nat, n: nat)
    requires Idle(s.slots) && b <= n <= |s.slots|
    ensures NextTokens(cfg, s, b, n) == []
    decreases n - b
  {
    if b < n { NoneServed(cfg, s, b + 1, n); }
  }

  /* ---------- What a step does to each request ---------- */

  /** A decode pass changes no request that sits in none of its slots. */
  lemma {:induction false} DecodeUntouched(cfg: Config, s: State, b: nat, n: nat, id: nat)
    requires InvAt(cfg, s, 0) && b <= n <= |s.slots| && id in s.reqs
    requires forall c :: b <= c < n ==> s.slots[c] != Some(id)
    ensures var r := DecodeFrom(cfg, s, b, n).0; id in r.reqs && r.reqs[id] == s.reqs[id]
    decreases n - b
  {
    hide InvAt, Due, TokensOk, Emit;
    if b < n {
      if Served(s, b) {
        ServedKeeps(cfg, s, b);
        EmitSlot(cfg, s, b, s.slots[b].value, s.reqs[s.slots[b].value].currentPos + 1);
        DecodeUntouched(cfg, Emit(cfg, s, b, s.slots[b].value, s.reqs[s.slots[b].value].currentPos + 1).0, b + 1, n, id);
      } else {
        DecodeUntouched(cfg, s, b + 1, n, id);
      }
    }
  }

  /** It gives the request in slot c its next token exactly when it reaches c. */
  lemma {:induction false} DecodeServes(cfg: Config, s: State, b: nat, n: nat, c: nat)
    requires InvAt(cfg, s, 0) && b <= c && b <= n <= |s.slots| && c < |s.slots| && s.slots[c].Some?
    ensures var id := s.slots[c].value; var r := DecodeFrom(cfg, s, b, n).0;
      && id in s.reqs && id in r.reqs
      && r.reqs[id].generated == s.reqs[id].generated + if c < n then [cfg.sample(id, |s.reqs[id].generated|)] else []
    decreases n - b
  {
    hide InvAt, Due, TokensOk, Emit, IdsInv;
    InvParts(cfg, s, 0);
    SlotRunning(s, c);
    var id := s.slots[c].value;
    if b < n {
      ServedIff(s, b);
      if Served(s, b) {
        SlotRunning(s, b);
        ServedKeeps(cfg, s, b);
        OnlySlot(s, b);
        var first := s.slots[b].value;
        EmitSlot(cfg, s, b, first, s.reqs[first].currentPos + 1);
        var r := Emit(cfg, s, b, first, s.reqs[first].currentPos + 1).0;
        if b == c {
          DecodeUntouched(cfg, r, b + 1, n, id);
        } else {
          DecodeServes(cfg, r, b + 1, n, c);
        }
      } else {
        DecodeServes(cfg, s, b + 1, n, c);
      }
    }
  }

  lemma EmitSlot(cfg: Config, s: State, b: nat, id: nat, newPos: int)
    requires b < |s.slots| && id in s.reqs && id in s.held
    ensures var r := Emit(cfg, s, b, id, newPos).0;
      && (forall c :: 0 <= c < |s.slots| && c != b ==> r.slots[c] == s.slots[c])
      && (forall x :: x in s.reqs ==> x in r.reqs)
      && (forall x {:trigger r.reqs[x]} {:trigger s.reqs[x]} :: x in s.reqs && x != id ==> r.reqs[x] == s.reqs[x])
      && r.reqs[id].generated == s.reqs[id].generated + [cfg.sample(id, |s.reqs[id].generated|)]
  {
    hide ReleaseAll;
  }

  lemma OnlySlot(s: State, b: nat)
    requires IdsInv(s) && b < |s.slots| && s.slots[b].Some?
    ensures forall c :: 0 <= c < |s.slots| && c != b ==> s.slots[c] != s.slots[b]
  {
    hide QueueInv, RestInv;
  }

  /**
   A step that can admit nothing gives every active request its next token, except that with graph buckets on slots
   from 16 on are left out.
   */
  lemma NonAdmittingServes(cfg: Config, s: State, c: nat)
    requires Inv(cfg, s) && (s.pending == [] || forall b :: 0 <= b < |s.slots| ==> s.slots[b].Some?)
    requires c < |s.slots| && s.slots[c].Some?
    ensures var id := s.slots[c].value; var r := Step(cfg, s).0;
      && id in s.reqs && id in r.reqs
      && r.reqs[id].generated ==
         s.reqs[id].generated + if !s.buckets || c < 16 then [cfg.sample(id, |s.reqs[id].generated|)] else []
  {
    hide InvAt, NoLeak, DecodeFrom, IdsInv;
    InvParts(cfg, s, 0);
    AdmitIff(s);
    BucketCoversIff(s);
    BucketReaches(s, c);
    var n := Bucket(s);
    PadKeeps(cfg, s, n);
    DecodeServes(cfg, Pad(s, n), 0, n, c);
  }

  lemma BucketReaches(s: State, c: nat)
    requires c < |s.slots| && s.slots[c].Some?
    ensures c < Bucket(s) <==> !s.buckets || c < 16
  {
    BucketCoversIff(s);
    assert TopSlot(s.slots) > c;
  }

  lemma SuffixOfRest(a: seq<nat>, r: seq<nat>)
    requires |a| >= 1 && |r| <= |a| - 1 && r == a[1..][|a| - 1 - |r|..]
    ensures r == a[|a| - |r|..]
  {
  }

  lemma NoneFree(slots: seq<Option<nat>>)
    requires FirstFree(slots, 0) == |slots|
    ensures forall b :: 0 <= b < |slots| ==> slots[b].Some?
  {
  }

  /** Admission goes on from the head of the queue until it is empty or no slot is free. */
  lemma {:induction false} AdmitsQueue(cfg: Config, s: State)
    requires Inv(cfg, s)
    ensures var r := AdmitAll(cfg, s).0;
      && (r.pending == [] || forall b :: 0 <= b < |r.slots| ==> r.slots[b].Some?)
      && |r.pending| <= |s.pending| && r.pending == s.pending[|s.pending| - |r.pending|..]
      && r.nextId == s.nextId && (CanAdmit(s) ==> |r.pending| < |s.pending|)
    decreases |s.pending|
  {
    hide Inv, AdmitOne, CanAdmit, IdsInv, FirstFree;
    AdmitCan(cfg, s);
    if CanAdmit(s) {
      AdmitOneKeeps(cfg, s);
      AdmitOneOthers(cfg, s);
      var s1 := AdmitOne(cfg, s).0;
      AdmitsQueue(cfg, s1);
      SuffixOfRest(s.pending, AdmitAll(cfg, s1).0.pending);
    } else if s.pending != [] {
      NoneFree(s.slots);
    }
  }

  lemma AdmitCan(cfg: Config, s: State)
    requires Inv(cfg, s)
    ensures cfg.tpp > 0 && (CanAdmit(s) <==> s.pending != [] && FirstFree(s.slots, 0) < |s.slots|)
    ensures FirstFree(s.slots, 0) <= |s.slots|
  {
    hide InvAt, NoLeak, IdsInv;
    InvParts(cfg, s, 0);
    AdmitIff(s);
  }

  /** It touches no request admitted before, and gives those it admits their first token. */
  lemma {:induction false} AdmitsEach(cfg: Config, s: State, id: nat)
    requires Inv(cfg, s) && id in s.reqs
    ensures var r := AdmitAll(cfg, s).0;
      && id in r.reqs
      && (id < First(s) ==> r.reqs[id] == s.reqs[id])
      && (First(s) <= id < First(r) ==> r.reqs[id].generated == [cfg.sample(id, 0)])
    decreases |s.pending|
  {
    hide InvAt, NoLeak, AdmitOne, CanAdmit, IdsInv;
    InvParts(cfg, s, 0);
    if CanAdmit(s) {
      AdmitOneKeeps(cfg, s);
      AdmitOneOthers(cfg, s);
      var s1 := AdmitOne(cfg, s).0;
      NextFirst(s, s1);
      AdmitsEach(cfg, s1, id);
    }
  }

  lemma NextFirst(s: State, r: State)
    requires s.pending != [] && r.pending == s.pending[1..] && r.nextId == s.nextId
    ensures First(r) == First(s) + 1
  {
  }

  lemma PrefillOthers(cfg: Config, s: State)
    requires cfg.tpp > 0 && CanAdmit(s)
    ensures var r := Prefill(cfg, s);
      && r.pending == s.pending[1..]
      && forall id {:trigger s.reqs[id]} {:trigger r.reqs[id]} :: id in s.reqs && id != s.pending[0] ==>
           id in r.reqs && r.reqs[id] == s.reqs[id]
  {
    hide Match, RetainAll, Insert, PrefixesTo, Pages, Times, FirstFree;
  }

  lemma AdmitOneOthers(cfg: Config, s: State)
    requires Inv(cfg, s) && CanAdmit(s)
    ensures var r := AdmitOne(cfg, s).0;
      && r.pending == s.pending[1..] && r.nextId == s.nextId && s.pending[0] == First(s)
      && s.pending[0] in r.reqs && r.reqs[s.pending[0]].generated == [cfg.sample(s.pending[0], 0)]
      && (forall id :: id in s.reqs ==> id in r.reqs)
      && (forall id {:trigger s.reqs[id]} {:trigger r.reqs[id]} ::
            id in s.reqs && id != s.pending[0] ==> r.reqs[id] == s.reqs[id])
  {
    hide InvAt, NoLeak, Prefill, ReleaseAll, IdsInv, FirstFree;
    InvParts(cfg, s, 0);
    PendingFresh(s);
    PrefillOthers(cfg, s);
    PrefillSame(cfg, s);
    PrefillNext(cfg, s);
    var id := s.pending[0];
    assert Prefill(cfg, s).reqs[id].(slotId := 0, prefixMatched := 0) == s.reqs[id].(slotId := 0, prefixMatched := 0);
  }

  /** The same for a step: what it admits leaves the queue from its head and gets one token. */
  lemma AdmittingStep(cfg: Config, s: State)
    requires Inv(cfg, s) && s.pending != [] && exists b :: 0 <= b < |s.slots| && s.slots[b].None?
    ensures var r := Step(cfg, s).0; var k := |s.pending| - |r.pending|;
      && 1 <= k && r.pending == s.pending[k..]
      && (r.pending == [] || forall b :: 0 <= b < |r.slots| ==> r.slots[b].Some?)
      && (forall id :: id in s.reqs && id !in s.pending ==> id in r.reqs && r.reqs[id] == s.reqs[id])
      && (forall i :: 0 <= i < k ==> s.pending[i] in r.reqs && r.reqs[s.pending[i]].generated == [cfg.sample(s.pending[i], 0)])
  {
    hide InvAt, NoLeak, AdmitAll, CanAdmit, IdsInv;
    InvParts(cfg, s, 0);
    AdmitIff(s);
    AdmitsQueue(cfg, s);
    QueueOrder(s);
    var r := AdmitAll(cfg, s).0;
    QueueLeft(s, r);
    forall id | id in s.reqs ensures id in r.reqs && (id !in s.pending ==> r.reqs[id] == s.reqs[id]) { AdmitsEach(cfg, s, id); }
    forall i | 0 <= i < |s.pending| - |r.pending|
      ensures s.pending[i] in r.reqs && r.reqs[s.pending[i]].generated == [cfg.sample(s.pending[i], 0)]
    {
      AdmitsEach(cfg, s, s.pending[i]);
    }
  }

  lemma QueueLeft(s: State, r: State)
    requires r.nextId == s.nextId
    ensures First(r) == First(s) + (|s.pending| - |r.pending|)
  {
  }

  lemma QueueOrder(s: State)
    requires IdsInv(s)
    ensures First(s) == s.nextId - |s.pending|
    ensures forall id :: id in s.reqs ==> (id in s.pending <==> id >= First(s))
    ensures forall i :: 0 <= i < |s.pending| ==> s.pending[i] in s.reqs && s.pending[i] == First(s) + i
  {
    forall id | id in s.reqs ensures id in s.pending <==> id >= First(s) { NotPending(s, id); }
  }

  /* ---------- Where a request's tokens end ---------- */

  /** How many of the tokens sampled for a request it gets: up to the first end token, counted from n, or its quota. */
  function CutAt(cfg: Config, id: nat, r: Request, n: nat): (m: nat)
    requires 1 <= n <= Quota(r)
    ensures n <= m <= Quota(r)
    decreases Quota(r) - n
  {
    if n == Quota(r) || IsEos(r, cfg.sample(id, n - 1)) then n else CutAt(cfg, id, r, n + 1)
  }

  lemma {:induction false} CutLater(cfg: Config, id: nat, r: Request, n: nat, m: nat)
    requires 1 <= n <= m <= Quota(r) && forall i :: n - 1 <= i < m - 1 ==> !IsEos(r, cfg.sample(id, i))
    ensures CutAt(cfg, id, r, n) == CutAt(cfg, id, r, m)
    decreases m - n
  {
    if n < m { CutLater(cfg, id, r, n + 1, m); }
  }

  /** An admitted request has the first of its sampled tokens, and has finished exactly when it has all up to the cut. */
  lemma GeneratedIsCut(cfg: Config, s: State, id: nat)
    requires Inv(cfg, s) && 1 <= id < First(s)
    ensures id in s.reqs
    ensures var r := s.reqs[id]; var m := CutAt(cfg, id, r, 1);
      && |r.generated| <= m && (r.reason != Running <==> |r.generated| == m)
      && (forall i :: 0 <= i < |r.generated| ==> r.generated[i] == cfg.sample(id, i))
      && (r.reason != Running ==> r.reason == if IsEos(r, cfg.sample(id, m - 1)) then Stop else Length)
  {
    hide RefsInv, HeldInv, AllocInv, SlotsInv, RestInv;
    var r := s.reqs[id];
    var n := |r.generated|;
    assert TokensOk(cfg, id, r);
    assert IsEos(r, r.generated[n - 1]) <==> IsEos(r, cfg.sample(id, n - 1));
    forall i | 0 <= i < n - 1 ensures !IsEos(r, cfg.sample(id, i)) { assert !IsEos(r, r.generated[i]); }
    CutLater(cfg, id, r, 1, n);
  }

  function Abs(x: int): nat { if x < 0 then -x else x }

  /** An end token that the sampler returns for none of the first three tokens of a request. */
  function Unsampled(cfg: Config, id: nat): (e: nat)
    ensures e != cfg.sample(id, 0) && e != cfg.sample(id, 1) && e != cfg.sample(id, 2)
  {
    1 + Abs(cfg.sample(id, 0)) + Abs(cfg.sample(id, 1)) + Abs(cfg.sample(id, 2))
  }

  /**
   Why an admitted request of a reachable state is in the state it is in: it stops at its first end token, otherwise it
   ends when it has as many tokens as were asked for (one at least), otherwise it runs.
   */
  lemma WhyFinished(cfg: Config, maxBatch: nat, es: seq<Event>, id: nat)
    requires cfg.tpp > 0
    ensures var s := Run(cfg, Init(maxBatch), es).0; id in s.reqs && id !in s.pending ==>
      var r := s.reqs[id]; var n := |r.generated|; var most := if r.maxNew < 1 then 1 else r.maxNew;
      && 1 <= n <= most && r.currentPos == |r.prompt| + n - 1
      && (forall i :: 0 <= i < n - 1 ==> !(r.eos >= 0 && r.generated[i] == r.eos))
      && (r.reason == Stop <==> r.eos >= 0 && r.generated[n - 1] == r.eos)
      && (r.reason == Length <==> !(r.eos >= 0 && r.generated[n - 1] == r.eos) && n == most)
      && (r.reason == Running <==> !(r.eos >= 0 && r.generated[n - 1] == r.eos) && n < most)
  {
    hide Run, RefsInv, HeldInv, AllocInv, SlotsInv, RestInv, NoLeak;
    RunInv(cfg, maxBatch, es);
    var s := Run(cfg, Init(maxBatch), es).0;
    if id in s.reqs && id !in s.pending {
      NotPending(s, id);
      assert TokensOk(cfg, id, s.reqs[id]);
    }
  }

  /** What is not queued has been admitted. */
  lemma NotPending(s: State, id: nat)
    requires QueueInv(s) && id in s.reqs
    ensures id in s.pending <==> id >= First(s)
    ensures id >= 1
  {
    if id >= First(s) { assert s.pending[id - First(s)] == id; }
  }

  /** Each id submitted in a reachable state is in exactly one place: once in the queue, in one slot, or finished. */
  lemma EachIdOnce(cfg: Config, maxBatch: nat, es: seq<Event>, id: nat)
    requires cfg.tpp > 0
    ensures var s := Run(cfg, Init(maxBatch), es).0; id in s.reqs <==> 1 <= id < s.nextId
    ensures var s := Run(cfg, Init(maxBatch), es).0; id in s.reqs ==>
      && (id in s.pending ==> s.reqs[id].reason == Running && s.reqs[id].generated == [] && Some(id) !in s.slots)
      && (Some(id) in s.slots <==> id !in s.pending && s.reqs[id].reason == Running)
      && (forall i, j :: 0 <= i < j < |s.pending| ==> s.pending[i] < s.pending[j])
      && (forall b, c :: 0 <= b < c < |s.slots| && s.slots[b].Some? ==> s.slots[b] != s.slots[c])
      && (forall b :: 0 <= b < |s.slots| && s.slots[b] == Some(id) ==> s.reqs[id].slotId == b)
  {
    hide Run, RefsInv, HeldInv, AllocInv, TokensInv, NoLeak;
    RunInv(cfg, maxBatch, es);
    var s := Run(cfg, Init(maxBatch), es).0;
    if id in s.reqs { NotPending(s, id); }
  }

  /* ---------- Reference counts ---------- */

  /** The requests that hold p. */
  ghost function Holders(s: State, p: Path): set<nat> { HoldersIn(s.held, p) }

  lemma {:induction false} PrefixesDistinct(pages: seq<Chunk>, k: nat, p: Path)
    requires k <= |pages|
    ensures multiset(PrefixesTo(pages, k))[p] <= 1
    ensures p in PrefixesTo(pages, k) ==> Len(p) <= k
  {
    if k > 0 {
      PrefixesDistinct(pages, k - 1, p);
      assert Len(Prefix(pages, k)) == k;
    }
  }

  /** In every state the invariant allows, a node's count is the number of active requests holding it. */
  lemma RefsAreHolders(cfg: Config, s: State, p: Path)
    requires Inv(cfg, s) && p in s.tree.entries
    ensures s.tree.entries[p].refs == |Holders(s, p)|
    ensures forall id :: id in Holders(s, p) ==>
      id in s.reqs && s.reqs[id].reason == Running && id < First(s)
  {
    hide InvAt, BagOf, Wf, TokensInv, AllocInv, NoLeak, Pages, IdsInv, HeldInv;
    InvParts(cfg, s, 0);
    forall id | id in s.held ensures multiset(s.held[id])[p] <= 1 {
      HeldDistinct(cfg, s, id, p);
    }
    BagCount(s.held, p);
    forall id | id in Holders(s, p) ensures id in s.reqs && s.reqs[id].reason == Running && id < First(s) {
      HolderActive(s, id);
    }
  }

  lemma HeldDistinct(cfg: Config, s: State, id: nat, p: Path)
    requires IdsInv(s) && HeldInv(cfg, s.reqs, s.held) && id in s.held
    ensures multiset(s.held[id])[p] <= 1
  {
    hide Pages;
    assert HeldOk(cfg, s.reqs[id].prompt, s.held[id]);
    PrefixesDistinct(Pages(s.reqs[id].prompt, cfg.tpp), |s.held[id]|, p);
  }

  lemma HolderActive(s: State, id: nat)
    requires IdsInv(s) && id in s.held && s.held[id] != []
    ensures id in s.reqs && s.reqs[id].reason == Running && id < First(s)
    ensures 0 <= s.reqs[id].slotId < |s.slots| && s.slots[s.reqs[id].slotId] == Some(id)
  {
  }

  /** Once nothing is active, no node is retained, so eviction with enough budget empties the tree. */
  lemma IdleTreeEvictable(cfg: Config, s: State, budget: nat)
    requires Inv(cfg, s) && Idle(s.slots)
    ensures forall p :: p in s.tree.entries ==> s.tree.entries[p].refs == 0
    ensures budget >= |s.tree.entries| ==> Evict(s.tree, budget).entries == map[]
  {
    hide InvAt, BagOf, Wf, TokensInv, AllocInv, NoLeak, HeldInv, Evict, IdsInv;
    InvParts(cfg, s, 0);
    forall id | id in s.held ensures s.held[id] == [] {
      if s.held[id] != [] { HolderActive(s, id); }
    }
    BagEmpty(s.held);
    if budget >= |s.tree.entries| {
      EvictAll(s.tree, budget);
      assert forall p :: !Needed(s.tree, p);
    }
  }

  /** Running requests hold exactly the pages they were credited with; queued ones neither. */
  ghost predicate MatchedHeld(cfg: Config, reqs: map<nat, Request>, held: map<nat, seq<Path>>) {
    forall id {:trigger reqs[id]} :: id in reqs && id in held && reqs[id].reason == Running ==>
      reqs[id].prefixMatched == Times(|held[id]|, cfg.tpp)
  }

  lemma EmitHeld(cfg: Config, s: State, b: nat, id: nat, newPos: int)
    requires b < |s.slots| && id in s.reqs && id in s.held && MatchedHeld(cfg, s.reqs, s.held)
    requires s.reqs[id].reason == Running
    ensures MatchedHeld(cfg, Emit(cfg, s, b, id, newPos).0.reqs, Emit(cfg, s, b, id, newPos).0.held)
  {
    hide ReleaseAll, Times;
  }

  lemma PrefillHeld(cfg: Config, s: State)
    requires cfg.tpp > 0 && CanAdmit(s) && MatchedHeld(cfg, s.reqs, s.held)
    requires s.reqs[s.pending[0]].reason == Running && s.held[s.pending[0]] == []
    ensures MatchedHeld(cfg, Prefill(cfg, s).reqs, Prefill(cfg, s).held)
    ensures Prefill(cfg, s).reqs[s.pending[0]].reason == Running
  {
    hide Match, RetainAll, Insert, Pages, Times, FirstFree, PrefixesTo;
  }

  lemma {:induction false} AdmitAllHeld(cfg: Config, s: State)
    requires Inv(cfg, s) && MatchedHeld(cfg, s.reqs, s.held)
    ensures MatchedHeld(cfg, AdmitAll(cfg, s).0.reqs, AdmitAll(cfg, s).0.held)
    decreases |s.pending|
  {
    hide InvAt, NoLeak, Prefill, Emit, CanAdmit, MatchedHeld, IdsInv;
    InvParts(cfg, s, 0);
    if CanAdmit(s) {
      PendingIs(s);
      PrefillHeld(cfg, s);
      EmitHeld(cfg, Prefill(cfg, s), FirstFree(s.slots, 0), s.pending[0], |s.reqs[s.pending[0]].prompt|);
      AdmitOneKeeps(cfg, s);
      AdmitAllHeld(cfg, AdmitOne(cfg, s).0);
    }
  }

  lemma PendingIs(s: State)
    requires IdsInv(s) && CanAdmit(s)
    ensures s.pending != [] && s.pending[0] in s.reqs && s.pending[0] in s.held
    ensures s.reqs[s.pending[0]].reason == Running && s.held[s.pending[0]] == []
    ensures FirstFree(s.slots, 0) < |s.slots|
  {
    PendingFresh(s);
  }

  lemma {:induction false} DecodeHeld(cfg: Config, s: State, b: nat, n: nat)
    requires InvAt(cfg, s, 0) && b <= n <= |s.slots| && MatchedHeld(cfg, s.reqs, s.held)
    ensures MatchedHeld(cfg, DecodeFrom(cfg, s, b, n).0.reqs, DecodeFrom(cfg, s, b, n).0.held)
    decreases n - b
  {
    hide InvAt, Emit, Due, TokensOk, MatchedHeld;
    if b < n {
      if Served(s, b) {
        var id := s.slots[b].value;
        ServedKeeps(cfg, s, b);
        EmitHeld(cfg, s, b, id, s.reqs[id].currentPos + 1);
        DecodeHeld(cfg, Emit(cfg, s, b, id, s.reqs[id].currentPos + 1).0, b + 1, n);
      } else {
        DecodeHeld(cfg, s, b + 1, n);
      }
    }
  }

  lemma StepHeld(cfg: Config, s: State)
    requires Inv(cfg, s) && MatchedHeld(cfg, s.reqs, s.held)
    ensures MatchedHeld(cfg, Step(cfg, s).0.reqs, Step(cfg, s).0.held)
  {
    hide InvAt, NoLeak, AdmitAll, CanAdmit, DecodeFrom, Bucket, MatchedHeld;
    InvParts(cfg, s, 0);
    if CanAdmit(s) {
      AdmitAllHeld(cfg, s);
    } else if !Idle(s.slots) {
      PadKeeps(cfg, s, Bucket(s));
      DecodeHeld(cfg, Pad(s, Bucket(s)), 0, Bucket(s));
    }
  }

  lemma {:induction false} RunHeld(cfg: Config, maxBatch: nat, es: seq<Event>)
    requires cfg.tpp > 0
    ensures MatchedHeld(cfg, Run(cfg, Init(maxBatch), es).0.reqs, Run(cfg, Init(maxBatch), es).0.held)
  {
    hide InvAt, NoLeak, Step;
    if es != [] {
      var n := |es| - 1;
      RunHeld(cfg, maxBatch, es[..n]);
      RunInv(cfg, maxBatch, es[..n]);
      if es[n].RunStep? { StepHeld(cfg, Run(cfg, Init(maxBatch), es[..n]).0); }
    }
  }

  /**
   In every reachable state a running request holds the nodes of the first pages of its prompt, as many as it was
   credited with tokens for, all stored; a queued or finished one holds none.
   */
  lemma HeldIsMatched(cfg: Config, maxBatch: nat, es: seq<Event>, id: nat)
    requires cfg.tpp > 0
    ensures var s := Run(cfg, Init(maxBatch), es).0; id in s.reqs ==>
      && id in s.held
      && (id in s.pending || s.reqs[id].reason != Running ==> s.held[id] == [])
      && (s.reqs[id].reason == Running ==> s.reqs[id].prefixMatched == |s.held[id]| * cfg.tpp <= |s.reqs[id].prompt|)
      && |s.held[id]| <= |Pages(s.reqs[id].prompt, cfg.tpp)|
      && (forall i :: 0 <= i < |s.held[id]| ==> s.held[id][i] == Prefix(Pages(s.reqs[id].prompt, cfg.tpp), i + 1))
      && (forall i :: 0 <= i < |s.held[id]| ==> s.held[id][i] in s.tree.entries)
  {
    hide Run, AllocInv, TokensInv, NoLeak, Wf, SlotsInv, Pages, BagOf;
    RunInv(cfg, maxBatch, es);
    RunHeld(cfg, maxBatch, es);
    var s := Run(cfg, Init(maxBatch), es).0;
    if id in s.reqs {
      NotPending(s, id);
      var h := s.held[id];
      assert HeldOk(cfg, s.reqs[id].prompt, h);
      PagesFit(s.reqs[id].prompt, cfg.tpp, |h|);
      forall i | 0 <= i < |h| ensures h[i] in s.tree.entries { BagMember(s.held, h[i]); }
    }
  }

  /* ---------- Shutting down ---------- */

  ghost predicate SlotsKnown(s: State, b: nat) {
    forall c :: b <= c < |s.slots| && s.slots[c].Some? ==> s.slots[c].value in s.held
  }

  /** What the destructor does from slot b on: active requests let go of their nodes and their slots. */
  ghost function CloseFrom(s: State, b: nat): State
    requires b <= |s.slots| && SlotsKnown(s, b)
    decreases |s.slots| - b
  {
    if b == |s.slots| then s
    else if s.slots[b].None? then CloseFrom(s, b + 1)
    else
      var id := s.slots[b].value;
      CloseFrom(s.(held := s.held[id := []], tree := ReleaseAll(s.tree, s.held[id]),
                   execSlots := s.execSlots - {b}, slots := s.slots[b := None]), b + 1)
  }

  ghost predicate Sits(slots: seq<Option<nat>>, b: nat, id: nat) {
    exists c :: b <= c < |slots| && slots[c] == Some(id)
  }

  lemma SitsStep(slots: seq<Option<nat>>, b: nat, x: Option<nat>, id: nat)
    requires b < |slots|
    ensures Sits(slots, b, id) <==> slots[b] == Some(id) || Sits(slots[b := x], b + 1, id)
  {
    var r := slots[b := x];
    if c :| b <= c < |slots| && slots[c] == Some(id) && c != b { assert r[c] == Some(id); }
    if c :| b + 1 <= c < |r| && r[c] == Some(id) { assert slots[c] == Some(id); }
  }

  lemma SitsNowhere(slots: seq<Option<nat>>)
    ensures forall id :: !Sits(slots, |slots|, id)
  {
  }

  lemma {:induction false} CloseKeeps(cfg: Config, s: State, b: nat)
    requires b <= |s.slots| && SlotsKnown(s, b) && RefsInv(cfg.hash, s.tree, s.held)
    ensures var r := CloseFrom(s, b);
      && RefsInv(cfg.hash, r.tree, r.held)
      && (forall id :: id in r.held <==> id in s.held)
      && (forall id :: id in s.held && r.held[id] != [] ==>
            r.held[id] == s.held[id] && !Sits(s.slots, b, id))
      && (forall a :: a in r.execSlots <==> a in s.execSlots && !(b <= a < |s.slots| && s.slots[a].Some?))
    decreases |s.slots| - b
  {
    hide RefsInv, ReleaseAll, Sits;
    if b == |s.slots| {
      assert forall id :: !Sits(s.slots, b, id) by { SitsNowhere(s.slots); }
    } else {
      forall x: nat ensures Sits(s.slots, b, x) <==> s.slots[b] == Some(x) || Sits(s.slots[b := None], b + 1, x) {
        SitsStep(s.slots, b, None, x);
      }
      assert s.slots[b].None? ==> s.slots[b := None] == s.slots;
      if s.slots[b].None? {
        CloseKeeps(cfg, s, b + 1);
      } else {
        var id := s.slots[b].value;
        HoldLess(cfg.hash, s.tree, s.held, id);
        CloseKeeps(cfg, s.(held := s.held[id := []], tree := ReleaseAll(s.tree, s.held[id]),
                           execSlots := s.execSlots - {b}, slots := s.slots[b := None]), b + 1);
      }
    }
  }

  /** Afterwards no node is retained; the executor keeps exactly the slots that were only padding. */
  lemma CloseReleases(cfg: Config, s: State)
    requires Inv(cfg, s)
    ensures SlotsKnown(s, 0)
    ensures var r := CloseFrom(s, 0);
      && (forall p :: p in r.tree.entries ==> r.tree.entries[p].refs == 0)
      && (forall a :: a in r.execSlots <==> a in s.execSlots && s.slots[a].None?)
  {
    hide InvAt, IdsInv, TokensInv, RefsInv, HeldInv, AllocInv, BagOf;
    InvParts(cfg, s, 0);
    AllocBounds(s);
    forall c | 0 <= c < |s.slots| && s.slots[c].Some? ensures s.slots[c].value in s.held { SlotRunning(s, c); }
    CloseKeeps(cfg, s, 0);
    var r := CloseFrom(s, 0);
    forall id | id in r.held ensures r.held[id] == [] {
      if r.held[id] != [] {
        HolderActive(s, id);
        assert false;
      }
    }
    BagEmpty(r.held);
    NoHoldersNoRefs(cfg, r.tree, r.held);
  }

  lemma AllocBounds(s: State)
    requires AllocInv(s.slots, s.execSlots)
    ensures forall a :: a in s.execSlots ==> a < |s.slots|
  {
  }

  lemma NoHoldersNoRefs(cfg: Config, tree: Tree, held: map<nat, seq<Path>>)
    requires RefsInv(cfg.hash, tree, held) && BagOf(held) == multiset{}
    ensures forall p :: p in tree.entries ==> tree.entries[p].refs == 0
  {
    hide Wf;
  }
}
