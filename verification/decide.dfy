/**
 The batching loop of decide: questions are encoded, padded to one length and sent through forwards of at most a
 capped batch; a forward that fails is tried again at half the size.

 Which forwards fail is an arbitrary function of their number in the run.
 */
module Decide {
  import opened Arith

  /** Q is a question, E its encoding, O one row of a forward's output, A an answer. */
  datatype Engine<!Q, !E, !O, A> = Engine(
    loaded: bool, dynamic: bool, maxBatch: int, minSeq: int, maxLen: int, maxOpts: int, blank: A,
    encode: Q -> E, length: E -> nat, markers: E -> nat,
    forward: (seq<E>, int, int) -> (nat -> O), decode: (Q, E, O) -> A)

  /** One forward: the questions start..start+take in a batch of b rows. */
  datatype Attempt = Attempt(start: nat, take: nat, b: int, ok: bool)

  datatype Why = TooManyOptions(question: nat) | ForwardFailed

  datatype Result<A> =
    | Answered(answers: seq<A>, inputTokens: nat, seqBucket: int, batchBucket: int, nForwards: nat)
    | Failed(why: Why)

  /** clamp_seq */
  function ClampSeq<Q, E, O, A>(e: Engine<Q, E, O, A>, n: int): int {
    var s := Max(n, e.minSeq);
    if s > e.maxLen then e.maxLen else s
  }

  const BUDGET := 8192

  /** batch_cap_for_seq */
  function BatchCap<Q, E, O, A>(e: Engine<Q, E, O, A>, seqLen: int): int {
    if !e.dynamic || seqLen <= 0 then 1 else Min(Max(1, BUDGET / seqLen), e.maxBatch)
  }

  /** The cap is the largest batch that stays in the token budget and the model's limit, at least one row. */
  lemma CapBounds<Q, E, O, A>(e: Engine<Q, E, O, A>, seqLen: int)
    requires e.maxBatch >= 1
    ensures 1 <= BatchCap(e, seqLen) <= e.maxBatch
    ensures !e.dynamic || seqLen <= 0 ==> BatchCap(e, seqLen) == 1
    ensures seqLen > 0 && BatchCap(e, seqLen) > 1 ==> BatchCap(e, seqLen) * seqLen <= 8192
    ensures e.dynamic && seqLen > 0 && BatchCap(e, seqLen) < e.maxBatch ==> (BatchCap(e, seqLen) + 1) * seqLen > 8192
  {
    if seqLen > 0 {
      var q, c := BUDGET / seqLen, BatchCap(e, seqLen);
      assert BUDGET == q * seqLen + BUDGET % seqLen;
      if c > 1 { MulMono(c, q, seqLen); }
      if e.dynamic && c < e.maxBatch {
        MulMono(q + 1, c + 1, seqLen);
        MulStep(q, seqLen);
      }
    }
  }

  /** A length is kept where it is between the least and the greatest the model has, and moved to the nearer one otherwise. */
  lemma ClampIs<Q, E, O, A>(e: Engine<Q, E, O, A>, n: int)
    ensures e.minSeq <= n <= e.maxLen ==> ClampSeq(e, n) == n
    ensures n < e.minSeq <= e.maxLen ==> ClampSeq(e, n) == e.minSeq
    ensures n > e.maxLen || e.minSeq > e.maxLen ==> ClampSeq(e, n) == e.maxLen
  {
  }

  /* ---------- The log of a run ---------- */

  /** How many questions the forwards of the log have answered. */
  function Covered(log: seq<Attempt>): nat {
    if log == [] then 0
    else Covered(log[..|log| - 1]) + if log[|log| - 1].ok then log[|log| - 1].take else 0
  }

  function Successes(log: seq<Attempt>): nat {
    if log == [] then 0 else Successes(log[..|log| - 1]) + if log[|log| - 1].ok then 1 else 0
  }

  /**
   Attempt k starts where the answered questions end and takes as many as its batch and the questions left allow. The
   first batch is as large as the cap allows; after a failure it is half as large; after a success it stays, unless it
   can grow to the questions left within the cap.
   */
  ghost predicate AttemptOk(log: seq<Attempt>, k: nat, n: nat, cap: int, fails: nat -> bool)
    requires k < |log|
  {
    var a := log[k];
    && a.start == Covered(log[..k]) < n
    && 1 <= a.b <= cap && a.take == Min(a.b, n - a.start)
    && a.ok == !fails(k)
    && (k == 0 ==> a.b == Min(n, cap))
    && (k > 0 && !log[k - 1].ok ==> a.b == log[k - 1].b / 2)
    && (k > 0 && log[k - 1].ok ==> a.b == Max(log[k - 1].b, Min(n - a.start, cap)))
  }

  ghost predicate LogOk(log: seq<Attempt>, n: nat, cap: int, fails: nat -> bool) {
    forall k {:trigger log[k]} :: 0 <= k < |log| ==> AttemptOk(log, k, n, cap, fails)
  }

  lemma CoveredPush(log: seq<Attempt>, a: Attempt)
    ensures Covered(log + [a]) == Covered(log) + (if a.ok then a.take else 0)
    ensures Successes(log + [a]) == Successes(log) + if a.ok then 1 else 0
  {
    assert (log + [a])[..|log|] == log;
  }

  /** The batch of the attempt that comes next. */
  ghost predicate NextBatch(log: seq<Attempt>, b: int, start: nat, n: nat, cap: int) {
    && (log == [] ==> b == Min(n, cap))
    && (log != [] && !log[|log| - 1].ok ==> b == log[|log| - 1].b / 2)
    && (log != [] && log[|log| - 1].ok ==> b == Max(log[|log| - 1].b, Min(n - start, cap)))
  }

  lemma LogPush(log: seq<Attempt>, a: Attempt, n: nat, cap: int, fails: nat -> bool)
    requires LogOk(log, n, cap, fails) && NextBatch(log, a.b, a.start, n, cap)
    requires a.start == Covered(log) < n && 1 <= a.b <= cap && a.take == Min(a.b, n - a.start) && a.ok == !fails(|log|)
    ensures LogOk(log + [a], n, cap, fails)
  {
    hide Covered;
    var r := log + [a];
    forall k | 0 <= k < |r| ensures AttemptOk(r, k, n, cap, fails) {
      if k < |log| {
        assert r[..k] == log[..k];
        assert log[k] == r[k] && (k > 0 ==> log[k - 1] == r[k - 1]);
      } else {
        assert r[..k] == log;
      }
    }
  }

  /** A log without its last attempt, and that attempt. */
  lemma LogRest(log: seq<Attempt>, n: nat, cap: int, fails: nat -> bool)
    requires LogOk(log, n, cap, fails) && log != []
    ensures LogOk(log[..|log| - 1], n, cap, fails)
    ensures var a := log[|log| - 1]; a.start == Covered(log[..|log| - 1]) < n && 1 <= a.take == Min(a.b, n - a.start)
  {
    hide Covered;
    var rest := log[..|log| - 1];
    forall k | 0 <= k < |rest| ensures AttemptOk(rest, k, n, cap, fails) {
      assert log[k] == rest[k] && (k > 0 ==> log[k - 1] == rest[k - 1]);
      assert rest[..k] == log[..k];
    }
    assert AttemptOk(log, |log| - 1, n, cap, fails);
  }

  /** Each forward answers at least one question, so there are no more of them than questions answered. */
  lemma {:induction false} FewForwards(log: seq<Attempt>, n: nat, cap: int, fails: nat -> bool)
    requires LogOk(log, n, cap, fails)
    ensures Successes(log) <= Covered(log) <= n
  {
    hide LogOk;
    if log != [] {
      LogRest(log, n, cap, fails);
      FewForwards(log[..|log| - 1], n, cap, fails);
    }
  }

  /** Forward k answered question i. */
  ghost predicate Answers(log: seq<Attempt>, k: nat, i: nat) {
    k < |log| && log[k].ok && log[k].start <= i < log[k].start + log[k].take
  }

  lemma {:induction false} CoveredGrows(log: seq<Attempt>, k: nat)
    requires k < |log| && log[k].ok
    ensures Covered(log[..k]) + log[k].take <= Covered(log)
  {
    var m := |log| - 1;
    if k < m {
      CoveredGrows(log[..m], k);
      assert log[..m][..k] == log[..k];
    }
  }

  /** What a forward answered is covered by the attempts up to any later one. */
  lemma AnswersBelow(log: seq<Attempt>, n: nat, cap: int, fails: nat -> bool, j: nat, i: nat)
    requires LogOk(log, n, cap, fails) && Answers(log, j, i) && j < |log| - 1
    ensures i < Covered(log[..|log| - 1])
  {
    var rest := log[..|log| - 1];
    CoveredGrows(rest, j);
    assert rest[..j] == log[..j];
    assert AttemptOk(log, j, n, cap, fails);
  }

  /** Every question answered was answered by exactly one forward. */
  lemma {:induction false} AnsweredOnce(log: seq<Attempt>, n: nat, cap: int, fails: nat -> bool, i: nat) returns (k: nat)
    requires LogOk(log, n, cap, fails) && i < Covered(log)
    ensures Answers(log, k, i)
    ensures forall j: nat :: Answers(log, j, i) ==> j == k
  {
    hide LogOk;
    var m := |log| - 1;
    var rest := log[..m];
    LogRest(log, n, cap, fails);
    if i < Covered(rest) {
      k := AnsweredOnce(rest, n, cap, fails, i);
      forall j: nat | Answers(log, j, i) ensures j == k {
        if j < m { assert Answers(rest, j, i); }
      }
    } else {
      k := m;
      forall j: nat | Answers(log, j, i) ensures j == k {
        if j < m { AnswersBelow(log, n, cap, fails, j, i); }
      }
    }
  }

  /** Answer i comes from question i's own row of the forward that answered it. */
  ghost predicate OwnRow<Q, E, O, A>(e: Engine<Q, E, O, A>, qs: seq<Q>, encs: seq<E>, s: int, a: Attempt, i: nat, answer: A) {
    && i < |qs| == |encs| && a.start <= i < a.start + a.take <= |encs|
    && answer == e.decode(qs[i], encs[i], e.forward(encs[a.start..a.start + a.take], a.b, s)(i - a.start))
  }

  ghost predicate AllOwnRows<Q(!new), E(!new), O(!new), A>(e: Engine<Q, E, O, A>, qs: seq<Q>, encs: seq<E>, s: int,
                                                           log: seq<Attempt>, answers: seq<A>) {
    && |answers| == |qs| == |encs|
    && forall k: nat, i: nat {:trigger Answers(log, k, i)} :: Answers(log, k, i) && i < |answers| ==>
         OwnRow(e, qs, encs, s, log[k], i, answers[i])
  }

  /** One forward's answers are written over the questions it took. */
  function Write<Q, E, O, A>(e: Engine<Q, E, O, A>, qs: seq<Q>, encs: seq<E>, s: int, a: Attempt, answers: seq<A>): (r: seq<A>)
    requires |answers| == |qs| == |encs| && a.start + a.take <= |qs|
    ensures |r| == |answers|
  {
    seq(|answers|, i requires 0 <= i < |answers| =>
      if a.start <= i < a.start + a.take
      then e.decode(qs[i], encs[i], e.forward(encs[a.start..a.start + a.take], a.b, s)(i - a.start))
      else answers[i])
  }

  lemma RowsPush<Q(!new), E(!new), O(!new), A>(e: Engine<Q, E, O, A>, qs: seq<Q>, encs: seq<E>, s: int, log: seq<Attempt>,
                                               n: nat, cap: int, fails: nat -> bool, answers: seq<A>, a: Attempt)
    requires AllOwnRows(e, qs, encs, s, log, answers) && LogOk(log, n, cap, fails) && n == |qs|
    requires a.start == Covered(log) && a.start + a.take <= n
    ensures a.ok ==> AllOwnRows(e, qs, encs, s, log + [a], Write(e, qs, encs, s, a, answers))
    ensures !a.ok ==> AllOwnRows(e, qs, encs, s, log + [a], answers)
  {
    hide Covered, OwnRow, LogOk, Write;
    var r := log + [a];
    var after := Write(e, qs, encs, s, a, answers);
    forall k: nat, i: nat | Answers(r, k, i) && i < n
      ensures a.ok ==> OwnRow(e, qs, encs, s, r[k], i, after[i])
      ensures !a.ok ==> OwnRow(e, qs, encs, s, r[k], i, answers[i])
    {
      WriteAt(e, qs, encs, s, a, answers, i);
      if k < |log| {
        assert Answers(log, k, i);
        AnsweredBefore(log, n, cap, fails, k, i);
      }
    }
  }

  lemma WriteAt<Q, E, O, A>(e: Engine<Q, E, O, A>, qs: seq<Q>, encs: seq<E>, s: int, a: Attempt, answers: seq<A>, i: nat)
    requires |answers| == |qs| == |encs| && a.start + a.take <= |qs| && i < |qs|
    ensures if a.start <= i < a.start + a.take then OwnRow(e, qs, encs, s, a, i, Write(e, qs, encs, s, a, answers)[i])
            else Write(e, qs, encs, s, a, answers)[i] == answers[i]
  {
  }

  lemma AnsweredBefore(log: seq<Attempt>, n: nat, cap: int, fails: nat -> bool, k: nat, i: nat)
    requires LogOk(log, n, cap, fails) && Answers(log, k, i)
    ensures i < Covered(log)
  {
    CoveredGrows(log, k);
    assert AttemptOk(log, k, n, cap, fails);
  }

  /** No forward of a single row failed. */
  ghost predicate NoSmallFailure(log: seq<Attempt>) {
    forall k {:trigger log[k]} :: 0 <= k < |log| && !log[k].ok ==> log[k].b > 1
  }

  /* ---------- Encoding ---------- */

  function Tokens<Q, E, O, A>(e: Engine<Q, E, O, A>, qs: seq<Q>): nat {
    if qs == [] then 0 else Tokens(e, qs[..|qs| - 1]) + e.length(e.encode(qs[|qs| - 1]))
  }

  /** The length every batch is padded to. */
  function SeqFor<Q, E, O, A>(e: Engine<Q, E, O, A>, encs: seq<E>): int {
    if encs == [] then e.minSeq else Max(SeqFor(e, encs[..|encs| - 1]), ClampSeq(e, e.length(encs[|encs| - 1])))
  }

  ghost predicate Encoded<Q, E, O, A>(e: Engine<Q, E, O, A>, qs: seq<Q>, encs: seq<E>) {
    |encs| == |qs| && forall i :: 0 <= i < |qs| ==> encs[i] == e.encode(qs[i]) && e.markers(encs[i]) <= e.maxOpts
  }

  /** Encodes the questions; bad is the first one with more options than the model has, or the number of questions. */
  method EncodeAll<Q, E, O, A>(e: Engine<Q, E, O, A>, qs: seq<Q>) returns (encs: seq<E>, tokens: nat, maxLive: nat, bad: nat)
    ensures bad <= |qs|
    ensures forall i :: 0 <= i < bad ==> e.markers(e.encode(qs[i])) <= e.maxOpts
    ensures bad < |qs| ==> e.markers(e.encode(qs[bad])) > e.maxOpts
    ensures bad == |qs| ==> Encoded(e, qs, encs) && tokens == Tokens(e, qs)
    ensures maxLive > 0 ==> exists i :: 0 <= i < |encs| && e.length(encs[i]) == maxLive
    ensures qs == [] ==> maxLive == 0
  {
    encs, tokens, maxLive, bad := [], 0, 0, 0;
    while bad < |qs|
      invariant 0 <= bad <= |qs| && Encoded(e, qs[..bad], encs) && tokens == Tokens(e, qs[..bad])
      invariant maxLive > 0 ==> exists i :: 0 <= i < |encs| && e.length(encs[i]) == maxLive
    {
      ghost var before := encs;
      var enc := e.encode(qs[bad]);
      if e.markers(enc) > e.maxOpts {
        return;
      }
      assert qs[..bad + 1][..bad] == qs[..bad];
      tokens := tokens + e.length(enc);
      maxLive := if maxLive < e.length(enc) then e.length(enc) else maxLive;
      encs := encs + [enc];
      assert encs[bad] == enc && forall i :: 0 <= i < bad ==> encs[i] == before[i];
      bad := bad + 1;
    }
    assert qs[..|qs|] == qs;
  }

  /* ---------- The loop ---------- */

  /** Reads the answers of one forward off their rows. */
  method ReadRows<Q, E, O, A>(e: Engine<Q, E, O, A>, qs: seq<Q>, encs: seq<E>, s: int, a: Attempt, answers: seq<A>)
    returns (r: seq<A>)
    requires |answers| == |qs| == |encs| && a.start + a.take <= |qs|
    ensures r == Write(e, qs, encs, s, a, answers)
  {
    var row := e.forward(encs[a.start..a.start + a.take], a.b, s);
    r := answers;
    for j := 0 to a.take
      invariant |r| == |answers|
      invariant forall i :: 0 <= i < |r| ==>
        r[i] == if a.start <= i < a.start + j then Write(e, qs, encs, s, a, answers)[i] else answers[i]
    {
      var qi := a.start + j;
      r := r[qi := e.decode(qs[qi], encs[qi], row(j))];
    }
  }

  /** One chunk: forwards of batch rows, then half as many, and so on, until one succeeds. */
  method TryForwards<Q(!new), E(!new), O(!new), A>(
    e: Engine<Q, E, O, A>, qs: seq<Q>, encs: seq<E>, s: int, cap: int, fails: nat -> bool,
    cursor: nat, batch: int, answers0: seq<A>, log0: seq<Attempt>)
    returns (ok: bool, tryB: int, take: nat, answers: seq<A>, log: seq<Attempt>)
    requires LogOk(log0, |qs|, cap, fails) && AllOwnRows(e, qs, encs, s, log0, answers0) && NoSmallFailure(log0)
    requires Covered(log0) == cursor < |qs| && 1 <= batch <= cap && NextBatch(log0, batch, cursor, |qs|, cap)
    ensures LogOk(log, |qs|, cap, fails) && AllOwnRows(e, qs, encs, s, log, answers)
    ensures ok ==> 1 <= tryB <= batch && take == Min(tryB, |qs| - cursor) && Covered(log) == cursor + take
    ensures ok ==> Successes(log) == Successes(log0) + 1 && NoSmallFailure(log)
    ensures !ok ==> |log| > 0 && log[|log| - 1].b == 1 && !log[|log| - 1].ok
    ensures !fails(|log0|) ==> ok && tryB == batch && |log| == |log0| + 1
    ensures |log0| < |log| && log[..|log0|] == log0 && forall k :: |log0| <= k < |log| - 1 ==> !log[k].ok
    ensures ok ==> log[|log| - 1].ok && log[|log| - 1].b == tryB
  {
    hide LogOk, AllOwnRows, Covered, Successes;
    var remaining := |qs| - cursor;
    tryB, answers, log, ok, take := batch, answers0, log0, false, 0;
    while tryB >= 1
      invariant 0 <= tryB <= batch && |log0| <= |log| && log[..|log0|] == log0
      invariant forall k :: |log0| <= k < |log| ==> !log[k].ok
      invariant |log| > |log0| ==> tryB == log[|log| - 1].b / 2
      invariant LogOk(log, |qs|, cap, fails) && AllOwnRows(e, qs, encs, s, log, answers)
      invariant Covered(log) == cursor && Successes(log) == Successes(log0)
      invariant tryB >= 1 ==> NoSmallFailure(log)
      invariant tryB == 0 ==> |log| > 0 && log[|log| - 1].b == 1 && !log[|log| - 1].ok
      invariant tryB != batch ==> fails(|log0|)
      invariant tryB == batch <==> |log| == |log0|
      decreases tryB
    {
      take := Min(tryB, remaining);
      var a := Attempt(cursor, take, tryB, !fails(|log|));
      LogPush(log, a, |qs|, cap, fails);
      RowsPush(e, qs, encs, s, log, |qs|, cap, fails, answers, a);
      CoveredPush(log, a);
      log := log + [a];
      if a.ok {
        RowSizes(e, qs, encs, s, log[..|log| - 1], answers);
        answers := ReadRows(e, qs, encs, s, a, answers);
        return true, tryB, take, answers, log;
      }
      tryB := if tryB > 1 then tryB / 2 else 0;
    }
  }

  lemma RowSizes<Q(!new), E(!new), O(!new), A>(e: Engine<Q, E, O, A>, qs: seq<Q>, encs: seq<E>, s: int,
                                               log: seq<Attempt>, answers: seq<A>)
    requires AllOwnRows(e, qs, encs, s, log, answers)
    ensures |answers| == |qs| == |encs|
  {
  }

  /** b is the largest batch that succeeded, 0 if none did. */
  ghost predicate LargestBatch(log: seq<Attempt>, b: int) {
    && (forall k :: 0 <= k < |log| && log[k].ok ==> log[k].b <= b)
    && (b == 0 || exists k :: 0 <= k < |log| && log[k].ok && log[k].b == b)
  }

  lemma LargestNext(was: seq<Attempt>, log: seq<Attempt>, b: int)
    requires LargestBatch(was, b) && b >= 0 && |was| < |log| && log[..|was|] == was
    requires (forall k :: |was| <= k < |log| - 1 ==> !log[k].ok) && log[|log| - 1].ok && log[|log| - 1].b >= 1
    ensures LargestBatch(log, Max(b, log[|log| - 1].b))
  {
    forall k | 0 <= k < |log| && log[k].ok ensures log[k].b <= Max(b, log[|log| - 1].b) {
      if k < |was| { assert was[k] == log[k]; }
    }
    if k :| 0 <= k < |was| && was[k].ok && was[k].b == b { assert log[k] == was[k]; }
  }

  lemma {:induction false} SeqForAtLeast<Q, E, O, A>(e: Engine<Q, E, O, A>, encs: seq<E>, i: nat)
    requires i < |encs|
    ensures ClampSeq(e, e.length(encs[i])) <= SeqFor(e, encs)
    ensures e.minSeq <= SeqFor(e, encs)
  {
    if i < |encs| - 1 {
      SeqForAtLeast(e, encs[..|encs| - 1], i);
    } else if |encs| > 1 {
      SeqForAtLeast(e, encs[..|encs| - 1], 0);
    }
  }

  /** The padded length is the least that every question fits in, as far as the model goes. */
  lemma {:induction false} SeqForReached<Q, E, O, A>(e: Engine<Q, E, O, A>, encs: seq<E>)
    ensures SeqFor(e, encs) == e.minSeq || exists i :: 0 <= i < |encs| && SeqFor(e, encs) == ClampSeq(e, e.length(encs[i]))
  {
    if encs != [] {
      var rest := encs[..|encs| - 1];
      SeqForReached(e, rest);
      if i :| 0 <= i < |rest| && SeqFor(e, rest) == ClampSeq(e, e.length(rest[i])) { assert rest[i] == encs[i]; }
    }
  }

  lemma {:induction false} TokensSplit<Q, E, O, A>(e: Engine<Q, E, O, A>, a: seq<Q>, b: seq<Q>)
    ensures Tokens(e, a + b) == Tokens(e, a) + Tokens(e, b)
    ensures |b| == 1 ==> Tokens(e, b) == e.length(e.encode(b[0]))
  {
    if b == [] {
      assert a + b == a;
    } else {
      TokensSplit(e, a, b[..|b| - 1]);
      assert (a + b)[..|a + b| - 1] == a + b[..|b| - 1];
      if |b| == 1 { assert b[..0] == []; }
    }
  }

  /** What a run that answers promises. */
  ghost predicate Sound<Q(!new), E(!new), O(!new), A>(e: Engine<Q, E, O, A>, qs: seq<Q>, encs: seq<E>, fails: nat -> bool,
                                                      log: seq<Attempt>, r: Result<A>) {
    && Encoded(e, qs, encs)
    && var s := SeqFor(e, encs);
       && LogOk(log, |qs|, BatchCap(e, s), fails)
       && match r
          case Answered(answers, tokens, seqBucket, batchBucket, nForwards) =>
            && Covered(log) == |qs| && NoSmallFailure(log) && AllOwnRows(e, qs, encs, s, log, answers)
            && tokens == Tokens(e, qs) && nForwards == Successes(log) <= |qs|
            && (|qs| == 0 ==> seqBucket == 0) && (|qs| > 0 && s >= 0 ==> seqBucket == s)
            && LargestBatch(log, batchBucket)
          case Failed(why) =>
            why == ForwardFailed && |log| > 0 && log[|log| - 1].b == 1 && !log[|log| - 1].ok
  }

  /** The padded length, by a pass over the encodings. */
  method PaddedLength<Q, E, O, A>(e: Engine<Q, E, O, A>, encs: seq<E>) returns (s: int)
    ensures s == SeqFor(e, encs)
  {
    s := e.minSeq;
    for i := 0 to |encs|
      invariant s == SeqFor(e, encs[..i])
    {
      assert encs[..i + 1][..i] == encs[..i];
      s := Max(s, ClampSeq(e, e.length(encs[i])));
    }
    assert encs[..|encs|] == encs;
  }

  /**
   Whichever forwards fail, the run ends. If it answers, every question was answered from its own row of a successful
   forward of at most the capped batch; if it fails, it is because a question has too many options or because a
   forward of a single row failed. With no failure it takes as few forwards as the cap allows.
   */
  method Run<Q(!new), E(!new), O(!new), A>(e: Engine<Q, E, O, A>, qs: seq<Q>, fails: nat -> bool)
    returns (r: Result<A>, encs: seq<E>, log: seq<Attempt>)
    requires e.maxBatch >= 1
    ensures !e.loaded ==> r == Answered([], 0, 0, 0, 0)
    ensures e.loaded && (exists i :: 0 <= i < |qs| && e.markers(e.encode(qs[i])) > e.maxOpts) ==>
      r.Failed? && r.why.TooManyOptions? && r.why.question < |qs|
      && e.markers(e.encode(qs[r.why.question])) > e.maxOpts
      && forall i :: 0 <= i < r.why.question ==> e.markers(e.encode(qs[i])) <= e.maxOpts
    ensures e.loaded && (forall i :: 0 <= i < |qs| ==> e.markers(e.encode(qs[i])) <= e.maxOpts) ==>
      && Sound(e, qs, encs, fails, log, r)
      && ((forall k: nat :: !fails(k)) ==> r.Answered? && Fewest(r.nForwards, |qs|, BatchCap(e, SeqFor(e, encs))))
  {
    hide LogOk, AllOwnRows, Covered, Successes, NoSmallFailure, Tokens, SeqFor, Fewest, BatchCap, LargestBatch, ClampSeq, Paced;
    encs, log := [], [];
    if !e.loaded {
      return Answered([], 0, 0, 0, 0), encs, log;
    }
    var tokens, maxLive, bad;
    encs, tokens, maxLive, bad := EncodeAll(e, qs);
    if bad < |qs| {
      return Failed(TooManyOptions(bad)), encs, log;
    }
    var n := |qs|;
    var s := PaddedLength(e, encs);
    var cap := BatchCap(e, s);
    CapBounds(e, s);
    var answers := seq(n, i => e.blank);
    var seqBucket := if maxLive > 0 then ClampSeq(e, maxLive) else 0;
    var batchBucket, nForwards := 0, 0;
    var graphB, cursor := 0, 0;
    EmptyLog(e, qs, encs, s, n, cap, fails, answers);
    ghost var first := Min(n, cap);
    assert Paced(0, 0, 0, first, n) by { PacedStart(first, n); }
    if maxLive > 0 {
      ghost var i :| 0 <= i < |encs| && e.length(encs[i]) == maxLive;
      SeqForAtLeast(e, encs, i);
    }
    assert LargestBatch(log, 0) by { NoneLargest(); }
    while cursor < n
      invariant 0 <= cursor <= n && Covered(log) == cursor && Successes(log) == nForwards
      invariant 0 <= graphB <= cap && 0 <= batchBucket <= cap && LargestBatch(log, batchBucket)
      invariant if log == [] then graphB == 0 && cursor == 0 else log[|log| - 1].ok && log[|log| - 1].b == graphB >= 1
      invariant if log == [] then seqBucket == 0 || seqBucket <= s else s >= 0 ==> seqBucket == s
      invariant n == 0 ==> seqBucket == 0 && log == []
      invariant LogOk(log, n, cap, fails) && AllOwnRows(e, qs, encs, s, log, answers) && NoSmallFailure(log)
      invariant (forall k: nat :: !fails(k)) ==> Paced(cursor, nForwards, graphB, first, n)
    {
      ghost var kept := graphB;
      var remaining := n - cursor;
      var live := Min(remaining, cap);
      if graphB < 1 {
        graphB := live;
      }
      var batch := graphB;
      live := Min(live, remaining);
      if live < 1 {
        live := 1;
      }
      if batch < live {
        batch := live;
      }
      ghost var was := log;
      var ok, tryB, take;
      ok, tryB, take, answers, log := TryForwards(e, qs, encs, s, cap, fails, cursor, batch, answers, log);
      if !ok {
        return Failed(ForwardFailed), encs, log;
      }
      LargestNext(was, log, batchBucket);
      nForwards := nForwards + 1;
      seqBucket := Max(seqBucket, s);
      batchBucket := Max(batchBucket, tryB);
      cursor := cursor + take;
      PacedStep(cursor - take, nForwards - 1, kept, first, n, cap, tryB, take);
      graphB := tryB;
    }
    FewForwards(log, n, cap, fails);
    r := Answered(answers, tokens, seqBucket, batchBucket, nForwards);
    FewestIs(nForwards, n, cap, graphB);
  }

  lemma PacedStart(first: int, n: nat)
    ensures Paced(0, 0, 0, first, n)
  {
  }

  lemma PacedStep(cursor: nat, k: nat, graphB: int, first: int, n: nat, cap: int, batch: int, take: int)
    requires cursor < n && cap >= 1 && first == Min(n, cap) && take == Min(batch, n - cursor)
    ensures Paced(cursor, k, graphB, first, n)
            && batch == Max(if graphB < 1 then Min(n - cursor, cap) else graphB, Min(n - cursor, cap)) ==>
      Paced(cursor + take, k + 1, batch, first, n)
  {
    MulStep(k, first);
  }

  lemma NoneLargest()
    ensures LargestBatch([], 0)
  {
  }

  /** With no failure every forward but the last takes first questions. */
  ghost predicate Paced(cursor: nat, k: nat, graphB: int, first: int, n: nat) {
    if k == 0 then cursor == 0 && graphB == 0
    else graphB == first && cursor == Min(n, k * first) && (k - 1) * first < n
  }

  /** k forwards of cap questions are enough for n, and k - 1 are not. */
  ghost predicate Fewest(k: nat, n: nat, cap: int) {
    if n == 0 then k == 0 else k > 0 && n <= k * cap && (k - 1) * cap < n
  }

  lemma FewestIs(k: nat, n: nat, cap: int, graphB: int)
    requires cap >= 1
    ensures Paced(n, k, graphB, Min(n, cap), n) ==> Fewest(k, n, cap)
  {
    if n > 0 && n < cap && k >= 2 { MulMono(1, k - 1, n); }
    if n > 0 && k >= 1 { MulMono(1, k, cap); }
  }

  lemma EmptyLog<Q(!new), E(!new), O(!new), A>(e: Engine<Q, E, O, A>, qs: seq<Q>, encs: seq<E>, s: int, n: nat, cap: int,
                                               fails: nat -> bool, answers: seq<A>)
    requires |answers| == |qs| == |encs|
    ensures LogOk([], n, cap, fails) && AllOwnRows(e, qs, encs, s, [], answers) && NoSmallFailure([])
    ensures Covered([]) == 0 == Successes([])
  {
  }

  /* ---------- In plain terms ---------- */

  /**
   A run that answers: each question has its answer from its own row of one forward and no other; every forward was of
   at most the capped batch and did or did not succeed as it was to; as many succeeded as reported.
   */
  lemma AnsweredFromOwnRow<Q(!new), E(!new), O(!new), A>(
    e: Engine<Q, E, O, A>, qs: seq<Q>, encs: seq<E>, fails: nat -> bool, log: seq<Attempt>, r: Result<A>, i: nat)
    returns (k: nat)
    requires Sound(e, qs, encs, fails, log, r) && r.Answered? && i < |qs|
    ensures |r.answers| == |qs| == |encs| && encs[i] == e.encode(qs[i])
    ensures k < |log| && log[k].ok && log[k].start <= i < log[k].start + log[k].take <= |qs|
    ensures r.answers[i] ==
            e.decode(qs[i], encs[i],
                     e.forward(encs[log[k].start..log[k].start + log[k].take], log[k].b, SeqFor(e, encs))(i - log[k].start))
    ensures forall j :: 0 <= j < |log| && j != k && log[j].ok ==> !(log[j].start <= i < log[j].start + log[j].take)
    ensures forall j :: 0 <= j < |log| ==> (log[j].ok <==> !fails(j)) && 1 <= log[j].b <= BatchCap(e, SeqFor(e, encs))
    ensures r.nForwards == |set j | 0 <= j < |log| && log[j].ok|
  {
    hide Covered, Successes, Tokens, SeqFor, BatchCap;
    var s := SeqFor(e, encs);
    k := AnsweredOnce(log, |qs|, BatchCap(e, s), fails, i);
    assert OwnRow(e, qs, encs, s, log[k], i, r.answers[i]);
    forall j | 0 <= j < |log| && j != k && log[j].ok ensures !(log[j].start <= i < log[j].start + log[j].take) {
      assert !Answers(log, j, i);
    }
    forall j | 0 <= j < |log| ensures (log[j].ok <==> !fails(j)) && 1 <= log[j].b <= BatchCap(e, s) {
      assert AttemptOk(log, j, |qs|, BatchCap(e, s), fails);
    }
    assert AttemptOk(log, k, |qs|, BatchCap(e, s), fails);
    SuccessCount(log);
  }

  lemma {:induction false} SuccessCount(log: seq<Attempt>)
    ensures Successes(log) == |set j | 0 <= j < |log| && log[j].ok|
  {
    var all := set j | 0 <= j < |log| && log[j].ok;
    if log == [] {
      assert all == {};
    } else {
      var m := |log| - 1;
      SuccessCount(log[..m]);
      var rest := set j | 0 <= j < |log[..m]| && log[..m][j].ok;
      assert all == if log[m].ok then rest + {m} else rest;
    }
  }

  /* ---------- Independence ---------- */

  /** A row's output does not depend on what it is batched with. */
  ghost predicate RowIndependent<Q(!new), E(!new), O(!new), A>(e: Engine<Q, E, O, A>, s: int, row: E -> O) {
    forall slice: seq<E>, b: int, j: nat {:trigger e.forward(slice, b, s)(j)} ::
      j < |slice| ==> e.forward(slice, b, s)(j) == row(slice[j])
  }

  /** Then the answers are the same whichever forwards fail, as long as the run answers. */
  lemma IndependentOfFailures<Q(!new), E(!new), O(!new), A>(
    e: Engine<Q, E, O, A>, qs: seq<Q>, encs: seq<E>, fails: nat -> bool, log: seq<Attempt>, r: Result<A>, row: E -> O)
    requires Sound(e, qs, encs, fails, log, r) && r.Answered?
    requires RowIndependent(e, SeqFor(e, encs), row)
    ensures |r.answers| == |qs|
    ensures forall i :: 0 <= i < |qs| ==> r.answers[i] == e.decode(qs[i], e.encode(qs[i]), row(e.encode(qs[i])))
  {
    hide LogOk, Covered, Successes, Tokens;
    var s := SeqFor(e, encs);
    forall i | 0 <= i < |qs| ensures r.answers[i] == e.decode(qs[i], e.encode(qs[i]), row(e.encode(qs[i]))) {
      var k := AnsweredOnce(log, |qs|, BatchCap(e, s), fails, i);
      var a := log[k];
      assert OwnRow(e, qs, encs, s, a, i, r.answers[i]);
      assert encs[a.start..a.start + a.take][i - a.start] == encs[i];
    }
  }
}
