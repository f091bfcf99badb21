/**
 The gated delta rule over reals, one batch element and head: a memory of one column per value channel that is
 decayed, corrected towards v at the key k, and read at the query.
 */
module GatedDelta {

  /** k, q, v and gate at a step and channel; beta at a step; the initial memory; the size and the query's scale. */
  datatype Inputs = Inputs(size: nat, q: (nat, nat) -> real, k: (nat, nat) -> real, v: (nat, nat) -> real,
                           gate: (nat, nat) -> real, beta: nat -> real, state: (nat, nat) -> real,
                           scale: real, exp: real -> real) {
    /** The loop takes the gate of channel 0 for the whole memory. */
    function Decay(i: nat): real { exp(gate(i, 0)) }

    /** The kernel fades row d by the gate of channel d. */
    function OwnDecay(i: nat, d: nat): real { exp(gate(i, d)) }
  }

  /** The sum of a(d) * b(d) over the first n channels of two vectors given at steps i and j. */
  function Dot(a: (nat, nat) -> real, i: nat, b: (nat, nat) -> real, j: nat, n: nat): real {
    if n == 0 then 0.0 else Dot(a, i, b, j, n - 1) + a(i, n - 1) * b(j, n - 1)
  }

  /** Cell (d, e) of the memory after the first i steps. */
  function Rec(x: Inputs, i: nat, d: nat, e: nat): real
    decreases i, 0
  {
    if i == 0 then x.state(d, e)
    else x.Decay(i - 1) * Rec(x, i - 1, d, e) + x.k(i - 1, d) * Delta(x, i - 1, e)
  }

  /** The correction step i writes along its key: what v asks for beyond the decayed reading. */
  function Delta(x: Inputs, i: nat, e: nat): real
    decreases i, 2
  {
    (x.v(i, e) - x.Decay(i) * Read(x, i, x.k, i, e, x.size)) * x.beta(i)
  }

  /** Reading channel e of the memory after i steps at the vector y of step j, over the first n rows. */
  function Read(x: Inputs, i: nat, y: (nat, nat) -> real, j: nat, e: nat, n: nat): real
    decreases i, 1, n
  {
    if n == 0 then 0.0 else Read(x, i, y, j, e, n - 1) + Rec(x, i, n - 1, e) * y(j, n - 1)
  }

  /** f(0) + .. + f(n - 1). */
  function Total(f: nat -> real, n: nat): real { if n == 0 then 0.0 else Total(f, n - 1) + f(n - 1) }

  /** Total is the sum: it adds, and a single value is its own total. */
  lemma {:induction false} TotalAdds(f: nat -> real, g: nat -> real, h: nat -> real, n: nat)
    requires forall r :: 0 <= r < n ==> h(r) == f(r) + g(r)
    ensures Total(h, n) == Total(f, n) + Total(g, n)
  {
    if n > 0 { TotalAdds(f, g, h, n - 1); }
  }

  lemma {:induction false} TotalOfOne(f: nat -> real, c: nat, n: nat)
    requires forall r :: 0 <= r < n && r != c ==> f(r) == 0.0
    ensures Total(f, n) == if c < n then f(c) else 0.0
  {
    if n > 0 { TotalOfOne(f, c, n - 1); }
  }

  lemma {:induction false} TotalScaled(f: nat -> real, g: nat -> real, a: real, n: nat)
    requires forall r :: 0 <= r < n ==> g(r) == a * f(r)
    ensures Total(g, n) == a * Total(f, n)
  {
    if n > 0 {
      TotalScaled(f, g, a, n - 1);
      assert a * Total(f, n - 1) + a * f(n - 1) == a * (Total(f, n - 1) + f(n - 1));
    }
  }

  lemma {:induction false} ReadIsTotal(x: Inputs, i: nat, y: (nat, nat) -> real, j: nat, e: nat, f: nat -> real, n: nat)
    requires forall r :: 0 <= r < n ==> f(r) == Rec(x, i, r, e) * y(j, r)
    ensures Read(x, i, y, j, e, n) == Total(f, n)
  {
    hide Rec;
    if n > 0 { ReadIsTotal(x, i, y, j, e, f, n - 1); }
  }

  /**
   The step cell by cell: the memory m fades by exp of channel 0's gate, and the key writes beta times what v asks
   for beyond the total that the faded memory returns at the key.
   */
  lemma StepIs(x: Inputs, i: nat, d: nat, e: nat, m: (nat, nat) -> real, f: nat -> real)
    requires forall r :: m(r, e) == x.exp(x.gate(i, 0)) * Rec(x, i, r, e)
    requires forall r :: f(r) == m(r, e) * x.k(i, r)
    ensures Rec(x, 0, d, e) == x.state(d, e)
    ensures Rec(x, i + 1, d, e) == m(d, e) + x.k(i, d) * ((x.v(i, e) - Total(f, x.size)) * x.beta(i))
  {
    hide Read, Rec, Total, Delta;
    StartCell(x, d, e);
    RecStep(x, i, d, e);
    DeltaIs(x, i, e, m, f);
  }

  lemma DeltaIs(x: Inputs, i: nat, e: nat, m: (nat, nat) -> real, f: nat -> real)
    requires forall r :: m(r, e) == x.exp(x.gate(i, 0)) * Rec(x, i, r, e)
    requires forall r :: f(r) == m(r, e) * x.k(i, r)
    ensures Delta(x, i, e) == (x.v(i, e) - Total(f, x.size)) * x.beta(i)
  {
    hide Read, Rec, Total;
    var g: nat -> real := (r: nat) => Rec(x, i, r, e) * x.k(i, r);
    Faded(x, i, e, m, f, g);
    ReadIsTotal(x, i, x.k, i, e, g, x.size);
    TotalScaled(g, f, x.exp(x.gate(i, 0)), x.size);
  }

  lemma Faded(x: Inputs, i: nat, e: nat, m: (nat, nat) -> real, f: nat -> real, g: nat -> real)
    requires forall r :: m(r, e) == x.exp(x.gate(i, 0)) * Rec(x, i, r, e)
    requires forall r :: f(r) == m(r, e) * x.k(i, r) && g(r) == Rec(x, i, r, e) * x.k(i, r)
    ensures forall r :: f(r) == x.exp(x.gate(i, 0)) * g(r)
  {
    hide Rec;
    forall r { Assoc(x.exp(x.gate(i, 0)), Rec(x, i, r, e), x.k(i, r)); }
  }

  lemma Distribute(a: real, r: real, k: real, delta: real, y: real)
    ensures (a * r + k * delta) * y == a * (r * y) + (k * y) * delta
  {
  }

  lemma Factor(a: real, p: real, q: real, c: real, s: real, t: real)
    ensures a * p + q * c + (a * s + t * c) == a * (p + s) + (q + t) * c
  {
  }

  /** A step's effect on any reading. */
  lemma {:induction false} ReadStep(x: Inputs, i: nat, y: (nat, nat) -> real, j: nat, e: nat, n: nat)
    ensures Read(x, i + 1, y, j, e, n) ==
            x.Decay(i) * Read(x, i, y, j, e, n) + Dot(x.k, i, y, j, n) * Delta(x, i, e)
    decreases n
  {
    hide Delta;
    var a, c := x.Decay(i), Delta(x, i, e);
    if n > 0 {
      ReadStep(x, i, y, j, e, n - 1);
      Distribute(a, Rec(x, i, n - 1, e), x.k(i, n - 1), c, y(j, n - 1));
      Factor(a, Read(x, i, y, j, e, n - 1), Dot(x.k, i, y, j, n - 1), c,
             Rec(x, i, n - 1, e) * y(j, n - 1), x.k(i, n - 1) * y(j, n - 1));
    }
  }

  /** For a unit key, reading at it after the step mixes the decayed old reading and v by beta. */
  lemma ReadAtUnitKey(x: Inputs, i: nat, e: nat)
    requires Dot(x.k, i, x.k, i, x.size) == 1.0
    ensures Read(x, i + 1, x.k, i, e, x.size) ==
            (1.0 - x.beta(i)) * (x.Decay(i) * Read(x, i, x.k, i, e, x.size)) + x.beta(i) * x.v(i, e)
  {
    hide Read, Rec;
    ReadStep(x, i, x.k, i, e, x.size);
    Mix(x.Decay(i) * Read(x, i, x.k, i, e, x.size), x.v(i, e), x.beta(i));
  }

  lemma Mix(old_: real, v: real, b: real)
    ensures old_ + 1.0 * ((v - old_) * b) == (1.0 - b) * old_ + b * v
  {
  }

  /** The first n keys are unit vectors at right angles. */
  ghost predicate Orthonormal(x: Inputs, n: nat) {
    forall i, j {:trigger Dot(x.k, i, x.k, j, x.size)} :: 0 <= i < n && 0 <= j < n ==>
      Dot(x.k, i, x.k, j, x.size) == if i == j then 1.0 else 0.0
  }

  /** The decay of steps from up to n. */
  function DecayOver(x: Inputs, from: nat, n: nat): real
    requires from <= n
    decreases n - from
  {
    if from == n then 1.0 else x.Decay(n - 1) * DecayOver(x, from, n - 1)
  }

  lemma Assoc(a: real, b: real, c: real)
    ensures a * (b * c) == a * b * c
  {
  }

  /** A key at right angles to the keys of steps from..n only fades over them. */
  lemma {:induction false} Fades(x: Inputs, n: nat, j: nat, e: nat, from: nat)
    requires from <= n
    requires forall i {:trigger Dot(x.k, i, x.k, j, x.size)} :: from <= i < n ==> Dot(x.k, i, x.k, j, x.size) == 0.0
    ensures Read(x, n, x.k, j, e, x.size) == DecayOver(x, from, n) * Read(x, from, x.k, j, e, x.size)
    decreases n
  {
    hide Read, Rec, Delta;
    if from < n {
      Fades(x, n - 1, j, e, from);
      ReadStep(x, n - 1, x.k, j, e, x.size);
      assert Dot(x.k, n - 1, x.k, j, x.size) == 0.0;
      Assoc(x.Decay(n - 1), DecayOver(x, from, n - 1), Read(x, from, x.k, j, e, x.size));
    }
  }

  /** With orthonormal keys, what the memory returns at an earlier key, for any gates, betas and initial memory. */
  lemma ReadEarlierKey(x: Inputs, n: nat, j: nat, e: nat)
    requires Orthonormal(x, n) && j < n
    ensures Read(x, n, x.k, j, e, x.size) ==
            DecayOver(x, j + 1, n) *
            ((1.0 - x.beta(j)) * (DecayOver(x, 0, j + 1) * Read(x, 0, x.k, j, e, x.size)) + x.beta(j) * x.v(j, e))
  {
    hide Read, Rec, Delta, Dot;
    assert Dot(x.k, j, x.k, j, x.size) == 1.0;
    Fades(x, j, j, e, 0);
    ReadAtUnitKey(x, j, e);
    Fades(x, n, j, e, j + 1);
    Assoc(x.Decay(j), DecayOver(x, 0, j), Read(x, 0, x.k, j, e, x.size));
  }

  lemma {:induction false} NoDecay(x: Inputs, from: nat, n: nat)
    requires from <= n && x.exp(0.0) == 1.0 && forall i :: from <= i < n ==> x.gate(i, 0) == 0.0
    ensures DecayOver(x, from, n) == 1.0
    decreases n - from
  {
    if from < n { NoDecay(x, from, n - 1); }
  }

  /** Perfect recall: with zero gates, beta one and orthonormal keys, every earlier key still returns its value. */
  lemma Recall(x: Inputs, n: nat, j: nat, e: nat)
    requires Orthonormal(x, n) && j < n && x.exp(0.0) == 1.0
    requires forall i :: 0 <= i < n ==> x.gate(i, 0) == 0.0 && x.beta(i) == 1.0
    ensures Read(x, n, x.k, j, e, x.size) == x.v(j, e)
  {
    hide Read, Orthonormal;
    ReadEarlierKey(x, n, j, e);
    NoDecay(x, j + 1, n);
    NoDecay(x, 0, j + 1);
  }

  /* ---------- Gates per channel, as the compute kernel applies them ---------- */

  /** Cell (d, e) after i steps when every row fades by its own gate. */
  function OwnRec(x: Inputs, i: nat, d: nat, e: nat): real
    decreases i, 0
  {
    if i == 0 then x.state(d, e)
    else x.OwnDecay(i - 1, d) * OwnRec(x, i - 1, d, e)
         + x.k(i - 1, d) * ((x.v(i - 1, e) - OwnMem(x, i - 1, e, x.size)) * x.beta(i - 1))
  }

  /** What the memory so faded returns at the key of step i, over the first n rows. */
  function OwnMem(x: Inputs, i: nat, e: nat, n: nat): real
    decreases i, 1, n
  {
    if n == 0 then 0.0 else OwnMem(x, i, e, n - 1) + x.OwnDecay(i, n - 1) * OwnRec(x, i, n - 1, e) * x.k(i, n - 1)
  }

  /** The same numbers to begin with. */
  ghost predicate SameCells(x: Inputs, i: nat) {
    forall d, e :: 0 <= d < x.size && 0 <= e < x.size ==> Rec(x, i, d, e) == OwnRec(x, i, d, e)
  }

  ghost predicate SharedGates(x: Inputs, i: nat) {
    forall d :: 0 <= d < x.size ==> x.OwnDecay(i, d) == x.Decay(i)
  }

  lemma {:induction false} SameMem(x: Inputs, i: nat, e: nat, n: nat)
    requires SameCells(x, i) && SharedGates(x, i) && n <= x.size && e < x.size
    ensures OwnMem(x, i, e, n) == x.Decay(i) * Read(x, i, x.k, i, e, n)
    decreases n
  {
    hide Rec, OwnRec;
    if n > 0 {
      SameMem(x, i, e, n - 1);
      MemTerm(x.Decay(i), Read(x, i, x.k, i, e, n - 1), Rec(x, i, n - 1, e), x.k(i, n - 1));
    }
  }

  /** With one gate for all rows the two agree after any number of steps. */
  lemma {:induction false} SharedGatesSame(x: Inputs, i: nat)
    requires forall j {:trigger SharedGates(x, j)} :: 0 <= j < i ==> SharedGates(x, j)
    ensures SameCells(x, i)
  {
    hide Read, OwnMem;
    if i > 0 {
      SharedGatesSame(x, i - 1);
      assert SharedGates(x, i - 1);
      forall d, e | 0 <= d < x.size && 0 <= e < x.size ensures Rec(x, i, d, e) == OwnRec(x, i, d, e) {
        SameMem(x, i - 1, e, x.size);
      }
    }
  }

  /** The key of step i has row c only, and its beta makes the step replace that row. */
  ghost predicate Replaces(x: Inputs, i: nat, c: nat) {
    && (forall d :: 0 <= d < x.size && d != c ==> x.k(i, d) == 0.0)
    && x.beta(i) * (x.k(i, c) * x.k(i, c)) == 1.0
  }

  /** Row c alone fades by another gate, and the step replaces what is in it. */
  ghost predicate Hidden(x: Inputs, i: nat, c: nat) {
    c < x.size && Replaces(x, i, c) && forall d :: 0 <= d < x.size && d != c ==> x.OwnDecay(i, d) == x.Decay(i)
  }

  ghost predicate FirstStepSame(x: Inputs) {
    forall m: (nat, nat) -> real :: SameCells(x.(state := m), 1)
  }

  /** A memory of one row. */
  function OneRow(c: nat): (nat, nat) -> real { (d: nat, e: nat) => if d == c then 1.0 else 0.0 }

  /** Both readings at a memory whose only row at which the key is not zero, or which is not zero, is c. */
  lemma {:induction false} MemOfRow(x: Inputs, c: nat, e: nat, n: nat)
    requires forall d :: 0 <= d < n && d != c ==> x.k(0, d) == 0.0 || x.state(d, e) == 0.0
    ensures OwnMem(x, 0, e, n) == if c < n then x.OwnDecay(0, c) * x.state(c, e) * x.k(0, c) else 0.0
    ensures Read(x, 0, x.k, 0, e, n) == if c < n then x.state(c, e) * x.k(0, c) else 0.0
    decreases n
  {
    if n > 0 {
      MemOfRow(x, c, e, n - 1);
      if n - 1 != c { ZeroTerm(x.OwnDecay(0, n - 1), x.state(n - 1, e), x.k(0, n - 1)); }
    }
  }

  lemma ZeroTerm(a: real, m: real, k: real)
    requires m == 0.0 || k == 0.0
    ensures a * m * k == 0.0 && m * k == 0.0
  {
  }

  lemma RecStep(x: Inputs, i: nat, d: nat, e: nat)
    ensures Rec(x, i + 1, d, e) == x.Decay(i) * Rec(x, i, d, e) + x.k(i, d) * Delta(x, i, e)
  {
  }

  /** Cell (d, e) after the first step, in both. */
  lemma FirstStep(x: Inputs, d: nat, e: nat)
    ensures Rec(x, 1, d, e) == x.Decay(0) * x.state(d, e)
              + x.k(0, d) * ((x.v(0, e) - x.Decay(0) * Read(x, 0, x.k, 0, e, x.size)) * x.beta(0))
    ensures OwnRec(x, 1, d, e) == x.OwnDecay(0, d) * x.state(d, e)
              + x.k(0, d) * ((x.v(0, e) - OwnMem(x, 0, e, x.size)) * x.beta(0))
  {
    hide Read, OwnMem, Rec;
    StartCell(x, d, e);
    RecStep(x, 0, d, e);
  }

  lemma StartCell(x: Inputs, d: nat, e: nat)
    ensures Rec(x, 0, d, e) == OwnRec(x, 0, d, e) == x.state(d, e)
  {
  }

  lemma Times1(a: real, k: real)
    ensures a * 1.0 * k == a * k && 1.0 * k == k && a * 1.0 == a && a * 0.0 == 0.0
  {
  }

  /** On a memory of row c only. */
  lemma RowStepped(x: Inputs, c: nat, d: nat, e: nat)
    requires c < x.size && x.state == OneRow(c)
    ensures Rec(x, 1, d, e) == (if d == c then x.Decay(0) else 0.0)
                               + x.k(0, d) * ((x.v(0, e) - x.Decay(0) * x.k(0, c)) * x.beta(0))
    ensures OwnRec(x, 1, d, e) == (if d == c then x.OwnDecay(0, c) else 0.0)
                                  + x.k(0, d) * ((x.v(0, e) - x.OwnDecay(0, c) * x.k(0, c)) * x.beta(0))
  {
    hide Rec, OwnRec, Read, OwnMem, Delta;
    MemOfRow(x, c, e, x.size);
    FirstStep(x, d, e);
    Times1(x.OwnDecay(0, c), x.k(0, c));
    Times1(x.Decay(0), x.k(0, c));
    Times1(x.OwnDecay(0, d), x.k(0, c));
  }

  /** The difference a row's own gate makes: gone exactly where a replacing step removes it. */
  lemma RowDiffers(a: real, b: real, kc: real, kd: real, v: real, beta: real)
    requires a != b
    ensures a + kc * ((v - a * kc) * beta) == b + kc * ((v - b * kc) * beta) ==> beta * (kc * kc) == 1.0
    ensures beta * (kc * kc) == 1.0 && kd * ((v - a * kc) * beta) == kd * ((v - b * kc) * beta) ==> kd == 0.0
  {
    assert a + kc * ((v - a * kc) * beta) - (b + kc * ((v - b * kc) * beta)) == (a - b) * (1.0 - beta * (kc * kc));
    assert kd * ((v - a * kc) * beta) - kd * ((v - b * kc) * beta) == (b - a) * (kd * (kc * beta));
    if beta * (kc * kc) == 1.0 && kd * (kc * beta) == 0.0 {
      assert kd * (kc * beta) * kc == kd * (beta * (kc * kc));
    }
  }

  lemma AgreeOnRow(x: Inputs, c: nat, d: nat)
    requires FirstStepSame(x) && c < x.size && d < x.size
    ensures var (a, b) := (x.Decay(0), x.OwnDecay(0, c));
      (if d == c then a else 0.0) + x.k(0, d) * ((x.v(0, 0) - a * x.k(0, c)) * x.beta(0)) ==
      (if d == c then b else 0.0) + x.k(0, d) * ((x.v(0, 0) - b * x.k(0, c)) * x.beta(0))
  {
    hide Rec, OwnRec, OneRow;
    var y := x.(state := OneRow(c));
    assert SameCells(y, 1);
    RowStepped(y, c, d, 0);
    assert Rec(y, 1, d, 0) == OwnRec(y, 1, d, 0);
  }

  /** If one step agrees on every memory, a row whose gate differs is replaced by the step. */
  lemma AgreeingReplaces(x: Inputs, c: nat)
    requires FirstStepSame(x) && c < x.size && x.OwnDecay(0, c) != x.Decay(0)
    ensures Replaces(x, 0, c)
  {
    hide FirstStepSame;
    AgreeOnRow(x, c, c);
    forall d | 0 <= d < x.size
      ensures x.beta(0) * (x.k(0, c) * x.k(0, c)) == 1.0
      ensures d != c ==> x.k(0, d) == 0.0
    {
      AgreeOnRow(x, c, d);
      RowDiffers(x.Decay(0), x.OwnDecay(0, c), x.k(0, c), x.k(0, d), x.v(0, 0), x.beta(0));
    }
  }

  /** A replacing step hides what the gate of its row did. */
  lemma HiddenSame(x: Inputs, c: nat)
    requires Hidden(x, 0, c)
    ensures SameCells(x, 1)
  {
    hide Rec, OwnRec, Read, OwnMem, Delta;
    forall d, e | 0 <= d < x.size && 0 <= e < x.size ensures Rec(x, 1, d, e) == OwnRec(x, 1, d, e) {
      MemOfRow(x, c, e, x.size);
      FirstStep(x, d, e);
      if d == c {
        Replaced(x.OwnDecay(0, c), x.state(c, e), x.k(0, c), x.v(0, e), x.beta(0));
        Replaced(x.Decay(0), x.state(c, e), x.k(0, c), x.v(0, e), x.beta(0));
      } else {
        ZeroKey(x.Decay(0) * x.state(d, e), x.k(0, d), (x.v(0, e) - x.Decay(0) * Read(x, 0, x.k, 0, e, x.size)) * x.beta(0));
        ZeroKey(x.OwnDecay(0, d) * x.state(d, e), x.k(0, d), (x.v(0, e) - OwnMem(x, 0, e, x.size)) * x.beta(0));
      }
    }
  }

  lemma Replaced(a: real, m: real, k: real, v: real, b: real)
    requires b * (k * k) == 1.0
    ensures a * m + k * ((v - a * m * k) * b) == k * (v * b)
    ensures a * m + k * ((v - a * (m * k)) * b) == k * (v * b)
  {
    assert k * ((v - a * m * k) * b) == k * (v * b) - a * m * (b * (k * k));
    assert a * (m * k) == a * m * k;
  }

  /** Other queries, keys, values, betas and another initial memory under the same gates. */
  ghost predicate SameGates(x: Inputs, y: Inputs) { y.size == x.size && y.gate == x.gate && y.exp == x.exp }

  lemma GatesSame(x: Inputs, y: Inputs, i: nat)
    requires SameGates(x, y)
    ensures forall d: nat {:trigger y.OwnDecay(i, d)} {:trigger x.OwnDecay(i, d)} :: y.OwnDecay(i, d) == x.OwnDecay(i, d)
    ensures y.Decay(i) == x.Decay(i)
  {
  }

  /**
   One step with the gate of channel 0 gives what the kernel gives, on every memory, exactly when all channels
   fade alike, or one channel alone does not and the step replaces it.
   */
  lemma GateStepIff(x: Inputs)
    ensures FirstStepSame(x) <==> SharedGates(x, 0) || exists c :: Hidden(x, 0, c)
  {
    if FirstStepSame(x) && !SharedGates(x, 0) {
      var c :| 0 <= c < x.size && x.OwnDecay(0, c) != x.Decay(0);
      AgreeingReplaces(x, c);
      forall d | 0 <= d < x.size && d != c ensures x.OwnDecay(0, d) == x.Decay(0) {
        if x.OwnDecay(0, d) != x.Decay(0) { AgreeingReplaces(x, d); }
      }
      assert Hidden(x, 0, c);
    }
    forall m: (nat, nat) -> real | SharedGates(x, 0) || exists c :: Hidden(x, 0, c) ensures SameCells(x.(state := m), 1) {
      var y := x.(state := m);
      assert SameGates(x, y);
      if SharedGates(x, 0) {
        GatesSame(x, y, 0);
        SharedGatesSame(y, 1);
      } else {
        var c :| Hidden(x, 0, c);
        GatesSame(x, y, 0);
        HiddenSame(y, c);
      }
    }
  }

  ghost predicate AlwaysSame(x: Inputs, n: nat) {
    forall y: Inputs, i: nat {:trigger SameGates(x, y), SameCells(y, i)} :: SameGates(x, y) && i <= n ==> SameCells(y, i)
  }

  /** With keys of zero the memory only fades. */
  lemma {:induction false} OnlyFades(x: Inputs, i: nat, d: nat, e: nat)
    requires (forall j: nat, c: nat :: x.k(j, c) == 0.0) && x.state(d, e) == 1.0 && (forall z: real :: x.exp(z) > 0.0)
    ensures Rec(x, i, d, e) > 0.0
    ensures Rec(x, i + 1, d, e) == x.Decay(i) * Rec(x, i, d, e)
    ensures OwnRec(x, i + 1, d, e) == x.OwnDecay(i, d) * OwnRec(x, i, d, e)
  {
    hide Delta, OwnMem;
    var g := x.gate(i, 0);
    assert x.exp(g) > 0.0;
    ZeroKey(x.Decay(i) * Rec(x, i, d, e), x.k(i, d), Delta(x, i, e));
    ZeroKey(x.OwnDecay(i, d) * OwnRec(x, i, d, e), x.k(i, d), (x.v(i, e) - OwnMem(x, i, e, x.size)) * x.beta(i));
    if i > 0 {
      OnlyFades(x, i - 1, d, e);
      var h := x.gate(i - 1, 0);
      assert x.exp(h) > 0.0;
      Positive(x.Decay(i - 1), Rec(x, i - 1, d, e));
    }
  }

  lemma ZeroKey(a: real, k: real, c: real)
    requires k == 0.0
    ensures a + k * c == a
  {
  }

  lemma Positive(a: real, b: real)
    requires a > 0.0 && b > 0.0
    ensures a * b > 0.0
  {
  }

  lemma CancelPositive(a: real, b: real, r: real)
    requires r > 0.0 && a * r == b * r
    ensures a == b
  {
    assert (a - b) * r == 0.0;
  }

  /** Over whole runs, whatever the other inputs: the loop gives what the kernel gives exactly when all channels fade alike. */
  lemma ChannelGatesIff(x: Inputs, n: nat)
    requires forall z: real :: x.exp(z) > 0.0
    ensures AlwaysSame(x, n) <==> forall i {:trigger SharedGates(x, i)} :: 0 <= i < n ==> SharedGates(x, i)
  {
    if AlwaysSame(x, n) {
      forall i, d | 0 <= i < n && 0 <= d < x.size ensures x.OwnDecay(i, d) == x.Decay(i) {
        var y := x.(k := (j: nat, c: nat) => 0.0, state := (c: nat, e: nat) => 1.0);
        assert SameGates(x, y);
        assert SameCells(y, i) && SameCells(y, i + 1);
        OnlyFades(y, i, d, 0);
        assert Rec(y, i, d, 0) == OwnRec(y, i, d, 0) && Rec(y, i + 1, d, 0) == OwnRec(y, i + 1, d, 0);
        CancelPositive(x.OwnDecay(i, d), x.Decay(i), Rec(y, i, d, 0));
      }
    }
    if forall i {:trigger SharedGates(x, i)} :: 0 <= i < n ==> SharedGates(x, i) {
      forall y: Inputs, i: nat | SameGates(x, y) && i <= n ensures SameCells(y, i) {
        forall j | 0 <= j < i ensures SharedGates(y, j) {
          assert SharedGates(x, j);
          GatesSame(x, y, j);
        }
        SharedGatesSame(y, i);
      }
    }
  }

  /* ---------- The loop ---------- */

  /** The output at a step: the memory after it, read at the scaled query. */
  function Out(x: Inputs, i: nat, e: nat, n: nat): real {
    if n == 0 then 0.0 else Out(x, i, e, n - 1) + Rec(x, i + 1, n - 1, e) * (x.q(i, n - 1) * x.scale)
  }

  /** Scaling the query scales the reading. */
  lemma {:induction false} OutIsRead(x: Inputs, i: nat, e: nat, n: nat)
    ensures Out(x, i, e, n) == x.scale * Read(x, i + 1, x.q, i, e, n)
  {
    hide Rec;
    if n > 0 {
      OutIsRead(x, i, e, n - 1);
      ScaleTerm(Rec(x, i + 1, n - 1, e), x.q(i, n - 1), x.scale, Read(x, i + 1, x.q, i, e, n - 1));
    }
  }

  lemma ScaleTerm(r: real, q: real, s: real, sum: real)
    ensures s * sum + r * (q * s) == s * (sum + r * q)
  {
  }

  /** The memory holds the cells after i steps. */
  ghost predicate Holds(x: Inputs, rec: array2<real>, i: nat)
    reads rec
  {
    && rec.Length0 == rec.Length1 == x.size
    && forall d, e :: 0 <= d < x.size && 0 <= e < x.size ==> rec[d, e] == Rec(x, i, d, e)
  }

  /** As Holds, with step i's decay already applied. */
  ghost predicate Decayed(x: Inputs, rec: array2<real>, i: nat)
    reads rec
  {
    && rec.Length0 == rec.Length1 == x.size
    && forall d, e :: 0 <= d < x.size && 0 <= e < x.size ==> rec[d, e] == x.Decay(i) * Rec(x, i, d, e)
  }

  /** What the decayed memory already returns at the step's key, in one channel. */
  method KvMem(x: Inputs, rec: array2<real>, i: nat, e: nat) returns (sum: real)
    requires Decayed(x, rec, i) && e < x.size
    ensures sum == x.Decay(i) * Read(x, i, x.k, i, e, x.size)
  {
    hide Rec;
    sum := 0.0;
    for d := 0 to x.size
      invariant sum == x.Decay(i) * Read(x, i, x.k, i, e, d)
    {
      sum := sum + rec[d, e] * x.k(i, d);
      MemTerm(x.Decay(i), Read(x, i, x.k, i, e, d), Rec(x, i, d, e), x.k(i, d));
    }
  }

  lemma MemTerm(a: real, sum: real, r: real, k: real)
    ensures a * sum + (a * r) * k == a * (sum + r * k)
  {
  }

  /** One channel of the output: the memory read at the scaled query. */
  method ReadOut(x: Inputs, rec: array2<real>, i: nat, e: nat) returns (sum: real)
    requires Holds(x, rec, i + 1) && e < x.size
    ensures sum == Out(x, i, e, x.size)
  {
    hide Rec;
    sum := 0.0;
    for d := 0 to x.size
      invariant sum == Out(x, i, e, d)
    {
      sum := sum + rec[d, e] * (x.q(i, d) * x.scale);
    }
  }

  method DecayMemory(x: Inputs, rec: array2<real>, i: nat)
    requires Holds(x, rec, i)
    modifies rec
    ensures Decayed(x, rec, i)
  {
    hide Rec;
    var decay := x.Decay(i);
    forall d, e | 0 <= d < x.size && 0 <= e < x.size {
      rec[d, e] := decay * rec[d, e];
    }
  }

  /** delta for every channel. */
  method Corrections(x: Inputs, rec: array2<real>, i: nat) returns (delta: seq<real>)
    requires Decayed(x, rec, i)
    ensures |delta| == x.size && forall e :: 0 <= e < x.size ==> delta[e] == Delta(x, i, e)
  {
    hide Rec, Read;
    delta := [];
    for e := 0 to x.size
      invariant |delta| == e && forall c :: 0 <= c < e ==> delta[c] == Delta(x, i, c)
    {
      var kvMem := KvMem(x, rec, i, e);
      delta := delta + [(x.v(i, e) - kvMem) * x.beta(i)];
    }
  }

  method AddCorrections(x: Inputs, rec: array2<real>, i: nat, delta: seq<real>)
    requires Decayed(x, rec, i) && |delta| == x.size && forall e :: 0 <= e < x.size ==> delta[e] == Delta(x, i, e)
    modifies rec
    ensures Holds(x, rec, i + 1)
  {
    hide Rec, Delta, Read;
    forall d, e | 0 <= d < x.size && 0 <= e < x.size {
      rec[d, e] := rec[d, e] + x.k(i, d) * delta[e];
    }
    forall d, e | 0 <= d < x.size && 0 <= e < x.size ensures rec[d, e] == Rec(x, i + 1, d, e) {
      RecStep(x, i, d, e);
    }
  }

  /** One step of the memory. */
  method StepMemory(x: Inputs, rec: array2<real>, i: nat)
    requires Holds(x, rec, i)
    modifies rec
    ensures Holds(x, rec, i + 1)
  {
    DecayMemory(x, rec, i);
    var delta := Corrections(x, rec, i);
    AddCorrections(x, rec, i, delta);
  }

  /** The reference loop over steps: each output is the scaled query's reading of the memory so far. */
  method GatedDeltaNet(x: Inputs, steps: nat) returns (out: array2<real>, rec: array2<real>)
    ensures out.Length0 == steps && out.Length1 == x.size
    ensures forall i, e :: 0 <= i < steps && 0 <= e < x.size ==>
      out[i, e] == x.scale * Read(x, i + 1, x.q, i, e, x.size)
    ensures Holds(x, rec, steps)
  {
    hide Rec, Read, Out;
    rec := new real[x.size, x.size]((d, e) => if d >= 0 && e >= 0 then x.state(d, e) else 0.0);
    out := new real[steps, x.size]((i, e) => 0.0);
    StartHolds(x, rec);
    for i := 0 to steps
      invariant fresh(rec) && fresh(out) && rec != out
      invariant Holds(x, rec, i)
      invariant forall s, e :: 0 <= s < i && 0 <= e < x.size ==> out[s, e] == x.scale * Read(x, s + 1, x.q, s, e, x.size)
    {
      StepMemory(x, rec, i);
      for e := 0 to x.size
        invariant Holds(x, rec, i + 1)
        invariant forall s, c :: 0 <= s < i && 0 <= c < x.size ==> out[s, c] == x.scale * Read(x, s + 1, x.q, s, c, x.size)
        invariant forall c :: 0 <= c < e ==> out[i, c] == x.scale * Read(x, i + 1, x.q, i, c, x.size)
      {
        OutIsRead(x, i, e, x.size);
        out[i, e] := ReadOut(x, rec, i, e);
      }
    }
  }

  lemma StartHolds(x: Inputs, rec: array2<real>)
    requires rec.Length0 == rec.Length1 == x.size
    requires forall d, e :: 0 <= d < x.size && 0 <= e < x.size ==> rec[d, e] == x.state(d, e)
    ensures Holds(x, rec, 0)
  {
  }
}
