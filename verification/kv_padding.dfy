/** The arithmetic behind bucketed execution: padded KV lengths, bucket keys and causal masks. */
module KvPadding {
  import opened Arith

  /* ---------- Bits ---------- */

  /** a & ~b on natural numbers. */
  function AndNot(a: nat, b: nat): (r: nat)
    ensures a - b <= r <= a
  {
    if a == 0 then 0
    else 2 * AndNot(a / 2, b / 2) + if a % 2 == 1 && b % 2 == 0 then 1 else 0
  }

  /** a ^ b on natural numbers. */
  function Xor(a: nat, b: nat): nat
    decreases a + b
  {
    if a == 0 && b == 0 then 0
    else 2 * Xor(a / 2, b / 2) + if a % 2 != b % 2 then 1 else 0
  }

  function Pow2(k: nat): (r: nat)
    ensures r > 0
  {
    if k == 0 then 1 else 2 * Pow2(k - 1)
  }

  /** a with its low k bits cleared. */
  function Down(a: nat, k: nat): (r: nat)
    ensures r <= a < r + Pow2(k)
    decreases k
  {
    if k == 0 then a else 2 * Down(a / 2, k - 1)
  }

  lemma {:induction false} AndNotPow2(a: nat, k: nat)
    ensures AndNot(a, Pow2(k) - 1) == Down(a, k)
    decreases k
  {
    if k == 0 {
      AndNotZero(a);
    } else {
      var m := Pow2(k - 1);
      assert (2 * m - 1) / 2 == m - 1;
      if a > 0 { AndNotPow2(a / 2, k - 1); }
    }
  }

  lemma {:induction false} AndNotZero(a: nat)
    ensures AndNot(a, 0) == a
  {
    if a > 0 { AndNotZero(a / 2); }
  }

  /** Clearing low bits leaves a multiple of 2^k. */
  lemma {:induction false} DownMultiple(a: nat, k: nat) returns (q: nat)
    ensures Down(a, k) == q * Pow2(k)
    decreases k
  {
    if k == 0 {
      q := a;
    } else {
      q := DownMultiple(a / 2, k - 1);
      Twice(q, Pow2(k - 1));
    }
  }

  lemma Twice(q: nat, h: nat)
    ensures 2 * (q * h) == q * (2 * h)
  {
  }

  lemma {:induction false} DownMonotone(a: nat, b: nat, k: nat)
    requires a <= b
    ensures Down(a, k) <= Down(b, k)
    decreases k
  {
    if k > 0 { DownMonotone(a / 2, b / 2, k - 1); }
  }

  /** Exclusive-or with a number below 2^k is addition when the low k bits are clear. */
  lemma {:induction false} XorShifted(s: nat, n: nat, k: nat)
    requires n < Pow2(k)
    ensures 0 <= s * Pow2(k)
    ensures Xor(s * Pow2(k), n) == s * Pow2(k) + n
    decreases k
  {
    var m := Pow2(k);
    if k == 0 {
      assert s * m == s;
      XorZero(s);
    } else {
      var h := Pow2(k - 1);
      assert s * m == 2 * (s * h);
      XorShifted(s, n / 2, k - 1);
      assert s * m / 2 == s * h && s * m % 2 == 0;
      if s * m == 0 && n == 0 { assert Xor(0, 0) == 0; }
    }
  }

  lemma {:induction false} XorZero(a: nat)
    ensures Xor(a, 0) == a
  {
    if a > 0 { XorZero(a / 2); }
  }

  /* ---------- Padded KV lengths ---------- */

  /** GGML_PAD: (x + n - 1) & ~(n - 1). */
  function Padded(x: nat, n: nat): nat
    requires n > 0
  {
    AndNot(x + n - 1, n - 1)
  }

  /** pad_kv_len */
  function PadKvLen(nKv: int, maxCtx: nat, nPad: int): int {
    var n: nat := if nKv < 1 then 1 else nKv;
    if nPad <= 1 then Min(n, maxCtx)
    else
      var padded := Max(nPad, Padded(n, nPad));
      if padded > maxCtx then maxCtx else padded
  }

  /** Whatever the pad, the padded length covers the rows in use and stays within the context. */
  lemma PadCovers(nKv: int, maxCtx: nat, nPad: int)
    requires maxCtx >= 1
    ensures 1 <= PadKvLen(nKv, maxCtx, nPad) <= maxCtx
    ensures nKv <= maxCtx ==> nKv <= PadKvLen(nKv, maxCtx, nPad)
    ensures nPad <= 1 && 1 <= nKv <= maxCtx ==> PadKvLen(nKv, maxCtx, nPad) == nKv
    ensures nPad > 1 && nPad <= maxCtx ==> PadKvLen(nKv, maxCtx, nPad) >= nPad
  {
    var n: nat := if nKv < 1 then 1 else nKv;
    if nPad > 1 { assert Padded(n, nPad) >= n; }
  }

  /** The least multiple of 2^k that is at least n. */
  function RoundUp(n: nat, k: nat): (r: nat)
    ensures n <= r < n + Pow2(k)
  {
    Down(n + Pow2(k) - 1, k)
  }

  /** With a power of two the padded length is the least multiple of it that covers, cut at the context. */
  lemma PadPow2(nKv: nat, maxCtx: nat, k: nat)
    requires nKv >= 1 && maxCtx >= 1 && k >= 1
    ensures exists q :: RoundUp(nKv, k) == q * Pow2(k)
    ensures PadKvLen(nKv, maxCtx, Pow2(k)) == Min(RoundUp(nKv, k), maxCtx)
  {
    hide Down, AndNot, Pow2;
    var n := Pow2(k);
    Pow2Even(k);
    AndNotPow2(nKv + n - 1, k);
    var q := DownMultiple(nKv + n - 1, k);
    assert RoundUp(nKv, k) == q * n;
    AtLeastOne(q, n);
  }

  lemma Pow2Even(k: nat)
    requires k >= 1
    ensures Pow2(k) >= 2
  {
  }

  lemma AtLeastOne(q: nat, n: nat)
    requires q * n > 0
    ensures q * n >= n
  {
    if q > 0 { assert q * n == (q - 1) * n + n; }
  }

  /** So with a power of two it never shrinks as the sequence grows. */
  lemma PadMonotone(a: nat, b: nat, maxCtx: nat, k: nat)
    requires 1 <= a <= b && maxCtx >= 1 && k >= 1
    ensures PadKvLen(a, maxCtx, Pow2(k)) <= PadKvLen(b, maxCtx, Pow2(k))
  {
    hide Down, Pow2;
    PadPow2(a, maxCtx, k);
    PadPow2(b, maxCtx, k);
    DownMonotone(a + Pow2(k) - 1, b + Pow2(k) - 1, k);
  }

  /* For any other pad it does shrink somewhere. */

  /** A bit above both r and m passes through. */
  lemma {:induction false} AndNotHigh(k: nat, r: nat, m: nat)
    requires r < Pow2(k) && m < Pow2(k)
    ensures AndNot(Pow2(k) + r, m) == Pow2(k) + AndNot(r, m)
  {
    if k > 0 {
      AndNotHigh(k - 1, r / 2, m / 2);
      assert (Pow2(k) + r) / 2 == Pow2(k - 1) + r / 2;
    }
  }

  lemma {:induction false} AndNotSelf(m: nat)
    ensures AndNot(m, m) == 0
  {
    if m > 0 { AndNotSelf(m / 2); }
  }

  lemma {:induction false} Pow2Above(m: nat)
    ensures Pow2(m) > m
  {
    if m > 0 { Pow2Above(m - 1); }
  }

  lemma AndNotDouble(x: nat, m: nat)
    ensures AndNot(2 * x, m) == 2 * AndNot(x, m / 2)
  {
  }

  lemma RoundsDownEven(m: nat) returns (x: nat, y: nat)
    requires m >= 2 && m % 2 == 0
    ensures m < x < y && AndNot(x, m) > AndNot(y, m) > m
  {
    var top := Pow2(m);
    Pow2Above(m);
    x, y := top + 1, top + m;
    AndNotHigh(m, 1, m);
    AndNotHigh(m, m, m);
    AndNotSelf(m);
    assert AndNot(1, m) == 1;
  }

  /** A pad of m + 1 rounds some smaller number higher than a larger one, and both stay above the pad. */
  lemma {:induction false} RoundsDown(m: nat) returns (x: nat, y: nat)
    requires forall k :: m + 1 != Pow2(k)
    ensures m < x < y && AndNot(x, m) > AndNot(y, m) > m
    decreases m
  {
    hide AndNot;
    if m % 2 == 0 {
      assert Pow2(0) == 1;
      x, y := RoundsDownEven(m);
    } else {
      forall k: nat ensures m / 2 + 1 != Pow2(k) { assert Pow2(k + 1) == 2 * Pow2(k); }
      x, y := RoundsDown(m / 2);
      AndNotDouble(x, m);
      AndNotDouble(y, m);
      x, y := 2 * x, 2 * y;
    }
  }

  /** Then that many rows are given a longer view than the larger number. It still covers them. */
  lemma PadShrinks(nPad: nat) returns (a: nat, b: nat, maxCtx: nat)
    requires nPad > 1 && forall k :: nPad != Pow2(k)
    ensures 1 <= a <= b && maxCtx >= 1 && PadKvLen(a, maxCtx, nPad) > PadKvLen(b, maxCtx, nPad)
  {
    var x, y := RoundsDown(nPad - 1);
    a, b, maxCtx := x - (nPad - 1), y - (nPad - 1), AndNot(x, nPad - 1);
  }

  ghost predicate IsPow2(n: int) { exists k :: n == Pow2(k) }

  /** The padded length never shrinks as the sequence grows exactly when the pad is off or a power of two. */
  lemma PadMonotoneIff(nPad: int)
    ensures (forall a: nat, b: nat, maxCtx: nat :: 1 <= a <= b && maxCtx >= 1 ==>
              PadKvLen(a, maxCtx, nPad) <= PadKvLen(b, maxCtx, nPad))
            <==> nPad <= 1 || IsPow2(nPad)
  {
    if nPad > 1 {
      if k :| nPad == Pow2(k) {
        forall a: nat, b: nat, maxCtx: nat | 1 <= a <= b && maxCtx >= 1
          ensures PadKvLen(a, maxCtx, nPad) <= PadKvLen(b, maxCtx, nPad)
        {
          PadMonotone(a, b, maxCtx, k);
        }
      } else {
        var a, b, maxCtx := PadShrinks(nPad);
      }
    }
  }

  /* ---------- Bucket keys ---------- */

  const KEY_BASE: nat := 0x1_0000_0000

  lemma KeyBaseIs()
    ensures Pow2(32) == KEY_BASE
  {
    assert Pow2(8) == 0x100;
    assert Pow2(16) == 0x1_0000;
    assert Pow2(24) == 0x100_0000;
  }

  /** graph_bucket_key: (s << 32) ^ n_kv */
  function BucketKey(s: nat, nKv: nat): nat { Xor(s * KEY_BASE, nKv) }

  /** Two buckets share a key only if they are the same bucket. */
  lemma BucketKeyInjective(s: nat, n: nat, s2: nat, n2: nat)
    requires n < KEY_BASE && n2 < KEY_BASE && BucketKey(s, n) == BucketKey(s2, n2)
    ensures s == s2 && n == n2
  {
    KeyBaseIs();
    XorShifted(s, n, 32);
    XorShifted(s2, n2, 32);
  }

  /* ---------- Causal masks ---------- */

  function CausalRow(last: int, w: nat): seq<bool> { seq(w, j => j <= last) }

  /** Row by row, cell j of row i is open exactly when j <= pos + i. */
  function CausalMask(pos: int, s: nat, w: nat): (r: seq<bool>)
    ensures |r| == Times(s, w)
  {
    if s == 0 then [] else CausalMask(pos, s - 1, w) + CausalRow(pos + s - 1, w)
  }

  lemma {:induction false} MaskAt(pos: int, s: nat, w: nat, i: nat, j: nat)
    requires i < s && j < w
    ensures Times(i, w) + j < Times(s, w)
    ensures CausalMask(pos, s, w)[Times(i, w) + j] <==> j <= pos + i
  {
    if i < s - 1 { MaskAt(pos, s - 1, w, i, j); }
  }

  /** Cell j of the row that starts at start is written: one more cell of CausalRow is there. */
  lemma RowStep(data: seq<bool>, start: nat, last: int, w: nat, j: nat)
    requires start + j < |data| && j < w && data[start..start + j] == CausalRow(last, w)[..j]
    ensures data[start + j := j <= last][..start] == data[..start]
    ensures data[start + j := j <= last][start..start + j + 1] == CausalRow(last, w)[..j + 1]
  {
    var r := data[start + j := j <= last];
    assert r[start..start + j + 1] == data[start..start + j] + [j <= last];
    assert CausalRow(last, w)[..j + 1] == CausalRow(last, w)[..j] + [j <= last];
  }

  /** fill_f16_causal_mask: overwrites the prefix of the mask buffer that a view of width sKv reads. */
  method FillCausalMask(mask: seq<bool>, pos: int, sQ: int, sKv: int) returns (r: seq<bool>)
    requires sQ > 0 && sKv > 0 ==> Times(sQ, sKv) <= |mask|
    ensures r == if sQ <= 0 || sKv <= 0 then mask else CausalMask(pos, sQ, sKv) + mask[Times(sQ, sKv)..]
  {
    if sQ <= 0 || sKv <= 0 {
      return mask;
    }
    TimesIs(sQ, sKv);
    var data := new bool[sQ * sKv];
    var i: nat := 0;
    while i < sQ
      invariant 0 <= i <= sQ && data.Length == Times(sQ, sKv)
      invariant Times(i, sKv) <= data.Length
      invariant data[..Times(i, sKv)] == CausalMask(pos, i, sKv)
    {
      TimesIs(i, sKv);
      TimesMono(i, sQ, sKv);
      FillRow(data, i * sKv, pos + i, sKv);
      assert data[..i * sKv + sKv] == data[..i * sKv] + data[i * sKv..i * sKv + sKv];
      i := i + 1;
    }
    assert data[..] == data[..Times(sQ, sKv)];
    r := data[..] + mask[data.Length..];
  }

  /** The inner loop of it: one row. */
  method FillRow(data: array<bool>, start: nat, last: int, w: nat)
    requires start + w <= data.Length
    modifies data
    ensures data[..start] == old(data[..start]) && data[start..start + w] == CausalRow(last, w)
  {
    for j := 0 to w
      invariant data[..start] == old(data[..start]) && data[start..start + j] == CausalRow(last, w)[..j]
    {
      RowStep(data[..], start, last, w, j);
      data[start + j] := j <= last;
    }
  }
}
