/** Parsing undoes printing, in every whitespace style. */
module JsonRoundTrip {
  import opened Arith
  import opened Json

  /* ---------- Positions ---------- */

  lemma AtSplit(s: string, i: nat, a: string, b: string)
    ensures At(s, i, a + b) <==> At(s, i, a) && At(s, i + |a|, b)
  {
    var n := |a|;
    if At(s, i, a + b) {
      var t := s[i..i + |a + b|];
      assert t[..n] == s[i..i + n] && (a + b)[..n] == a;
      assert t[n..] == s[i + n..i + |a + b|] && (a + b)[n..] == b;
    }
    if At(s, i, a) && At(s, i + n, b) {
      assert s[i..i + |a + b|] == s[i..i + n] + s[i + n..i + n + |b|];
    }
  }

  lemma AtChar(s: string, i: nat, t: string, k: nat)
    requires At(s, i, t) && k < |t|
    ensures i + k < |s| && s[i + k] == t[k]
  {
    assert s[i..i + |t|][k] == s[i + k];
  }

  ghost predicate Blank(w: string) { forall i :: 0 <= i < |w| ==> IsSpace(w[i]) }

  ghost predicate BlankStyle(st: Style) {
    forall d {:trigger st.open(d)} {:trigger st.sep(d)} {:trigger st.close(d)} ::
      Blank(st.open(d)) && Blank(st.sep(d)) && Blank(st.close(d))
  }

  lemma {:induction false} SkipBlank(s: string, i: nat, w: string)
    requires At(s, i, w) && Blank(w)
    ensures Skip(s, i) == Skip(s, i + |w|)
    decreases w
  {
    if w != "" {
      AtChar(s, i, w, 0);
      AtSplit(s, i, [w[0]], w[1..]);
      assert [w[0]] + w[1..] == w;
      SkipBlank(s, i + 1, w[1..]);
    }
  }

  lemma SkipAt(s: string, i: nat)
    requires i < |s| && !IsSpace(s[i])
    ensures Skip(s, i) == i
  {
  }

  /** What may follow a value: the end of the text, a separator, a closing bracket or whitespace. */
  ghost predicate Ends(s: string, i: nat) {
    i >= |s| || s[i] == ',' || s[i] == ']' || s[i] == '}' || IsSpace(s[i])
  }

  /* ---------- Numbers ---------- */

  /** parse_num scans exactly this text. */
  ghost predicate NumToken(t: string) {
    |t| > 0 && (IsDigit(t[0]) || t[0] == '-') && ScanNum(t, 0).expEnd == |t|
  }

  lemma {:induction false} DigitsIn(s: string, i: nat, t: string, k: nat)
    requires At(s, i, t) && Ends(s, i + |t|) && k <= |t|
    ensures DigitsEnd(s, i + k) == i + DigitsEnd(t, k)
    decreases |t| - k
  {
    if k < |t| {
      AtChar(s, i, t, k);
      if IsDigit(t[k]) { DigitsIn(s, i, t, k + 1); }
    }
  }

  lemma CharIn(s: string, i: nat, t: string, k: nat, c: char)
    requires At(s, i, t) && Ends(s, i + |t|) && k <= |t|
    requires c == '.' || c == 'e' || c == 'E' || c == '+' || c == '-'
    ensures CharAt(s, i + k, c) == CharAt(t, k, c)
  {
    if k < |t| { AtChar(s, i, t, k); }
  }

  lemma ScanIn(s: string, i: nat, t: string)
    requires At(s, i, t) && Ends(s, i + |t|) && NumToken(t)
    ensures i < |s| && s[i] == t[0] && ScanNum(s, i).expEnd == i + |t|
  {
    hide DigitsEnd, FracEnd, ExpEnd;
    AtChar(s, i, t, 0);
    var intFrom := if t[0] == '-' then 1 else 0;
    var intEnd := DigitsEnd(t, intFrom);
    DigitsIn(s, i, t, intFrom);
    FracIn(s, i, t, intEnd);
    ExpIn(s, i, t, FracEnd(t, intEnd));
  }

  lemma FracIn(s: string, i: nat, t: string, k: nat)
    requires At(s, i, t) && Ends(s, i + |t|) && k <= |t|
    ensures FracEnd(s, i + k) == i + FracEnd(t, k)
  {
    CharIn(s, i, t, k, '.');
    if CharAt(t, k, '.') { DigitsIn(s, i, t, k + 1); }
  }

  lemma ExpIn(s: string, i: nat, t: string, k: nat)
    requires At(s, i, t) && Ends(s, i + |t|) && k <= |t|
    ensures ExpEnd(s, i + k) == i + ExpEnd(t, k)
  {
    hide DigitsEnd;
    CharIn(s, i, t, k, 'e');
    CharIn(s, i, t, k, 'E');
    if IsExp(t, k) {
      CharIn(s, i, t, k + 1, '+');
      CharIn(s, i, t, k + 1, '-');
      DigitsIn(s, i, t, ExpFrom(t, k));
    }
  }

  lemma ParseNumIn(s: string, i: nat, t: string)
    requires At(s, i, t) && Ends(s, i + |t|) && NumToken(t)
    ensures ParseValue(s, i) == Got(Num(StrToD(t)), i + |t|)
  {
    hide ParseArr, ParseObj, ParseStr, StrToD, ScanNum, ParseLit;
    ScanIn(s, i, t);
    SkipAt(s, i);
  }

  lemma {:induction false} NatTextDigits(n: nat)
    ensures forall i :: 0 <= i < |NatText(n)| ==> IsDigit(NatText(n)[i])
    ensures DigitsValue(NatText(n)) == n
  {
    if n >= 10 {
      NatTextDigits(n / 10);
      var t := NatText(n / 10);
      assert (t + [Digit(n % 10)])[..|t|] == t;
    } else {
      assert DigitsValue("") == 0;
      assert [Digit(n)][..0] == "";
    }
  }

  lemma {:induction false} AllDigitsEnd(t: string, k: nat)
    requires k <= |t| && forall i :: k <= i < |t| ==> IsDigit(t[i])
    ensures DigitsEnd(t, k) == |t|
    decreases |t| - k
  {
    if k < |t| { AllDigitsEnd(t, k + 1); }
  }

  /** The text of an integer is one number token, and strtod reads the integer back. */
  lemma IntTextRead(n: int)
    ensures NumToken(IntText(n)) && StrToD(IntText(n)) == n as real
  {
    hide DigitsEnd, NatText, DigitsValue;
    var m: nat := if n < 0 then -n else n;
    var digits := NatText(m);
    NatTextDigits(m);
    var t := IntText(n);
    var from := if n < 0 then 1 else 0;
    assert t[from..] == digits;
    assert forall i :: from <= i < |t| ==> t[i] == digits[i - from];
    AllDigitsEnd(t, from);
    assert t[0] == '-' <==> n < 0;
    assert t[from..|t|] == digits;
    NoDigits();
    ReadWhole(t, from, m);
  }

  lemma NoDigits()
    ensures DigitsValue("") == 0 && Pow10(0) == 1.0
  {
  }

  /** A token that is all digits after its sign has no fraction and no exponent. */
  lemma ReadWhole(t: string, from: nat, m: nat)
    requires |t| > from && from == (if t[0] == '-' then 1 else 0) && DigitsEnd(t, from) == |t|
    requires DigitsValue(t[from..|t|]) == m
    ensures ScanNum(t, 0).expEnd == |t|
    ensures StrToD(t) == if t[0] == '-' then -(m as real) else m as real
  {
    hide DigitsEnd, DigitsValue, Pow10;
    NoDigits();
    var p := ScanNum(t, 0);
    assert p.intFrom == from && p.intEnd == p.fracFrom == p.fracEnd == p.expFrom == p.expEnd == |t|;
    assert t[p.fracFrom..p.fracEnd] == "" && t[p.expFrom..p.expEnd] == "";
  }

  /* What a number text means. */

  ghost predicate AllDigits(t: string) { forall i :: 0 <= i < |t| ==> IsDigit(t[i]) }

  /** The digit with weight 10^k is the k-th from the right. */
  lemma {:induction false} NatTextPlaces(n: nat, k: nat)
    requires k < |NatText(n)|
    ensures NatText(n)[|NatText(n)| - 1 - k] as int - '0' as int == n / Tens(k) % 10
    ensures |NatText(n)| > 1 ==> NatText(n)[0] != '0'
    decreases n
  {
    if n >= 10 {
      var t := NatText(n / 10);
      assert NatText(n) == t + [Digit(n % 10)];
      if k > 0 {
        NatTextPlaces(n / 10, k - 1);
        TenthOf(n, Tens(k - 1));
      } else {
        NatTextPlaces(n / 10, |t| - 1);
      }
      if |t| == 1 { assert t == [Digit(n / 10)]; }
    }
  }

  function Tens(k: nat): (r: nat)
    ensures r > 0
  {
    if k == 0 then 1 else 10 * Tens(k - 1)
  }

  /** Digits joined: those on the left weigh as many tens as there are on the right. */
  lemma {:induction false} DigitsJoin(a: string, b: string)
    requires AllDigits(a) && AllDigits(b)
    ensures AllDigits(a + b)
    ensures DigitsValue(a + b) as real == DigitsValue(a) as real * Pow10(|b|) + DigitsValue(b) as real
    decreases |b|
  {
    hide DigitsValue, Pow10;
    if b == "" {
      assert a + b == a;
      NoDigits();
    } else {
      var n := |b| - 1;
      DigitsJoin(a, b[..n]);
      DigitsLast(b);
      assert AllDigits(a + b) by { assert forall i :: 0 <= i < |a + b| ==> (a + b)[i] == if i < |a| then a[i] else b[i - |a|]; }
      DigitsLast(a + b);
      assert (a + b)[..|a + b| - 1] == a + b[..n];
      Pow10Step(n);
      JoinStep(DigitsValue(a) as real, Pow10(n), DigitsValue(b[..n]) as real, (b[n] as int - '0' as int) as real);
    }
  }

  lemma DigitsLast(t: string)
    requires AllDigits(t) && t != ""
    ensures AllDigits(t[..|t| - 1])
    ensures DigitsValue(t) == DigitsValue(t[..|t| - 1]) * 10 + (t[|t| - 1] as int - '0' as int)
  {
  }

  lemma Pow10Step(n: nat)
    ensures Pow10(n + 1) == 10.0 * Pow10(n)
  {
  }

  lemma JoinStep(a: real, p: real, b: real, d: real)
    ensures (a * p + b) * 10.0 + d == a * (10.0 * p) + (b * 10.0 + d)
  {
  }

  lemma {:induction false} DigitsStop(s: string, i: nat, t: string)
    requires At(s, i, t) && AllDigits(t) && (i + |t| == |s| || !IsDigit(s[i + |t|]))
    ensures DigitsEnd(s, i) == i + |t|
    decreases t
  {
    if t != "" {
      AtChar(s, i, t, 0);
      AtSplit(s, i, [t[0]], t[1..]);
      assert [t[0]] + t[1..] == t;
      DigitsStop(s, i + 1, t[1..]);
    }
  }

  /** The parts of a number text: sign, digits, point and digits, exponent letter, exponent sign and digits. */
  datatype NumParts = NumParts(neg: bool, whole: string, point: bool, frac: string, letter: string, sign: string, exp: string) {
    function Text(): string {
      (if neg then "-" else "") + whole + (if point then "." else "") + frac + letter + sign + exp
    }

    ghost predicate Ok() {
      && AllDigits(whole) && AllDigits(frac) && AllDigits(exp) && (neg || whole != "")
      && (!point ==> frac == "")
      && (letter == "" || letter == "e" || letter == "E")
      && (sign == "" || sign == "+" || sign == "-")
      && (letter == "" ==> sign == "" && exp == "")
    }
  }

  /** Where the parts stand in a text that has the number at i. */
  ghost predicate PartsAt(n: NumParts, s: string, i: nat) {
    var a := i + if n.neg then 1 else 0;
    var b := a + |n.whole|;
    var f := b + if n.point then 1 else 0;
    var c := f + |n.frac|;
    var g := c + |n.letter|;
    && (n.neg ==> CharAt(s, i, '-')) && At(s, a, n.whole) && (n.point ==> CharAt(s, b, '.')) && At(s, f, n.frac)
    && At(s, c, n.letter) && At(s, g, n.sign) && At(s, g + |n.sign|, n.exp)
    && i + |n.Text()| == g + |n.sign| + |n.exp| <= |s|
  }

  lemma AtFits(s: string, i: nat, t: string)
    requires At(s, i, t)
    ensures i + |t| <= |s| && s[i..i + |t|] == t
  {
  }

  lemma TextParts(n: NumParts, s: string, i: nat)
    requires At(s, i, n.Text())
    ensures PartsAt(n, s, i)
  {
    hide At;
    AtFits(s, i, n.Text());
    var sg, pt := if n.neg then "-" else "", if n.point then "." else "";
    AtSplit(s, i, sg + n.whole + pt + n.frac + n.letter + n.sign, n.exp);
    AtSplit(s, i, sg + n.whole + pt + n.frac + n.letter, n.sign);
    AtSplit(s, i, sg + n.whole + pt + n.frac, n.letter);
    AtSplit(s, i, sg + n.whole + pt, n.frac);
    AtSplit(s, i, sg + n.whole, pt);
    AtSplit(s, i, sg, n.whole);
    if n.neg { AtChar(s, i, sg, 0); }
    if n.point { AtChar(s, i + |sg + n.whole|, pt, 0); }
  }

  /** Scanning finds exactly the sign, the digits before the point, */
  lemma ScanWhole(n: NumParts, s: string, i: nat)
    requires n.Ok() && PartsAt(n, s, i) && Ends(s, i + |n.Text()|)
    ensures i < |s| && (s[i] == '-' <==> n.neg) && (IsDigit(s[i]) || s[i] == '-')
    ensures var a := i + if n.neg then 1 else 0; DigitsEnd(s, a) == a + |n.whole|
  {
    hide DigitsEnd, NumParts.Text, At, IsSpace;
    var a := i + if n.neg then 1 else 0;
    if !n.neg { AtChar(s, a, n.whole, 0); }
    AfterWhole(n, s, i);
    DigitsStop(s, a, n.whole);
  }

  /** No part but a digit part starts with a digit. */
  lemma AfterWhole(n: NumParts, s: string, i: nat)
    requires n.Ok() && PartsAt(n, s, i) && Ends(s, i + |n.Text()|)
    ensures var b := i + (if n.neg then 1 else 0) + |n.whole|; b >= |s| || !IsDigit(s[b])
    ensures var c := i + (if n.neg then 1 else 0) + |n.whole| + (if n.point then 1 else 0) + |n.frac|; c >= |s| || !IsDigit(s[c])
    ensures i + |n.Text()| >= |s| || !IsDigit(s[i + |n.Text()|])
  {
    hide DigitsEnd, NumParts.Text, At;
    var c := i + (if n.neg then 1 else 0) + |n.whole| + (if n.point then 1 else 0) + |n.frac|;
    if n.letter != "" { AtChar(s, c, n.letter, 0); }
  }

  /** the digits after it, */
  lemma ScanFrac(n: NumParts, s: string, i: nat)
    requires n.Ok() && PartsAt(n, s, i) && Ends(s, i + |n.Text()|)
    ensures var b := i + (if n.neg then 1 else 0) + |n.whole|;
      && (CharAt(s, b, '.') <==> n.point)
      && FracEnd(s, b) == b + (if n.point then 1 else 0) + |n.frac|
  {
    hide DigitsEnd, NumParts.Text, At;
    var b := i + (if n.neg then 1 else 0) + |n.whole|;
    AfterWhole(n, s, i);
    if n.point {
      DigitsStop(s, b + 1, n.frac);
    } else if n.letter != "" {
      AtChar(s, b, n.letter, 0);
    }
  }

  /** and the exponent. */
  lemma ScanExp(n: NumParts, s: string, i: nat)
    requires n.Ok() && PartsAt(n, s, i) && Ends(s, i + |n.Text()|)
    ensures var c := i + (if n.neg then 1 else 0) + |n.whole| + (if n.point then 1 else 0) + |n.frac|;
      && (IsExp(s, c) <==> n.letter != "")
      && (n.letter != "" ==> ExpFrom(s, c) == c + 1 + |n.sign| && (CharAt(s, c + 1, '-') <==> n.sign == "-"))
      && ExpEnd(s, c) == i + |n.Text()|
  {
    hide DigitsEnd, NumParts.Text, At, ExpEnd, ExpFrom, AllDigits;
    var c := i + (if n.neg then 1 else 0) + |n.whole| + (if n.point then 1 else 0) + |n.frac|;
    if n.letter != "" {
      AfterWhole(n, s, i);
      ExpAt(s, c, n.letter, n.sign, n.exp);
    } else {
      NoExpAt(s, c);
    }
  }

  lemma NoExpAt(s: string, c: nat)
    requires Ends(s, c) && c <= |s|
    ensures !IsExp(s, c) && ExpEnd(s, c) == c
  {
  }

  lemma ExpAt(s: string, c: nat, letter: string, sign: string, exp: string)
    requires (letter == "e" || letter == "E") && (sign == "" || sign == "+" || sign == "-") && AllDigits(exp)
    requires At(s, c, letter) && At(s, c + 1, sign) && At(s, c + 1 + |sign|, exp)
    requires c + 1 + |sign| + |exp| <= |s| && Ends(s, c + 1 + |sign| + |exp|)
    ensures IsExp(s, c) && ExpFrom(s, c) == c + 1 + |sign| && (CharAt(s, c + 1, '-') <==> sign == "-")
    ensures ExpEnd(s, c) == c + 1 + |sign| + |exp|
  {
    hide DigitsEnd, At;
    AtChar(s, c, letter, 0);
    if sign != "" {
      AtChar(s, c + 1, sign, 0);
    } else if exp != "" {
      AtChar(s, c + 1, exp, 0);
    }
    DigitsStop(s, c + 1 + |sign|, exp);
  }

  lemma ScanBounds(n: NumParts, s: string, i: nat)
    requires n.Ok() && PartsAt(n, s, i) && Ends(s, i + |n.Text()|)
    ensures i < |s| && (s[i] == '-' <==> n.neg) && (IsDigit(s[i]) || s[i] == '-')
    ensures var p := ScanNum(s, i);
      && p.intFrom == i + (if n.neg then 1 else 0) && p.intEnd == p.intFrom + |n.whole|
      && p.fracFrom == p.intEnd + (if n.point then 1 else 0) && p.fracEnd == p.fracFrom + |n.frac|
      && p.expFrom == p.fracEnd + |n.letter| + |n.sign| && p.expEnd == p.expFrom + |n.exp| == i + |n.Text()|
      && (p.expNeg <==> n.sign == "-")
  {
    hide DigitsEnd, FracEnd, ExpEnd, ExpFrom, IsExp, NumParts.Text, At, Ends;
    ScanWhole(n, s, i);
    ScanFrac(n, s, i);
    ScanExp(n, s, i);
  }

  lemma ScanParts(n: NumParts, s: string, i: nat)
    requires n.Ok() && At(s, i, n.Text()) && Ends(s, i + |n.Text()|)
    ensures i < |s| && (s[i] == '-' <==> n.neg) && (IsDigit(s[i]) || s[i] == '-')
    ensures var p := ScanNum(s, i);
      && s[p.intFrom..p.intEnd] == n.whole && s[p.fracFrom..p.fracEnd] == n.frac && s[p.expFrom..p.expEnd] == n.exp
      && (p.expNeg <==> n.sign == "-") && p.expEnd == i + |n.Text()|
  {
    hide ScanNum, NumParts.Text, At, Ends;
    TextParts(n, s, i);
    ScanBounds(n, s, i);
    var p := ScanNum(s, i);
    AtFits(s, p.intFrom, n.whole);
    AtFits(s, p.fracFrom, n.frac);
    AtFits(s, p.expFrom, n.exp);
  }

  /**
   What a number text parses to: with the digits before and after the point joined and the point shifted back, plus or
   minus their value times ten to the exponent.
   */
  lemma NumberMeans(n: NumParts, s: string, i: nat) returns (x: real)
    requires n.Ok() && At(s, i, n.Text()) && Ends(s, i + |n.Text()|)
    ensures ParseValue(s, i) == Got(Num(x), i + |n.Text()|)
    ensures var digits := n.whole + n.frac; var e := Pow10(DigitsValue(n.exp));
      AllDigits(digits) &&
      var v := if n.neg then -(DigitsValue(digits) as real) else DigitsValue(digits) as real;
      if n.sign == "-" then x * Pow10(|n.frac|) * e == v else x * Pow10(|n.frac|) == v * e
  {
    hide NumParts.Text, ScanNum, DigitsValue, Pow10, StrToD;
    ScanParts(n, s, i);
    var t := n.Text();
    assert s[i..i + |t|] == t;
    NumberAt(s, i);
    x := StrToD(t);
    DigitsJoin(n.whole, n.frac);
    StrToDParts(n);
    Shift(DigitsValue(n.whole) as real, DigitsValue(n.frac) as real, Pow10(|n.frac|), Pow10(DigitsValue(n.exp)));
  }

  lemma NumberAt(s: string, i: nat)
    requires i < |s| && (IsDigit(s[i]) || s[i] == '-')
    ensures var end := ScanNum(s, i).expEnd; end > i && ParseValue(s, i) == Got(Num(StrToD(s[i..end])), end)
  {
    hide ParseArr, ParseObj, ParseStr, ParseLit, ScanNum, StrToD;
    SkipAt(s, i);
  }

  lemma StrToDParts(n: NumParts)
    requires n.Ok() && |n.Text()| > 0
    ensures var m := DigitsValue(n.whole) as real + DigitsValue(n.frac) as real / Pow10(|n.frac|);
      var e := Pow10(DigitsValue(n.exp));
      var y := if n.sign == "-" then m / e else m * e;
      StrToD(n.Text()) == if n.neg then -y else y
  {
    hide NumParts.Text, ScanNum, DigitsValue, Pow10;
    AtWhole(n.Text());
    ScanParts(n, n.Text(), 0);
  }

  lemma AtWhole(t: string)
    ensures At(t, 0, t) && Ends(t, |t|)
  {
    assert t[0..|t|] == t;
  }

  lemma Shift(w: real, g: real, f: real, e: real)
    requires f > 0.0 && e > 0.0
    ensures (w + g / f) / e * f * e == w * f + g
    ensures (w + g / f) * e * f == (w * f + g) * e
    ensures -((w + g / f) / e) * f * e == -(w * f + g)
    ensures -((w + g / f) * e) * f == -(w * f + g) * e
  {
    var m := w + g / f;
    assert m * f == w * f + g / f * f;
    assert g / f * f == g;
    var q := m / e;
    assert q * e == m;
    assert q * f * e == q * e * f;
    assert -q * f * e == -(q * f * e);
    assert m * e * f == m * f * e;
    assert -(m * e) * f == -(m * e * f);
  }

  /* ---------- Strings ---------- */

  lemma HexRead(k: nat)
    requires k < 16
    ensures HexDigit(HEX[k]) == k
  {
  }

  /** Reading one escaped byte back. */
  lemma EscRead(s: string, i: nat, c: char)
    requires At(s, i, Esc(c))
    ensures i < |s| && s[i] != '"'
    ensures s[i] == '\\' <==> Esc(c) != [c]
    ensures s[i] == '\\' ==> ParseEscape(s, i + 1) == Got([c], i + |Esc(c)|)
    ensures s[i] != '\\' ==> s[i] == c && |Esc(c)| == 1
  {
    hide ParseHex;
    AtChar(s, i, Esc(c), 0);
    if Esc(c) != [c] {
      AtChar(s, i, Esc(c), 1);
      if Esc(c)[1] == 'u' { EscControl(s, i, c); }
    }
  }

  lemma EscControl(s: string, i: nat, c: char)
    requires At(s, i, Esc(c)) && |Esc(c)| == 6 && Esc(c)[1] == 'u'
    ensures ParseEscape(s, i + 1) == Got([c], i + 6)
  {
    hide Pow16;
    var e := Esc(c);
    assert c < ' ' && e == "\\u00" + [HEX[c as int / 16], HEX[c as int % 16]];
    AtChar(s, i, e, 1);
    AtChar(s, i, e, 2);
    AtChar(s, i, e, 3);
    AtChar(s, i, e, 4);
    AtChar(s, i, e, 5);
    HexRead(0);
    HexRead(c as int / 16);
    HexRead(c as int % 16);
    var hi, lo := c as int / 16, c as int % 16;
    assert ParseHex(s, i + 6, 0, c as int) == Got(c as int, i + 6);
    assert ParseHex(s, i + 5, 1, hi) == ParseHex(s, i + 6, 0, hi * 16 + lo);
    assert ParseHex(s, i + 4, 2, 0) == ParseHex(s, i + 5, 1, hi);
    assert ParseHex(s, i + 3, 3, 0) == ParseHex(s, i + 4, 2, 0);
    assert ParseHex(s, i + 2, 4, 0) == ParseHex(s, i + 3, 3, 0);
  }

  /** Every byte of a string survives escaping. */
  lemma {:induction false} CharsRead(s: string, i: nat, t: string)
    requires At(s, i, Escaped(t) + "\"")
    ensures ParseChars(s, i) == Got(t, i + |Escaped(t)| + 1)
    decreases t
  {
    hide ParseEscape, ParseChars, Esc, At;
    AtSplit(s, i, Escaped(t), "\"");
    if t == "" {
      CharsEnd(s, i);
    } else {
      var rest := Escaped(t[1..]);
      AtSplit(s, i, Esc(t[0]), rest);
      AtSplit(s, i + |Esc(t[0])|, rest, "\"");
      EscRead(s, i, t[0]);
      CharsRead(s, i + |Esc(t[0])|, t[1..]);
      CharsStep(s, i, |Esc(t[0])|, [t[0]], t[1..], i + |Escaped(t)| + 1);
      assert [t[0]] + t[1..] == t;
    }
  }

  lemma CharsEnd(s: string, i: nat)
    requires At(s, i, "\"")
    ensures ParseChars(s, i) == Got("", i + 1)
  {
    hide ParseEscape;
    AtChar(s, i, "\"", 0);
  }

  /** One byte or escape of n bytes, standing for x, and the rest of the literal. */
  lemma CharsStep(s: string, i: nat, n: nat, x: string, y: string, end: nat)
    requires i < |s| && s[i] != '"' && i + n <= |s|
    requires s[i] == '\\' ==> ParseEscape(s, i + 1) == Got(x, i + n)
    requires s[i] != '\\' ==> n == 1 && x == [s[i]]
    requires ParseChars(s, i + n) == Got(y, end)
    ensures ParseChars(s, i) == Got(x + y, end)
  {
    hide ParseEscape;
  }

  lemma StrRead(s: string, i: nat, t: string)
    requires At(s, i, Quoted(t))
    ensures i < |s| && s[i] == '"'
    ensures ParseStr(s, i) == Got(t, i + |Quoted(t)|)
  {
    hide ParseChars;
    assert Quoted(t) == "\"" + (Escaped(t) + "\"");
    AtSplit(s, i, "\"", Escaped(t) + "\"");
    AtChar(s, i, "\"", 0);
    SkipAt(s, i);
    CharsRead(s, i + 1, t);
  }

  /* ---------- Values ---------- */

  /** The stream library prints a number that is no small integer as one number token. */
  ghost predicate FmtOk(fmt: Fmt) { forall x {:trigger fmt(x)} :: !IsPlain(x) ==> NumToken(fmt(x)) }

  function ReadBack(fmt: Fmt, x: real): real
    requires !IsPlain(x) ==> |fmt(x)| > 0
  {
    if IsPlain(x) then x else StrToD(fmt(x))
  }

  /** What comes back: non-finite numbers read as null, other numbers as what their text says. */
  ghost function Norm(fmt: Fmt, v: JsonValue): JsonValue
    requires FmtOk(fmt)
  {
    match v
    case NonFinite => Null
    case Num(x) => Num(ReadBack(fmt, x))
    case Arr(items) => Arr(NormItems(fmt, v, 0))
    case Obj(fields) => Obj(NormFields(fmt, v, 0))
    case _ => v
  }

  ghost function NormItems(fmt: Fmt, v: JsonValue, k: nat): (r: seq<JsonValue>)
    requires FmtOk(fmt) && v.Arr? && k <= |v.items|
    decreases v, 0, |v.items| - k
  {
    if k == |v.items| then [] else [Norm(fmt, v.items[k])] + NormItems(fmt, v, k + 1)
  }

  ghost function NormFields(fmt: Fmt, v: JsonValue, k: nat): (r: seq<Field>)
    requires FmtOk(fmt) && v.Obj? && k <= |v.fields|
    decreases v, 0, |v.fields| - k
  {
    if k == |v.fields| then []
    else [Field(v.fields[k].key, Norm(fmt, v.fields[k].value))] + NormFields(fmt, v, k + 1)
  }

  lemma NumTextToken(fmt: Fmt, x: real)
    requires FmtOk(fmt)
    ensures NumToken(NumText(fmt, x)) && StrToD(NumText(fmt, x)) == ReadBack(fmt, x)
  {
    hide NumToken, StrToD;
    if IsPlain(x) { IntTextRead(x.Floor); }
  }

  lemma LitRead(s: string, i: nat, lit: string)
    requires At(s, i, lit) && lit in {"null", "true", "false"}
    ensures ParseValue(s, i) == Got(if lit == "null" then Null else Bool(lit == "true"), i + |lit|)
  {
    hide ParseArr, ParseObj, ParseStr, ParseNum;
    AtChar(s, i, lit, 0);
    SkipAt(s, i);
  }

  /** Whitespace before a value is skipped, and so before the items and fields that start with one. */
  lemma BlankBefore(s: string, i: nat, w: string)
    requires At(s, i, w) && Blank(w)
    ensures ParseValue(s, i) == ParseValue(s, i + |w|)
    ensures ParseStr(s, i) == ParseStr(s, i + |w|)
    ensures ParseItems(s, i) == ParseItems(s, i + |w|)
    ensures ParseFields(s, i) == ParseFields(s, i + |w|)
  {
    hide ParseArr, ParseObj, ParseChars, ParseNum, ParseLit, ParseItems, ParseFields;
    SkipBlank(s, i, w);
    SameStart(s, i, i + |w|);
  }

  lemma SameStart(s: string, i: nat, j: nat)
    requires i <= j <= |s| && ParseValue(s, i) == ParseValue(s, j) && ParseStr(s, i) == ParseStr(s, j)
    ensures ParseItems(s, i) == ParseItems(s, j)
    ensures ParseFields(s, i) == ParseFields(s, j)
  {
    hide ParseValue, ParseStr;
    assert ParseField(s, i) == ParseField(s, j);
  }

  /** A value's text starts with no whitespace. */
  lemma PrintStarts(fmt: Fmt, st: Style, v: JsonValue, d: nat)
    requires FmtOk(fmt)
    ensures var t := Print(fmt, st, v, d); |t| > 0 && !IsSpace(t[0]) && t[0] != ']' && t[0] != '}'
  {
    hide PrintItems, PrintFields, Escaped;
    if v.Num? { NumTextToken(fmt, v.n); }
  }

  lemma {:induction false} PrintParse(fmt: Fmt, st: Style, v: JsonValue, d: nat, s: string, i: nat)
    requires FmtOk(fmt) && BlankStyle(st)
    requires At(s, i, Print(fmt, st, v, d)) && Ends(s, i + |Print(fmt, st, v, d)|)
    ensures ParseValue(s, i) == Got(Norm(fmt, v), i + |Print(fmt, st, v, d)|)
    decreases v, 1, 0
  {
    hide FmtOk, BlankStyle, ParseValue, Quoted, NumText;
    match v
    case Null => LitRead(s, i, "null");
    case NonFinite => LitRead(s, i, "null");
    case Bool(b) => LitRead(s, i, if b then "true" else "false");
    case Num(x) => NumTextToken(fmt, x); ParseNumIn(s, i, NumText(fmt, x));
    case Str(t) => StrValue(s, i, t);
    case Arr(items) => ArrParse(fmt, st, v, d, s, i);
    case Obj(fields) => ObjParse(fmt, st, v, d, s, i);
  }

  lemma StrValue(s: string, i: nat, t: string)
    requires At(s, i, Quoted(t))
    ensures ParseValue(s, i) == Got(Str(t), i + |Quoted(t)|)
  {
    hide ParseArr, ParseObj, ParseStr, ParseNum, ParseLit, Quoted;
    StrRead(s, i, t);
    SkipAt(s, i);
  }

  /** A value that starts with a bracket is parsed by parse_arr or parse_obj. */
  lemma BracketValue(s: string, i: nat)
    requires i < |s| && (s[i] == '[' || s[i] == '{')
    ensures ParseValue(s, i) == if s[i] == '[' then ParseArr(s, i) else ParseObj(s, i)
  {
    hide ParseArr, ParseObj, ParseStr, ParseNum, ParseLit;
    SkipAt(s, i);
  }

  lemma ArrParse(fmt: Fmt, st: Style, v: JsonValue, d: nat, s: string, i: nat)
    requires FmtOk(fmt) && BlankStyle(st) && v.Arr?
    requires At(s, i, Print(fmt, st, v, d))
    ensures ParseValue(s, i) == Got(Norm(fmt, v), i + |Print(fmt, st, v, d)|)
    decreases v, 0, |v.items| + 2
  {
    hide FmtOk, ParseValue, ParseArr, ParseItems, Print, PrintItems, ItemsText, Norm, At, Skip, Blank;
    if v.items == [] {
      EmptyParse(fmt, st, v, d, s, i);
    } else {
      var open, inner, close := st.open(d), PrintItems(fmt, st, v, d, 0), st.close(d);
      PrintBracketed(fmt, st, v, d);
      SplitBracketed(s, i, '[', open, inner, close, ']');
      var j := i + 1 + |open|;
      BracketValue(s, i);
      ItemsTextIs(fmt, st, v, d, 0);
      ItemsParse(fmt, st, v, d, 0, s, j);
      FirstItem(fmt, st, v, d, s, j);
      ArrIs(s, i, j, NormItems(fmt, v, 0), j + |inner| + |close| + 1);
      NormArr(fmt, v);
    }
  }

  /** An array or object whose first item or field is at j. */
  lemma ArrIs(s: string, i: nat, j: nat, vs: seq<JsonValue>, end: nat)
    requires CharAt(s, i, '[') && j < |s| && Skip(s, i + 1) == j && s[j] != ']' && ParseItems(s, j) == Got(vs, end)
    ensures ParseArr(s, i) == Got(Arr(vs), end)
  {
    hide ParseItems, Skip;
  }

  lemma ObjIs(s: string, i: nat, j: nat, fs: seq<Field>, end: nat)
    requires CharAt(s, i, '{') && j < |s| && Skip(s, i + 1) == j && s[j] != '}' && ParseFields(s, j) == Got(fs, end)
    ensures ParseObj(s, i) == Got(Obj(fs), end)
  {
    hide ParseFields, Skip;
  }

  lemma SplitBracketed(s: string, i: nat, o: char, open: string, inner: string, close: string, c: char)
    requires At(s, i, [o] + (open + inner + (close + [c]))) && Blank(open)
    ensures i < |s| && s[i] == o
    ensures At(s, i + 1 + |open|, inner + (close + [c])) && At(s, i + 1 + |open|, inner)
    ensures Skip(s, i + 1) == Skip(s, i + 1 + |open|)
    ensures |[o] + (open + inner + (close + [c]))| == 1 + |open| + |inner| + |close| + 1
  {
    hide At, Skip, Blank;
    AtSplit(s, i, [o] , open + inner + (close + [c]));
    assert open + inner + (close + [c]) == open + (inner + (close + [c]));
    AtSplit(s, i + 1, open, inner + (close + [c]));
    AtSplit(s, i + 1 + |open|, inner, close + [c]);
    AtChar(s, i, [o], 0);
    SkipBlank(s, i + 1, open);
  }

  /** An item, a comma and what comes after it. */
  lemma SplitMore(s: string, i: nat, item: string, sep: string, next: string, tail: string)
    requires At(s, i, item + ("," + (sep + next)) + tail)
    ensures At(s, i, item) && CharAt(s, i + |item|, ',') && Ends(s, i + |item|)
    ensures At(s, i + |item| + 1, sep) && At(s, i + |item| + 1 + |sep|, next + tail)
  {
    hide At;
    var j := i + |item|;
    AtSplit(s, i, item + ("," + (sep + next)), tail);
    AtSplit(s, i, item, "," + (sep + next));
    AtSplit(s, j, ",", sep + next);
    AtChar(s, j, ",", 0);
    AtSplit(s, j + 1, sep, next);
    AtSplit(s, j + 1 + |sep|, next, tail);
  }

  /** The last item, whitespace and the closing bracket. */
  lemma SplitLast(s: string, i: nat, item: string, close: string, c: char)
    requires At(s, i, item + (close + [c])) && Blank(close) && (c == ']' || c == '}')
    ensures At(s, i, item) && Ends(s, i + |item|)
    ensures Skip(s, i + |item|) == i + |item| + |close| && CharAt(s, i + |item| + |close|, c)
  {
    hide At, Blank;
    var j := i + |item|;
    AtSplit(s, i, item, close + [c]);
    AtSplit(s, j, close, [c]);
    AtChar(s, j + |close|, [c], 0);
    SkipBlank(s, j, close);
    SkipAt(s, j + |close|);
    AfterBlank(s, j, close);
  }

  lemma NormArr(fmt: Fmt, v: JsonValue)
    requires FmtOk(fmt)
    ensures v.Arr? ==> Norm(fmt, v) == Arr(NormItems(fmt, v, 0))
    ensures v.Obj? ==> Norm(fmt, v) == Obj(NormFields(fmt, v, 0))
  {
  }

  lemma EmptyParse(fmt: Fmt, st: Style, v: JsonValue, d: nat, s: string, i: nat)
    requires FmtOk(fmt) && (v == Arr([]) || v == Obj([]))
    requires At(s, i, Print(fmt, st, v, d))
    ensures ParseValue(s, i) == Got(Norm(fmt, v), i + |Print(fmt, st, v, d)|)
  {
    hide FmtOk, ParseValue, ParseItems, ParseFields;
    AtChar(s, i, Print(fmt, st, v, d), 0);
    AtChar(s, i, Print(fmt, st, v, d), 1);
    BracketValue(s, i);
    SkipAt(s, i + 1);
  }

  lemma PrintBracketed(fmt: Fmt, st: Style, v: JsonValue, d: nat)
    ensures v.Arr? && v.items != [] ==>
      Print(fmt, st, v, d) == "[" + (st.open(d) + PrintItems(fmt, st, v, d, 0) + (st.close(d) + "]"))
    ensures v.Obj? && v.fields != [] ==>
      Print(fmt, st, v, d) == "{" + (st.open(d) + PrintFields(fmt, st, v, d, 0) + (st.close(d) + "}"))
  {
    hide PrintItems, PrintFields;
  }

  /** The first item is no closing bracket, so the array does not end there. */
  lemma FirstItem(fmt: Fmt, st: Style, v: JsonValue, d: nat, s: string, i: nat)
    requires FmtOk(fmt) && v.Arr? && v.items != []
    requires At(s, i, PrintItems(fmt, st, v, d, 0))
    ensures i < |s| && Skip(s, i) == i && s[i] != ']'
  {
    hide FmtOk, Print;
    PrintStarts(fmt, st, v.items[0], d + 2);
    AtSplit(s, i, Print(fmt, st, v.items[0], d + 2), PrintItems(fmt, st, v, d, 1));
    assert PrintItems(fmt, st, v, d, 0) == Print(fmt, st, v.items[0], d + 2) + PrintItems(fmt, st, v, d, 1);
    AtChar(s, i, Print(fmt, st, v.items[0], d + 2), 0);
    SkipAt(s, i);
  }

  /** The text from item k on, without the separator before it. */
  ghost function ItemsText(fmt: Fmt, st: Style, v: JsonValue, d: nat, k: nat): string
    requires v.Arr? && k < |v.items|
  {
    Print(fmt, st, v.items[k], d + 2) + PrintItems(fmt, st, v, d, k + 1)
  }

  lemma ItemsTextIs(fmt: Fmt, st: Style, v: JsonValue, d: nat, k: nat)
    requires v.Arr? && k < |v.items|
    ensures PrintItems(fmt, st, v, d, k) ==
            if k == 0 then ItemsText(fmt, st, v, d, k) else "," + (st.sep(d) + ItemsText(fmt, st, v, d, k))
  {
    hide Print;
    var item, rest := Print(fmt, st, v.items[k], d + 2), PrintItems(fmt, st, v, d, k + 1);
    if k > 0 {
      assert "," + st.sep(d) + item + rest == "," + (st.sep(d) + (item + rest));
    } else {
      assert "" + item + rest == item + rest;
    }
  }

  lemma {:induction false} ItemsParse(fmt: Fmt, st: Style, v: JsonValue, d: nat, k: nat, s: string, i: nat)
    requires FmtOk(fmt) && BlankStyle(st) && v.Arr? && k < |v.items|
    requires At(s, i, ItemsText(fmt, st, v, d, k) + (st.close(d) + "]"))
    ensures ParseItems(s, i) ==
            Got(NormItems(fmt, v, k), i + |ItemsText(fmt, st, v, d, k)| + |st.close(d)| + 1)
    decreases v, 0, |v.items| - k
  {
    hide FmtOk, ParseValue, Print, PrintItems, Norm, NormItems, At, Skip, ParseItems, Blank, Ends, BlankStyle;
    StyleBlank(st, d);
    var item, rest, close := Print(fmt, st, v.items[k], d + 2), PrintItems(fmt, st, v, d, k + 1), st.close(d);
    var j := i + |item|;
    var nv := Norm(fmt, v.items[k]);
    NormItemsStep(fmt, v, k);
    if k + 1 == |v.items| {
      NoItems(fmt, st, v, d);
      assert item + "" == item;
      SplitLast(s, i, item, close, ']');
      PrintParse(fmt, st, v.items[k], d + 2, s, i);
      ItemsLast(s, i, nv, j, j + |close|);
    } else {
      ItemsTextIs(fmt, st, v, d, k + 1);
      var sep, next := st.sep(d), ItemsText(fmt, st, v, d, k + 1);
      SplitMore(s, i, item, sep, next, close + "]");
      PrintParse(fmt, st, v.items[k], d + 2, s, i);
      BlankBefore(s, j + 1, sep);
      ItemsParse(fmt, st, v, d, k + 1, s, j + 1 + |sep|);
      ItemsMore(s, i, nv, j, NormItems(fmt, v, k + 1), j + 1 + |sep| + |next| + |close| + 1);
    }
  }

  lemma NoItems(fmt: Fmt, st: Style, v: JsonValue, d: nat)
    ensures v.Arr? ==> PrintItems(fmt, st, v, d, |v.items|) == ""
    ensures v.Obj? ==> PrintFields(fmt, st, v, d, |v.fields|) == ""
  {
  }

  lemma NormItemsStep(fmt: Fmt, v: JsonValue, k: nat)
    requires FmtOk(fmt) && v.Arr? && k < |v.items|
    ensures NormItems(fmt, v, k) == [Norm(fmt, v.items[k])] + NormItems(fmt, v, k + 1)
    ensures k + 1 == |v.items| ==> NormItems(fmt, v, k) == [Norm(fmt, v.items[k])]
  {
    hide Norm;
  }

  lemma ItemsLast(s: string, i: nat, v: JsonValue, j: nat, end: nat)
    requires i <= |s| && ParseValue(s, i) == Got(v, j) && Skip(s, j) == end && CharAt(s, end, ']')
    ensures ParseItems(s, i) == Got([v], end + 1)
  {
    hide ParseValue, Skip;
  }

  lemma ItemsMore(s: string, i: nat, v: JsonValue, j: nat, vs: seq<JsonValue>, end: nat)
    requires i <= |s| && ParseValue(s, i) == Got(v, j) && CharAt(s, j, ',') && ParseItems(s, j + 1) == Got(vs, end)
    ensures ParseItems(s, i) == Got([v] + vs, end)
  {
    hide ParseValue, Skip;
    SkipAt(s, j);
  }

  /** Before a closing bracket there is whitespace or the bracket itself, so a value may end there. */
  lemma AfterBlank(s: string, i: nat, w: string)
    requires At(s, i, w) && Blank(w) && i + |w| < |s| && (s[i + |w|] == ']' || s[i + |w|] == '}')
    ensures Ends(s, i)
  {
    if w != "" { AtChar(s, i, w, 0); }
  }

  /* ---------- Objects ---------- */

  lemma ObjParse(fmt: Fmt, st: Style, v: JsonValue, d: nat, s: string, i: nat)
    requires FmtOk(fmt) && BlankStyle(st) && v.Obj?
    requires At(s, i, Print(fmt, st, v, d))
    ensures ParseValue(s, i) == Got(Norm(fmt, v), i + |Print(fmt, st, v, d)|)
    decreases v, 0, |v.fields| + 2
  {
    hide FmtOk, ParseValue, ParseObj, ParseFields, Print, PrintFields, FieldsText, Norm, At, Skip, Blank;
    if v.fields == [] {
      EmptyParse(fmt, st, v, d, s, i);
    } else {
      var open, inner, close := st.open(d), PrintFields(fmt, st, v, d, 0), st.close(d);
      PrintBracketed(fmt, st, v, d);
      SplitBracketed(s, i, '{', open, inner, close, '}');
      var j := i + 1 + |open|;
      BracketValue(s, i);
      FieldsTextIs(fmt, st, v, d, 0);
      FieldsParse(fmt, st, v, d, 0, s, j);
      FirstField(fmt, st, v, d, s, j);
      ObjIs(s, i, j, NormFields(fmt, v, 0), j + |inner| + |close| + 1);
      NormArr(fmt, v);
    }
  }

  lemma FirstField(fmt: Fmt, st: Style, v: JsonValue, d: nat, s: string, i: nat)
    requires v.Obj? && v.fields != []
    requires At(s, i, FieldsText(fmt, st, v, d, 0))
    ensures i < |s| && Skip(s, i) == i && s[i] != '}'
  {
    hide Print, PrintFields, Escaped;
    AtChar(s, i, FieldsText(fmt, st, v, d, 0), 0);
    SkipAt(s, i);
  }

  ghost function FieldsText(fmt: Fmt, st: Style, v: JsonValue, d: nat, k: nat): string
    requires v.Obj? && k < |v.fields|
  {
    PrintField(fmt, st, v, d, k) + PrintFields(fmt, st, v, d, k + 1)
  }

  lemma FieldsTextIs(fmt: Fmt, st: Style, v: JsonValue, d: nat, k: nat)
    requires v.Obj? && k < |v.fields|
    ensures PrintFields(fmt, st, v, d, k) ==
            if k == 0 then FieldsText(fmt, st, v, d, k) else "," + (st.sep(d) + FieldsText(fmt, st, v, d, k))
  {
    hide PrintField;
    var field, rest := PrintField(fmt, st, v, d, k), PrintFields(fmt, st, v, d, k + 1);
    if k > 0 {
      assert "," + st.sep(d) + field + rest == "," + (st.sep(d) + (field + rest));
    } else {
      assert "" + field + rest == field + rest;
    }
  }

  lemma {:induction false} FieldParse(fmt: Fmt, st: Style, v: JsonValue, d: nat, k: nat, s: string, i: nat)
    requires FmtOk(fmt) && BlankStyle(st) && v.Obj? && k < |v.fields|
    requires At(s, i, PrintField(fmt, st, v, d, k)) && Ends(s, i + |PrintField(fmt, st, v, d, k)|)
    ensures ParseField(s, i) ==
            Got(Field(v.fields[k].key, Norm(fmt, v.fields[k].value)), i + |PrintField(fmt, st, v, d, k)|)
    decreases v, 0, 0
  {
    hide FmtOk, ParseValue, ParseStr, ParseField, Print, Norm, Quoted, Skip;
    var key, value := Quoted(v.fields[k].key), Print(fmt, st, v.fields[k].value, d + 2);
    assert key + ": " + value == key + (": " + value);
    AtSplit(s, i, key, ": " + value);
    var j := i + |key|;
    AtSplit(s, j, ": ", value);
    AtChar(s, j, ": ", 0);
    AtChar(s, j, ": ", 1);
    SkipAt(s, j);
    StrRead(s, i, v.fields[k].key);
    assert At(s, j + 1, " ");
    BlankBefore(s, j + 1, " ");
    PrintParse(fmt, st, v.fields[k].value, d + 2, s, j + 2);
    FieldIs(s, i, v.fields[k].key, j, Norm(fmt, v.fields[k].value), j + 2 + |value|);
  }

  lemma LastField(fmt: Fmt, st: Style, v: JsonValue, d: nat, k: nat)
    requires v.Obj? && k + 1 == |v.fields|
    ensures FieldsText(fmt, st, v, d, k) == PrintField(fmt, st, v, d, k)
  {
    hide PrintField;
    NoItems(fmt, st, v, d);
  }

  lemma MoreFields(fmt: Fmt, st: Style, v: JsonValue, d: nat, k: nat)
    requires v.Obj? && k + 1 < |v.fields|
    ensures var next := FieldsText(fmt, st, v, d, k + 1);
      FieldsText(fmt, st, v, d, k) == PrintField(fmt, st, v, d, k) + ("," + (st.sep(d) + next))
  {
    hide PrintField;
    FieldsTextIs(fmt, st, v, d, k + 1);
  }

  lemma StyleBlank(st: Style, d: nat)
    requires BlankStyle(st)
    ensures Blank(st.sep(d)) && Blank(st.close(d))
  {
    hide Blank;
  }

  lemma {:induction false} FieldsParse(fmt: Fmt, st: Style, v: JsonValue, d: nat, k: nat, s: string, i: nat)
    requires FmtOk(fmt) && BlankStyle(st) && v.Obj? && k < |v.fields|
    requires At(s, i, FieldsText(fmt, st, v, d, k) + (st.close(d) + "}"))
    ensures ParseFields(s, i) ==
            Got(NormFields(fmt, v, k), i + |FieldsText(fmt, st, v, d, k)| + |st.close(d)| + 1)
    decreases v, 0, |v.fields| - k + 1
  {
    hide FmtOk, ParseField, PrintField, PrintFields, Norm, NormFields, At, Skip, ParseFields, Blank, Ends, BlankStyle;
    hide FieldsText;
    StyleBlank(st, d);
    var field, close := PrintField(fmt, st, v, d, k), st.close(d);
    var j := i + |field|;
    var nf := Field(v.fields[k].key, Norm(fmt, v.fields[k].value));
    NormFieldsStep(fmt, v, k);
    if k + 1 == |v.fields| {
      LastField(fmt, st, v, d, k);
      SplitLast(s, i, field, close, '}');
      FieldParse(fmt, st, v, d, k, s, i);
      FieldsLast(s, i, nf, j, j + |close|);
    } else {
      MoreFields(fmt, st, v, d, k);
      var sep, next := st.sep(d), FieldsText(fmt, st, v, d, k + 1);
      SplitMore(s, i, field, sep, next, close + "}");
      FieldParse(fmt, st, v, d, k, s, i);
      BlankBefore(s, j + 1, sep);
      FieldsParse(fmt, st, v, d, k + 1, s, j + 1 + |sep|);
      FieldsMore(s, i, nf, j, NormFields(fmt, v, k + 1), j + 1 + |sep| + |next| + |close| + 1);
    }
  }

  lemma NormFieldsStep(fmt: Fmt, v: JsonValue, k: nat)
    requires FmtOk(fmt) && v.Obj? && k < |v.fields|
    ensures NormFields(fmt, v, k) == [Field(v.fields[k].key, Norm(fmt, v.fields[k].value))] + NormFields(fmt, v, k + 1)
    ensures k + 1 == |v.fields| ==> NormFields(fmt, v, k) == [Field(v.fields[k].key, Norm(fmt, v.fields[k].value))]
  {
    hide Norm;
  }

  lemma FieldsLast(s: string, i: nat, f: Field, j: nat, end: nat)
    requires i <= |s| && ParseField(s, i) == Got(f, j) && Skip(s, j) == end && CharAt(s, end, '}')
    ensures ParseFields(s, i) == Got([f], end + 1)
  {
    hide ParseField, Skip;
  }

  lemma FieldsMore(s: string, i: nat, f: Field, j: nat, fs: seq<Field>, end: nat)
    requires i <= |s| && ParseField(s, i) == Got(f, j) && CharAt(s, j, ',') && ParseFields(s, j + 1) == Got(fs, end)
    ensures ParseFields(s, i) == Got([f] + fs, end)
  {
    hide ParseField, Skip;
    SkipAt(s, j);
  }

  lemma FieldIs(s: string, i: nat, key: string, j: nat, v: JsonValue, end: nat)
    requires i <= |s| && ParseStr(s, i) == Got(key, j) && CharAt(s, j, ':') && ParseValue(s, j + 1) == Got(v, end)
    ensures ParseField(s, i) == Got(Field(key, v), end)
  {
    hide ParseStr, ParseValue, Skip;
    SkipAt(s, j);
  }

  /* ---------- The whole text ---------- */

  lemma BlankCompact()
    ensures BlankStyle(COMPACT)
  {
  }

  lemma BlankPretty()
    ensures BlankStyle(PRETTY)
  {
  }

  /**
   Printing in any whitespace style and parsing gives the value back up to Norm, whatever follows the text,
   as long as it starts with no character that could continue a number.
   */
  lemma RoundTrip(fmt: Fmt, st: Style, v: JsonValue, d: nat, rest: string)
    requires FmtOk(fmt) && BlankStyle(st) && Ends(rest, 0)
    ensures Parse(Print(fmt, st, v, d) + rest).Got?
    ensures Parse(Print(fmt, st, v, d) + rest).value == Norm(fmt, v)
  {
    hide FmtOk, BlankStyle, Print, Norm, ParseValue;
    var t := Print(fmt, st, v, d);
    var s := t + rest;
    assert s[0..|t|] == t;
    assert Ends(s, |t|);
    PrintParse(fmt, st, v, d, s, 0);
  }

  /** Every number in the value is finite and reads back as itself. */
  ghost predicate Exact(fmt: Fmt, v: JsonValue)
    requires FmtOk(fmt)
  {
    match v
    case NonFinite => false
    case Num(x) => ReadBack(fmt, x) == x
    case Arr(items) => forall i :: 0 <= i < |items| ==> Exact(fmt, items[i])
    case Obj(fields) => forall i :: 0 <= i < |fields| ==> Exact(fmt, fields[i].value)
    case _ => true
  }

  lemma {:induction false} NormIsIff(fmt: Fmt, v: JsonValue)
    requires FmtOk(fmt)
    ensures Norm(fmt, v) == v <==> Exact(fmt, v)
  {
    hide FmtOk, ReadBack;
    match v
    case Arr(items) =>
      NormItemsAt(fmt, v, 0);
      forall i | 0 <= i < |items| ensures Norm(fmt, items[i]) == items[i] <==> Exact(fmt, items[i]) {
        NormIsIff(fmt, items[i]);
      }
    case Obj(fields) =>
      NormFieldsAt(fmt, v, 0);
      forall i | 0 <= i < |fields| ensures Norm(fmt, fields[i].value) == fields[i].value <==> Exact(fmt, fields[i].value) {
        NormIsIff(fmt, fields[i].value);
      }
    case _ =>
  }

  lemma {:induction false} NormItemsAt(fmt: Fmt, v: JsonValue, k: nat)
    requires FmtOk(fmt) && v.Arr? && k <= |v.items|
    ensures |NormItems(fmt, v, k)| == |v.items| - k
    ensures forall i {:trigger NormItems(fmt, v, k)[i]} :: 0 <= i < |v.items| - k ==>
      NormItems(fmt, v, k)[i] == Norm(fmt, v.items[k + i])
    decreases |v.items| - k
  {
    hide Norm, FmtOk;
    if k < |v.items| { NormItemsAt(fmt, v, k + 1); }
  }

  lemma {:induction false} NormFieldsAt(fmt: Fmt, v: JsonValue, k: nat)
    requires FmtOk(fmt) && v.Obj? && k <= |v.fields|
    ensures |NormFields(fmt, v, k)| == |v.fields| - k
    ensures forall i {:trigger NormFields(fmt, v, k)[i]} :: 0 <= i < |v.fields| - k ==>
      NormFields(fmt, v, k)[i] == Field(v.fields[k + i].key, Norm(fmt, v.fields[k + i].value))
    decreases |v.fields| - k
  {
    hide Norm, FmtOk;
    if k < |v.fields| { NormFieldsAt(fmt, v, k + 1); }
  }

  /** Parsing undoes json_dumps and json_dumps_pretty exactly on the values whose numbers read back as themselves. */
  lemma RoundTripIff(fmt: Fmt, v: JsonValue, indent: nat)
    requires FmtOk(fmt)
    ensures Parse(Print(fmt, COMPACT, v, 0)) == Got(v, |Print(fmt, COMPACT, v, 0)|) <==> Exact(fmt, v)
    ensures Parse(Print(fmt, PRETTY, v, indent)) == Got(v, |Print(fmt, PRETTY, v, indent)|) <==> Exact(fmt, v)
  {
    hide FmtOk, BlankStyle, Print, Norm, Exact;
    BlankCompact();
    BlankPretty();
    NormIsIff(fmt, v);
    WholeText(fmt, COMPACT, v, 0);
    WholeText(fmt, PRETTY, v, indent);
  }

  lemma WholeText(fmt: Fmt, st: Style, v: JsonValue, d: nat)
    requires FmtOk(fmt) && BlankStyle(st)
    ensures Parse(Print(fmt, st, v, d)) == Got(Norm(fmt, v), |Print(fmt, st, v, d)|)
  {
    hide FmtOk, BlankStyle, Print, Norm, ParseValue;
    var t := Print(fmt, st, v, d);
    assert t[0..|t|] == t;
    PrintParse(fmt, st, v, d, t, 0);
  }

  /** No number but integers below 1e15 in magnitude. */
  ghost predicate IntegersOnly(v: JsonValue) {
    match v
    case NonFinite => false
    case Num(x) => IsPlain(x)
    case Arr(items) => forall i :: 0 <= i < |items| ==> IntegersOnly(items[i])
    case Obj(fields) => forall i :: 0 <= i < |fields| ==> IntegersOnly(fields[i].value)
    case _ => true
  }

  /** Values with such numbers always survive, whatever the stream library does with others. */
  lemma {:induction false} IntegersExact(fmt: Fmt, v: JsonValue)
    requires FmtOk(fmt) && IntegersOnly(v)
    ensures Exact(fmt, v)
  {
    match v
    case Arr(items) => forall i | 0 <= i < |items| ensures Exact(fmt, items[i]) { IntegersExact(fmt, items[i]); }
    case Obj(fields) =>
      forall i | 0 <= i < |fields| ensures Exact(fmt, fields[i].value) { IntegersExact(fmt, fields[i].value); }
    case _ =>
  }
}
