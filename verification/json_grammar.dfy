/**
 Which texts the parser accepts, and as what: a grammar that does not mention the parser, and the two directions of its
 agreement with it.
 */
module JsonGrammar {
  import opened Json
  import opened JsonRoundTrip

  /* ---------- The grammar ---------- */

  const LETTERS := "\"\\/bfnrt"
  const CODES := [34, 92, 47, 8, 12, 10, 13, 9]
  const LOWER := "0123456789abcdef"
  const UPPER := "0123456789ABCDEF"

  ghost predicate IsHex(c: char, d: int) { 0 <= d < 16 && (c == LOWER[d] || c == UPPER[d]) }

  /** Four hexadecimal digits of a code point. */
  ghost predicate FourHex(t: string, cp: nat) {
    |t| == 4 && exists a, b, c, d {:trigger IsHex(t[0], a), IsHex(t[1], b), IsHex(t[2], c), IsHex(t[3], d)} ::
      IsHex(t[0], a) && IsHex(t[1], b) && IsHex(t[2], c) && IsHex(t[3], d) && cp == ((a * 16 + b) * 16 + c) * 16 + d
  }

  /** A continuation byte and the six bits it carries. */
  ghost predicate Tail(c: char, bits: int) { 0 <= bits < 64 && c as int == 0x80 + bits }

  /** The bytes of a code point below 0x10000 in UTF-8, the shortest form. */
  ghost predicate IsUtf8(cp: nat, x: string) {
    if cp < 0x80 then |x| == 1 && x[0] as int == cp
    else if cp < 0x800 then |x| == 2 && x[0] as int >= 0xC0 && Tail(x[1], cp - (x[0] as int - 0xC0) * 64)
    else |x| == 3 && x[0] as int >= 0xE0 && x[1] as int >= 0x80
         && 0 <= x[1] as int - 0x80 < 64 && Tail(x[2], cp - ((x[0] as int - 0xE0) * 64 + (x[1] as int - 0x80)) * 64)
  }

  /** One byte of a literal, or an escape, and the bytes it stands for. */
  ghost predicate Piece(t: string, x: string) {
    || (|t| == 1 && t[0] != '"' && t[0] != '\\' && x == t)
    || (|t| == 2 && t[0] == '\\' && exists k :: 0 <= k < 8 && t[1] == LETTERS[k] && x == [CODES[k] as char])
    || (|t| == 6 && t[0] == '\\' && t[1] == 'u' && exists cp :: FourHex(t[2..], cp) && IsUtf8(cp, x))
  }

  /** The first n bytes of t are a piece that stands for the first m of x. */
  ghost predicate PieceAt(t: string, x: string, n: nat, m: nat) { 0 < n <= |t| && m <= |x| && Piece(t[..n], x[..m]) }

  ghost predicate Body(t: string, x: string)
    decreases |t|
  {
    if t == "" then x == ""
    else exists n: nat, m: nat {:trigger PieceAt(t, x, n, m)} :: PieceAt(t, x, n, m) && Body(t[n..], x[m..])
  }

  ghost predicate StrText(t: string, x: string) {
    |t| >= 2 && t[0] == '"' && t[|t| - 1] == '"' && Body(t[1..|t| - 1], x)
  }

  /** The point shifted back, the number is plus or minus its digits times ten to its exponent. */
  ghost predicate Means(n: NumParts, x: real) {
    n.Ok() && AllDigits(n.whole + n.frac) &&
    var digits := DigitsValue(n.whole + n.frac) as real;
    var e := Pow10(DigitsValue(n.exp));
    var v := if n.neg then -digits else digits;
    if n.sign == "-" then x * Pow10(|n.frac|) * e == v else x * Pow10(|n.frac|) == v * e
  }

  ghost predicate NumberText(t: string, x: real) { exists n: NumParts {:trigger Means(n, x)} :: Means(n, x) && n.Text() == t }

  function Commas(parts: seq<string>): string {
    if parts == [] then "" else if |parts| == 1 then parts[0] else parts[0] + "," + Commas(parts[1..])
  }

  /** t is a, u and b in a row. */
  ghost predicate Three(t: string, a: string, u: string, b: string) { t == a + u + b && Blank(a) && Blank(b) }

  /** t is a text of value v, without whitespace around it. */
  ghost predicate Denotes(t: string, v: JsonValue)
    decreases v, 0
  {
    match v
    case Null => t == "null"
    case Bool(b) => t == if b then "true" else "false"
    case NonFinite => false
    case Num(x) => NumberText(t, x)
    case Str(x) => StrText(t, x)
    case Arr(items) =>
      if items == [] then exists w :: Blank(w) && t == "[" + w + "]"
      else exists parts :: |parts| == |items| && t == "[" + Commas(parts) + "]"
             && forall k {:trigger parts[k]} {:trigger items[k]} :: 0 <= k < |items| ==> Padded(parts[k], items[k])
    case Obj(fields) =>
      if fields == [] then exists w :: Blank(w) && t == "{" + w + "}"
      else exists parts :: |parts| == |fields| && t == "{" + Commas(parts) + "}"
             && forall k {:trigger parts[k]} {:trigger fields[k]} :: 0 <= k < |fields| ==>
                  FieldText(parts[k], fields[k].key, fields[k].value)
  }

  /** A value with whitespace around it. */
  ghost predicate Padded(t: string, v: JsonValue)
    decreases v, 1
  {
    exists a, u, b {:trigger Three(t, a, u, b)} :: Three(t, a, u, b) && Denotes(u, v)
  }

  /** A key, a colon and a value, with whitespace around each. */
  ghost predicate FieldText(t: string, key: string, v: JsonValue)
    decreases v, 2
  {
    exists k, u, a, q, b {:trigger Three(k, a, q, b), Padded(u, v)} ::
      Three(k, a, q, b) && StrText(q, key) && Padded(u, v) && t == k + ":" + u
  }

  /* ---------- What is accepted is in the grammar ---------- */

  lemma {:induction false} SkipIsBlank(s: string, i: nat)
    requires i <= |s|
    ensures Blank(s[i..Skip(s, i)])
    decreases |s| - i
  {
    if i < |s| && IsSpace(s[i]) {
      SkipIsBlank(s, i + 1);
      assert s[i..Skip(s, i)] == [s[i]] + s[i + 1..Skip(s, i)];
    }
  }

  lemma HexSound(c: char)
    ensures HexDigit(c) >= 0 ==> IsHex(c, HexDigit(c))
  {
  }

  lemma FourHexSound(s: string, i: nat)
    requires i + 4 <= |s| && ParseHex(s, i, 4, 0).Got?
    ensures ParseHex(s, i, 4, 0).next == i + 4 && FourHex(s[i..i + 4], ParseHex(s, i, 4, 0).value)
  {
    var a, b, c, d := HexDigit(s[i]), HexDigit(s[i + 1]), HexDigit(s[i + 2]), HexDigit(s[i + 3]);
    HexSound(s[i]);
    HexSound(s[i + 1]);
    HexSound(s[i + 2]);
    HexSound(s[i + 3]);
    assert ParseHex(s, i, 4, 0) == ParseHex(s, i + 1, 3, a);
    assert ParseHex(s, i + 1, 3, a) == ParseHex(s, i + 2, 2, a * 16 + b);
    assert ParseHex(s, i + 2, 2, a * 16 + b) == ParseHex(s, i + 3, 1, (a * 16 + b) * 16 + c);
    assert ParseHex(s, i + 3, 1, (a * 16 + b) * 16 + c) == ParseHex(s, i + 4, 0, ((a * 16 + b) * 16 + c) * 16 + d);
    var t := s[i..i + 4];
    assert IsHex(t[0], a) && IsHex(t[1], b) && IsHex(t[2], c) && IsHex(t[3], d);
  }

  lemma Utf8Sound(cp: nat)
    requires cp < 0x10000
    ensures IsUtf8(cp, Utf8(cp))
  {
    hide Tail;
    if 0x80 <= cp < 0x800 {
      TailOf(cp);
    } else if 0x800 <= cp {
      TailOf(cp);
      Sixths(cp);
    }
  }

  lemma TailOf(cp: nat)
    requires cp < 0x10000
    ensures Tail((0x80 + cp % 64) as char, cp - cp / 64 * 64)
  {
  }

  lemma Sixths(cp: nat)
    ensures cp / 64 == cp / 4096 * 64 + cp / 64 % 64
  {
    assert cp / 4096 == cp / 64 / 64;
  }

  lemma EscapeSound(s: string, i: nat)
    requires i < |s| && s[i] == '\\' && ParseEscape(s, i + 1).Got?
    ensures var r := ParseEscape(s, i + 1); i + 2 <= r.next <= |s| && Piece(s[i..r.next], r.value)
  {
    hide ParseHex, Pow16, Utf8, IsUtf8, FourHex;
    var r := ParseEscape(s, i + 1);
    var t := s[i..r.next];
    if s[i + 1] == 'u' {
      HexBound(s, i + 2, 4, 0, 1);
      Pow16Four();
      FourHexSound(s, i + 2);
      Utf8Sound(ParseHex(s, i + 2, 4, 0).value);
      assert t[2..] == s[i + 2..i + 6];
    } else {
      var k := if s[i + 1] == '"' then 0 else if s[i + 1] == '\\' then 1 else if s[i + 1] == '/' then 2
        else if s[i + 1] == 'b' then 3 else if s[i + 1] == 'f' then 4 else if s[i + 1] == 'n' then 5
        else if s[i + 1] == 'r' then 6 else 7;
      assert t[1] == LETTERS[k] && r.value == [CODES[k] as char];
    }
  }

  lemma Pow16Four()
    ensures Pow16(4) == 0x10000
  {
  }

  lemma BodyCons(t: string, x: string, n: nat, m: nat)
    requires PieceAt(t, x, n, m) && Body(t[n..], x[m..])
    ensures Body(t, x)
  {
  }

  lemma {:induction false} CharsSound(s: string, i: nat)
    requires i <= |s| && ParseChars(s, i).Got?
    ensures var r := ParseChars(s, i); i < r.next <= |s| && s[r.next - 1] == '"' && Body(s[i..r.next - 1], r.value)
    decreases |s| - i
  {
    hide Body, ParseEscape, Piece;
    var r := ParseChars(s, i);
    if s[i] == '"' {
      BodyEmpty();
      assert s[i..i] == "";
    } else {
      var next, x := i + 1, [s[i]];
      if s[i] == '\\' {
        EscapeSound(s, i);
        next, x := ParseEscape(s, i + 1).next, ParseEscape(s, i + 1).value;
      } else {
        assert Piece(s[i..i + 1], [s[i]]) by { PlainPiece(s[i]); assert s[i..i + 1] == [s[i]]; }
      }
      CharsSound(s, next);
      var rest := ParseChars(s, next);
      assert r == Got(x + rest.value, rest.next);
      var t := s[i..r.next - 1];
      assert t[..next - i] == s[i..next] && t[next - i..] == s[next..r.next - 1];
      assert r.value[..|x|] == x && r.value[|x|..] == rest.value;
      BodyCons(t, r.value, next - i, |x|);
    }
  }

  lemma PlainPiece(c: char)
    requires c != '"' && c != '\\'
    ensures Piece([c], [c])
  {
  }

  lemma BodyEmpty()
    ensures Body("", "")
  {
  }

  lemma StrSound(s: string, i: nat)
    requires i <= |s| && ParseStr(s, i).Got?
    ensures var r, j := ParseStr(s, i), Skip(s, i); i <= j < r.next <= |s| && StrText(s[j..r.next], r.value)
  {
    hide ParseChars, Body;
    var r, j := ParseStr(s, i), Skip(s, i);
    CharsSound(s, j + 1);
    var t := s[j..r.next];
    assert t[1..|t| - 1] == s[j + 1..r.next - 1];
  }

  /** The parts of the number scanned at i. */
  ghost function PartsOf(s: string, i: nat): NumParts
    requires i < |s| && (IsDigit(s[i]) || s[i] == '-')
  {
    var p := ScanNum(s, i);
    var e := p.fracEnd;
    NumParts(s[i] == '-', s[p.intFrom..p.intEnd], CharAt(s, p.intEnd, '.'), s[p.fracFrom..p.fracEnd],
             if IsExp(s, e) then [s[e]] else "",
             if IsExp(s, e) && ExpFrom(s, e) == e + 2 then [s[e + 1]] else "", s[p.expFrom..p.expEnd])
  }

  lemma PartsOk(s: string, i: nat)
    requires i < |s| && (IsDigit(s[i]) || s[i] == '-')
    ensures PartsOf(s, i).Ok()
  {
    hide DigitsEnd, FracEnd;
    if s[i] != '-' { DigitHere(s, i); }
  }

  lemma Cut(s: string, i: nat, j: nat, k: nat)
    requires i <= j <= k <= |s|
    ensures s[i..k] == s[i..j] + s[j..k]
  {
  }

  lemma CutInto(s: string, i: nat, j: nat, k: nat, left: string, right: string)
    requires i <= j <= k <= |s| && s[i..j] == left && s[j..k] == right
    ensures s[i..k] == left + right
  {
  }

  lemma PartsText(s: string, i: nat)
    requires i < |s| && (IsDigit(s[i]) || s[i] == '-')
    ensures PartsOf(s, i).Text() == s[i..ScanNum(s, i).expEnd]
  {
    hide DigitsEnd, FracEnd, ExpEnd;
    hide ScanNum, PartsOf, NumParts.Text, IsDigit;
    var p, n := ScanNum(s, i), PartsOf(s, i);
    var sg, pt := if n.neg then "-" else "", if n.point then "." else "";
    SlicesOf(s, i);
    LetterAndSign(s, i);
    TextIs(n, sg, pt);
    var g := p.fracEnd + |n.letter|;
    CutFour(s, i, p.intFrom, p.intEnd, p.fracFrom, p.fracEnd, sg, n.whole, pt, n.frac);
    CutFour(s, i, p.fracEnd, g, p.expFrom, p.expEnd, sg + n.whole + pt + n.frac, n.letter, n.sign, n.exp);
  }

  lemma SlicesOf(s: string, i: nat)
    requires i < |s| && (IsDigit(s[i]) || s[i] == '-')
    ensures var p, n := ScanNum(s, i), PartsOf(s, i);
      && s[i..p.intFrom] == (if n.neg then "-" else "") && s[p.intEnd..p.fracFrom] == (if n.point then "." else "")
      && s[p.intFrom..p.intEnd] == n.whole && s[p.fracFrom..p.fracEnd] == n.frac && s[p.expFrom..p.expEnd] == n.exp
  {
    hide DigitsEnd, FracEnd, ExpEnd, IsExp, ExpFrom;
  }

  lemma CutFour(s: string, i: nat, j: nat, k: nat, l: nat, m: nat, a: string, b: string, c: string, d: string)
    requires i <= j <= k <= l <= m <= |s| && s[i..j] == a && s[j..k] == b && s[k..l] == c && s[l..m] == d
    ensures s[i..m] == a + b + c + d
  {
    CutInto(s, i, j, k, a, b);
    CutInto(s, i, k, l, a + b, c);
    CutInto(s, i, l, m, a + b + c, d);
  }

  lemma TextIs(n: NumParts, sg: string, pt: string)
    requires sg == (if n.neg then "-" else "") && pt == (if n.point then "." else "")
    ensures n.Text() == sg + n.whole + pt + n.frac + n.letter + n.sign + n.exp
  {
  }

  lemma LetterAndSign(s: string, i: nat)
    requires i < |s| && (IsDigit(s[i]) || s[i] == '-')
    ensures var p, n := ScanNum(s, i), PartsOf(s, i);
      var g := p.fracEnd + |n.letter|;
      g <= p.expFrom && n.letter == s[p.fracEnd..g] && n.sign == s[g..p.expFrom]
  {
    hide DigitsEnd, FracEnd, ExpEnd;
  }

  lemma NumberSound(s: string, i: nat)
    requires i < |s| && (IsDigit(s[i]) || s[i] == '-')
    ensures var end := ScanNum(s, i).expEnd; i < end <= |s| && NumberText(s[i..end], StrToD(s[i..end]))
  {
    hide StrToD, ScanNum, PartsOf, NumParts.Text, NumParts.Ok, NumberText;
    PartsOk(s, i);
    PartsText(s, i);
    NumberIs(PartsOf(s, i));
  }

  lemma DigitHere(s: string, i: nat)
    requires i < |s| && IsDigit(s[i])
    ensures DigitsEnd(s, i) > i
  {
  }

  lemma NumberIs(n: NumParts)
    requires n.Ok()
    ensures |n.Text()| > 0 && NumberText(n.Text(), StrToD(n.Text()))
  {
    hide StrToD, DigitsValue, Pow10, NumParts.Ok, ScanNum;
    TextNotEmpty(n);
    var t := n.Text();
    AtWhole(t);
    var x := NumberMeans(n, t, 0);
    ScanParts(n, t, 0);
    NumberAt(t, 0);
    assert t[0..|t|] == t;
    assert Means(n, x);
  }

  lemma TextNotEmpty(n: NumParts)
    requires n.Ok()
    ensures |n.Text()| > 0
  {
  }

  lemma PaddedIs(t: string, a: string, u: string, b: string, v: JsonValue)
    requires Three(t, a, u, b) && Denotes(u, v)
    ensures Padded(t, v)
  {
  }

  /** Whitespace, a value that ends at next, and whitespace up to j. */
  lemma PaddedSlice(s: string, i: nat, next: nat, j: nat, v: JsonValue)
    requires i <= |s| && Skip(s, i) <= next <= |s| && j == Skip(s, next) && Denotes(s[Skip(s, i)..next], v)
    ensures i <= j <= |s| && Padded(s[i..j], v)
  {
    hide Denotes, Padded, Skip;
    SkipIsBlank(s, i);
    SkipIsBlank(s, next);
    Cut(s, i, Skip(s, i), next);
    Cut(s, i, next, j);
    PaddedIs(s[i..j], s[i..Skip(s, i)], s[Skip(s, i)..next], s[next..j], v);
  }

  lemma CommasCons(p: string, rest: seq<string>)
    ensures rest == [] ==> Commas([p] + rest) == p
    ensures rest != [] ==> Commas([p] + rest) == p + "," + Commas(rest)
  {
    assert ([p] + rest)[1..] == rest;
  }

  lemma ArrEmpty(w: string)
    requires Blank(w)
    ensures Denotes("[" + w + "]", Arr([])) && Denotes("{" + w + "}", Obj([]))
  {
  }

  lemma ArrDenotes(t: string, parts: seq<string>, items: seq<JsonValue>)
    requires items != [] && |parts| == |items| && t == "[" + Commas(parts) + "]"
    requires forall k {:trigger parts[k]} {:trigger items[k]} :: 0 <= k < |items| ==> Padded(parts[k], items[k])
    ensures Denotes(t, Arr(items))
  {
    hide Padded, Commas;
  }

  lemma ObjDenotes(t: string, parts: seq<string>, fields: seq<Field>)
    requires fields != [] && |parts| == |fields| && t == "{" + Commas(parts) + "}"
    requires forall k {:trigger parts[k]} {:trigger fields[k]} :: 0 <= k < |fields| ==>
      FieldText(parts[k], fields[k].key, fields[k].value)
    ensures Denotes(t, Obj(fields))
  {
    hide FieldText, Commas;
  }

  /** Whatever is parsed as a value, after whitespace, is a text of that value. */
  lemma {:induction false} ValueSound(s: string, i: nat)
    requires i <= |s| && ParseValue(s, i).Got?
    ensures var r, j := ParseValue(s, i), Skip(s, i); i <= j < r.next <= |s| && Denotes(s[j..r.next], r.value)
    decreases |s| - i, 2
  {
    hide ParseArr, ParseObj, ParseStr, ScanNum, StrToD, StrText, NumberText, Padded, FieldText, Skip;
    var r, j := ParseValue(s, i), Skip(s, i);
    var c := s[j];
    SkipTwice(s, i);
    if c == '"' {
      StrSound(s, j);
    } else if c == '[' {
      ArrSound(s, j);
    } else if c == '{' {
      ObjSound(s, j);
    } else if c == '-' || IsDigit(c) {
      NumberSound(s, j);
    }
  }

  lemma SkipTwice(s: string, i: nat)
    requires i <= |s|
    ensures Skip(s, Skip(s, i)) == Skip(s, i)
  {
  }

  lemma {:induction false} ArrSound(s: string, i: nat)
    requires CharAt(s, i, '[') && ParseArr(s, i).Got?
    ensures var r := ParseArr(s, i); i < r.next <= |s| && Denotes(s[i..r.next], r.value)
    decreases |s| - i, 1
  {
    hide ParseItems, Denotes, Padded, Commas, Skip;
    var r, j := ParseArr(s, i), Skip(s, i + 1);
    if CharAt(s, j, ']') {
      SkipIsBlank(s, i + 1);
      assert s[i..r.next] == "[" + s[i + 1..j] + "]";
      ArrEmpty(s[i + 1..j]);
    } else {
      var parts := ItemsSound(s, i + 1, j);
      assert s[i..r.next] == "[" + s[i + 1..r.next - 1] + "]";
      ArrDenotes(s[i..r.next], parts, r.value.items);
    }
  }

  /** From whitespace at i, the items from j on. */
  lemma {:induction false} ItemsSound(s: string, i: nat, j: nat) returns (parts: seq<string>)
    requires i <= j <= |s| && (j == i || j == Skip(s, i)) && ParseItems(s, j).Got?
    ensures var r := ParseItems(s, j);
      && i < r.next <= |s| && s[r.next - 1] == ']' && |parts| == |r.value| >= 1 && Commas(parts) == s[i..r.next - 1]
      && forall k {:trigger parts[k]} {:trigger r.value[k]} :: 0 <= k < |r.value| ==> Padded(parts[k], r.value[k])
    decreases |s| - i, 3
  {
    hide ParseValue, Denotes, Padded, Commas, Skip, ParseItems;
    SkipTwice(s, i);
    ItemsStep(s, j);
    ValueSound(s, j);
    var v := ParseValue(s, j);
    var e := Skip(s, v.next);
    PaddedSlice(s, i, v.next, e, v.value);
    if s[e] == ']' {
      parts := [s[i..e]];
      CommasCons(s[i..e], []);
      assert [s[i..e]] + [] == parts;
    } else {
      var rest := ItemsSound(s, e + 1, e + 1);
      parts := [s[i..e]] + rest;
      CommasCons(s[i..e], rest);
      var r := ParseItems(s, j);
      assert s[i..r.next - 1] == s[i..e] + "," + s[e + 1..r.next - 1];
    }
  }

  lemma ItemsStep(s: string, j: nat)
    requires j <= |s| && ParseItems(s, j).Got?
    ensures var v := ParseValue(s, j);
      && v.Got? && v.next <= |s| && Skip(s, v.next) < |s|
      && var e := Skip(s, v.next);
         && (s[e] == ']' || s[e] == ',')
         && (s[e] == ']' ==> ParseItems(s, j) == Got([v.value], e + 1))
         && (s[e] == ',' ==> e >= j && ParseItems(s, e + 1).Got?)
         && (s[e] == ',' ==> ParseItems(s, j) == Got([v.value] + ParseItems(s, e + 1).value, ParseItems(s, e + 1).next))
  {
    hide ParseValue, Skip;
  }

  lemma {:induction false} ObjSound(s: string, i: nat)
    requires CharAt(s, i, '{') && ParseObj(s, i).Got?
    ensures var r := ParseObj(s, i); i < r.next <= |s| && Denotes(s[i..r.next], r.value)
    decreases |s| - i, 1
  {
    hide ParseFields, Denotes, FieldText, Commas, Skip;
    var r, j := ParseObj(s, i), Skip(s, i + 1);
    if CharAt(s, j, '}') {
      SkipIsBlank(s, i + 1);
      assert s[i..r.next] == "{" + s[i + 1..j] + "}";
      ArrEmpty(s[i + 1..j]);
    } else {
      var parts := FieldsSound(s, i + 1, j);
      assert s[i..r.next] == "{" + s[i + 1..r.next - 1] + "}";
      ObjDenotes(s[i..r.next], parts, r.value.fields);
    }
  }

  lemma FieldIsText(t: string, k: string, u: string, a: string, q: string, b: string, key: string, v: JsonValue)
    requires Three(k, a, q, b) && StrText(q, key) && Padded(u, v) && t == k + ":" + u
    ensures FieldText(t, key, v)
  {
    hide Three, StrText, Padded;
  }

  /** One field, from whitespace at i up to whitespace that ends at its end. */
  lemma {:induction false} FieldSound(s: string, i: nat, j: nat)
    requires i <= j <= |s| && (j == i || j == Skip(s, i)) && ParseField(s, j).Got?
    ensures var f := ParseField(s, j);
      i < f.next <= |s| && FieldText(s[i..Skip(s, f.next)], f.value.key, f.value.value)
    decreases |s| - i, 3
  {
    hide ParseValue, ParseStr, Denotes, Padded, StrText, Skip, FieldText;
    SkipTwice(s, i);
    var f, key := ParseField(s, j), ParseStr(s, j);
    StrSound(s, j);
    var c, a := Skip(s, key.next), Skip(s, i);
    ValueSound(s, c + 1);
    var v := ParseValue(s, c + 1);
    var e := Skip(s, v.next);
    PaddedSlice(s, c + 1, v.next, e, v.value);
    SkipIsBlank(s, i);
    SkipIsBlank(s, key.next);
    Cut(s, i, a, key.next);
    Cut(s, i, key.next, c);
    assert s[i..e] == s[i..c] + ":" + s[c + 1..e];
    FieldIsText(s[i..e], s[i..c], s[c + 1..e], s[i..a], s[a..key.next], s[key.next..c], key.value, v.value);
  }

  lemma {:induction false} FieldsSound(s: string, i: nat, j: nat) returns (parts: seq<string>)
    requires i <= j <= |s| && (j == i || j == Skip(s, i)) && ParseFields(s, j).Got?
    ensures var r := ParseFields(s, j);
      && i < r.next <= |s| && s[r.next - 1] == '}' && |parts| == |r.value| >= 1 && Commas(parts) == s[i..r.next - 1]
      && forall k {:trigger parts[k]} {:trigger r.value[k]} :: 0 <= k < |r.value| ==>
           FieldText(parts[k], r.value[k].key, r.value[k].value)
    decreases |s| - i, 4
  {
    hide ParseField, FieldText, Commas, Skip, ParseFields;
    FieldsStep(s, j);
    FieldSound(s, i, j);
    var f := ParseField(s, j);
    var e := Skip(s, f.next);
    if s[e] == '}' {
      parts := [s[i..e]];
      CommasCons(s[i..e], []);
      assert [s[i..e]] + [] == parts;
    } else {
      var rest := FieldsSound(s, e + 1, e + 1);
      parts := [s[i..e]] + rest;
      CommasCons(s[i..e], rest);
      var r := ParseFields(s, j);
      assert s[i..r.next - 1] == s[i..e] + "," + s[e + 1..r.next - 1];
    }
  }

  lemma FieldsStep(s: string, j: nat)
    requires j <= |s| && ParseFields(s, j).Got?
    ensures var f := ParseField(s, j);
      && f.Got? && j < f.next <= |s| && Skip(s, f.next) < |s|
      && var e := Skip(s, f.next);
         && (s[e] == '}' || s[e] == ',')
         && (s[e] == '}' ==> ParseFields(s, j) == Got([f.value], e + 1))
         && (s[e] == ',' ==> ParseFields(s, e + 1).Got?)
         && (s[e] == ',' ==> ParseFields(s, j) == Got([f.value] + ParseFields(s, e + 1).value, ParseFields(s, e + 1).next))
  {
    hide ParseField, Skip;
  }

  /* ---------- What is in the grammar is accepted ---------- */

  lemma HexComplete(c: char, d: int)
    requires IsHex(c, d)
    ensures HexDigit(c) == d && 0 <= d < 16
  {
  }

  lemma FourHexComplete(s: string, i: nat, t: string, cp: nat)
    requires At(s, i, t) && FourHex(t, cp)
    ensures i + 4 <= |s| && ParseHex(s, i, 4, 0) == Got(cp, i + 4)
  {
    hide IsHex;
    var a, b, c, d :| IsHex(t[0], a) && IsHex(t[1], b) && IsHex(t[2], c) && IsHex(t[3], d)
                      && cp == ((a * 16 + b) * 16 + c) * 16 + d;
    AtChar(s, i, t, 0);
    AtChar(s, i, t, 1);
    AtChar(s, i, t, 2);
    AtChar(s, i, t, 3);
    HexComplete(t[0], a);
    HexComplete(t[1], b);
    HexComplete(t[2], c);
    HexComplete(t[3], d);
    assert ParseHex(s, i, 4, 0) == ParseHex(s, i + 1, 3, a);
    assert ParseHex(s, i + 1, 3, a) == ParseHex(s, i + 2, 2, a * 16 + b);
    assert ParseHex(s, i + 2, 2, a * 16 + b) == ParseHex(s, i + 3, 1, (a * 16 + b) * 16 + c);
    assert ParseHex(s, i + 3, 1, (a * 16 + b) * 16 + c) == ParseHex(s, i + 4, 0, cp);
  }

  lemma Utf8Complete(cp: nat, x: string)
    requires cp < 0x10000 && IsUtf8(cp, x)
    ensures x == Utf8(cp)
  {
  }

  lemma PieceComplete(s: string, i: nat, t: string, x: string)
    requires At(s, i, t) && Piece(t, x)
    ensures i < |s| && s[i] != '"' && 1 <= |t|
    ensures s[i] == '\\' ==> ParseEscape(s, i + 1) == Got(x, i + |t|)
    ensures s[i] != '\\' ==> |t| == 1 && x == [s[i]]
  {
    hide FourHex, IsUtf8, ParseHex, Utf8, Pow16;
    AtChar(s, i, t, 0);
    if |t| == 2 {
      AtChar(s, i, t, 1);
    } else if |t| == 6 {
      AtChar(s, i, t, 1);
      AtSplit(s, i, t[..2], t[2..]);
      assert t[..2] + t[2..] == t;
      var cp :| FourHex(t[2..], cp) && IsUtf8(cp, x);
      FourHexComplete(s, i + 2, t[2..], cp);
      HexBound(s, i + 2, 4, 0, 1);
      Pow16Four();
      Utf8Complete(cp, x);
    }
  }

  lemma {:induction false} BodyComplete(s: string, i: nat, t: string, x: string)
    requires Body(t, x) && At(s, i, t + "\"")
    ensures i <= |s| && ParseChars(s, i) == Got(x, i + |t| + 1)
    decreases |t|
  {
    hide Piece, ParseEscape, ParseChars, At;
    AtSplit(s, i, t, "\"");
    if t == "" {
      CharsEnd(s, i);
    } else {
      var n: nat, m: nat :| PieceAt(t, x, n, m) && Body(t[n..], x[m..]);
      assert t == t[..n] + t[n..] && x == x[..m] + x[m..];
      AtSplit(s, i, t[..n], t[n..]);
      AtSplit(s, i + n, t[n..], "\"");
      PieceComplete(s, i, t[..n], x[..m]);
      BodyComplete(s, i + n, t[n..], x[m..]);
      CharsStep(s, i, n, x[..m], x[m..], i + |t| + 1);
    }
  }

  lemma StrComplete(s: string, i: nat, t: string, x: string)
    requires StrText(t, x) && At(s, i, t)
    ensures i < |s| && s[i] == '"' && ParseStr(s, i) == Got(x, i + |t|)
  {
    hide ParseChars, Body;
    var body := t[1..|t| - 1];
    assert t == "\"" + (body + "\"");
    AtSplit(s, i, "\"", body + "\"");
    AtChar(s, i, "\"", 0);
    SkipAt(s, i);
    BodyComplete(s, i + 1, body, x);
  }

  /** A number text means one number. */
  lemma MeansOne(n: NumParts, x: real, y: real)
    requires Means(n, x) && Means(n, y)
    ensures x == y
  {
    hide DigitsValue, Pow10;
    var f, e := Pow10(|n.frac|), Pow10(DigitsValue(n.exp));
    Cancel(x, y, f);
    Cancel(x * f, y * f, e);
  }

  lemma Cancel(x: real, y: real, c: real)
    requires c > 0.0
    ensures x * c == y * c ==> x == y
  {
    if x * c == y * c { assert (x - y) * c == 0.0; }
  }

  lemma NumberComplete(s: string, i: nat, t: string, x: real)
    requires NumberText(t, x) && At(s, i, t) && Ends(s, i + |t|)
    ensures ParseValue(s, i) == Got(Num(x), i + |t|)
  {
    hide ParseValue, NumParts.Text, NumParts.Ok, DigitsValue, Pow10, Ends;
    var n: NumParts :| Means(n, x) && n.Text() == t;
    var y := NumberMeans(n, s, i);
    assert Means(n, y);
    MeansOne(n, x, y);
  }

  lemma CommasSplit(parts: seq<string>)
    requires |parts| > 1
    ensures Commas(parts) == parts[0] + "," + Commas(parts[1..])
  {
  }

  /** After a padded value at i, the cursor finds what follows it. */
  lemma PaddedComplete(t: string, v: JsonValue, s: string, i: nat) returns (next: nat)
    requires Padded(t, v) && At(s, i, t) && i + |t| < |s| && (s[i + |t|] == ',' || s[i + |t|] == ']' || s[i + |t|] == '}')
    ensures i <= |s| && ParseValue(s, i) == Got(v, next) && i <= next <= |s| && Skip(s, next) == i + |t|
    decreases v, 2
  {
    hide Denotes, ParseValue, Skip, At;
    var a, u, b :| Three(t, a, u, b) && Denotes(u, v);
    AtSplit(s, i, a + u, b);
    AtSplit(s, i, a, u);
    next := i + |a| + |u|;
    EndsAfter(s, next, b);
    Complete(u, v, s, i + |a|);
    BlankBefore(s, i, a);
    SkipBlank(s, next, b);
    SkipAt(s, i + |t|);
    AtFits(s, next, b);
    AtFits(s, i, a + u);
  }

  lemma EndsAfter(s: string, i: nat, b: string)
    requires At(s, i, b) && Blank(b) && i + |b| < |s|
    requires s[i + |b|] == ',' || s[i + |b|] == ']' || s[i + |b|] == '}'
    ensures Ends(s, i)
  {
    if b != "" { AtChar(s, i, b, 0); }
  }

  lemma {:induction false} ItemsComplete(parts: seq<string>, items: seq<JsonValue>, whole: JsonValue, s: string, i: nat)
    requires |parts| == |items| >= 1 && At(s, i, Commas(parts) + "]")
    requires forall k {:trigger parts[k]} {:trigger items[k]} ::
      0 <= k < |items| ==> items[k] < whole && Padded(parts[k], items[k])
    ensures i <= |s| && ParseItems(s, i) == Got(items, i + |Commas(parts)| + 1)
    decreases whole, 0, |items|
  {
    hide Padded, ParseValue, Skip, At, Commas;
    if |parts| == 1 {
      OneComma(parts);
      AtSplit(s, i, parts[0], "]");
      AtChar(s, i + |parts[0]|, "]", 0);
      var next := PaddedComplete(parts[0], items[0], s, i);
      ItemsEnd(s, i, items[0], next, i + |parts[0]|);
      assert items == [items[0]];
    } else {
      CommasSplit(parts);
      var rest := Commas(parts[1..]) + "]";
      assert Commas(parts) + "]" == parts[0] + ("," + rest);
      AtSplit(s, i, parts[0], "," + rest);
      var j := i + |parts[0]|;
      AtSplit(s, j, ",", rest);
      AtChar(s, j, ",", 0);
      var next := PaddedComplete(parts[0], items[0], s, i);
      ItemsComplete(parts[1..], items[1..], whole, s, j + 1);
      ItemsNext(s, i, items[0], next, j, items[1..]);
      assert items == [items[0]] + items[1..];
    }
  }

  lemma OneComma(parts: seq<string>)
    requires |parts| == 1
    ensures Commas(parts) == parts[0]
  {
  }

  lemma ItemsEnd(s: string, i: nat, v: JsonValue, next: nat, j: nat)
    requires i <= |s| && ParseValue(s, i) == Got(v, next) && next <= |s| && Skip(s, next) == j && CharAt(s, j, ']')
    ensures ParseItems(s, i) == Got([v], j + 1)
  {
    hide ParseValue, Skip;
  }

  lemma ItemsNext(s: string, i: nat, v: JsonValue, next: nat, j: nat, vs: seq<JsonValue>)
    requires i <= |s| && ParseValue(s, i) == Got(v, next) && next <= |s| && Skip(s, next) == j && CharAt(s, j, ',')
    requires ParseItems(s, j + 1).Got? && ParseItems(s, j + 1).value == vs
    ensures ParseItems(s, i) == Got([v] + vs, ParseItems(s, j + 1).next)
  {
    hide ParseValue, Skip;
  }

  lemma FieldComplete(t: string, key: string, v: JsonValue, s: string, i: nat) returns (next: nat)
    requires FieldText(t, key, v) && At(s, i, t) && i + |t| < |s| && (s[i + |t|] == ',' || s[i + |t|] == '}')
    ensures i <= |s| && i <= next <= |s| && Skip(s, next) == i + |t|
    ensures ParseField(s, i) == Got(Field(key, v), next)
    decreases v, 3
  {
    hide Denotes, Padded, ParseValue, ParseStr, Skip, At, StrText;
    var k, u, a, q, b :| Three(k, a, q, b) && StrText(q, key) && Padded(u, v) && t == k + ":" + u;
    AtSplit(s, i, k + ":", u);
    AtSplit(s, i, k, ":");
    AtSplit(s, i, a + q, b);
    AtSplit(s, i, a, q);
    var c := i + |k|;
    AtChar(s, c, ":", 0);
    StrComplete(s, i + |a|, q, key);
    BlankBefore(s, i, a);
    SkipBlank(s, i + |a| + |q|, b);
    SkipAt(s, c);
    AtFits(s, i, a + q);
    assert c + 1 == i + |k + ":"| && c + 1 + |u| == i + |t|;
    next := PaddedComplete(u, v, s, c + 1);
    FieldGot(s, i, key, i + |a| + |q|, c, v, next);
  }

  lemma FieldGot(s: string, i: nat, key: string, j: nat, c: nat, v: JsonValue, next: nat)
    requires i <= |s| && j <= |s| && ParseStr(s, i) == Got(key, j) && Skip(s, j) == c && CharAt(s, c, ':')
    requires ParseValue(s, c + 1) == Got(v, next)
    ensures ParseField(s, i) == Got(Field(key, v), next)
  {
    hide ParseStr, ParseValue, Skip;
  }

  lemma {:induction false} FieldsComplete(parts: seq<string>, fields: seq<Field>, whole: JsonValue, s: string, i: nat)
    requires |parts| == |fields| >= 1 && At(s, i, Commas(parts) + "}")
    requires forall k {:trigger parts[k]} {:trigger fields[k]} :: 0 <= k < |fields| ==>
      fields[k].value < whole && FieldText(parts[k], fields[k].key, fields[k].value)
    ensures i <= |s| && ParseFields(s, i) == Got(fields, i + |Commas(parts)| + 1)
    decreases whole, 0, |fields|
  {
    hide FieldText, ParseField, Skip, At, Commas;
    if |parts| == 1 {
      OneComma(parts);
      AtSplit(s, i, parts[0], "}");
      AtChar(s, i + |parts[0]|, "}", 0);
      var next := FieldComplete(parts[0], fields[0].key, fields[0].value, s, i);
      FieldsEnd(s, i, fields[0], next, i + |parts[0]|);
      assert fields == [fields[0]];
    } else {
      CommasSplit(parts);
      var rest := Commas(parts[1..]) + "}";
      assert Commas(parts) + "}" == parts[0] + ("," + rest);
      AtSplit(s, i, parts[0], "," + rest);
      var j := i + |parts[0]|;
      AtSplit(s, j, ",", rest);
      AtChar(s, j, ",", 0);
      var next := FieldComplete(parts[0], fields[0].key, fields[0].value, s, i);
      FieldsComplete(parts[1..], fields[1..], whole, s, j + 1);
      FieldsNext(s, i, fields[0], next, j, fields[1..]);
      assert fields == [fields[0]] + fields[1..];
    }
  }

  lemma FieldsEnd(s: string, i: nat, f: Field, next: nat, j: nat)
    requires i <= |s| && ParseField(s, i) == Got(f, next) && next <= |s| && Skip(s, next) == j && CharAt(s, j, '}')
    ensures ParseFields(s, i) == Got([f], j + 1)
  {
    hide ParseField, Skip;
  }

  lemma FieldsNext(s: string, i: nat, f: Field, next: nat, j: nat, fs: seq<Field>)
    requires i <= |s| && ParseField(s, i) == Got(f, next) && next <= |s| && Skip(s, next) == j && CharAt(s, j, ',')
    requires ParseFields(s, j + 1).Got? && ParseFields(s, j + 1).value == fs
    ensures ParseFields(s, i) == Got([f] + fs, ParseFields(s, j + 1).next)
  {
    hide ParseField, Skip;
  }

  /** A text of a value is parsed as that value, wherever it stands, if nothing follows that could continue a number. */
  lemma {:induction false} Complete(t: string, v: JsonValue, s: string, i: nat)
    requires Denotes(t, v) && At(s, i, t) && Ends(s, i + |t|)
    ensures ParseValue(s, i) == Got(v, i + |t|)
    decreases v, 1
  {
    hide ParseValue, StrText, NumberText, Padded, FieldText, Commas, At, Ends;
    match v
    case Null => LitRead(s, i, "null");
    case Bool(b) => LitRead(s, i, if b then "true" else "false");
    case NonFinite =>
    case Num(x) => NumberComplete(s, i, t, x);
    case Str(x) => StrWhole(s, i, t, x);
    case Arr(items) => ArrComplete(t, items, v, s, i);
    case Obj(fields) => ObjComplete(t, fields, v, s, i);
  }

  lemma StrWhole(s: string, i: nat, t: string, x: string)
    requires StrText(t, x) && At(s, i, t)
    ensures ParseValue(s, i) == Got(Str(x), i + |t|)
  {
    hide ParseArr, ParseObj, ParseStr, ParseNum, ParseLit, StrText;
    StrComplete(s, i, t, x);
    SkipAt(s, i);
  }

  /** An empty array or object. */
  lemma EmptyComplete(s: string, i: nat, open: char, w: string, close: char)
    requires At(s, i, [open] + w + [close]) && Blank(w) && (open, close) in {('[', ']'), ('{', '}')}
    ensures ParseValue(s, i) == Got(if open == '[' then Arr([]) else Obj([]), i + |w| + 2)
  {
    hide ParseItems, ParseFields, ParseValue, Skip;
    AtSplit(s, i, [open] + w, [close]);
    AtSplit(s, i, [open], w);
    AtChar(s, i, [open], 0);
    AtChar(s, i + 1 + |w|, [close], 0);
    BracketValue(s, i);
    SkipBlank(s, i + 1, w);
    SkipAt(s, i + 1 + |w|);
  }

  lemma ArrParts(t: string, items: seq<JsonValue>) returns (parts: seq<string>)
    requires items != [] && Denotes(t, Arr(items))
    ensures |parts| == |items| && t == "[" + Commas(parts) + "]"
    ensures forall k {:trigger parts[k]} {:trigger items[k]} :: 0 <= k < |items| ==> Padded(parts[k], items[k])
  {
    hide Padded, Commas;
    parts :| |parts| == |items| && t == "[" + Commas(parts) + "]"
      && forall k {:trigger parts[k]} {:trigger items[k]} :: 0 <= k < |items| ==> Padded(parts[k], items[k]);
  }

  lemma ArrComplete(t: string, items: seq<JsonValue>, v: JsonValue, s: string, i: nat)
    requires v == Arr(items) && Denotes(t, v) && At(s, i, t)
    ensures ParseValue(s, i) == Got(v, i + |t|)
    decreases v, 0, |items| + 1
  {
    hide ParseValue, ParseItems, Padded, Commas, At, Skip;
    if items == [] {
      var w :| Blank(w) && t == "[" + w + "]";
      EmptyComplete(s, i, '[', w, ']');
    } else {
      var parts := ArrParts(t, items);
      var rest := Commas(parts) + "]";
      assert t == "[" + rest;
      AtSplit(s, i, "[", rest);
      AtChar(s, i, "[", 0);
      ItemsComplete(parts, items, v, s, i + 1);
      BracketValue(s, i);
      ArrGot(s, i, items, i + |t|);
    }
  }

  /** Items that parse do not start with a closing bracket, so whitespace before them does not hide one. */
  lemma ArrGot(s: string, i: nat, items: seq<JsonValue>, end: nat)
    requires CharAt(s, i, '[') && ParseItems(s, i + 1) == Got(items, end)
    ensures ParseArr(s, i) == Got(Arr(items), end)
  {
    hide ParseItems, Skip, Blank;
    SkipIsBlank(s, i + 1);
    var j := Skip(s, i + 1);
    assert At(s, i + 1, s[i + 1..j]);
    BlankBefore(s, i + 1, s[i + 1..j]);
    SkipTwice(s, i + 1);
    NoBracket(s, j);
  }

  lemma NoBracket(s: string, j: nat)
    requires j <= |s| && Skip(s, j) == j
    ensures CharAt(s, j, ']') ==> ParseItems(s, j).Failed?
    ensures CharAt(s, j, '}') ==> ParseFields(s, j).Failed?
  {
    hide Skip;
    if CharAt(s, j, ']') {
      assert ParseValue(s, j) == Failed("unexpected token", j);
    }
    if CharAt(s, j, '}') {
      assert ParseStr(s, j) == Failed("expected string", j);
      assert ParseField(s, j).Failed?;
    }
  }

  lemma ObjComplete(t: string, fields: seq<Field>, v: JsonValue, s: string, i: nat)
    requires v == Obj(fields) && Denotes(t, v) && At(s, i, t)
    ensures ParseValue(s, i) == Got(v, i + |t|)
    decreases v, 0, |fields| + 1
  {
    hide ParseValue, ParseFields, FieldText, Commas, At, Skip;
    if fields == [] {
      var w :| Blank(w) && t == "{" + w + "}";
      EmptyComplete(s, i, '{', w, '}');
    } else {
      var parts :| |parts| == |fields| && t == "{" + Commas(parts) + "}"
        && forall k {:trigger parts[k]} {:trigger fields[k]} :: 0 <= k < |fields| ==>
             FieldText(parts[k], fields[k].key, fields[k].value);
      var rest := Commas(parts) + "}";
      assert t == "{" + rest;
      AtSplit(s, i, "{", rest);
      AtChar(s, i, "{", 0);
      FieldsComplete(parts, fields, v, s, i + 1);
      BracketValue(s, i);
      ObjGot(s, i, fields, i + |t|);
    }
  }

  lemma ObjGot(s: string, i: nat, fields: seq<Field>, end: nat)
    requires CharAt(s, i, '{') && ParseFields(s, i + 1) == Got(fields, end)
    ensures ParseObj(s, i) == Got(Obj(fields), end)
  {
    hide ParseFields, Skip, Blank;
    SkipIsBlank(s, i + 1);
    var j := Skip(s, i + 1);
    assert At(s, i + 1, s[i + 1..j]);
    BlankBefore(s, i + 1, s[i + 1..j]);
    SkipTwice(s, i + 1);
    NoBracket(s, j);
  }

  /**
   A text is accepted as v and consumed to its end exactly when it is a text of v with whitespace around it.
   */
  lemma ParseIff(s: string, v: JsonValue)
    ensures Parse(s) == Got(v, |s|) <==> Padded(s, v)
  {
    hide Padded, Parse;
    if Parse(s) == Got(v, |s|) { ParsedPadded(s, v); }
    if Padded(s, v) { PaddedParses(s, v); }
  }

  lemma ParsedPadded(s: string, v: JsonValue)
    requires Parse(s) == Got(v, |s|)
    ensures Padded(s, v)
  {
    hide Denotes, ParseValue, Skip, Padded;
    ValueSound(s, 0);
    PaddedSlice(s, 0, ParseValue(s, 0).next, |s|, v);
    assert s[0..|s|] == s;
  }

  lemma PaddedParses(s: string, v: JsonValue)
    requires Padded(s, v)
    ensures Parse(s) == Got(v, |s|)
  {
    hide Denotes, ParseValue, Skip, At, Ends;
    var a, u, b :| Three(s, a, u, b) && Denotes(u, v);
    AtWhole(s);
    AtSplit(s, 0, a + u, b);
    AtSplit(s, 0, a, u);
    EndsBlank(s, |a| + |u|, b);
    Complete(u, v, s, |a|);
    BlankBefore(s, 0, a);
    SkipBlank(s, |a| + |u|, b);
    SkipEnd(s);
  }

  lemma EndsBlank(s: string, i: nat, b: string)
    requires At(s, i, b) && Blank(b) && i + |b| == |s|
    ensures Ends(s, i)
  {
    if b != "" { AtChar(s, i, b, 0); }
  }

  lemma SkipEnd(s: string)
    ensures Skip(s, |s|) == |s|
  {
  }
}
