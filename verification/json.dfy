/**
 The JSON printer and parser: values, what is printed, and what is parsed, as functions on strings.

 A char below 256 is a byte; nothing here depends on that bound. Numbers are exact reals. Printing of
 numbers that are not integers below 1e15 is an arbitrary function fmt, as the stream library decides it.
 */
module Json {

  datatype JsonValue =
    | Null
    | Bool(b: bool)
    | Num(n: real)
    | NonFinite
    | Str(s: string)
    | Arr(items: seq<JsonValue>)
    | Obj(fields: seq<Field>)

  /** Objects keep insertion order and may repeat a key. */
  datatype Field = Field(key: string, value: JsonValue)

  /** What a parse returns and the position after it, or what is thrown and the position it names. */
  datatype Outcome<+T> = Got(value: T, next: nat) | Failed(msg: string, at: nat) {
    /** Where the cursor is left. */
    function End(): nat { if Got? then next else at }
  }

  /* ---------- Fields ---------- */

  /** The index of the first field with this key, or the number of fields. */
  function FindFrom(fields: seq<Field>, key: string, i: nat): (r: nat)
    requires i <= |fields|
    ensures i <= r <= |fields|
    ensures r < |fields| ==> fields[r].key == key
    ensures forall j :: i <= j < r ==> fields[j].key != key
    decreases |fields| - i
  {
    if i == |fields| || fields[i].key == key then i else FindFrom(fields, key, i + 1)
  }

  function Fields(v: JsonValue): seq<Field> { if v.Obj? then v.fields else [] }

  /** get: the first value under the key. */
  function Get(v: JsonValue, key: string): Outcome<JsonValue> {
    var i := FindFrom(Fields(v), key, 0);
    if i < |Fields(v)| then Got(Fields(v)[i].value, i) else Failed("", 0)
  }

  /** set: replaces the first field with the key, or appends one. */
  function Set(v: JsonValue, key: string, x: JsonValue): JsonValue {
    var fs := Fields(v);
    var i := FindFrom(fs, key, 0);
    if i < |fs| then Obj(fs[i := Field(key, x)]) else Obj(fs + [Field(key, x)])
  }

  /** The key then maps to x, other keys map where they did, and existing keys keep their places. */
  lemma SetGet(v: JsonValue, key: string, x: JsonValue)
    ensures Get(Set(v, key, x), key).Got? && Get(Set(v, key, x), key).value == x
    ensures forall k :: k != key ==> Get(Set(v, key, x), k) == Get(v, k)
    ensures forall i :: 0 <= i < |Fields(v)| ==> Fields(Set(v, key, x))[i].key == Fields(v)[i].key
  {
    var fs, gs := Fields(v), Fields(Set(v, key, x));
    FindIs(gs, key, 0, FindFrom(fs, key, 0));
    forall k | k != key ensures Get(Set(v, key, x), k) == Get(v, k) {
      if FindFrom(fs, k, 0) < |fs| {
        FindIs(gs, k, 0, FindFrom(fs, k, 0));
      } else {
        FindIs(gs, k, 0, |gs|);
      }
    }
  }

  lemma {:induction false} FindIs(fs: seq<Field>, key: string, i: nat, r: nat)
    requires i <= r <= |fs| && (r < |fs| ==> fs[r].key == key)
    requires forall j :: i <= j < r ==> fs[j].key != key
    ensures FindFrom(fs, key, i) == r
    decreases r - i
  {
    if i < r { FindIs(fs, key, i + 1, r); }
  }

  /* ---------- Printing ---------- */

  const HEX := "0123456789abcdef"

  /** json_escape for one byte. */
  function Esc(c: char): (r: string)
    ensures |r| > 0
  {
    if c == '"' then "\\\""
    else if c == '\\' then "\\\\"
    else if c == '\n' then "\\n"
    else if c == '\r' then "\\r"
    else if c == '\t' then "\\t"
    else if c < ' ' then "\\u00" + [HEX[c as int / 16], HEX[c as int % 16]]
    else [c]
  }

  function Escaped(s: string): string { if s == "" then "" else Esc(s[0]) + Escaped(s[1..]) }

  function Quoted(s: string): string { "\"" + Escaped(s) + "\"" }

  function Digit(d: nat): char
    requires d < 10
  {
    '0' + d as char
  }

  /** The decimal digits of a natural number. */
  function NatText(n: nat): (r: string)
    ensures |r| > 0
  {
    if n < 10 then [Digit(n)] else NatText(n / 10) + [Digit(n % 10)]
  }

  function IntText(n: int): string { if n < 0 then "-" + NatText(-n) else NatText(n) }

  type Fmt = real -> string

  /** Printed as an integer: no fraction and below 1e15 in magnitude. */
  predicate IsPlain(x: real) { x.Floor as real == x && -1e15 < x < 1e15 }

  function NumText(fmt: Fmt, x: real): string { if IsPlain(x) then IntText(x.Floor) else fmt(x) }

  /** Where whitespace goes at indent d: after an opening bracket, after a comma, before a closing bracket. */
  datatype Style = Style(open: nat -> string, sep: nat -> string, close: nat -> string)

  function Spaces(n: nat): (r: string)
    ensures |r| == n && forall i :: 0 <= i < n ==> r[i] == ' '
  {
    seq(n, i => ' ')
  }

  const COMPACT := Style((d: nat) => "", (d: nat) => " ", (d: nat) => "")
  const PRETTY := Style((d: nat) => "\n" + Spaces(d + 2), (d: nat) => "\n" + Spaces(d + 2), (d: nat) => "\n" + Spaces(d))

  /** The text of a value in a style, at indent d. */
  function Print(fmt: Fmt, st: Style, v: JsonValue, d: nat): string
    decreases v, 1, 0
  {
    match v
    case Null => "null"
    case Bool(b) => if b then "true" else "false"
    case NonFinite => "null"
    case Num(x) => NumText(fmt, x)
    case Str(s) => Quoted(s)
    case Arr(items) => if items == [] then "[]" else "[" + st.open(d) + PrintItems(fmt, st, v, d, 0) + st.close(d) + "]"
    case Obj(fields) => if fields == [] then "{}" else "{" + st.open(d) + PrintFields(fmt, st, v, d, 0) + st.close(d) + "}"
  }

  /** Items k and on, each after the first preceded by a comma. */
  function PrintItems(fmt: Fmt, st: Style, v: JsonValue, d: nat, k: nat): string
    requires v.Arr? && k <= |v.items|
    decreases v, 0, |v.items| - k
  {
    if k == |v.items| then ""
    else (if k > 0 then "," + st.sep(d) else "") + Print(fmt, st, v.items[k], d + 2) + PrintItems(fmt, st, v, d, k + 1)
  }

  function PrintField(fmt: Fmt, st: Style, v: JsonValue, d: nat, k: nat): string
    requires v.Obj? && k < |v.fields|
    decreases v, 0, 0
  {
    Quoted(v.fields[k].key) + ": " + Print(fmt, st, v.fields[k].value, d + 2)
  }

  function PrintFields(fmt: Fmt, st: Style, v: JsonValue, d: nat, k: nat): string
    requires v.Obj? && k <= |v.fields|
    decreases v, 0, |v.fields| - k + 1
  {
    if k == |v.fields| then ""
    else (if k > 0 then "," + st.sep(d) else "") + PrintField(fmt, st, v, d, k) + PrintFields(fmt, st, v, d, k + 1)
  }

  /* ---------- Parsing ---------- */

  /** std::isspace in the C locale. */
  predicate IsSpace(c: char) { c == ' ' || '\t' <= c <= '\r' }

  predicate IsDigit(c: char) { '0' <= c <= '9' }

  /** The first position from i on that is not whitespace. */
  function Skip(s: string, i: nat): (r: nat)
    requires i <= |s|
    ensures i <= r <= |s|
    ensures r < |s| ==> !IsSpace(s[r])
    decreases |s| - i
  {
    if i < |s| && IsSpace(s[i]) then Skip(s, i + 1) else i
  }

  /** The first position from i on that is not a digit. */
  function DigitsEnd(s: string, i: nat): (r: nat)
    requires i <= |s|
    ensures i <= r <= |s|
    ensures forall j :: i <= j < r ==> IsDigit(s[j])
    ensures r < |s| ==> !IsDigit(s[r])
    decreases |s| - i
  {
    if i < |s| && IsDigit(s[i]) then DigitsEnd(s, i + 1) else i
  }

  /** t stands at position i of s. */
  predicate At(s: string, i: nat, t: string) { i + |t| <= |s| && s[i..i + |t|] == t }

  predicate CharAt(s: string, i: nat, c: char) { i < |s| && s[i] == c }

  /** A token scanned by parse_num: optional sign, digits, optional fraction, optional exponent. */
  datatype NumShape = NumShape(intFrom: nat, intEnd: nat, fracFrom: nat, fracEnd: nat, expFrom: nat, expEnd: nat, expNeg: bool)

  /** Where the fraction that may start at i ends. */
  function FracEnd(s: string, i: nat): (r: nat)
    requires i <= |s|
    ensures i <= r <= |s|
  {
    if CharAt(s, i, '.') then DigitsEnd(s, i + 1) else i
  }

  predicate IsExp(s: string, i: nat) { CharAt(s, i, 'e') || CharAt(s, i, 'E') }

  /** Where the digits of the exponent that starts at i start. */
  function ExpFrom(s: string, i: nat): (r: nat)
    requires i < |s|
    ensures i < r <= |s|
  {
    if CharAt(s, i + 1, '+') || CharAt(s, i + 1, '-') then i + 2 else i + 1
  }

  /** Where the exponent that may start at i ends. */
  function ExpEnd(s: string, i: nat): (r: nat)
    requires i <= |s|
    ensures i <= r <= |s|
  {
    if IsExp(s, i) then DigitsEnd(s, ExpFrom(s, i)) else i
  }

  /** Where the parts of the number at i are; empty parts have equal bounds. */
  function ScanNum(s: string, i: nat): (r: NumShape)
    requires i < |s|
    ensures i <= r.intFrom <= r.intEnd <= r.fracFrom <= r.fracEnd <= r.expFrom <= r.expEnd <= |s|
    ensures IsDigit(s[i]) || s[i] == '-' ==> i < r.expEnd
    ensures forall j :: r.intFrom <= j < r.intEnd ==> IsDigit(s[j])
    ensures forall j :: r.fracFrom <= j < r.fracEnd ==> IsDigit(s[j])
    ensures forall j :: r.expFrom <= j < r.expEnd ==> IsDigit(s[j])
  {
    var intFrom := if s[i] == '-' then i + 1 else i;
    var intEnd := DigitsEnd(s, intFrom);
    var fracEnd := FracEnd(s, intEnd);
    NumShape(intFrom, intEnd, if CharAt(s, intEnd, '.') then intEnd + 1 else intEnd, fracEnd,
             if IsExp(s, fracEnd) then ExpFrom(s, fracEnd) else fracEnd, ExpEnd(s, fracEnd),
             IsExp(s, fracEnd) && CharAt(s, fracEnd + 1, '-'))
  }

  function DigitsValue(s: string): nat
    requires forall i :: 0 <= i < |s| ==> IsDigit(s[i])
  {
    if s == "" then 0
    else
      assert IsDigit(s[|s| - 1]);
      DigitsValue(s[..|s| - 1]) * 10 + (s[|s| - 1] as int - '0' as int)
  }

  function Pow10(n: nat): (r: real)
    ensures r > 0.0
  {
    if n == 0 then 1.0 else 10.0 * Pow10(n - 1)
  }

  /** strtod on a token parse_num scanned, without rounding or overflow: no digits before the exponent read as zero. */
  function StrToD(t: string): real
    requires |t| > 0
  {
    var p := ScanNum(t, 0);
    var whole, frac := DigitsValue(t[p.intFrom..p.intEnd]), t[p.fracFrom..p.fracEnd];
    var e := Pow10(DigitsValue(t[p.expFrom..p.expEnd]));
    var m := whole as real + DigitsValue(frac) as real / Pow10(|frac|);
    var x := if p.expNeg then m / e else m * e;
    if t[0] == '-' then -x else x
  }

  function ParseNum(s: string, i: nat): (r: Outcome<JsonValue>)
    requires i < |s| && (IsDigit(s[i]) || s[i] == '-')
    ensures r.Got? && i < r.next <= |s|
  {
    var end := ScanNum(s, i).expEnd;
    Got(Num(StrToD(s[i..end])), end)
  }

  function ParseLit(s: string, i: nat, lit: string, v: JsonValue): (r: Outcome<JsonValue>)
    requires |lit| > 0
    ensures r.Got? ==> i < r.next <= |s|
  {
    if At(s, i, lit) then Got(v, i + |lit|) else Failed("bad literal", i)
  }

  function HexDigit(c: char): (r: int)
    ensures -1 <= r < 16
  {
    if IsDigit(c) then c as int - '0' as int
    else if 'a' <= c <= 'f' then 10 + (c as int - 'a' as int)
    else if 'A' <= c <= 'F' then 10 + (c as int - 'A' as int)
    else -1
  }

  /** The code point of n hex digits at i, read after the digits with value cp. */
  function ParseHex(s: string, i: nat, n: nat, cp: nat): (r: Outcome<nat>)
    requires i + n <= |s|
    ensures r.Got? ==> r.next == i + n
    ensures r.Failed? ==> i <= r.at <= |s|
    decreases n
  {
    if n == 0 then Got(cp, i)
    else if HexDigit(s[i]) < 0 then Failed("bad hex", i + 1)
    else ParseHex(s, i + 1, n - 1, cp * 16 + HexDigit(s[i]))
  }

  lemma {:induction false} HexBound(s: string, i: nat, n: nat, cp: nat, bound: nat)
    requires i + n <= |s| && cp < bound
    ensures ParseHex(s, i, n, cp).Got? ==> ParseHex(s, i, n, cp).value < bound * Pow16(n)
    decreases n
  {
    if n > 0 && HexDigit(s[i]) >= 0 {
      HexBound(s, i + 1, n - 1, cp * 16 + HexDigit(s[i]), bound * 16);
      assert bound * 16 * Pow16(n - 1) == bound * Pow16(n);
    }
  }

  function Pow16(n: nat): nat { if n == 0 then 1 else 16 * Pow16(n - 1) }

  /** The UTF-8 bytes of a code point below 0x10000; surrogates are encoded like any other. */
  function Utf8(cp: nat): string
    requires cp < 0x10000
  {
    if cp <= 0x7F then [cp as char]
    else if cp <= 0x7FF then [(0xC0 + cp / 64) as char, (0x80 + cp % 64) as char]
    else [(0xE0 + cp / 4096) as char, (0x80 + cp / 64 % 64) as char, (0x80 + cp % 64) as char]
  }

  /** The escape whose backslash stands just before i. */
  function ParseEscape(s: string, i: nat): (r: Outcome<string>)
    ensures r.Got? ==> i < r.next <= |s|
  {
    if i >= |s| then Failed("bad escape", i)
    else
      match s[i]
      case '"' => Got("\"", i + 1)
      case '\\' => Got("\\", i + 1)
      case '/' => Got("/", i + 1)
      case 'b' => Got([8 as char], i + 1)
      case 'f' => Got([12 as char], i + 1)
      case 'n' => Got("\n", i + 1)
      case 'r' => Got("\r", i + 1)
      case 't' => Got("\t", i + 1)
      case 'u' =>
        if i + 1 + 4 > |s| then Failed("bad unicode", i + 1)
        else
          (match ParseHex(s, i + 1, 4, 0)
           case Failed(msg, at) => Failed(msg, at)
           case Got(cp, next) =>
             HexBound(s, i + 1, 4, 0, 1); assert Pow16(4) == 0x10000;
             Got(Utf8(cp), next))
      case _ => Failed("bad escape", i + 1)
  }

  function Prepend(t: string, o: Outcome<string>): Outcome<string> {
    if o.Got? then Got(t + o.value, o.next) else o
  }

  /** The rest of a string literal, from i to its closing quote. */
  function ParseChars(s: string, i: nat): (r: Outcome<string>)
    requires i <= |s|
    ensures r.Got? ==> i < r.next <= |s|
    decreases |s| - i
  {
    if i == |s| then Failed("unterminated string", i)
    else if s[i] == '"' then Got("", i + 1)
    else if s[i] == '\\' then
      match ParseEscape(s, i + 1)
      case Failed(msg, at) => Failed(msg, at)
      case Got(t, next) => Prepend(t, ParseChars(s, next))
    else Prepend([s[i]], ParseChars(s, i + 1))
  }

  function ParseStr(s: string, i: nat): (r: Outcome<string>)
    requires i <= |s|
    ensures r.Got? ==> i < r.next <= |s|
  {
    var j := Skip(s, i);
    if CharAt(s, j, '"') then ParseChars(s, j + 1) else Failed("expected string", j)
  }

  function ParseValue(s: string, i: nat): (r: Outcome<JsonValue>)
    requires i <= |s|
    ensures r.Got? ==> i < r.next <= |s|
    decreases |s| - i, 2
  {
    var j := Skip(s, i);
    if j == |s| then Failed("unexpected end", j)
    else
      var c := s[j];
      if c == 'n' then ParseLit(s, j, "null", Null)
      else if c == 't' then ParseLit(s, j, "true", Bool(true))
      else if c == 'f' then ParseLit(s, j, "false", Bool(false))
      else if c == '"' then
        match ParseStr(s, j)
        case Failed(msg, at) => Failed(msg, at)
        case Got(t, next) => Got(Str(t), next)
      else if c == '[' then ParseArr(s, j)
      else if c == '{' then ParseObj(s, j)
      else if c == '-' || IsDigit(c) then ParseNum(s, j)
      else Failed("unexpected token", j)
  }

  function ParseArr(s: string, i: nat): (r: Outcome<JsonValue>)
    requires CharAt(s, i, '[')
    ensures r.Got? ==> i < r.next <= |s|
    decreases |s| - i, 1
  {
    var j := Skip(s, i + 1);
    if CharAt(s, j, ']') then Got(Arr([]), j + 1)
    else
      match ParseItems(s, j)
      case Failed(msg, at) => Failed(msg, at)
      case Got(vs, next) => Got(Arr(vs), next)
  }

  function ConsItem(v: JsonValue, o: Outcome<seq<JsonValue>>): Outcome<seq<JsonValue>> {
    if o.Got? then Got([v] + o.value, o.next) else o
  }

  /** The items from i to the closing bracket. */
  function ParseItems(s: string, i: nat): (r: Outcome<seq<JsonValue>>)
    requires i <= |s|
    ensures r.Got? ==> i < r.next <= |s|
    decreases |s| - i, 3
  {
    match ParseValue(s, i)
    case Failed(msg, at) => Failed(msg, at)
    case Got(v, next) =>
      var j := Skip(s, next);
      if CharAt(s, j, ']') then Got([v], j + 1)
      else if CharAt(s, j, ',') then ConsItem(v, ParseItems(s, j + 1))
      else Failed("expected , or ]", j)
  }

  function ParseObj(s: string, i: nat): (r: Outcome<JsonValue>)
    requires CharAt(s, i, '{')
    ensures r.Got? ==> i < r.next <= |s|
    decreases |s| - i, 1
  {
    var j := Skip(s, i + 1);
    if CharAt(s, j, '}') then Got(Obj([]), j + 1)
    else
      match ParseFields(s, j)
      case Failed(msg, at) => Failed(msg, at)
      case Got(fs, next) => Got(Obj(fs), next)
  }

  function ConsField(f: Field, o: Outcome<seq<Field>>): Outcome<seq<Field>> {
    if o.Got? then Got([f] + o.value, o.next) else o
  }

  /** One key, a colon and a value. */
  function ParseField(s: string, i: nat): (r: Outcome<Field>)
    requires i <= |s|
    ensures r.Got? ==> i < r.next <= |s|
    decreases |s| - i, 3
  {
    match ParseStr(s, i)
    case Failed(msg, at) => Failed(msg, at)
    case Got(key, next) =>
      var j := Skip(s, next);
      if !CharAt(s, j, ':') then Failed("expected :", j)
      else
        match ParseValue(s, j + 1)
        case Failed(msg, at) => Failed(msg, at)
        case Got(v, end) => Got(Field(key, v), end)
  }

  function ParseFields(s: string, i: nat): (r: Outcome<seq<Field>>)
    requires i <= |s|
    ensures r.Got? ==> i < r.next <= |s|
    decreases |s| - i, 4
  {
    match ParseField(s, i)
    case Failed(msg, at) => Failed(msg, at)
    case Got(f, next) =>
      var j := Skip(s, next);
      if CharAt(s, j, '}') then Got([f], j + 1)
      else if CharAt(s, j, ',') then ConsField(f, ParseFields(s, j + 1))
      else Failed("expected , or }", j)
  }

  /** parse: one value; whatever follows it is not looked at. */
  function Parse(s: string): Outcome<JsonValue> {
    match ParseValue(s, 0)
    case Failed(msg, at) => Failed(msg, at)
    case Got(v, next) => Got(v, Skip(s, next))
  }
}
