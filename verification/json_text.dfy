/** The printer's and the parser's loops and cursor, proved to compute what Json says. */
module JsonText {
  import opened Json

  /** json_escape */
  method JsonEscape(text: string) returns (out: string)
    ensures out == Escaped(text)
  {
    out := "";
    for i := 0 to |text|
      invariant out + Escaped(text[i..]) == Escaped(text)
    {
      assert text[i..][0] == text[i] && text[i..][1..] == text[i + 1..];
      assert out + (Esc(text[i]) + Escaped(text[i + 1..])) == out + Esc(text[i]) + Escaped(text[i + 1..]);
      out := out + Esc(text[i]);
    }
  }

  method QuotedText(text: string) returns (out: string)
    ensures out == Quoted(text)
  {
    var inner := JsonEscape(text);
    out := "\"" + inner + "\"";
  }

  /** json_dumps */
  method JsonDumps(fmt: Fmt, v: JsonValue, ghost d: nat) returns (out: string)
    ensures out == Print(fmt, COMPACT, v, d)
    decreases v, 1
  {
    match v
    case Null => return "null";
    case Bool(b) => return if b then "true" else "false";
    case NonFinite => return "null";
    case Num(x) => return NumText(fmt, x);
    case Str(text) => out := QuotedText(text);
    case Arr(items) => out := DumpArray(fmt, v, d);
    case Obj(fields) => out := DumpObject(fmt, v, d);
  }

  lemma CompactStep(fmt: Fmt, v: JsonValue, d: nat, k: nat, comma: string, out: string)
    requires v.Arr? && k < |v.items| && comma == if k > 0 then ", " else ""
    ensures out + PrintItems(fmt, COMPACT, v, d, k) ==
            out + comma + Print(fmt, COMPACT, v.items[k], d + 2) + PrintItems(fmt, COMPACT, v, d, k + 1)
  {
    hide Print;
    var item, rest := Print(fmt, COMPACT, v.items[k], d + 2), PrintItems(fmt, COMPACT, v, d, k + 1);
    assert (if k > 0 then "," + COMPACT.sep(d) else "") == comma;
    assert PrintItems(fmt, COMPACT, v, d, k) == comma + item + rest;
    assert out + (comma + item + rest) == out + comma + item + rest;
  }

  lemma CompactFieldStep(fmt: Fmt, v: JsonValue, d: nat, k: nat, comma: string, out: string)
    requires v.Obj? && k < |v.fields| && comma == if k > 0 then ", " else ""
    ensures out + PrintFields(fmt, COMPACT, v, d, k) ==
            out + comma + PrintField(fmt, COMPACT, v, d, k) + PrintFields(fmt, COMPACT, v, d, k + 1)
  {
    hide PrintField;
    var field, rest := PrintField(fmt, COMPACT, v, d, k), PrintFields(fmt, COMPACT, v, d, k + 1);
    assert (if k > 0 then "," + COMPACT.sep(d) else "") == comma;
    assert PrintFields(fmt, COMPACT, v, d, k) == comma + field + rest;
    assert out + (comma + field + rest) == out + comma + field + rest;
  }

  method DumpArray(fmt: Fmt, v: JsonValue, ghost d: nat) returns (out: string)
    requires v.Arr?
    ensures out == Print(fmt, COMPACT, v, d)
    decreases v, 0
  {
    hide PrintItems, Quoted;
    var items := v.items;
    out := "[";
    for i := 0 to |items|
      invariant out + PrintItems(fmt, COMPACT, v, d, i) == "[" + PrintItems(fmt, COMPACT, v, d, 0)
    {
      var item := JsonDumps(fmt, items[i], d + 2);
      var comma := if i > 0 then ", " else "";
      CompactStep(fmt, v, d, i, comma, out);
      out := out + comma + item;
    }
    NothingLeft(fmt, v, d);
    assert out == out + PrintItems(fmt, COMPACT, v, d, |items|);
    DumpsEnd("[", PrintItems(fmt, COMPACT, v, d, 0), "]");
    out := out + "]";
  }

  method DumpObject(fmt: Fmt, v: JsonValue, ghost d: nat) returns (out: string)
    requires v.Obj?
    ensures out == Print(fmt, COMPACT, v, d)
    decreases v, 0
  {
    hide PrintFields, Quoted;
    var fields := v.fields;
    out := "{";
    for i := 0 to |fields|
      invariant out + PrintFields(fmt, COMPACT, v, d, i) == "{" + PrintFields(fmt, COMPACT, v, d, 0)
    {
      var key := QuotedText(fields[i].key);
      var value := JsonDumps(fmt, fields[i].value, d + 2);
      var comma := if i > 0 then ", " else "";
      CompactFieldStep(fmt, v, d, i, comma, out);
      out := out + comma + (key + ": " + value);
    }
    NothingLeft(fmt, v, d);
    assert out == out + PrintFields(fmt, COMPACT, v, d, |fields|);
    DumpsEnd("{", PrintFields(fmt, COMPACT, v, d, 0), "}");
    out := out + "}";
  }

  lemma NothingLeft(fmt: Fmt, v: JsonValue, d: nat)
    ensures v.Arr? ==> PrintItems(fmt, COMPACT, v, d, |v.items|) == ""
    ensures v.Obj? ==> PrintFields(fmt, COMPACT, v, d, |v.fields|) == ""
  {
  }

  /** The compact style adds nothing after an opening or before a closing bracket. */
  lemma DumpsEnd(open: string, inner: string, close: string)
    ensures open + inner + close == open + "" + inner + "" + close
  {
    assert open + "" == open;
    assert open + inner + "" == open + inner;
  }

  /** json_dumps_pretty */
  method JsonDumpsPretty(fmt: Fmt, v: JsonValue, indent: nat) returns (out: string)
    ensures out == Print(fmt, PRETTY, v, indent)
    decreases v, 1
  {
    match v
    case Arr(items) =>
      if |items| == 0 {
        return "[]";
      }
      out := PrettyArray(fmt, v, indent);
    case Obj(fields) =>
      if |fields| == 0 {
        return "{}";
      }
      out := PrettyObject(fmt, v, indent);
    case _ => out := JsonDumps(fmt, v, indent);
  }

  method PrettyArray(fmt: Fmt, v: JsonValue, indent: nat) returns (out: string)
    requires v.Arr? && |v.items| > 0
    ensures out == Print(fmt, PRETTY, v, indent)
    decreases v, 0
  {
    hide PrintItems, Spaces;
    var items, pad, pad2 := v.items, Spaces(indent), Spaces(indent + 2);
    out := "[\n";
    ghost var inner := PrintItems(fmt, PRETTY, v, indent, 0);
    UpcomingAll(fmt, v, indent);
    for i := 0 to |items|
      invariant out + Upcoming(fmt, v, indent, i) == "[\n" + (pad2 + inner + "\n" + pad)
    {
      var item := JsonDumpsPretty(fmt, items[i], indent + 2);
      var comma := if i + 1 < |items| then "," else "";
      UpcomingStep(fmt, v, indent, i, item, comma, out);
      out := out + (pad2 + item) + comma + "\n";
    }
    WholeIs("[", pad2, inner, pad, "]");
    out := out + (pad + "]");
  }

  method PrettyObject(fmt: Fmt, v: JsonValue, indent: nat) returns (out: string)
    requires v.Obj? && |v.fields| > 0
    ensures out == Print(fmt, PRETTY, v, indent)
    decreases v, 0
  {
    hide PrintFields, Spaces;
    var fields, pad, pad2 := v.fields, Spaces(indent), Spaces(indent + 2);
    out := "{\n";
    ghost var inner := PrintFields(fmt, PRETTY, v, indent, 0);
    UpcomingAllFields(fmt, v, indent);
    for i := 0 to |fields|
      invariant out + UpcomingFields(fmt, v, indent, i) == "{\n" + (pad2 + inner + "\n" + pad)
    {
      var key := QuotedText(fields[i].key);
      var value := JsonDumpsPretty(fmt, fields[i].value, indent + 2);
      var comma := if i + 1 < |fields| then "," else "";
      UpcomingFieldsStep(fmt, v, indent, i, comma, out);
      out := out + (pad2 + (key + ": " + value)) + comma + "\n";
    }
    WholeIs("{", pad2, inner, pad, "}");
    out := out + (pad + "}");
  }

  /** What a pretty array still needs, up to the closing indent, once the lines of items 0..k are out. */
  ghost function Upcoming(fmt: Fmt, v: JsonValue, d: nat, k: nat): string
    requires v.Arr? && k <= |v.items|
  {
    if k == |v.items| then Spaces(d)
    else Spaces(d + 2) + Print(fmt, PRETTY, v.items[k], d + 2) + PrintItems(fmt, PRETTY, v, d, k + 1) + "\n" + Spaces(d)
  }

  lemma UpcomingStep(fmt: Fmt, v: JsonValue, d: nat, k: nat, item: string, comma: string, out: string)
    requires v.Arr? && k < |v.items| && item == Print(fmt, PRETTY, v.items[k], d + 2)
    requires comma == if k + 1 < |v.items| then "," else ""
    ensures out + Upcoming(fmt, v, d, k) == out + (Spaces(d + 2) + item) + comma + "\n" + Upcoming(fmt, v, d, k + 1)
  {
    hide Print, Spaces;
    var a, n := Spaces(d + 2), |v.items|;
    if k + 1 == n {
      assert PrintItems(fmt, PRETTY, v, d, n) == "";
      assert a + item + "" + "\n" + Spaces(d) == (a + item) + "" + "\n" + Spaces(d);
    } else {
      var next, rest := Print(fmt, PRETTY, v.items[k + 1], d + 2), PrintItems(fmt, PRETTY, v, d, k + 2);
      assert PrintItems(fmt, PRETTY, v, d, k + 1) == "," + ("\n" + a) + next + rest;
      Regroup(out, a + item, a, next, rest, "\n" + Spaces(d));
      assert Upcoming(fmt, v, d, k) == a + item + ("," + ("\n" + a) + next + rest) + ("\n" + Spaces(d));
      assert Upcoming(fmt, v, d, k + 1) == a + next + rest + ("\n" + Spaces(d));
    }
  }

  lemma Regroup(out: string, line: string, a: string, next: string, rest: string, tail: string)
    ensures out + (line + ("," + ("\n" + a) + next + rest) + tail) == out + line + "," + "\n" + (a + next + rest + tail)
  {
  }

  ghost function UpcomingFields(fmt: Fmt, v: JsonValue, d: nat, k: nat): string
    requires v.Obj? && k <= |v.fields|
  {
    if k == |v.fields| then Spaces(d)
    else Spaces(d + 2) + PrintField(fmt, PRETTY, v, d, k) + PrintFields(fmt, PRETTY, v, d, k + 1) + "\n" + Spaces(d)
  }

  lemma UpcomingFieldsStep(fmt: Fmt, v: JsonValue, d: nat, k: nat, comma: string, out: string)
    requires v.Obj? && k < |v.fields|
    requires comma == if k + 1 < |v.fields| then "," else ""
    ensures out + UpcomingFields(fmt, v, d, k) ==
            out + (Spaces(d + 2) + PrintField(fmt, PRETTY, v, d, k)) + comma + "\n" + UpcomingFields(fmt, v, d, k + 1)
  {
    hide Print, PrintField, Spaces;
    var a, n, item := Spaces(d + 2), |v.fields|, PrintField(fmt, PRETTY, v, d, k);
    if k + 1 == n {
      assert PrintFields(fmt, PRETTY, v, d, n) == "";
      assert a + item + "" + "\n" + Spaces(d) == (a + item) + "" + "\n" + Spaces(d);
    } else {
      var next, rest := PrintField(fmt, PRETTY, v, d, k + 1), PrintFields(fmt, PRETTY, v, d, k + 2);
      assert PrintFields(fmt, PRETTY, v, d, k + 1) == "," + ("\n" + a) + next + rest;
      Regroup(out, a + item, a, next, rest, "\n" + Spaces(d));
      assert UpcomingFields(fmt, v, d, k) == a + item + ("," + ("\n" + a) + next + rest) + ("\n" + Spaces(d));
      assert UpcomingFields(fmt, v, d, k + 1) == a + next + rest + ("\n" + Spaces(d));
    }
  }

  lemma UpcomingAll(fmt: Fmt, v: JsonValue, d: nat)
    requires v.Arr? && |v.items| > 0
    ensures Upcoming(fmt, v, d, 0) == Spaces(d + 2) + PrintItems(fmt, PRETTY, v, d, 0) + "\n" + Spaces(d)
  {
    hide Print, Spaces;
    var item := Print(fmt, PRETTY, v.items[0], d + 2);
    assert PrintItems(fmt, PRETTY, v, d, 0) == item + PrintItems(fmt, PRETTY, v, d, 1);
  }

  lemma UpcomingAllFields(fmt: Fmt, v: JsonValue, d: nat)
    requires v.Obj? && |v.fields| > 0
    ensures UpcomingFields(fmt, v, d, 0) == Spaces(d + 2) + PrintFields(fmt, PRETTY, v, d, 0) + "\n" + Spaces(d)
  {
    hide Print, PrintField, Spaces, Quoted;
    var field := PrintField(fmt, PRETTY, v, d, 0);
    assert PrintFields(fmt, PRETTY, v, d, 0) == field + PrintFields(fmt, PRETTY, v, d, 1);
  }

  lemma WholeIs(open: string, pad2: string, inner: string, pad: string, close: string)
    ensures forall out :: out + pad == open + "\n" + (pad2 + inner + "\n" + pad) ==>
      out + (pad + close) == open + ("\n" + pad2) + inner + ("\n" + pad) + close
  {
    forall out | out + pad == open + "\n" + (pad2 + inner + "\n" + pad)
      ensures out + (pad + close) == open + ("\n" + pad2) + inner + ("\n" + pad) + close
    {
      assert out + (pad + close) == out + pad + close;
    }
  }

  /* ---------- What the two layouts look like ---------- */

  function Joined(parts: seq<string>, sep: string): string {
    if parts == [] then "" else if |parts| == 1 then parts[0] else parts[0] + sep + Joined(parts[1..], sep)
  }

  lemma {:induction false} ItemsJoined(fmt: Fmt, st: Style, v: JsonValue, d: nat, k: nat, parts: seq<string>)
    requires v.Arr? && k < |v.items| == |parts|
    requires forall i :: 0 <= i < |parts| ==> parts[i] == Print(fmt, st, v.items[i], d + 2)
    ensures PrintItems(fmt, st, v, d, k) == (if k > 0 then "," + st.sep(d) else "") + Joined(parts[k..], "," + st.sep(d))
    decreases |parts| - k
  {
    hide Print;
    var sep := "," + st.sep(d);
    if k + 1 == |parts| {
      assert parts[k..] == [parts[k]];
      assert PrintItems(fmt, st, v, d, k + 1) == "";
    } else {
      ItemsJoined(fmt, st, v, d, k + 1, parts);
      assert parts[k..][1..] == parts[k + 1..];
      assert (if k > 0 then sep else "") + parts[k] + (sep + Joined(parts[k + 1..], sep)) ==
             (if k > 0 then sep else "") + (parts[k] + sep + Joined(parts[k + 1..], sep));
    }
  }

  lemma {:induction false} FieldsJoined(fmt: Fmt, st: Style, v: JsonValue, d: nat, k: nat, parts: seq<string>)
    requires v.Obj? && k < |v.fields| == |parts|
    requires forall i :: 0 <= i < |parts| ==> parts[i] == PrintField(fmt, st, v, d, i)
    ensures PrintFields(fmt, st, v, d, k) == (if k > 0 then "," + st.sep(d) else "") + Joined(parts[k..], "," + st.sep(d))
    decreases |parts| - k
  {
    hide PrintField;
    var sep := "," + st.sep(d);
    if k + 1 == |parts| {
      assert parts[k..] == [parts[k]];
      assert PrintFields(fmt, st, v, d, k + 1) == "";
    } else {
      FieldsJoined(fmt, st, v, d, k + 1, parts);
      assert parts[k..][1..] == parts[k + 1..];
      assert (if k > 0 then sep else "") + parts[k] + (sep + Joined(parts[k + 1..], sep)) ==
             (if k > 0 then sep else "") + (parts[k] + sep + Joined(parts[k + 1..], sep));
    }
  }

  /** json_dumps: items and fields in order between brackets, with a comma and a space between them. */
  lemma CompactLayout(fmt: Fmt, v: JsonValue, d: nat, parts: seq<string>)
    requires v.Arr? ==>
      |parts| == |v.items| && forall i :: 0 <= i < |parts| ==> parts[i] == Print(fmt, COMPACT, v.items[i], d + 2)
    requires v.Obj? ==> |parts| == |v.fields| && forall i :: 0 <= i < |parts| ==>
      parts[i] == "\"" + Escaped(v.fields[i].key) + "\": " + Print(fmt, COMPACT, v.fields[i].value, d + 2)
    ensures v.Arr? ==> Print(fmt, COMPACT, v, d) == "[" + Joined(parts, ", ") + "]"
    ensures v.Obj? ==> Print(fmt, COMPACT, v, d) == "{" + Joined(parts, ", ") + "}"
    ensures v.Null? || v.NonFinite? ==> Print(fmt, COMPACT, v, d) == "null"
    ensures v.Bool? ==> Print(fmt, COMPACT, v, d) == if v.b then "true" else "false"
    ensures v.Str? ==> Print(fmt, COMPACT, v, d) == "\"" + Escaped(v.s) + "\""
  {
    hide PrintItems, PrintFields;
    assert parts[0..] == parts;
    assert "," + COMPACT.sep(d) == ", ";
    if v.Arr? && parts != [] {
      ItemsJoined(fmt, COMPACT, v, d, 0, parts);
      DumpsEnd("[", Joined(parts, ", "), "]");
    } else if v.Obj? && parts != [] {
      FieldParts(fmt, COMPACT, v, d, parts);
      FieldsJoined(fmt, COMPACT, v, d, 0, parts);
      DumpsEnd("{", Joined(parts, ", "), "}");
    }
  }

  lemma FieldParts(fmt: Fmt, st: Style, v: JsonValue, d: nat, parts: seq<string>)
    requires v.Obj? && |parts| == |v.fields| && forall i :: 0 <= i < |parts| ==>
      parts[i] == "\"" + Escaped(v.fields[i].key) + "\": " + Print(fmt, st, v.fields[i].value, d + 2)
    ensures forall i :: 0 <= i < |parts| ==> parts[i] == PrintField(fmt, st, v, d, i)
  {
    hide Print;
    forall i | 0 <= i < |parts| ensures parts[i] == PrintField(fmt, st, v, d, i) {
      assert "\"" + Escaped(v.fields[i].key) + "\": " == "\"" + Escaped(v.fields[i].key) + "\"" + ": ";
    }
  }

  /** json_dumps_pretty: each item and field on a line of its own, two spaces deeper than the brackets. */
  lemma PrettyLayout(fmt: Fmt, v: JsonValue, d: nat, parts: seq<string>, pad: string)
    requires |pad| == d && forall i :: 0 <= i < d ==> pad[i] == ' '
    requires v.Arr? ==> |parts| == |v.items| && forall i :: 0 <= i < |parts| ==> parts[i] == Print(fmt, PRETTY, v.items[i], d + 2)
    requires v.Obj? ==> |parts| == |v.fields| && forall i :: 0 <= i < |parts| ==>
      parts[i] == "\"" + Escaped(v.fields[i].key) + "\": " + Print(fmt, PRETTY, v.fields[i].value, d + 2)
    ensures v.Arr? ==>
      Print(fmt, PRETTY, v, d) == if parts == [] then "[]" else "[\n  " + pad + Joined(parts, ",\n  " + pad) + "\n" + pad + "]"
    ensures v.Obj? ==>
      Print(fmt, PRETTY, v, d) == if parts == [] then "{}" else "{\n  " + pad + Joined(parts, ",\n  " + pad) + "\n" + pad + "}"
    ensures !v.Arr? && !v.Obj? ==> Print(fmt, PRETTY, v, d) == Print(fmt, COMPACT, v, d)
  {
    hide PrintItems, PrintFields, Joined;
    assert parts[0..] == parts;
    assert Spaces(d) == pad && Spaces(d + 2) == "  " + pad;
    assert "," + PRETTY.sep(d) == ",\n  " + pad;
    if v.Arr? && parts != [] {
      ItemsJoined(fmt, PRETTY, v, d, 0, parts);
      Lines("[", pad, Joined(parts, ",\n  " + pad), "]");
    } else if v.Obj? && parts != [] {
      FieldParts(fmt, PRETTY, v, d, parts);
      FieldsJoined(fmt, PRETTY, v, d, 0, parts);
      Lines("{", pad, Joined(parts, ",\n  " + pad), "}");
    }
  }

  lemma Lines(open: string, pad: string, inner: string, close: string)
    ensures open + ("\n" + ("  " + pad)) + ("" + inner) + ("\n" + pad) + close ==
            open + "\n  " + pad + inner + "\n" + pad + close
  {
    assert open + ("\n" + ("  " + pad)) == open + "\n  " + pad;
    assert "" + inner == inner;
    assert open + "\n  " + pad + inner + ("\n" + pad) == open + "\n  " + pad + inner + "\n" + pad;
  }

  /** json_escape byte by byte: two-letter escapes for five bytes, four hex digits for other control bytes. */
  lemma EscapeOf(c: char)
    ensures c as int in {34, 92} ==> Esc(c) == ['\\', c]
    ensures c as int == 10 ==> Esc(c) == "\\n"
    ensures c as int == 13 ==> Esc(c) == "\\r"
    ensures c as int == 9 ==> Esc(c) == "\\t"
    ensures c as int < 32 && c as int !in {9, 10, 13} ==>
      |Esc(c)| == 6 && Esc(c)[..5] == "\\u00" + (if c as int >= 16 then "1" else "0")
      && Esc(c)[5] == "0123456789abcdef"[c as int % 16]
    ensures c as int >= 32 && c as int !in {34, 92} ==> Esc(c) == [c]
  {
  }

  /** JsonValue::set */
  method SetField(v: JsonValue, key: string, x: JsonValue) returns (r: JsonValue)
    ensures r == Set(v, key, x)
  {
    var fields := if v.Obj? then v.fields else [];
    var i := 0;
    while i < |fields|
      invariant 0 <= i <= |fields| && FindFrom(fields, key, 0) == FindFrom(fields, key, i)
    {
      if fields[i].key == key {
        return Obj(fields[i := Field(key, x)]);
      }
      i := i + 1;
    }
    return Obj(fields + [Field(key, x)]);
  }

  class JsonParser {
    const s: string
    var i: nat

    constructor (src: string)
      ensures s == src && i == 0
    {
      s := src;
      i := 0;
    }

    ghost predicate Valid()
      reads this
    {
      i <= |s|
    }

    method SkipSpace()
      requires Valid()
      modifies this
      ensures Valid() && i == Skip(s, old(i))
    {
      while i < |s| && IsSpace(s[i])
        invariant Valid() && Skip(s, old(i)) == Skip(s, i)
      {
        i := i + 1;
      }
    }

    method Eat(c: char) returns (ok: bool)
      requires Valid()
      modifies this
      ensures Valid() && ok == CharAt(s, Skip(s, old(i)), c)
      ensures i == if ok then Skip(s, old(i)) + 1 else Skip(s, old(i))
    {
      SkipSpace();
      if i < |s| && s[i] == c {
        i := i + 1;
        return true;
      }
      return false;
    }

    /** Skipping twice is skipping once. */
    lemma SkipAgain(j: nat)
      requires j <= |s|
      ensures Skip(s, Skip(s, j)) == Skip(s, j)
    {
    }

    method ParseTop() returns (r: Outcome<JsonValue>)
      requires i == 0
      modifies this
      ensures Valid() && r == Parse(s) && i == r.End()
    {
      SkipSpace();
      SkipAgain(0);
      r := Value();
      if r.Got? {
        SkipSpace();
        r := r.(next := i);
      }
    }

    method Value() returns (r: Outcome<JsonValue>)
      requires Valid()
      modifies this
      ensures Valid() && r == ParseValue(s, old(i)) && i == r.End()
      decreases |s| - i, 2
    {
      SkipSpace();
      SkipAgain(i);
      if i >= |s| {
        return Failed("unexpected end", i);
      }
      var c := s[i];
      if c == 'n' {
        r := Lit("null", Null);
      } else if c == 't' {
        r := Lit("true", Bool(true));
      } else if c == 'f' {
        r := Lit("false", Bool(false));
      } else if c == '"' {
        var t := StrLit();
        r := match t case Got(text, next) => Got(Str(text), next) case Failed(msg, at) => Failed(msg, at);
      } else if c == '[' {
        r := Array();
      } else if c == '{' {
        r := Object();
      } else if c == '-' || IsDigit(c) {
        r := Number();
      } else {
        r := Failed("unexpected token", i);
      }
    }

    method Lit(lit: string, v: JsonValue) returns (r: Outcome<JsonValue>)
      requires Valid() && |lit| > 0
      modifies this
      ensures Valid() && r == ParseLit(s, old(i), lit, v) && i == r.End()
    {
      if i + |lit| > |s| || s[i..i + |lit|] != lit {
        return Failed("bad literal", i);
      }
      i := i + |lit|;
      return Got(v, i);
    }

    method StrLit() returns (r: Outcome<string>)
      requires Valid()
      modifies this
      ensures Valid() && r == ParseStr(s, old(i)) && i == r.End()
    {
      var ok := Eat('"');
      if !ok {
        return Failed("expected string", i);
      }
      var out := "";
      ghost var from := i;
      PrependNothing(ParseChars(s, i));
      while i < |s|
        invariant Valid() && from <= |s|
        invariant ParseChars(s, from) == Prepend(out, ParseChars(s, i))
      {
        var c := s[i];
        ghost var rest := ParseChars(s, i);
        i := i + 1;
        if c == '"' {
          assert out + "" == out;
          return Got(out, i);
        }
        if c == '\\' {
          var e := Escape();
          if e.Failed? {
            return Failed(e.msg, e.at);
          }
          PrependTwice(out, e.value, ParseChars(s, i));
          out := out + e.value;
        } else {
          PrependTwice(out, [c], ParseChars(s, i));
          out := out + [c];
        }
      }
      return Failed("unterminated string", i);
    }

    lemma PrependNothing(o: Outcome<string>)
      ensures Prepend("", o) == o
    {
      if o.Got? { assert "" + o.value == o.value; }
    }

    lemma PrependTwice(a: string, b: string, o: Outcome<string>)
      ensures Prepend(a, Prepend(b, o)) == Prepend(a + b, o)
    {
      if o.Got? { assert a + (b + o.value) == a + b + o.value; }
    }

    method Escape() returns (r: Outcome<string>)
      requires Valid()
      modifies this
      ensures Valid() && r == ParseEscape(s, old(i)) && i == r.End()
      ensures i >= old(i)
    {
      if i >= |s| {
        return Failed("bad escape", i);
      }
      var e := s[i];
      i := i + 1;
      match e
      case '"' => r := Got([e], i);
      case '\\' => r := Got([e], i);
      case '/' => r := Got([e], i);
      case 'b' => r := Got([8 as char], i);
      case 'f' => r := Got([12 as char], i);
      case 'n' => r := Got("\n", i);
      case 'r' => r := Got("\r", i);
      case 't' => r := Got("\t", i);
      case 'u' =>
        if i + 4 > |s| {
          return Failed("bad unicode", i);
        }
        var cp: nat := 0;
        ghost var from := i;
        for k := 0 to 4
          invariant i == from + k && from + 4 <= |s|
          invariant ParseHex(s, from, 4, 0) == ParseHex(s, i, 4 - k, cp)
        {
          var h := s[i];
          i := i + 1;
          if HexDigit(h) < 0 {
            return Failed("bad hex", i);
          }
          cp := cp * 16 + HexDigit(h);
        }
        HexBound(s, from, 4, 0, 1);
        assert Pow16(4) == 0x10000;
        r := Got(Utf8(cp), i);
      case _ => r := Failed("bad escape", i);
    }

    method Digits()
      requires Valid()
      modifies this
      ensures Valid() && i == DigitsEnd(s, old(i))
    {
      while i < |s| && IsDigit(s[i])
        invariant Valid() && DigitsEnd(s, old(i)) == DigitsEnd(s, i)
      {
        i := i + 1;
      }
    }

    method Fraction()
      requires Valid()
      modifies this
      ensures Valid() && i == FracEnd(s, old(i))
    {
      if i < |s| && s[i] == '.' {
        i := i + 1;
        Digits();
      }
    }

    method Exponent()
      requires Valid()
      modifies this
      ensures Valid() && i == ExpEnd(s, old(i))
    {
      if i < |s| && (s[i] == 'e' || s[i] == 'E') {
        i := i + 1;
        if i < |s| && (s[i] == '+' || s[i] == '-') {
          i := i + 1;
        }
        Digits();
      }
    }

    method Number() returns (r: Outcome<JsonValue>)
      requires Valid() && i < |s| && (IsDigit(s[i]) || s[i] == '-')
      modifies this
      ensures Valid() && r == ParseNum(s, old(i)) && i == r.End()
    {
      hide DigitsEnd, FracEnd, ExpEnd, StrToD;
      var start := i;
      if s[i] == '-' {
        i := i + 1;
      }
      Digits();
      Fraction();
      Exponent();
      return Got(Num(StrToD(s[start..i])), i);
    }

    method Array() returns (r: Outcome<JsonValue>)
      requires Valid() && CharAt(s, i, '[')
      modifies this
      ensures Valid() && r == ParseArr(s, old(i)) && i == r.End()
      decreases |s| - i, 1
    {
      ghost var start := i;
      var ok := Eat('[');
      SkipSpace();
      SkipAgain(start + 1);
      ok := Eat(']');
      if ok {
        return Got(Arr([]), i);
      }
      r := Items();
    }

    /** The loop of parse_arr. */
    method Items() returns (r: Outcome<JsonValue>)
      requires Valid()
      modifies this
      ensures Valid() && i == r.End()
      ensures r == match ParseItems(s, old(i)) case Got(vs, next) => Got(Arr(vs), next) case Failed(msg, at) => Failed(msg, at)
      decreases |s| - i, 3
    {
      hide ParseValue;
      var items := [];
      ghost var from := i;
      AppendNothing(ParseItems(s, i));
      while true
        invariant Valid() && from <= i
        invariant ParseItems(s, from) == Append(items, ParseItems(s, i))
        decreases |s| - i
      {
        var v := Value();
        if v.Failed? {
          return v;
        }
        ghost var after := i;
        SkipSpace();
        SkipAgain(after);
        var ok := Eat(']');
        if ok {
          return Got(Arr(items + [v.value]), i);
        }
        ok := Eat(',');
        if !ok {
          return Failed("expected , or ]", i);
        }
        AppendOne(items, v.value, ParseItems(s, i));
        items := items + [v.value];
      }
    }

    ghost function Append<T>(xs: seq<T>, o: Outcome<seq<T>>): Outcome<seq<T>> {
      if o.Got? then Got(xs + o.value, o.next) else o
    }

    lemma AppendNothing<T>(o: Outcome<seq<T>>)
      ensures Append([], o) == o
    {
      if o.Got? { assert [] + o.value == o.value; }
    }

    lemma AppendOne(xs: seq<JsonValue>, x: JsonValue, o: Outcome<seq<JsonValue>>)
      ensures Append(xs, ConsItem(x, o)) == Append(xs + [x], o)
    {
      if o.Got? { assert xs + ([x] + o.value) == xs + [x] + o.value; }
    }

    lemma AppendOneField(xs: seq<Field>, x: Field, o: Outcome<seq<Field>>)
      ensures Append(xs, ConsField(x, o)) == Append(xs + [x], o)
    {
      if o.Got? { assert xs + ([x] + o.value) == xs + [x] + o.value; }
    }

    method Object() returns (r: Outcome<JsonValue>)
      requires Valid() && CharAt(s, i, '{')
      modifies this
      ensures Valid() && r == ParseObj(s, old(i)) && i == r.End()
      decreases |s| - i, 1
    {
      ghost var start := i;
      var ok := Eat('{');
      SkipSpace();
      SkipAgain(start + 1);
      ok := Eat('}');
      if ok {
        return Got(Obj([]), i);
      }
      r := FieldList();
    }

    /** The loop of parse_obj. */
    method FieldList() returns (r: Outcome<JsonValue>)
      requires Valid()
      modifies this
      ensures Valid() && i == r.End()
      ensures r == match ParseFields(s, old(i)) case Got(fs, next) => Got(Obj(fs), next) case Failed(msg, at) => Failed(msg, at)
      decreases |s| - i, 4
    {
      hide ParseValue, ParseField;
      var fields := [];
      ghost var from := i;
      AppendNothing(ParseFields(s, i));
      while true
        invariant Valid() && from <= i
        invariant ParseFields(s, from) == Append(fields, ParseFields(s, i))
        decreases |s| - i
      {
        var f := FieldAt();
        if f.Failed? {
          return Failed(f.msg, f.at);
        }
        ghost var after := i;
        SkipSpace();
        SkipAgain(after);
        var ok := Eat('}');
        if ok {
          return Got(Obj(fields + [f.value]), i);
        }
        ok := Eat(',');
        if !ok {
          return Failed("expected , or }", i);
        }
        AppendOneField(fields, f.value, ParseFields(s, i));
        fields := fields + [f.value];
      }
    }

    method FieldAt() returns (r: Outcome<Field>)
      requires Valid()
      modifies this
      ensures Valid() && r == ParseField(s, old(i)) && i == r.End()
      decreases |s| - i, 3
    {
      SkipSpace();
      SkipAgain(old(i));
      var key := StrLit();
      if key.Failed? {
        return Failed(key.msg, key.at);
      }
      var ok := Eat(':');
      if !ok {
        return Failed("expected :", i);
      }
      var v := Value();
      if v.Failed? {
        return Failed(v.msg, v.at);
      }
      return Got(Field(key.value, v.value), i);
    }
  }
}
