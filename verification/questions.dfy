/** The typed questions of the Laya server and their JSON form. */
module Questions {
  import opened Json
  import opened JsonText
  import opened JsonRoundTrip

  datatype QType = Choice | Score | Noul

  datatype Criterion = Criterion(name: string, desc: string)

  datatype Question = Question(id: string, qtype: QType, instructions: string, criteria: seq<Criterion>)

  function TypeName(t: QType): string {
    match t
    case Choice => "choice"
    case Score => "score"
    case Noul => "noul"
  }

  /** An unknown name reads as choice. */
  function TypeFromName(s: string): QType {
    if s == "score" then Score else if s == "noul" then Noul else Choice
  }

  /** x is the value of the first field with this key. */
  ghost predicate First(fs: seq<Field>, key: string, x: JsonValue) {
    exists k :: 0 <= k < |fs| && fs[k].key == key && fs[k].value == x && forall j :: 0 <= j < k ==> fs[j].key != key
  }

  lemma FirstIs(v: JsonValue, key: string, x: JsonValue)
    ensures First(Fields(v), key, x) <==> Get(v, key).Got? && Get(v, key).value == x
  {
    var fs := Fields(v);
    var i := FindFrom(fs, key, 0);
    if i < |fs| && fs[i].value == x { assert fs[i].key == key; }
    if k :| 0 <= k < |fs| && fs[k].key == key && fs[k].value == x && forall j :: 0 <= j < k ==> fs[j].key != key {
      assert i == k;
    }
  }

  /* ---------- Writing ---------- */

  /** The fields set one after another into an empty object. */
  function SetAll(fs: seq<Field>): JsonValue {
    if fs == [] then Obj([]) else Set(SetAll(fs[..|fs| - 1]), fs[|fs| - 1].key, fs[|fs| - 1].value)
  }

  /** A choice label without a description is written as null. */
  function LabelField(t: QType, c: Criterion): Field {
    Field(c.name, if t == Choice && c.desc == "" then Null else Str(c.desc))
  }

  function CriteriaJson(q: Question): JsonValue {
    if q.qtype == Score then Arr(seq(|q.criteria|, i requires 0 <= i < |q.criteria| => Str(q.criteria[i].desc)))
    else SetAll(LabelFields(q))
  }

  function LabelFields(q: Question): (r: seq<Field>)
    ensures |r| == |q.criteria| && forall i :: 0 <= i < |r| ==> r[i] == LabelField(q.qtype, q.criteria[i])
  {
    seq(|q.criteria|, i requires 0 <= i < |q.criteria| => LabelField(q.qtype, q.criteria[i]))
  }

  function QuestionJson(q: Question): JsonValue {
    var head := [Field("type", Str(TypeName(q.qtype))), Field("instructions", Str(q.instructions))];
    if q.qtype == Noul && q.criteria == [] then Obj(head) else Obj(head + [Field("criteria", CriteriaJson(q))])
  }

  function QuestionFields(qs: seq<Question>): (r: seq<Field>)
    ensures |r| == |qs| && forall i :: 0 <= i < |qs| ==> r[i] == Field(qs[i].id, QuestionJson(qs[i]))
  {
    seq(|qs|, i requires 0 <= i < |qs| => Field(qs[i].id, QuestionJson(qs[i])))
  }

  function QuestionsJson(qs: seq<Question>): JsonValue { SetAll(QuestionFields(qs)) }

  lemma SetAllStep(fs: seq<Field>, i: nat)
    requires i < |fs|
    ensures SetAll(fs[..i + 1]) == Set(SetAll(fs[..i]), fs[i].key, fs[i].value)
  {
    assert fs[..i + 1][..i] == fs[..i];
  }

  /** The two fields every question has, and a third. */
  lemma SetThree(t: JsonValue, ins: JsonValue, crit: JsonValue)
    ensures Set(Set(Obj([]), "type", t), "instructions", ins) == Obj([Field("type", t), Field("instructions", ins)])
    ensures Set(Obj([Field("type", t), Field("instructions", ins)]), "criteria", crit) ==
            Obj([Field("type", t), Field("instructions", ins)] + [Field("criteria", crit)])
  {
    var two := [Field("type", t), Field("instructions", ins)];
    assert FindFrom([Field("type", t)], "instructions", 1) == 1;
    assert FindFrom(two, "criteria", 2) == 2;
    assert FindFrom(two, "criteria", 1) == 2;
    assert [Field("type", t)] + [Field("instructions", ins)] == two;
  }

  method CriteriaToJson(q: Question) returns (crit: JsonValue)
    requires q.qtype != Score
    ensures crit == CriteriaJson(q)
  {
    crit := Obj([]);
    ghost var fs := LabelFields(q);
    for i := 0 to |q.criteria|
      invariant crit == SetAll(fs[..i])
    {
      SetAllStep(fs, i);
      var kv := q.criteria[i];
      if q.qtype == Choice && |kv.desc| == 0 {
        crit := SetField(crit, kv.name, Null);
      } else {
        crit := SetField(crit, kv.name, Str(kv.desc));
      }
    }
    assert fs[..|q.criteria|] == fs;
  }

  /** The object written for one question. */
  method QuestionToJson(q: Question) returns (qd: JsonValue)
    ensures qd == QuestionJson(q)
    ensures qd.Obj? && First(qd.fields, "instructions", Str(q.instructions))
    ensures First(qd.fields, "type", Str(match q.qtype case Choice => "choice" case Score => "score" case Noul => "noul"))
    ensures q.qtype == Score ==> exists x :: First(qd.fields, "criteria", x) && x.Arr? && Texts(q.criteria, x.items)
    ensures q.qtype != Score && (q.qtype == Choice || q.criteria != []) && DistinctLabels(q) ==>
      exists x :: First(qd.fields, "criteria", x) && x.Obj? && Labels(q, x.fields)
    ensures q.qtype == Noul && q.criteria == [] ==> forall x :: !First(qd.fields, "criteria", x)
  {
    qd := QuestionObject(q);
    WrittenIs(q);
  }

  /** The descriptions, in order. */
  ghost predicate Texts(cs: seq<Criterion>, items: seq<JsonValue>) {
    |items| == |cs| && forall i :: 0 <= i < |cs| ==> items[i] == Str(cs[i].desc)
  }

  /** The labels with their descriptions, in order; a choice without a description has null. */
  ghost predicate Labels(q: Question, fs: seq<Field>) {
    && |fs| == |q.criteria|
    && (forall i :: 0 <= i < |fs| ==> fs[i].key == q.criteria[i].name)
    && (forall i :: 0 <= i < |fs| ==>
          fs[i].value == if q.qtype == Choice && q.criteria[i].desc == "" then Null else Str(q.criteria[i].desc))
  }

  /** Two criteria never have the same label. */
  ghost predicate DistinctLabels(q: Question) {
    forall i, j :: 0 <= i < j < |q.criteria| ==> q.criteria[i].name != q.criteria[j].name
  }

  lemma WrittenIs(q: Question)
    ensures var qd := QuestionJson(q);
      && qd.Obj? && First(qd.fields, "instructions", Str(q.instructions))
      && First(qd.fields, "type", Str(match q.qtype case Choice => "choice" case Score => "score" case Noul => "noul"))
      && (!(q.qtype == Noul && q.criteria == []) ==> First(qd.fields, "criteria", CriteriaJson(q)))
      && (q.qtype == Noul && q.criteria == [] ==> forall x :: !First(qd.fields, "criteria", x))
    ensures q.qtype == Score ==> CriteriaJson(q).Arr? && Texts(q.criteria, CriteriaJson(q).items)
    ensures q.qtype != Score && DistinctLabels(q) ==> CriteriaJson(q).Obj? && Labels(q, CriteriaJson(q).fields)
  {
    hide CriteriaJson;
    var qd := QuestionJson(q);
    assert qd.fields[0].key == "type";
    assert qd.fields[1].key == "instructions";
    if !(q.qtype == Noul && q.criteria == []) { assert qd.fields[2].key == "criteria"; }
    CriteriaAre(q);
  }

  lemma CriteriaAre(q: Question)
    ensures q.qtype == Score ==> CriteriaJson(q).Arr? && Texts(q.criteria, CriteriaJson(q).items)
    ensures q.qtype != Score && DistinctLabels(q) ==> CriteriaJson(q).Obj? && Labels(q, CriteriaJson(q).fields)
  {
    var fs := LabelFields(q);
    SetAllIff(fs);
    if q.qtype != Score && DistinctLabels(q) {
      forall i, j | 0 <= i < j < |fs| ensures fs[i].key != fs[j].key {
        assert q.criteria[i].name != q.criteria[j].name;
      }
    }
  }

  method QuestionObject(q: Question) returns (qd: JsonValue)
    ensures qd == QuestionJson(q)
  {
    hide Set;
    SetThree(Str(TypeName(q.qtype)), Str(q.instructions), CriteriaJson(q));
    qd := SetField(Obj([]), "type", Str(TypeName(q.qtype)));
    qd := SetField(qd, "instructions", Str(q.instructions));
    if q.qtype == Score {
      var items := [];
      for i := 0 to |q.criteria|
        invariant |items| == i && forall j :: 0 <= j < i ==> items[j] == Str(q.criteria[j].desc)
      {
        items := items + [Str(q.criteria[i].desc)];
      }
      assert Arr(items) == CriteriaJson(q);
      qd := SetField(qd, "criteria", Arr(items));
    } else if q.qtype == Choice || |q.criteria| > 0 {
      var crit := CriteriaToJson(q);
      qd := SetField(qd, "criteria", crit);
    }
  }

  /** questions_to_json */
  method QuestionsToJson(qs: seq<Question>) returns (o: JsonValue)
    ensures o == QuestionsJson(qs)
    ensures (forall i, j :: 0 <= i < j < |qs| ==> qs[i].id != qs[j].id) ==>
      && o.Obj? && |o.fields| == |qs|
      && forall i :: 0 <= i < |qs| ==> o.fields[i] == Field(qs[i].id, QuestionJson(qs[i]))
  {
    hide Set;
    DistinctIds(qs);
    o := Obj([]);
    ghost var fs := QuestionFields(qs);
    for i := 0 to |qs|
      invariant o == SetAll(fs[..i])
    {
      SetAllStep(fs, i);
      var qd := QuestionToJson(qs[i]);
      o := SetField(o, qs[i].id, qd);
    }
    assert fs[..|qs|] == fs;
  }

  lemma DistinctIds(qs: seq<Question>)
    ensures (forall i, j :: 0 <= i < j < |qs| ==> qs[i].id != qs[j].id) ==> QuestionsJson(qs) == Obj(QuestionFields(qs))
  {
    hide QuestionJson;
    var fs := QuestionFields(qs);
    SetAllIff(fs);
    if forall i, j :: 0 <= i < j < |qs| ==> qs[i].id != qs[j].id {
      forall i, j | 0 <= i < j < |fs| ensures fs[i].key != fs[j].key { assert qs[i].id != qs[j].id; }
    }
  }

  /* ---------- Reading ---------- */

  /** Strings are taken as they are, anything else as its JSON text. */
  function TextOf(fmt: Fmt, v: JsonValue): string { if v.Str? then v.s else Print(fmt, COMPACT, v, 0) }

  /** As TextOf, but null reads as no text. */
  function DescOf(fmt: Fmt, v: JsonValue): string { if v.Null? then "" else TextOf(fmt, v) }

  function CriteriaOf(fmt: Fmt, t: QType, crit: JsonValue): (r: seq<Criterion>)
    ensures crit.Obj? ==> |r| == |crit.fields| && forall i :: 0 <= i < |r| ==>
      r[i] == Criterion(crit.fields[i].key, DescOf(fmt, crit.fields[i].value))
    ensures crit.Arr? ==> |r| == |crit.items| && forall i :: 0 <= i < |r| ==>
      r[i] == if t == Choice then Criterion(TextOf(fmt, crit.items[i]), "") else Criterion(NatText(i), DescOf(fmt, crit.items[i]))
    ensures !crit.Obj? && !crit.Arr? ==> r == []
  {
    match crit
    case Obj(fs) => seq(|fs|, i requires 0 <= i < |fs| => Criterion(fs[i].key, DescOf(fmt, fs[i].value)))
    case Arr(vs) =>
      seq(|vs|, i requires 0 <= i < |vs| =>
        if t == Choice then Criterion(TextOf(fmt, vs[i]), "") else Criterion(NatText(i), DescOf(fmt, vs[i])))
    case _ => []
  }

  function TypeOf(qdef: JsonValue): QType {
    match Get(qdef, "type")
    case Got(Str(name), _) => TypeFromName(name)
    case _ => Choice
  }

  function QuestionOf(fmt: Fmt, id: string, qdef: JsonValue): Question {
    Question(id, TypeOf(qdef),
             match Get(qdef, "instructions") case Got(v, _) => TextOf(fmt, v) case Failed(_, _) => "",
             match Get(qdef, "criteria") case Got(v, _) => CriteriaOf(fmt, TypeOf(qdef), v) case Failed(_, _) => [])
  }

  /** The fields that hold no object are skipped. */
  function QuestionsOf(fmt: Fmt, fs: seq<Field>): seq<Question> {
    if fs == [] then []
    else
      var n := |fs| - 1;
      QuestionsOf(fmt, fs[..n]) + if fs[n].value.Obj? then [QuestionOf(fmt, fs[n].key, fs[n].value)] else []
  }

  method TextFrom(fmt: Fmt, v: JsonValue) returns (text: string)
    ensures text == TextOf(fmt, v)
  {
    if v.Str? {
      return v.s;
    }
    text := JsonDumps(fmt, v, 0);
  }

  method DescFrom(fmt: Fmt, v: JsonValue) returns (text: string)
    ensures text == DescOf(fmt, v)
  {
    if v.Null? {
      return "";
    }
    text := TextFrom(fmt, v);
  }

  /** question_from_json */
  method QuestionFromJson(fmt: Fmt, id: string, qdef: JsonValue) returns (q: Question)
    ensures q == QuestionOf(fmt, id, qdef)
    ensures q.id == id
    ensures q.qtype == Score <==> First(Fields(qdef), "type", Str("score"))
    ensures q.qtype == Noul <==> First(Fields(qdef), "type", Str("noul"))
    ensures forall x {:trigger First(Fields(qdef), "instructions", x)} :: First(Fields(qdef), "instructions", x) ==>
      q.instructions == if x.Str? then x.s else Print(fmt, COMPACT, x, 0)
    ensures (forall x :: !First(Fields(qdef), "instructions", x)) ==> q.instructions == ""
    ensures forall x {:trigger First(Fields(qdef), "criteria", x)} :: First(Fields(qdef), "criteria", x) ==>
      && (x.Obj? ==> FromFields(fmt, q.criteria, x.fields))
      && (x.Arr? ==> FromItems(fmt, q, x.items))
      && (!x.Obj? && !x.Arr? ==> q.criteria == [])
    ensures (forall x :: !First(Fields(qdef), "criteria", x)) ==> q.criteria == []
  {
    hide QuestionOf, TextOf, CriteriaOf, First, FromFields, FromItems;
    q := QuestionRead(fmt, id, qdef);
    ReadIs(fmt, id, qdef);
    forall x | First(Fields(qdef), "criteria", x)
      ensures (x.Obj? ==> FromFields(fmt, q.criteria, x.fields)) && (x.Arr? ==> FromItems(fmt, q, x.items))
      ensures !x.Obj? && !x.Arr? ==> q.criteria == []
    {
      CriteriaRead(fmt, q, x);
    }
    forall x | First(Fields(qdef), "instructions", x)
      ensures q.instructions == if x.Str? then x.s else Print(fmt, COMPACT, x, 0)
    {
      TextIs(fmt, x);
    }
  }

  /** A string is taken as it is and null as no text; anything else is described by its own JSON text. */
  ghost predicate Described(fmt: Fmt, desc: string, v: JsonValue) {
    desc == if v.Null? then "" else if v.Str? then v.s else Print(fmt, COMPACT, v, 0)
  }

  ghost predicate FromFields(fmt: Fmt, cs: seq<Criterion>, fs: seq<Field>) {
    |cs| == |fs| && forall i :: 0 <= i < |fs| ==> cs[i].name == fs[i].key && Described(fmt, cs[i].desc, fs[i].value)
  }

  /** Items name the labels of a choice, and describe the levels of the other types, which are numbered. */
  ghost predicate FromItems(fmt: Fmt, q: Question, vs: seq<JsonValue>) {
    && |q.criteria| == |vs|
    && (q.qtype == Choice ==> forall i :: 0 <= i < |vs| ==>
          q.criteria[i].desc == "" && q.criteria[i].name == if vs[i].Str? then vs[i].s else Print(fmt, COMPACT, vs[i], 0))
    && (q.qtype != Choice ==> forall i :: 0 <= i < |vs| ==>
          q.criteria[i].name == NatText(i) && Described(fmt, q.criteria[i].desc, vs[i]))
  }

  lemma CriteriaRead(fmt: Fmt, q: Question, x: JsonValue)
    requires q.criteria == CriteriaOf(fmt, q.qtype, x)
    ensures x.Obj? ==> FromFields(fmt, q.criteria, x.fields)
    ensures x.Arr? ==> FromItems(fmt, q, x.items)
    ensures !x.Obj? && !x.Arr? ==> q.criteria == []
  {
    hide Print, NatText;
  }

  lemma ReadIs(fmt: Fmt, id: string, qdef: JsonValue)
    ensures var q := QuestionOf(fmt, id, qdef);
      && q.id == id
      && (q.qtype == Score <==> First(Fields(qdef), "type", Str("score")))
      && (q.qtype == Noul <==> First(Fields(qdef), "type", Str("noul")))
      && (forall x {:trigger First(Fields(qdef), "instructions", x)} :: First(Fields(qdef), "instructions", x) ==>
            q.instructions == TextOf(fmt, x))
      && ((forall x :: !First(Fields(qdef), "instructions", x)) ==> q.instructions == "")
      && (forall x {:trigger First(Fields(qdef), "criteria", x)} :: First(Fields(qdef), "criteria", x) ==>
            q.criteria == CriteriaOf(fmt, q.qtype, x))
      && ((forall x :: !First(Fields(qdef), "criteria", x)) ==> q.criteria == [])
  {
    hide TextOf, CriteriaOf, Get, First;
    FirstIs(qdef, "type", Str("score"));
    FirstIs(qdef, "type", Str("noul"));
    forall x
      ensures First(Fields(qdef), "instructions", x)
              <==> Get(qdef, "instructions").Got? && Get(qdef, "instructions").value == x
    {
      FirstIs(qdef, "instructions", x);
    }
    forall x ensures First(Fields(qdef), "criteria", x) <==> Get(qdef, "criteria").Got? && Get(qdef, "criteria").value == x {
      FirstIs(qdef, "criteria", x);
    }
    var ins, crit := Get(qdef, "instructions"), Get(qdef, "criteria");
    if ins.Got? { assert First(Fields(qdef), "instructions", ins.value); }
    if crit.Got? { assert First(Fields(qdef), "criteria", crit.value); }
  }

  lemma TextIs(fmt: Fmt, x: JsonValue)
    ensures TextOf(fmt, x) == if x.Str? then x.s else Print(fmt, COMPACT, x, 0)
  {
  }

  method QuestionRead(fmt: Fmt, id: string, qdef: JsonValue) returns (q: Question)
    ensures q == QuestionOf(fmt, id, qdef)
  {
    hide Get, TextOf, DescOf, NatText;
    var qtype := TypeOf(qdef);
    var ins := Get(qdef, "instructions");
    var instructions := "";
    if ins.Got? {
      instructions := TextFrom(fmt, ins.value);
    }
    var crit := Get(qdef, "criteria");
    var criteria := [];
    if crit.Got? && crit.value.Obj? {
      var fs := crit.value.fields;
      for i := 0 to |fs|
        invariant |criteria| == i
        invariant forall j :: 0 <= j < i ==> criteria[j] == Criterion(fs[j].key, DescOf(fmt, fs[j].value))
      {
        var desc := DescFrom(fmt, fs[i].value);
        criteria := criteria + [Criterion(fs[i].key, desc)];
      }
    } else if crit.Got? && crit.value.Arr? {
      var vs := crit.value.items;
      for i := 0 to |vs|
        invariant |criteria| == i
        invariant forall j :: 0 <= j < i ==>
          criteria[j] == if qtype == Choice then Criterion(TextOf(fmt, vs[j]), "") else Criterion(NatText(j), DescOf(fmt, vs[j]))
      {
        if qtype == Choice {
          var name := TextFrom(fmt, vs[i]);
          criteria := criteria + [Criterion(name, "")];
        } else {
          var desc := DescFrom(fmt, vs[i]);
          criteria := criteria + [Criterion(NatText(i), desc)];
        }
      }
    }
    assert criteria == match crit case Got(v, _) => CriteriaOf(fmt, qtype, v) case Failed(_, _) => [];
    q := Question(id, qtype, instructions, criteria);
  }

  /** questions_from_json */
  method QuestionsFromJson(fmt: Fmt, obj: JsonValue) returns (qs: seq<Question>)
    ensures qs == QuestionsOf(fmt, Fields(obj))
  {
    qs := [];
    if obj.Obj? {
      var fs := obj.fields;
      for i := 0 to |fs|
        invariant qs == QuestionsOf(fmt, fs[..i])
      {
        assert fs[..i + 1][..i] == fs[..i];
        if fs[i].value.Obj? {
          var q := QuestionFromJson(fmt, fs[i].key, fs[i].value);
          qs := qs + [q];
        }
      }
      assert fs[..|fs|] == fs;
    }
  }

  /** at lists the fields that hold objects, in order. */
  ghost predicate ObjectsAt(fs: seq<Field>, at: seq<nat>) {
    && (forall j :: 0 <= j < |at| ==> at[j] < |fs| && fs[at[j]].value.Obj?)
    && (forall j, k :: 0 <= j < k < |at| ==> at[j] < at[k])
    && (forall i :: 0 <= i < |fs| && fs[i].value.Obj? ==> i in at)
  }

  lemma ObjectsSnoc(fs: seq<Field>, at: seq<nat>)
    requires fs != [] && ObjectsAt(fs[..|fs| - 1], at)
    ensures ObjectsAt(fs, if fs[|fs| - 1].value.Obj? then at + [|fs| - 1] else at)
  {
    var n := |fs| - 1;
    var r := if fs[n].value.Obj? then at + [n] else at;
    forall i | 0 <= i < |fs| && fs[i].value.Obj? ensures i in r {
      if i < n {
        assert fs[..n][i].value.Obj?;
      } else {
        assert r[|at|] == n;
      }
    }
  }

  /** The questions are those of the fields that hold objects, one each and in order. */
  lemma {:induction false} QuestionsAt(fmt: Fmt, fs: seq<Field>) returns (at: seq<nat>)
    ensures |at| == |QuestionsOf(fmt, fs)| && ObjectsAt(fs, at)
    ensures forall j :: 0 <= j < |at| ==> QuestionsOf(fmt, fs)[j] == QuestionOf(fmt, fs[at[j]].key, fs[at[j]].value)
  {
    hide QuestionOf, ObjectsAt;
    if fs == [] {
      at := [];
      assert ObjectsAt(fs, at) by { NoObjects(); }
    } else {
      var n := |fs| - 1;
      at := QuestionsAt(fmt, fs[..n]);
      ObjectsSnoc(fs, at);
      InBounds(fs[..n], at);
      if fs[n].value.Obj? { at := at + [n]; }
      InBounds(fs, at);
    }
  }

  lemma InBounds(fs: seq<Field>, at: seq<nat>)
    requires ObjectsAt(fs, at)
    ensures forall j :: 0 <= j < |at| ==> at[j] < |fs|
  {
  }

  lemma NoObjects()
    ensures ObjectsAt([], [])
  {
  }

  /* ---------- Writing then reading ---------- */

  ghost predicate DistinctKeys(fs: seq<Field>) {
    forall i, j :: 0 <= i < j < |fs| ==> fs[i].key != fs[j].key
  }

  ghost predicate HasKey(fs: seq<Field>, key: string) { exists i :: 0 <= i < |fs| && fs[i].key == key }

  lemma FindHas(fs: seq<Field>, key: string)
    ensures FindFrom(fs, key, 0) == |fs| <==> !HasKey(fs, key)
  {
  }

  lemma HasSnoc(fs: seq<Field>, f: Field, key: string)
    ensures HasKey(fs + [f], key) <==> key == f.key || HasKey(fs, key)
    ensures DistinctKeys(fs + [f]) <==> DistinctKeys(fs) && !HasKey(fs, f.key)
  {
    var gs := fs + [f];
    assert gs[|fs|] == f;
    if i :| 0 <= i < |fs| && fs[i].key == key { assert gs[i].key == key; }
    if i :| 0 <= i < |gs| && gs[i].key == key && i < |fs| { assert fs[i].key == key; }
    if HasKey(fs, f.key) {
      var i :| 0 <= i < |fs| && fs[i].key == f.key;
      assert gs[i].key == gs[|fs|].key;
    }
    if DistinctKeys(gs) {
      forall i, j | 0 <= i < j < |fs| ensures fs[i].key != fs[j].key { assert gs[i].key != gs[j].key; }
    }
  }

  /** Replacing the field at the key's own place changes no key. */
  lemma HasUpdate(fs: seq<Field>, at: nat, f: Field, key: string)
    requires at < |fs| && fs[at].key == f.key
    ensures HasKey(fs[at := f], key) <==> HasKey(fs, key)
  {
    var gs := fs[at := f];
    if i :| 0 <= i < |fs| && fs[i].key == key { assert gs[i].key == key; }
    if i :| 0 <= i < |gs| && gs[i].key == key { assert fs[i].key == key; }
  }

  /** Setting keeps every field exactly when no key repeats; otherwise fewer fields remain. */
  lemma {:induction false} SetAllIff(fs: seq<Field>)
    ensures SetAll(fs).Obj? && |SetAll(fs).fields| <= |fs|
    ensures DistinctKeys(fs) ==> SetAll(fs) == Obj(fs)
    ensures !DistinctKeys(fs) ==> |SetAll(fs).fields| < |fs|
    ensures forall k :: HasKey(fs, k) <==> HasKey(SetAll(fs).fields, k)
  {
    hide DistinctKeys, HasKey;
    if fs == [] {
      NoKeys();
    } else {
      var n := |fs| - 1;
      var f := fs[n];
      SetAllIff(fs[..n]);
      var gs := SetAll(fs[..n]).fields;
      FindHas(gs, f.key);
      assert fs == fs[..n] + [f];
      forall k ensures HasKey(fs, k) <==> HasKey(SetAll(fs).fields, k) {
        HasSnoc(fs[..n], f, k);
        if HasKey(gs, f.key) { HasUpdate(gs, FindFrom(gs, f.key, 0), f, k); } else { HasSnoc(gs, f, k); }
      }
      HasSnoc(fs[..n], f, f.key);
    }
  }

  lemma NoKeys()
    ensures DistinctKeys([]) && forall k :: !HasKey([], k)
  {
  }

  /** What the JSON form of one question can carry. */
  ghost predicate GoodQuestion(q: Question) {
    if q.qtype == Score then forall i :: 0 <= i < |q.criteria| ==> q.criteria[i].name == NatText(i)
    else forall i, j :: 0 <= i < j < |q.criteria| ==> q.criteria[i].name != q.criteria[j].name
  }

  lemma CriteriaBack(fmt: Fmt, q: Question)
    ensures CriteriaOf(fmt, q.qtype, CriteriaJson(q)) == q.criteria <==> GoodQuestion(q)
  {
    if q.qtype == Score { ScoreBack(fmt, q); } else { LabelsBack(fmt, q); }
  }

  lemma ScoreBack(fmt: Fmt, q: Question)
    requires q.qtype == Score
    ensures CriteriaOf(fmt, q.qtype, CriteriaJson(q)) == q.criteria <==> GoodQuestion(q)
  {
    hide Print, NatText;
    var cs, r := q.criteria, CriteriaOf(fmt, q.qtype, CriteriaJson(q));
    forall i | 0 <= i < |cs| ensures r[i] == Criterion(NatText(i), cs[i].desc) {
      assert CriteriaJson(q).items[i] == Str(cs[i].desc);
      assert r[i] == Criterion(NatText(i), DescOf(fmt, CriteriaJson(q).items[i]));
    }
    if r == cs {
      forall i | 0 <= i < |cs| ensures cs[i].name == NatText(i) { assert r[i] == cs[i]; }
    }
  }

  lemma LabelsBack(fmt: Fmt, q: Question)
    requires q.qtype != Score
    ensures CriteriaOf(fmt, q.qtype, CriteriaJson(q)) == q.criteria <==> GoodQuestion(q)
  {
    hide Print, NatText, SetAll, TextOf, HasKey;
    var cs := q.criteria;
    var fs := LabelFields(q);
    assert CriteriaJson(q) == SetAll(fs);
    SetAllIff(fs);
    LabelKeys(q, fs);
    if DistinctKeys(fs) {
      var r := CriteriaOf(fmt, q.qtype, Obj(fs));
      forall i | 0 <= i < |cs| ensures r[i] == cs[i] { LabelBack(fmt, q.qtype, cs[i]); }
    }
  }

  lemma LabelBack(fmt: Fmt, t: QType, c: Criterion)
    ensures DescOf(fmt, LabelField(t, c).value) == c.desc
  {
  }

  lemma LabelKeys(q: Question, fs: seq<Field>)
    requires q.qtype != Score && |fs| == |q.criteria|
    requires forall i :: 0 <= i < |fs| ==> fs[i] == LabelField(q.qtype, q.criteria[i])
    ensures GoodQuestion(q) <==> DistinctKeys(fs)
  {
    if GoodQuestion(q) {
      forall i, j | 0 <= i < j < |fs| ensures fs[i].key != fs[j].key { assert q.criteria[i].name != q.criteria[j].name; }
    }
    if DistinctKeys(fs) {
      forall i, j | 0 <= i < j < |fs| ensures q.criteria[i].name != q.criteria[j].name { assert fs[i].key != fs[j].key; }
    }
  }

  lemma TypeBack(t: QType)
    ensures TypeFromName(TypeName(t)) == t
  {
  }

  lemma QuestionBack(fmt: Fmt, q: Question)
    ensures QuestionJson(q).Obj?
    ensures QuestionOf(fmt, q.id, QuestionJson(q)) == q <==> GoodQuestion(q)
  {
    hide Print, NatText, CriteriaOf, CriteriaJson, GoodQuestion;
    TypeBack(q.qtype);
    CriteriaBack(fmt, q);
    FieldsBack(q);
    if q.qtype == Noul && q.criteria == [] { NoCriteria(q); }
  }

  lemma NoCriteria(q: Question)
    requires q.qtype == Noul && q.criteria == []
    ensures GoodQuestion(q)
  {
  }

  lemma FieldsBack(q: Question)
    ensures var v := QuestionJson(q);
      && Get(v, "type") == Got(Str(TypeName(q.qtype)), 0)
      && Get(v, "instructions") == Got(Str(q.instructions), 1)
      && (if q.qtype == Noul && q.criteria == [] then Get(v, "criteria").Failed?
          else Get(v, "criteria") == Got(CriteriaJson(q), 2))
  {
    hide CriteriaJson;
    var fs := QuestionJson(q).fields;
    FindIs(fs, "type", 0, 0);
    FindIs(fs, "instructions", 0, 1);
    FindIs(fs, "criteria", 0, 2);
  }

  /** Distinct ids, distinct labels within a choice or noul question, index labels on score questions. */
  ghost predicate GoodQuestions(qs: seq<Question>) {
    && (forall i, j :: 0 <= i < j < |qs| ==> qs[i].id != qs[j].id)
    && (forall i :: 0 <= i < |qs| ==> GoodQuestion(qs[i]))
  }

  lemma {:induction false} QuestionsOfLength(fmt: Fmt, fs: seq<Field>)
    ensures |QuestionsOf(fmt, fs)| <= |fs|
    ensures (forall i :: 0 <= i < |fs| ==> fs[i].value.Obj?) ==>
      && |QuestionsOf(fmt, fs)| == |fs|
      && forall i :: 0 <= i < |fs| ==> QuestionsOf(fmt, fs)[i] == QuestionOf(fmt, fs[i].key, fs[i].value)
  {
    hide QuestionOf;
    if fs != [] {
      var n := |fs| - 1;
      QuestionsOfLength(fmt, fs[..n]);
    }
  }

  /** Reading what was written gives the questions back exactly when they are good. */
  lemma QuestionsBackIff(fmt: Fmt, qs: seq<Question>)
    ensures QuestionsOf(fmt, Fields(QuestionsJson(qs))) == qs <==> GoodQuestions(qs)
  {
    hide QuestionOf, QuestionJson, GoodQuestion, SetAll, QuestionsOf;
    var fs := QuestionFields(qs);
    SetAllIff(fs);
    assert forall i :: 0 <= i < |qs| ==> fs[i].key == qs[i].id;
    forall i | 0 <= i < |qs|
      ensures fs[i].value.Obj?
      ensures QuestionOf(fmt, fs[i].key, fs[i].value) == qs[i] <==> GoodQuestion(qs[i])
    {
      QuestionBack(fmt, qs[i]);
    }
    QuestionsOfLength(fmt, SetAll(fs).fields);
    if DistinctKeys(fs) {
      var r := QuestionsOf(fmt, fs);
      assert forall i :: 0 <= i < |qs| ==> r[i] == QuestionOf(fmt, fs[i].key, fs[i].value);
      if GoodQuestions(qs) {
        assert r == qs;
      } else {
        var i :| 0 <= i < |qs| && !GoodQuestion(qs[i]);
        assert r[i] != qs[i];
      }
    } else {
      assert !GoodQuestions(qs) by {
        var i, j :| 0 <= i < j < |fs| && fs[i].key == fs[j].key;
        assert qs[i].id == qs[j].id;
      }
    }
  }

  /* ---------- Through the text ---------- */

  lemma {:induction false} SetAllIntegers(fs: seq<Field>)
    requires forall i :: 0 <= i < |fs| ==> IntegersOnly(fs[i].value)
    ensures SetAll(fs).Obj? && IntegersOnly(SetAll(fs))
  {
    if fs != [] {
      var n := |fs| - 1;
      SetAllIntegers(fs[..n]);
      var gs := SetAll(fs[..n]).fields;
      var rs := SetAll(fs).fields;
      forall i | 0 <= i < |rs| ensures IntegersOnly(rs[i].value) {
        if i < |gs| && rs[i] == gs[i] { assert IntegersOnly(gs[i].value); }
      }
    }
  }

  lemma QuestionIntegers(q: Question)
    ensures IntegersOnly(QuestionJson(q))
  {
    assert IntegersOnly(CriteriaJson(q)) by {
      if q.qtype != Score {
        SetAllIntegers(LabelFields(q));
      }
    }
  }

  /** Printed in any whitespace style, parsed and read, good questions and only they come back. */
  lemma QuestionsThroughText(fmt: Fmt, st: Style, d: nat, qs: seq<Question>)
    requires FmtOk(fmt) && BlankStyle(st)
    ensures var p := Parse(Print(fmt, st, QuestionsJson(qs), d));
      p.Got? && p.value == QuestionsJson(qs) && (QuestionsOf(fmt, Fields(p.value)) == qs <==> GoodQuestions(qs))
  {
    hide FmtOk, BlankStyle, Print, Parse, Norm, Exact, IntegersOnly, QuestionsOf, GoodQuestions, QuestionJson, SetAll;
    var v := QuestionsJson(qs);
    forall i | 0 <= i < |qs| ensures IntegersOnly(QuestionFields(qs)[i].value) { QuestionIntegers(qs[i]); }
    SetAllIntegers(QuestionFields(qs));
    IntegersExact(fmt, v);
    NormIsIff(fmt, v);
    WholeText(fmt, st, v, d);
    QuestionsBackIff(fmt, qs);
  }
}
