/** JavaScript values and the form and text that src/canonical.js gives them where it returns; JsNormalize
    has its steps, and where they throw.  An object is the list of its own properties in the order the
    engine enumerates them. */
module JsCanonical {
  import opened Prelude
  import opened Sorting
  import opened JsonNumber
  import opened Canonicalization
  import opened CanonicalDecoding

  /** `Num` carries the text JSON.stringify gives a finite number; `NonFinite` is NaN and the
      infinities; `Other` is a function, a symbol or a BigInt. */
  datatype Js =
    | Undefined | NullValue | Boolean(b: bool) | Num(text: string) | NonFinite | Str(s: string)
    | Arr(items: seq<Js>) | Obj(props: seq<Prop>) | Other

  datatype Prop = Prop(key: string, value: Js)

  const PROTO := "__proto__"

  ghost predicate KeysDistinct(props: seq<Prop>) {
    forall i, j :: 0 <= i < j < |props| ==> props[i].key != props[j].key
  }

  ghost predicate WellFormed(v: Js) {
    match v
    case Num(text) => IsNumber(text)
    case Arr(items) => forall i :: 0 <= i < |items| ==> WellFormed(items[i])
    case Obj(props) => KeysDistinct(props) && forall i :: 0 <= i < |props| ==> WellFormed(props[i].value)
    case _ => true
  }

  // ----- Property order of an ordinary object -----

  function DecimalValue(s: string): nat
    requires AllDigits(s)
  {
    if s == "" then 0 else DecimalValue(s[..|s| - 1]) * 10 + (s[|s| - 1] as nat - '0' as nat)
  }

  function ArrayIndex(key: string): Option<nat> {
    if Digits(key) && (key == "0" || key[0] != '0') && DecimalValue(key) < 0xFFFF_FFFF then Some(DecimalValue(key)) else None
  }

  predicate Precedes(p: Prop, q: Prop) {
    ArrayIndex(p.key).Some? && (ArrayIndex(q.key) == None || ArrayIndex(p.key).value < ArrayIndex(q.key).value)
  }

  /** A new key: array indices come first, in ascending order, then other keys as they arrive. */
  function Place(props: seq<Prop>, p: Prop): seq<Prop> {
    if props == [] || Precedes(p, props[0]) then [p] + props else [props[0]] + Place(props[1..], p)
  }

  function Replace(props: seq<Prop>, p: Prop): seq<Prop> {
    if props == [] then [] else if props[0].key == p.key then [p] + props[1..] else [props[0]] + Replace(props[1..], p)
  }

  /** `object[key] = value` on an ordinary object: assigning __proto__ sets the prototype and adds no
      property. */
  function Assign(props: seq<Prop>, p: Prop): seq<Prop> {
    if p.key == PROTO then props
    else if exists q | q in props :: q.key == p.key then Replace(props, p)
    else Place(props, p)
  }

  function Build(props: seq<Prop>): seq<Prop> {
    if props == [] then [] else Assign(Build(props[..|props| - 1]), props[|props| - 1])
  }

  // ----- The normal form -----

  predicate PropLe(p: Prop, q: Prop) { KeyLe(p.key, q.key) }

  /** The own properties, at every level, of what `normalize` returns. */
  function NormalForm(v: Js): Js {
    match v
    case Undefined => NullValue
    case NonFinite => NullValue
    case Other => NullValue
    case Arr(items) => Arr(seq(|items|, i requires 0 <= i < |items| => NormalForm(items[i])))
    case Obj(props) =>
      Obj(Build(Sort(seq(|props|, i requires 0 <= i < |props| => Prop(props[i].key, NormalForm(props[i].value))), PropLe)))
    case _ => v
  }

  function NormalForms(props: seq<Prop>): seq<Prop> {
    seq(|props|, i requires 0 <= i < |props| => Prop(props[i].key, NormalForm(props[i].value)))
  }

  // ----- The data of a value -----

  predicate FieldLe(p: Field, q: Field) { KeyLe(p.key, q.key) }

  /** The JSON data that `normalize` keeps, with the keys of each object in sorted order. */
  function ToJson(v: Js): Json
    decreases v, 1
  {
    match v
    case Boolean(b) => Bool(b)
    case Num(text) => Number(text)
    case Str(s) => String(s)
    case Arr(items) => Array(seq(|items|, i requires 0 <= i < |items| => ToJson(items[i])))
    case Obj(props) => Object(Sort(Fields(props), FieldLe))
    case _ => Null
  }

  function Fields(props: seq<Prop>): seq<Field>
    decreases props, 0
  {
    if props == [] then []
    else (if props[0].key == PROTO then [] else [Field(props[0].key, ToJson(props[0].value))]) + Fields(props[1..])
  }

  // ----- Orders and lists -----

  lemma PropPreorder()
    ensures Preorder(PropLe)
  {
    forall p: Prop, q, r | PropLe(p, q) && PropLe(q, r) ensures PropLe(p, r) { KeyLeTransitive(p.key, q.key, r.key); }
    forall p, q ensures PropLe(p, q) || PropLe(q, p) { KeyLeConnected(p.key, q.key); }
  }

  lemma FieldPreorder()
    ensures Preorder(FieldLe)
  {
    forall p: Field, q, r | FieldLe(p, q) && FieldLe(q, r) ensures FieldLe(p, r) { KeyLeTransitive(p.key, q.key, r.key); }
    forall p, q ensures FieldLe(p, q) || FieldLe(q, p) { KeyLeConnected(p.key, q.key); }
  }

  ghost predicate FieldKeysDistinct(fields: seq<Field>) {
    forall i, j :: 0 <= i < j < |fields| ==> fields[i].key != fields[j].key
  }

  lemma PropsAntisymmetric(props: seq<Prop>)
    requires KeysDistinct(props)
    ensures Distinct(props) && AntisymmetricOn(PropLe, props)
  {
    forall p, q | p in props && q in props && PropLe(p, q) && PropLe(q, p) ensures p == q {
      KeyLeAntisymmetric(p.key, q.key);
    }
  }

  lemma FieldsAntisymmetric(fields: seq<Field>)
    requires FieldKeysDistinct(fields)
    ensures Distinct(fields) && AntisymmetricOn(FieldLe, fields)
  {
    forall p, q | p in fields && q in fields && FieldLe(p, q) && FieldLe(q, p) ensures p == q {
      KeyLeAntisymmetric(p.key, q.key);
    }
  }

  lemma SortKeepsKeysDistinct(props: seq<Prop>)
    requires KeysDistinct(props)
    ensures KeysDistinct(Sort(props, PropLe))
  {
    PropsAntisymmetric(props);
    SortPermutes(props, PropLe);
    PermutationIsDistinct(props, Sort(props, PropLe));
    var s := Sort(props, PropLe);
    forall i, j | 0 <= i < j < |s| ensures s[i].key != s[j].key {
      assert s[i] in props && s[j] in props && s[i] != s[j];
    }
  }

  lemma SortedFieldsAgree(a: seq<Field>, b: seq<Field>)
    requires FieldKeysDistinct(a) && FieldKeysDistinct(b) && forall f :: f in a <==> f in b
    ensures Sort(a, FieldLe) == Sort(b, FieldLe)
  {
    FieldPreorder();
    FieldsAntisymmetric(a);
    FieldsAntisymmetric(b);
    SameElements(a, b);
    SortIsCanonical(a, b, FieldLe);
  }

  // ----- What Build and Fields hold -----

  lemma {:induction false} PlaceHolds(props: seq<Prop>, p: Prop)
    requires KeysDistinct(props) && forall q :: q in props ==> q.key != p.key
    ensures KeysDistinct(Place(props, p))
    ensures forall q :: q in Place(props, p) <==> q in props || q == p
  {
    if props != [] && !Precedes(p, props[0]) {
      assert props == [props[0]] + props[1..];
      PlaceHolds(props[1..], p);
      var rest := Place(props[1..], p);
      forall i | 0 <= i < |rest| ensures rest[i].key != props[0].key {
        assert rest[i] in rest;
        assert rest[i] == p || rest[i] in props[1..];
      }
    }
  }

  lemma {:induction false} BuildHolds(props: seq<Prop>)
    requires KeysDistinct(props)
    ensures KeysDistinct(Build(props))
    ensures forall q :: q in Build(props) <==> q in props && q.key != PROTO
  {
    if props != [] {
      var n := |props| - 1;
      assert props == props[..n] + [props[n]];
      BuildHolds(props[..n]);
      if props[n].key != PROTO {
        PlaceHolds(Build(props[..n]), props[n]);
      }
    }
  }

  lemma {:induction false} FieldsHold(props: seq<Prop>)
    requires KeysDistinct(props)
    ensures FieldKeysDistinct(Fields(props))
    ensures forall f :: f in Fields(props) ==> f.key != PROTO && exists p :: p in props && f == Field(p.key, ToJson(p.value))
    ensures forall p :: p in props && p.key != PROTO ==> Field(p.key, ToJson(p.value)) in Fields(props)
  {
    if props != [] {
      hide ToJson;
      var rest := Fields(props[1..]);
      assert props == [props[0]] + props[1..];
      FieldsHold(props[1..]);
      forall i | 0 <= i < |rest| ensures rest[i].key != props[0].key {
        assert rest[i] in rest;
        var p :| p in props[1..] && rest[i] == Field(p.key, ToJson(p.value));
      }
    }
  }

  // ----- The normal form keeps the data, and is its own normal form -----

  lemma NormalFormsHold(props: seq<Prop>)
    requires KeysDistinct(props)
    ensures KeysDistinct(NormalForms(props))
    ensures forall q :: q in NormalForms(props) ==> exists p :: p in props && q == Prop(p.key, NormalForm(p.value))
    ensures forall p :: p in props ==> Prop(p.key, NormalForm(p.value)) in NormalForms(props)
  {
    hide NormalForm;
    var all := NormalForms(props);
    forall q | q in all ensures exists p :: p in props && q == Prop(p.key, NormalForm(p.value)) {
      var i :| 0 <= i < |all| && all[i] == q;
      assert props[i] in props;
    }
    forall p | p in props ensures Prop(p.key, NormalForm(p.value)) in all {
      var i :| 0 <= i < |props| && props[i] == p;
      assert all[i] in all;
    }
  }

  /** The properties of a normalized object: those of the source but __proto__, normalized. */
  lemma NormalFormHolds(props: seq<Prop>)
    requires KeysDistinct(props)
    ensures NormalForm(Obj(props)) == Obj(Build(Sort(NormalForms(props), PropLe)))
    ensures var b := Build(Sort(NormalForms(props), PropLe));
      && KeysDistinct(b)
      && (forall q :: q in b ==> q.key != PROTO && exists p :: p in props && q == Prop(p.key, NormalForm(p.value)))
      && (forall p :: p in props && p.key != PROTO ==> Prop(p.key, NormalForm(p.value)) in b)
  {
    NormalFormsHold(props);
    var all := NormalForms(props);
    SortKeepsKeysDistinct(all);
    SortPermutes(all, PropLe);
    BuildHolds(Sort(all, PropLe));
  }

  lemma {:induction false} FormKeepsData(v: Js)
    requires WellFormed(v)
    ensures WellFormed(NormalForm(v)) && ToJson(NormalForm(v)) == ToJson(v)
    decreases v
  {
    match v
    case Arr(items) =>
      forall i | 0 <= i < |items| ensures WellFormed(NormalForm(items[i])) && ToJson(NormalForm(items[i])) == ToJson(items[i]) {
        FormKeepsData(items[i]);
      }
      assert Array(seq(|items|, i requires 0 <= i < |items| => ToJson(items[i]))).items == ToJson(NormalForm(v)).items;
    case Obj(props) =>
      forall p | p in props ensures WellFormed(NormalForm(p.value)) && ToJson(NormalForm(p.value)) == ToJson(p.value) {
        var i :| 0 <= i < |props| && props[i] == p;
        FormKeepsData(props[i].value);
      }
      ObjectKeepsData(props);
    case _ =>
  }

  lemma ObjectKeepsData(props: seq<Prop>)
    requires KeysDistinct(props)
    requires forall p :: p in props ==> WellFormed(NormalForm(p.value)) && ToJson(NormalForm(p.value)) == ToJson(p.value)
    ensures WellFormed(NormalForm(Obj(props))) && ToJson(NormalForm(Obj(props))) == ToJson(Obj(props))
  {
    NormalFormHolds(props);
    var b := NormalForm(Obj(props)).props;
    FieldsHold(props);
    FieldsHold(b);
    hide NormalForm;
    assert forall f :: f in Fields(b) <==> f in Fields(props) by {
      forall f | f in Fields(b) ensures f in Fields(props) {
        var q :| q in b && f == Field(q.key, ToJson(q.value));
        var p :| p in props && q == Prop(p.key, NormalForm(p.value));
      }
      forall f | f in Fields(props) ensures f in Fields(b) {
        var p :| p in props && f == Field(p.key, ToJson(p.value));
        assert Prop(p.key, NormalForm(p.value)) in b;
      }
    }
    SortedFieldsAgree(Fields(b), Fields(props));
    forall i | 0 <= i < |b| ensures WellFormed(b[i].value) {
      assert b[i] in b;
    }
  }

  /** Equal data means equal normal forms, property order included. */
  lemma {:induction false} DataDeterminesForm(v: Js, w: Js)
    requires WellFormed(v) && WellFormed(w) && ToJson(v) == ToJson(w)
    ensures NormalForm(v) == NormalForm(w)
    decreases v
  {
    match v
    case Arr(items) =>
      assert |items| == |ToJson(v).items| == |ToJson(w).items| == |w.items|;
      forall i | 0 <= i < |items| ensures NormalForm(items[i]) == NormalForm(w.items[i]) {
        assert ToJson(v).items[i] == ToJson(items[i]) && ToJson(w).items[i] == ToJson(w.items[i]);
        DataDeterminesForm(items[i], w.items[i]);
      }
      assert NormalForm(v).items == NormalForm(w).items;
    case Obj(props) =>
      forall p, q | p in props && q in w.props && ToJson(p.value) == ToJson(q.value) ensures NormalForm(p.value) == NormalForm(q.value) {
        var i :| 0 <= i < |props| && props[i] == p;
        var j :| 0 <= j < |w.props| && w.props[j] == q;
        DataDeterminesForm(props[i].value, w.props[j].value);
      }
      SameFields(props, w.props);
      ObjectFormsAgree(props, w.props);
    case _ =>
  }

  lemma SameFields(a: seq<Prop>, b: seq<Prop>)
    requires Sort(Fields(a), FieldLe) == Sort(Fields(b), FieldLe)
    ensures forall f :: f in Fields(a) <==> f in Fields(b)
  {
    SortPermutes(Fields(a), FieldLe);
    SortPermutes(Fields(b), FieldLe);
  }

  lemma FormsMatch(a: seq<Prop>, b: seq<Prop>)
    requires KeysDistinct(a) && KeysDistinct(b)
    requires forall p, q :: p in a && q in b && ToJson(p.value) == ToJson(q.value) ==> NormalForm(p.value) == NormalForm(q.value)
    requires forall f :: f in Fields(a) ==> f in Fields(b)
    ensures forall p :: p in a && p.key != PROTO ==> exists q :: q in b && q.key == p.key && NormalForm(q.value) == NormalForm(p.value)
  {
    FieldsHold(a);
    FieldsHold(b);
    hide NormalForm, ToJson, Fields;
    forall p | p in a && p.key != PROTO ensures exists q :: q in b && q.key == p.key && NormalForm(q.value) == NormalForm(p.value) {
      var f := Field(p.key, ToJson(p.value));
      assert f in Fields(a);
      var q :| q in b && f == Field(q.key, ToJson(q.value));
    }
  }

  lemma ObjectFormsAgree(a: seq<Prop>, b: seq<Prop>)
    requires KeysDistinct(a) && KeysDistinct(b)
    requires forall p, q :: p in a && q in b && ToJson(p.value) == ToJson(q.value) ==> NormalForm(p.value) == NormalForm(q.value)
    requires forall f :: f in Fields(a) <==> f in Fields(b)
    ensures NormalForm(Obj(a)) == NormalForm(Obj(b))
  {
    FormsMatch(a, b);
    FormsMatch(b, a);
    hide *;
    SameVisible(a, b);
  }

  /** Only the properties other than __proto__ decide what Build makes. */
  lemma SameVisible(a: seq<Prop>, b: seq<Prop>)
    requires KeysDistinct(a) && KeysDistinct(b)
    requires forall p :: p in a && p.key != PROTO ==> exists q :: q in b && q.key == p.key && NormalForm(q.value) == NormalForm(p.value)
    requires forall q :: q in b && q.key != PROTO ==> exists p :: p in a && p.key == q.key && NormalForm(q.value) == NormalForm(p.value)
    ensures NormalForm(Obj(a)) == NormalForm(Obj(b))
  {
    NormalFormsHold(a);
    NormalFormsHold(b);
    var s, t := NormalForms(a), NormalForms(b);
    assert NormalForm(Obj(a)) == Obj(Build(Sort(s, PropLe))) && NormalForm(Obj(b)) == Obj(Build(Sort(t, PropLe)));
    hide NormalForm, NormalForms;
    forall x: Prop | x.key != PROTO ensures x in s <==> x in t {
      if x in s {
        var p :| p in a && x == Prop(p.key, NormalForm(p.value));
        var q :| q in b && q.key == p.key && NormalForm(q.value) == NormalForm(p.value);
        assert Prop(q.key, NormalForm(q.value)) in t;
      }
      if x in t {
        var q :| q in b && x == Prop(q.key, NormalForm(q.value));
        var p :| p in a && p.key == q.key && NormalForm(q.value) == NormalForm(p.value);
        assert Prop(p.key, NormalForm(p.value)) in s;
      }
    }
    VisibleDecides(s, t);
  }

  function Visible(props: seq<Prop>): seq<Prop> {
    if props == [] then []
    else Visible(props[..|props| - 1]) + if props[|props| - 1].key == PROTO then [] else [props[|props| - 1]]
  }

  lemma {:induction false} VisibleBuildsSame(props: seq<Prop>)
    ensures Build(props) == Build(Visible(props))
  {
    if props != [] {
      var n := |props| - 1;
      VisibleBuildsSame(props[..n]);
      if props[n].key != PROTO {
        assert Visible(props)[..|Visible(props)| - 1] == Visible(props[..n]);
      } else {
        assert Visible(props) == Visible(props[..n]);
      }
    }
  }

  lemma {:induction false} VisibleHolds(props: seq<Prop>)
    requires KeysDistinct(props)
    ensures KeysDistinct(Visible(props))
    ensures forall q :: q in Visible(props) <==> q in props && q.key != PROTO
  {
    if props != [] {
      var n := |props| - 1;
      assert props == props[..n] + [props[n]];
      VisibleHolds(props[..n]);
      var seen := Visible(props[..n]);
      forall i | 0 <= i < |seen| ensures seen[i].key != props[n].key {
        assert seen[i] in props[..n];
      }
    }
  }

  lemma {:induction false} VisibleIsSorted(props: seq<Prop>)
    requires KeysDistinct(props) && Sorted(props, PropLe)
    ensures Sorted(Visible(props), PropLe)
  {
    if props != [] {
      var n := |props| - 1;
      SortedPrefix(props, n, PropLe);
      VisibleIsSorted(props[..n]);
      VisibleHolds(props[..n]);
      hide Sorted, KeyLe;
      SortedAppend(Visible(props[..n]), props[n], PropLe);
    }
  }

  lemma VisibleDecides(s: seq<Prop>, t: seq<Prop>)
    requires KeysDistinct(s) && KeysDistinct(t)
    requires forall x: Prop :: x.key != PROTO ==> (x in s <==> x in t)
    ensures Build(Sort(s, PropLe)) == Build(Sort(t, PropLe))
  {
    var a, b := Sort(s, PropLe), Sort(t, PropLe);
    SortKeepsKeysDistinct(s);
    SortKeepsKeysDistinct(t);
    SortPermutes(s, PropLe);
    SortPermutes(t, PropLe);
    PropPreorder();
    SortSorts(s, PropLe);
    SortSorts(t, PropLe);
    VisibleHolds(a);
    VisibleHolds(b);
    VisibleIsSorted(a);
    VisibleIsSorted(b);
    VisibleBuildsSame(a);
    VisibleBuildsSame(b);
    PropsAntisymmetric(Visible(a));
    PropsAntisymmetric(Visible(b));
    SameElements(Visible(a), Visible(b));
    SortedIsUnique(Visible(a), Visible(b), PropLe);
  }

  lemma FormIdempotent(v: Js)
    requires WellFormed(v)
    ensures NormalForm(NormalForm(v)) == NormalForm(v)
  {
    FormKeepsData(v);
    DataDeterminesForm(NormalForm(v), v);
  }

  // ----- The text -----

  /** The text that `canonicalize` returns, which is one print of the data. */
  function CanonicalText(v: Js): string { Text(ToJson(v)) }

  /** Printing as `canonicalize` does it, with the form taken again at every level. */
  function Reprint(v: Js): string
    requires WellFormed(v)
    decreases ToJson(v), 1
  {
    FormKeepsData(v);
    match NormalForm(v)
    case Arr(items) =>
      ItemsAreSmaller(items);
      "[" + ItemTexts(items, 0, ToJson(v))
    case Obj(props) =>
      FormIdempotent(v);
      SortedPropsAreSmaller(props);
      "{" + PropTexts(Sort(props, PropLe), 0, ToJson(v))
    case Boolean(b) => if b then "true" else "false"
    case Num(text) => text
    case Str(s) => Quote(s)
    case _ => "null"
  }

  ghost predicate AllSmaller(items: seq<Js>, whole: Json) {
    forall k :: 0 <= k < |items| ==> WellFormed(items[k]) && ToJson(items[k]) < whole
  }

  ghost predicate ValuesSmaller(props: seq<Prop>, whole: Json) {
    forall k :: 0 <= k < |props| ==> WellFormed(props[k].value) && ToJson(props[k].value) < whole
  }

  function ItemTexts(items: seq<Js>, i: nat, ghost whole: Json): string
    requires i <= |items| && AllSmaller(items, whole)
    decreases whole, 0, |items| - i
  {
    if i == |items| then "]" else Separator(i) + Reprint(items[i]) + ItemTexts(items, i + 1, whole)
  }

  function PropTexts(props: seq<Prop>, i: nat, ghost whole: Json): string
    requires i <= |props| && ValuesSmaller(props, whole)
    decreases whole, 0, |props| - i
  {
    if i == |props| then "}"
    else Separator(i) + (Quote(props[i].key) + ":" + Reprint(props[i].value)) + PropTexts(props, i + 1, whole)
  }

  lemma ItemsAreSmaller(items: seq<Js>)
    requires WellFormed(Arr(items))
    ensures AllSmaller(items, ToJson(Arr(items)))
  {
    forall k | 0 <= k < |items| ensures ToJson(items[k]) < ToJson(Arr(items)) {
      assert ToJson(Arr(items)).items[k] == ToJson(items[k]);
    }
  }

  function AsFields(props: seq<Prop>): seq<Field> {
    seq(|props|, k requires 0 <= k < |props| => Field(props[k].key, ToJson(props[k].value)))
  }

  lemma AsFieldsHold(s: seq<Prop>)
    requires KeysDistinct(s)
    ensures FieldKeysDistinct(AsFields(s)) && (Sorted(s, PropLe) ==> Sorted(AsFields(s), FieldLe))
    ensures forall f :: f in AsFields(s) <==> exists p :: p in s && f == Field(p.key, ToJson(p.value))
  {
    hide ToJson;
    var mapped := AsFields(s);
    forall f | f in mapped ensures exists p :: p in s && f == Field(p.key, ToJson(p.value)) {
      var k :| 0 <= k < |s| && mapped[k] == f;
      assert s[k] in s;
    }
    forall p | p in s ensures Field(p.key, ToJson(p.value)) in mapped {
      var k :| 0 <= k < |s| && s[k] == p;
      assert mapped[k] in mapped;
    }
  }

  /** Without a __proto__ property, the fields of an object are its sorted properties. */
  lemma SortedPropsAreFields(props: seq<Prop>)
    requires KeysDistinct(props) && forall p :: p in props ==> p.key != PROTO
    ensures ToJson(Obj(props)) == Object(AsFields(Sort(props, PropLe)))
  {
    var s := Sort(props, PropLe);
    PropPreorder();
    SortSorts(props, PropLe);
    SortPermutes(props, PropLe);
    SortKeepsKeysDistinct(props);
    FieldsHold(props);
    AsFieldsHold(s);
    ObjectFields(props);
    hide ToJson, AsFields, Fields, Sort, Sorted;
    SortedFieldsAgree(AsFields(s), Fields(props));
    FieldPreorder();
    FieldsAntisymmetric(AsFields(s));
    SortOfSorted(AsFields(s), FieldLe);
  }

  lemma ObjectFields(props: seq<Prop>)
    ensures ToJson(Obj(props)) == Object(Sort(Fields(props), FieldLe))
  {}

  lemma SortedPropsAreSmaller(props: seq<Prop>)
    requires WellFormed(Obj(props)) && NormalForm(Obj(props)) == Obj(props)
    ensures ToJson(Obj(props)) == Object(AsFields(Sort(props, PropLe)))
    ensures ValuesSmaller(Sort(props, PropLe), ToJson(Obj(props)))
  {
    NormalFormHolds(props);
    hide NormalForm, Build, NormalForms, ToJson, AsFields;
    SortedPropsAreFields(props);
    SortPermutes(props, PropLe);
    FieldsAreSmaller(props, Sort(props, PropLe));
  }

  lemma FieldsAreSmaller(props: seq<Prop>, s: seq<Prop>)
    requires forall i :: 0 <= i < |props| ==> WellFormed(props[i].value)
    requires forall p :: p in s ==> p in props
    ensures ValuesSmaller(s, Object(AsFields(s)))
  {
    hide WellFormed, ToJson;
    forall k | 0 <= k < |s| ensures WellFormed(s[k].value) && ToJson(s[k].value) < Object(AsFields(s)) {
      assert s[k] in props;
      var i :| 0 <= i < |props| && props[i] == s[k];
      assert AsFields(s)[k] == Field(s[k].key, ToJson(s[k].value));
      assert AsFields(s)[k].value < Object(AsFields(s));
    }
  }

  /** The re-normalizing printer prints the data of the value once. */
  lemma {:induction false} ReprintIsPrint(v: Js)
    requires WellFormed(v)
    ensures Reprint(v) == CanonicalText(v)
    decreases ToJson(v), 1
  {
    hide Build, NormalForms, Fields, Sort, IsNumber, Quote, KeysDistinct;
    FormKeepsData(v);
    match NormalForm(v)
    case Arr(items) =>
      ItemsAreSmaller(items);
      ItemsArePrinted(items, 0, ToJson(v));
    case Obj(props) =>
      FormIdempotent(v);
      SortedPropsAreSmaller(props);
      PropsArePrinted(Sort(props, PropLe), 0, ToJson(v));
    case _ =>
  }

  function Datas(items: seq<Js>): seq<Json> { seq(|items|, k requires 0 <= k < |items| => ToJson(items[k])) }

  lemma {:induction false} ItemsArePrinted(items: seq<Js>, i: nat, whole: Json)
    requires i <= |items| && AllSmaller(items, whole)
    ensures ItemTexts(items, i, whole) == ItemsFrom(Datas(items), i)
    decreases whole, 0, |items| - i
  {
    hide ToJson;
    if i < |items| {
      ReprintIsPrint(items[i]);
      ItemsArePrinted(items, i + 1, whole);
    }
  }

  lemma {:induction false} PropsArePrinted(props: seq<Prop>, i: nat, whole: Json)
    requires i <= |props| && ValuesSmaller(props, whole)
    ensures PropTexts(props, i, whole) == FieldsFrom(AsFields(props), i)
    decreases whole, 0, |props| - i
  {
    hide ToJson, Quote;
    if i < |props| {
      ReprintIsPrint(props[i].value);
      PropsArePrinted(props, i + 1, whole);
    }
  }

  // ----- What the text decides -----

  lemma {:induction false} DataIsPrintable(v: Js)
    requires WellFormed(v)
    ensures NumbersValid(ToJson(v))
    decreases v
  {
    match v
    case Arr(items) =>
      forall i | 0 <= i < |items| ensures NumbersValid(ToJson(v).items[i]) {
        DataIsPrintable(items[i]);
      }
    case Obj(props) =>
      FieldsHold(props);
      SortPermutes(Fields(props), FieldLe);
      var fields := ToJson(v).fields;
      forall i | 0 <= i < |fields| ensures NumbersValid(fields[i].value) {
        assert fields[i] in Fields(props);
        var p :| p in props && fields[i] == Field(p.key, ToJson(p.value));
        var k :| 0 <= k < |props| && props[k] == p;
        DataIsPrintable(props[k].value);
      }
    case _ =>
  }

  /** Two values have the same canonical text exactly when they have the same normal form. */
  lemma TextDecidesForm(v: Js, w: Js)
    requires WellFormed(v) && WellFormed(w)
    ensures CanonicalText(v) == CanonicalText(w) <==> ToJson(v) == ToJson(w)
    ensures CanonicalText(v) == CanonicalText(w) <==> NormalForm(v) == NormalForm(w)
  {
    DataIsPrintable(v);
    DataIsPrintable(w);
    FormKeepsData(v);
    FormKeepsData(w);
    hide Text, ToJson, NormalForm, Parse;
    if Text(ToJson(v)) == Text(ToJson(w)) {
      TextInjective(ToJson(v), ToJson(w), "", "");
    }
    if ToJson(v) == ToJson(w) {
      DataDeterminesForm(v, w);
    }
  }

  /** The same value up to the insertion order of object keys, at every level. */
  ghost predicate Reordered(v: Js, w: Js)
    decreases v, 1
  {
    match v
    case Arr(items) => w.Arr? && |items| == |w.items| && forall i :: 0 <= i < |items| ==> Reordered(items[i], w.items[i])
    case Obj(props) =>
      && w.Obj? && |props| == |w.props|
      && (forall i: nat :: i < |props| ==> HasTwin(v, w, i))
      && (forall j: nat :: j < |w.props| ==> IsTwin(v, w, j))
    case _ => v == w
  }

  ghost predicate HasTwin(v: Js, w: Js, i: nat)
    requires v.Obj? && w.Obj? && i < |v.props|
    decreases v, 0
  {
    exists j :: 0 <= j < |w.props| && v.props[i].key == w.props[j].key && Reordered(v.props[i].value, w.props[j].value)
  }

  ghost predicate IsTwin(v: Js, w: Js, j: nat)
    requires v.Obj? && w.Obj? && j < |w.props|
    decreases v, 0
  {
    exists i :: 0 <= i < |v.props| && v.props[i].key == w.props[j].key && Reordered(v.props[i].value, w.props[j].value)
  }

  lemma {:induction false} ReorderedHasSameData(v: Js, w: Js)
    requires WellFormed(v) && WellFormed(w) && Reordered(v, w)
    ensures ToJson(v) == ToJson(w)
    decreases v, 2
  {
    match v
    case Arr(items) =>
      forall i | 0 <= i < |items| ensures ToJson(items[i]) == ToJson(w.items[i]) {
        ReorderedHasSameData(items[i], w.items[i]);
      }
      assert ToJson(v).items == ToJson(w).items;
    case Obj(props) => ReorderedObjects(v, w);
    case _ =>
  }

  lemma {:induction false} ReorderedObjects(v: Js, w: Js)
    requires v.Obj? && WellFormed(v) && WellFormed(w) && Reordered(v, w)
    ensures ToJson(v) == ToJson(w)
    decreases v, 1
  {
    ReorderedIsObject(v, w);
    var a, b := v.props, w.props;
    hide Reordered, WellFormed, ToJson, HasMatch;
    forall i | 0 <= i < |a| ensures HasMatch(a[i], b) { MatchForward(v, w, i); }
    forall j | 0 <= j < |b| ensures HasMatch(b[j], a) { MatchBackward(v, w, j); }
    assert v == Obj(a) && w == Obj(b);
    ObjectsAgree(a, b);
  }

  lemma ReorderedIsObject(v: Js, w: Js)
    requires v.Obj? && WellFormed(v) && WellFormed(w) && Reordered(v, w)
    ensures w.Obj? && KeysDistinct(v.props) && KeysDistinct(w.props)
  {}

  lemma {:induction false} MatchForward(v: Js, w: Js, i: nat)
    requires v.Obj? && w.Obj? && WellFormed(v) && WellFormed(w) && Reordered(v, w) && i < |v.props|
    ensures HasMatch(v.props[i], w.props)
    decreases v, 0
  {
    var a, b := v.props, w.props;
    assert HasTwin(v, w, i);
    var j :| 0 <= j < |b| && a[i].key == b[j].key && Reordered(a[i].value, b[j].value);
    ReorderedHasSameData(a[i].value, b[j].value);
  }

  lemma {:induction false} MatchBackward(v: Js, w: Js, j: nat)
    requires v.Obj? && w.Obj? && WellFormed(v) && WellFormed(w) && Reordered(v, w) && j < |w.props|
    ensures HasMatch(w.props[j], v.props)
    decreases v, 0
  {
    var a, b := v.props, w.props;
    assert IsTwin(v, w, j);
    var i :| 0 <= i < |a| && a[i].key == b[j].key && Reordered(a[i].value, b[j].value);
    ReorderedHasSameData(a[i].value, b[j].value);
  }

  ghost predicate HasMatch(p: Prop, props: seq<Prop>) {
    exists j :: 0 <= j < |props| && p.key == props[j].key && ToJson(p.value) == ToJson(props[j].value)
  }

  lemma ObjectsAgree(a: seq<Prop>, b: seq<Prop>)
    requires KeysDistinct(a) && KeysDistinct(b)
    requires forall i :: 0 <= i < |a| ==> HasMatch(a[i], b)
    requires forall j :: 0 <= j < |b| ==> HasMatch(b[j], a)
    ensures ToJson(Obj(a)) == ToJson(Obj(b))
  {
    hide HasMatch;
    FieldsInclude(a, b);
    FieldsInclude(b, a);
    FieldsHold(a);
    FieldsHold(b);
    ObjectFields(a);
    ObjectFields(b);
    hide ToJson, Fields;
    SortedFieldsAgree(Fields(a), Fields(b));
  }

  lemma FieldsInclude(a: seq<Prop>, b: seq<Prop>)
    requires KeysDistinct(a) && KeysDistinct(b)
    requires forall i :: 0 <= i < |a| ==> HasMatch(a[i], b)
    ensures forall f :: f in Fields(a) ==> f in Fields(b)
  {
    FieldsHold(a);
    FieldsHold(b);
    hide ToJson, Fields;
    forall f | f in Fields(a) ensures f in Fields(b) {
      var p :| p in a && f == Field(p.key, ToJson(p.value));
      var i :| 0 <= i < |a| && a[i] == p;
      var j :| 0 <= j < |b| && a[i].key == b[j].key && ToJson(a[i].value) == ToJson(b[j].value);
      assert b[j] in b;
    }
  }
}
