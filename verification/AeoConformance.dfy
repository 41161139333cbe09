/** The JavaScript validator (src/continuity-core.js) mirrors the Rust one
    (continuity-core/src/aeo_validation.rs): exactly when the two agree, and AEOs on which they do not. */
module AeoConformance {
  import opened Prelude
  import opened Sorting
  import opened Canonicalization
  import opened CanonicalDecoding
  import opened JsCanonical
  import opened JsNormalize
  import opened JsObjects
  import P = AeoPipeline
  import R = AeoValidation

  // ----- Key order: UTF-16 code units against code points -----

  /** The two languages sort these keys alike. */
  ghost predicate SameOrder(a: string, b: string) { R.Before(a, b) <==> KeyLe(a, b) && a != b }

  predicate InBasicPlane(s: string) { forall i :: 0 <= i < |s| ==> (s[i] as nat) < 0x1_0000 }

  lemma {:induction false} OrdersAgree(a: string, b: string)
    requires InBasicPlane(a) && InBasicPlane(b)
    ensures SameOrder(a, b)
  {
    if a != "" && b != "" {
      assert a == [a[0]] + a[1..] && b == [b[0]] + b[1..];
      if a[0] == b[0] {
        OrdersAgree(a[1..], b[1..]);
      }
    }
  }

  // ----- One value on both sides -----

  /** The value the Rust side holds: every object a BTreeMap filled by inserting its properties. */
  function RustData(v: Js): Json
    decreases v, 1
  {
    match v
    case Boolean(b) => Bool(b)
    case Num(text) => Number(text)
    case Str(s) => String(s)
    case Arr(items) => Array(seq(|items|, i requires 0 <= i < |items| => RustData(items[i])))
    case Obj(props) => Object(RustFields(props))
    case _ => Null
  }

  function RustFields(props: seq<Prop>): seq<Field>
    decreases props, 0
  {
    if props == [] then []
    else R.Put(RustFields(props[..|props| - 1]), props[|props| - 1].key, RustData(props[|props| - 1].value))
  }

  function Data(v: Option<Js>): Option<Json> {
    match v case Some(x) => Some(RustData(x)) case None => None
  }

  lemma {:induction false} LookupLast(props: seq<Prop>, key: string)
    requires KeysDistinct(props) && props != []
    ensures var n := |props| - 1;
      Lookup(props, key) == if key == props[n].key then Some(props[n].value) else Lookup(props[..n], key)
  {
    var n := |props| - 1;
    if n > 0 {
      LookupLast(props[1..], key);
      assert props[1..][..n - 1] == props[..n][1..] && props[1..][n - 1] == props[n];
    }
  }

  lemma {:induction false} PutAbsent(fields: seq<Field>, key: string, value: Json)
    requires R.Get(fields, key) == None
    ensures |R.Put(fields, key, value)| == |fields| + 1
  {
    if fields != [] && !R.Before(key, fields[0].key) {
      PutAbsent(fields[1..], key, value);
    }
  }

  /** The map has the properties of the object, with their data, and no others. */
  lemma {:induction false} RustFieldsHold(props: seq<Prop>)
    requires KeysDistinct(props)
    ensures R.Ascending(RustFields(props)) && |RustFields(props)| == |props|
    ensures forall k :: R.Get(RustFields(props), k) == Data(Lookup(props, k))
  {
    hide R.Put, R.Ascending, RustData;
    if props == [] {
      assert R.Ascending([]) by { EmptyAscends(); }
    } else {
      var n := |props| - 1;
      var front := RustFields(props[..n]);
      RustFieldsHold(props[..n]);
      R.PutHolds(front, props[n].key, RustData(props[n].value));
      LookupFinds(props[..n], props[n].key);
      assert R.Get(front, props[n].key) == None;
      PutAbsent(front, props[n].key, RustData(props[n].value));
      forall k ensures R.Get(RustFields(props), k) == Data(Lookup(props, k)) {
        LookupLast(props, k);
      }
    }
  }

  lemma EmptyAscends()
    ensures R.Ascending([])
  {}

  lemma {:induction false} GetAt(fields: seq<Field>, i: nat)
    requires R.Ascending(fields) && i < |fields|
    ensures R.Get(fields, fields[i].key) == Some(fields[i].value)
  {
    if i > 0 {
      R.BeforeIsStrict(fields[0].key, fields[i].key);
      GetAt(fields[1..], i - 1);
    }
  }

  /** Each field of the map is a property of the object. */
  lemma FieldIsProp(props: seq<Prop>, i: nat)
    requires KeysDistinct(props) && i < |RustFields(props)|
    ensures exists k :: 0 <= k < |props| && RustFields(props)[i] == Field(props[k].key, RustData(props[k].value))
  {
    var f := RustFields(props)[i];
    RustFieldsHold(props);
    GetAt(RustFields(props), i);
    LookupFinds(props, f.key);
    assert Lookup(props, f.key).Some?;
    var k :| 0 <= k < |props| && props[k] == Prop(f.key, Lookup(props, f.key).value);
    assert f == Field(props[k].key, RustData(props[k].value));
  }

  /** The Rust value is built of BTreeMaps throughout. */
  lemma {:induction false} RustIsMap(v: Js)
    requires WellFormed(v)
    ensures R.IsMap(RustData(v))
    decreases v
  {
    match v
    case Arr(items) =>
      forall i | 0 <= i < |items| ensures R.IsMap(RustData(v).items[i]) { RustIsMap(items[i]); }
    case Obj(props) =>
      var fields := RustFields(props);
      RustFieldsHold(props);
      forall i | 0 <= i < |fields| ensures R.IsMap(fields[i].value) {
        FieldIsProp(props, i);
        var k :| 0 <= k < |props| && fields[i] == Field(props[k].key, RustData(props[k].value));
        RustIsMap(props[k].value);
      }
    case _ =>
  }

  // ----- When both sides print one text -----

  /** No own __proto__ property, and keys that the two languages sort alike, in every object. */
  ghost predicate Alike(v: Js) {
    match v
    case Arr(items) => forall i :: 0 <= i < |items| ==> Alike(items[i])
    case Obj(props) => KeysAlike(props) && forall i :: 0 <= i < |props| ==> Alike(props[i].value)
    case _ => true
  }

  ghost predicate KeysAlike(props: seq<Prop>) {
    && (forall i :: 0 <= i < |props| ==> props[i].key != PROTO)
    && forall i, j :: 0 <= i < |props| && 0 <= j < |props| ==> SameOrder(props[i].key, props[j].key)
  }

  /** The fields of the JavaScript data: one for each property but __proto__, in UTF-16 order. */
  lemma JsFields(props: seq<Prop>)
    requires KeysDistinct(props)
    ensures var fields := ToJson(Obj(props)).fields;
      && Sorted(fields, FieldLe) && FieldKeysDistinct(fields)
      && (forall f :: f in fields ==> f.key != PROTO && exists p :: p in props && f == Field(p.key, ToJson(p.value)))
      && (forall p :: p in props && p.key != PROTO ==> Field(p.key, ToJson(p.value)) in fields)
  {
    var fields := ToJson(Obj(props)).fields;
    FieldsHold(props);
    SortPermutes(Fields(props), FieldLe);
    FieldPreorder();
    SortSorts(Fields(props), FieldLe);
    FieldsAntisymmetric(Fields(props));
    PermutationIsDistinct(Fields(props), fields);
    hide ToJson, Fields, Sort, Sorted;
    forall i, j | 0 <= i < j < |fields| ensures fields[i].key != fields[j].key {
      assert fields[i] in fields && fields[j] in fields && fields[i] != fields[j];
      SameKeySameField(Fields(props), fields[i], fields[j]);
    }
  }

  lemma SameKeySameField(fields: seq<Field>, f: Field, g: Field)
    requires FieldKeysDistinct(fields) && f in fields && g in fields
    ensures f.key == g.key ==> f == g
  {}

  lemma PropAt(props: seq<Prop>, p: Prop) returns (i: nat)
    requires p in props
    ensures i < |props| && props[i] == p
  {
    i :| 0 <= i < |props| && props[i] == p;
  }

  lemma AlikeAscends(props: seq<Prop>)
    requires KeysDistinct(props) && KeysAlike(props)
    ensures R.Ascending(ToJson(Obj(props)).fields)
  {
    JsFields(props);
    var fields := ToJson(Obj(props)).fields;
    hide ToJson, KeyLe, R.Before;
    forall i, j | 0 <= i < j < |fields| ensures R.Before(fields[i].key, fields[j].key) {
      assert fields[i] in fields && fields[j] in fields;
      var p :| p in props && fields[i] == Field(p.key, ToJson(p.value));
      var q :| q in props && fields[j] == Field(q.key, ToJson(q.value));
      var a := PropAt(props, p);
      var b := PropAt(props, q);
      assert SameOrder(props[a].key, props[b].key);
      assert FieldLe(fields[i], fields[j]);
    }
  }

  lemma {:induction false} GetFound(fields: seq<Field>, f: Field)
    requires f in fields
    ensures R.Get(fields, f.key).Some?
  {
    if fields[0].key != f.key {
      GetFound(fields[1..], f);
    }
  }

  lemma JsGet(props: seq<Prop>, key: string)
    requires KeysDistinct(props) && KeysAlike(props)
    requires forall i :: 0 <= i < |props| ==> ToJson(props[i].value) == RustData(props[i].value)
    ensures R.Get(ToJson(Obj(props)).fields, key) == Data(Lookup(props, key))
  {
    JsFields(props);
    LookupFinds(props, key);
    var fields := ToJson(Obj(props)).fields;
    hide ToJson, RustData, Lookup, R.Get, KeysAlike, Sorted, FieldKeysDistinct;
    if R.Get(fields, key).Some? {
      R.GetFinds(fields, key);
      var i :| 0 <= i < |fields| && fields[i] == Field(key, R.Get(fields, key).value);
      assert fields[i] in fields;
      var p :| p in props && fields[i] == Field(p.key, ToJson(p.value));
      LookupIs(props, p);
      var k := PropAt(props, p);
    } else if Lookup(props, key).Some? {
      var p := Prop(key, Lookup(props, key).value);
      var k := PropAt(props, p);
      KeyIsKept(props, k);
      GetFound(fields, Field(key, ToJson(p.value)));
    }
  }

  lemma KeyIsKept(props: seq<Prop>, k: nat)
    requires KeysAlike(props) && k < |props|
    ensures props[k].key != PROTO
  {}

  lemma {:induction false} AlikeHasOneData(v: Js)
    requires WellFormed(v) && Alike(v)
    ensures ToJson(v) == RustData(v)
    decreases v
  {
    match v
    case Arr(items) =>
      forall i | 0 <= i < |items| ensures ToJson(items[i]) == RustData(items[i]) { AlikeHasOneData(items[i]); }
      assert ToJson(v).items == RustData(v).items;
    case Obj(props) =>
      forall i | 0 <= i < |props| ensures ToJson(props[i].value) == RustData(props[i].value) { AlikeHasOneData(props[i].value); }
      ObjectHasOneData(props);
    case _ =>
  }

  lemma ObjectHasOneData(props: seq<Prop>)
    requires KeysDistinct(props) && KeysAlike(props)
    requires forall i :: 0 <= i < |props| ==> ToJson(props[i].value) == RustData(props[i].value)
    ensures ToJson(Obj(props)) == RustData(Obj(props))
  {
    AlikeAscends(props);
    RustFieldsHold(props);
    assert ToJson(Obj(props)).Object? && RustData(Obj(props)) == Object(RustFields(props));
    hide ToJson, RustData, RustFields, KeysAlike, R.Ascending;
    forall k ensures R.Get(ToJson(Obj(props)).fields, k) == R.Get(RustFields(props), k) {
      JsGet(props, k);
    }
    R.GetDetermines(ToJson(Obj(props)).fields, RustFields(props));
  }

  lemma {:induction false} OneDataIsAlike(v: Js)
    requires WellFormed(v) && ToJson(v) == RustData(v)
    ensures Alike(v)
    decreases v
  {
    match v
    case Arr(items) =>
      assert ToJson(v).items == RustData(v).items;
      forall i | 0 <= i < |items| ensures Alike(items[i]) {
        assert ToJson(v).items[i] == ToJson(items[i]) && RustData(v).items[i] == RustData(items[i]);
        OneDataIsAlike(items[i]);
      }
    case Obj(props) =>
      OneDataKeys(props);
      forall i | 0 <= i < |props| ensures Alike(props[i].value) {
        OneDataValue(props, i);
        OneDataIsAlike(props[i].value);
      }
    case _ =>
  }

  /** Every property is a field on both sides. */
  lemma OneDataProp(props: seq<Prop>, i: nat) returns (at: nat)
    requires KeysDistinct(props) && ToJson(Obj(props)) == RustData(Obj(props)) && i < |props|
    ensures props[i].key != PROTO && at < |RustFields(props)|
    ensures RustFields(props)[at] == Field(props[i].key, RustData(props[i].value))
    ensures RustFields(props) == ToJson(Obj(props)).fields
  {
    RustFieldsHold(props);
    LookupAt(props, i);
    JsFields(props);
    hide ToJson, R.Ascending, Sorted, FieldKeysDistinct;
    var fields := RustFields(props);
    R.GetFinds(fields, props[i].key);
    var k :| 0 <= k < |fields| && fields[k] == Field(props[i].key, R.Get(fields, props[i].key).value);
    assert fields[k] in fields;
    at := k;
  }

  lemma OneDataValue(props: seq<Prop>, i: nat)
    requires KeysDistinct(props) && ToJson(Obj(props)) == RustData(Obj(props)) && i < |props|
    ensures ToJson(props[i].value) == RustData(props[i].value)
  {
    var k := OneDataProp(props, i);
    JsFields(props);
    hide ToJson, RustData, RustFields, Sorted;
    var fields := ToJson(Obj(props)).fields;
    var f := Field(props[i].key, ToJson(props[i].value));
    assert props[i] in props;
    assert f in fields && fields[k] in fields;
    SameKeySameField(fields, f, fields[k]);
  }

  lemma OneDataKeys(props: seq<Prop>)
    requires KeysDistinct(props) && ToJson(Obj(props)) == RustData(Obj(props))
    ensures KeysAlike(props)
  {
    hide ToJson, RustData, RustFields, SameOrder;
    forall i, j | 0 <= i < |props| && 0 <= j < |props|
      ensures props[i].key != PROTO && SameOrder(props[i].key, props[j].key)
    {
      var a := OneDataProp(props, i);
      var b := OneDataProp(props, j);
      RustFieldsHold(props);
      JsFields(props);
      SortedBothWays(RustFields(props), a, b);
    }
  }

  lemma SortedBothWays(fields: seq<Field>, a: nat, b: nat)
    requires R.Ascending(fields) && Sorted(fields, FieldLe) && a < |fields| && b < |fields|
    ensures SameOrder(fields[a].key, fields[b].key)
  {
    var x, y := fields[a].key, fields[b].key;
    R.BeforeIsStrict(x, y);
    R.BeforeIsStrict(y, x);
    hide R.Before, KeyLe;
    if a < b {
      assert FieldLe(fields[a], fields[b]);
    } else if b < a {
      assert FieldLe(fields[b], fields[a]);
      if KeyLe(x, y) { KeyLeAntisymmetric(x, y); }
    }
  }

  /** One text on both sides, exactly for such values. */
  lemma OneTextIffAlike(v: Js)
    requires WellFormed(v)
    ensures CanonicalText(v) == Text(RustData(v)) <==> Alike(v)
    ensures Canonicalize(v) == Some(Text(RustData(v))) <==> Alike(v)
    ensures NumbersValid(RustData(v))
  {
    CanonicalizeIsPrint(v);
    DataIsPrintable(v);
    RustIsPrintable(v);
    hide Canonicalize, Clashes, Text, ToJson, RustData, NumbersValid, Alike, WellFormed;
    if Text(ToJson(v)) == Text(RustData(v)) {
      TextInjective(ToJson(v), RustData(v), "", "");
      OneDataIsAlike(v);
    }
    if Alike(v) {
      AlikeHasOneData(v);
      AlikeSetsNone(v);
      NoPrototypeNoClash(v);
    }
  }

  lemma {:induction false} AlikeSetsNone(v: Js)
    requires Alike(v)
    ensures NoPrototype(v)
    decreases v
  {
    match v
    case Arr(items) =>
      forall i | 0 <= i < |items| ensures NoPrototype(items[i]) { AlikeSetsNone(items[i]); }
    case Obj(props) =>
      forall i | 0 <= i < |props| ensures NoPrototype(props[i].value) { AlikeSetsNone(props[i].value); }
    case _ =>
  }

  lemma {:induction false} RustIsPrintable(v: Js)
    requires WellFormed(v)
    ensures NumbersValid(RustData(v))
    decreases v
  {
    match v
    case Arr(items) =>
      forall i | 0 <= i < |items| ensures NumbersValid(RustData(v).items[i]) { RustIsPrintable(items[i]); }
    case Obj(props) =>
      var fields := RustFields(props);
      forall i | 0 <= i < |fields| ensures NumbersValid(fields[i].value) {
        FieldIsProp(props, i);
        var k :| 0 <= k < |props| && fields[i] == Field(props[k].key, RustData(props[k].value));
        RustIsPrintable(props[k].value);
      }
    case _ =>
  }

  // ----- Writing a field on both sides -----

  lemma AssignHolds(props: seq<Prop>, p: Prop)
    requires KeysDistinct(props) && p.key != PROTO
    ensures KeysDistinct(Assign(props, p))
    ensures forall q :: q in Assign(props, p) <==> q == p || (q in props && q.key != p.key)
  {
    if exists q :: q in props && q.key == p.key {
      var q :| q in props && q.key == p.key;
      var i :| 0 <= i < |props| && props[i] == q;
      AssignAt(props, i, p);
      var s := props[i := p];
      hide Assign;
      assert s[i] == p;
      forall x | x in props && x.key != p.key ensures x in s {
        var k :| 0 <= k < |props| && props[k] == x;
        assert s[k] == x;
      }
    } else {
      PlaceHolds(props, p);
    }
  }

  lemma LookupAfterAssign(props: seq<Prop>, s: seq<Prop>, p: Prop, key: string)
    requires KeysDistinct(props) && KeysDistinct(s)
    requires forall q :: q in s <==> q == p || (q in props && q.key != p.key)
    ensures Lookup(s, key) == if key == p.key then Some(p.value) else Lookup(props, key)
  {
    LookupFinds(s, key);
    LookupFinds(props, key);
    hide Lookup;
    if key == p.key {
      LookupIs(s, p);
    } else if Lookup(props, key).Some? {
      LookupIs(s, Prop(key, Lookup(props, key).value));
    }
  }

  /** Assigning a property is inserting into the map. */
  lemma AssignIsPut(props: seq<Prop>, p: Prop)
    requires KeysDistinct(props) && p.key != PROTO
    ensures RustFields(Assign(props, p)) == R.Put(RustFields(props), p.key, RustData(p.value))
  {
    AssignHolds(props, p);
    var s := Assign(props, p);
    RustFieldsHold(props);
    RustFieldsHold(s);
    R.PutHolds(RustFields(props), p.key, RustData(p.value));
    hide Assign, RustData, RustFields, R.Put, R.Get, R.Ascending, Lookup;
    forall k ensures R.Get(RustFields(s), k) == R.Get(R.Put(RustFields(props), p.key, RustData(p.value)), k) {
      LookupAfterAssign(props, s, p, k);
    }
    R.GetDetermines(RustFields(s), R.Put(RustFields(props), p.key, RustData(p.value)));
  }

  lemma LookupIsJson(props: seq<Prop>, key: string)
    requires WellFormed(Obj(props)) && P.IsJson(Obj(props)) && Lookup(props, key).Some?
    ensures WellFormed(Lookup(props, key).value) && P.IsJson(Lookup(props, key).value)
  {
    LookupFinds(props, key);
    var i :| 0 <= i < |props| && props[i] == Prop(key, Lookup(props, key).value);
  }

  lemma ObjectData(props: seq<Prop>)
    ensures RustData(Obj(props)) == Object(RustFields(props))
  {}

  lemma ClearedObject(props: seq<Prop>, inner: seq<Prop>)
    requires Lookup(props, "validation") == Some(Obj(inner))
    ensures P.ClearHash(Obj(props)) == Obj(Assign(props, Prop("validation", Obj(Assign(inner, Prop("object_hash", NullValue))))))
  {
    hide Assign, Lookup;
  }

  lemma NotProto()
    ensures PROTO != "object_hash" && PROTO != "validation" && RustData(NullValue) == Null
  {}

  lemma ClearedSection(props: seq<Prop>, inner: seq<Prop>)
    requires KeysDistinct(props) && KeysDistinct(inner) && Lookup(props, "validation") == Some(Obj(inner))
    ensures RustData(P.ClearHash(Obj(props))) ==
      Object(R.Put(RustFields(props), "validation", Object(R.Put(RustFields(inner), "object_hash", Null))))
  {
    NotProto();
    ClearedObject(props, inner);
    hide *;
    var cleared := Obj(Assign(inner, Prop("object_hash", NullValue)));
    AssignIsPut(inner, Prop("object_hash", NullValue));
    AssignIsPut(props, Prop("validation", cleared));
    ObjectData(cleared.props);
    ObjectData(Assign(props, Prop("validation", cleared)));
  }

  lemma RustCleared(fields: seq<Field>)
    ensures var section := R.Get(fields, "validation");
      R.AeoObjectForHash(Object(fields)) ==
        if section.Some? && section.value.Object?
        then Object(R.Put(fields, "validation", Object(R.Put(section.value.fields, "object_hash", Null))))
        else Object(fields)
  {}

  lemma JsNotCleared(props: seq<Prop>)
    requires Lookup(props, "validation").Some? ==> !Lookup(props, "validation").value.Obj?
    ensures P.ClearHash(Obj(props)) == Obj(props)
  {
    hide Lookup;
  }

  lemma DataIs(v: Option<Js>)
    ensures v == None ==> Data(v) == None
    ensures v.Some? && v.value.Obj? ==> Data(v) == Some(Object(RustFields(v.value.props)))
    ensures v.Some? && !v.value.Obj? ==> Data(v).Some? && !Data(v).value.Object?
  {}

  lemma ObjectKeys(v: Js)
    requires WellFormed(v) && v.Obj?
    ensures KeysDistinct(v.props)
  {}

  lemma ValidationOnBothSides(props: seq<Prop>)
    requires WellFormed(Obj(props)) && P.IsJson(Obj(props))
    ensures var js, rust := Lookup(props, "validation"), R.Get(RustFields(props), "validation");
      && (js.Some? && js.value.Obj? ==> KeysDistinct(js.value.props) && rust == Some(Object(RustFields(js.value.props))))
      && (!(js.Some? && js.value.Obj?) ==> !(rust.Some? && rust.value.Object?))
  {
    hide *;
    var js := Lookup(props, "validation");
    ObjectKeys(Obj(props));
    RustFieldsHold(props);
    DataIs(js);
    if js.Some? && js.value.Obj? {
      LookupIsJson(props, "validation");
      ObjectKeys(js.value);
    }
  }

  lemma HashedIsCleared(aeo: Js)
    requires P.IsJson(aeo)
    ensures P.AeoObjectForHash(aeo) == P.ClearHash(aeo)
  {
    P.CloneOfJson(aeo);
    hide P.ClearHash, P.JsonClone;
  }

  /** Both validators hash the same data. */
  lemma HashedObjectsAgree(props: seq<Prop>)
    requires WellFormed(Obj(props)) && P.IsJson(Obj(props))
    ensures RustData(P.AeoObjectForHash(Obj(props))) == R.AeoObjectForHash(RustData(Obj(props)))
  {
    HashedIsCleared(Obj(props));
    ValidationOnBothSides(props);
    assert KeysDistinct(props);
    hide *;
    ObjectData(props);
    RustCleared(RustFields(props));
    if Lookup(props, "validation").Some? && Lookup(props, "validation").value.Obj? {
      ClearedSection(props, Lookup(props, "validation").value.props);
    } else {
      JsNotCleared(props);
    }
  }

  // ----- The two validators, check by check -----

  lemma MembersAgree(props: seq<Prop>, section: string, key: string)
    requires WellFormed(Obj(props)) && P.IsJson(Obj(props))
    ensures var m := P.Member(Obj(props), section, key);
      && R.Member(RustFields(props), section, key) == (if m == Undefined then None else Some(RustData(m)))
      && WellFormed(m) && (m == Undefined || P.IsJson(m))
  {
    RustFieldsHold(props);
    hide R.Get, Lookup, RustFields, R.Ascending;
    if Lookup(props, section).Some? {
      LookupIsJson(props, section);
      var inner := Lookup(props, section).value;
      if inner.Obj? {
        RustFieldsHold(inner.props);
        if Lookup(inner.props, key).Some? {
          LookupIsJson(inner.props, key);
        }
      }
    }
  }

  lemma KeySet(props: seq<Prop>)
    requires KeysDistinct(props)
    ensures |RustFields(props)| == |props|
    ensures (set f | f in RustFields(props) :: f.key) == (set k | k in P.Keys(props))
    ensures Distinct(P.Keys(props))
  {
    RustFieldsHold(props);
    var fields, keys := RustFields(props), P.Keys(props);
    hide RustFields, RustData, R.Ascending;
    forall k ensures k in keys <==> exists f :: f in fields && f.key == k {
      KeyOnBothSides(props, fields, k);
    }
  }

  lemma KeyOnBothSides(props: seq<Prop>, fields: seq<Field>, key: string)
    requires forall k :: R.Get(fields, k).Some? <==> Lookup(props, k).Some?
    ensures key in P.Keys(props) <==> exists f :: f in fields && f.key == key
  {
    var keys := P.Keys(props);
    LookupFinds(props, key);
    if R.Get(fields, key).Some? {
      R.GetFinds(fields, key);
      var i :| 0 <= i < |fields| && fields[i] == Field(key, R.Get(fields, key).value);
      assert fields[i] in fields;
      var k := PropAt(props, Prop(key, Lookup(props, key).value));
      assert keys[k] == key;
    } else {
      forall f | f in fields && f.key == key ensures false { GetFound(fields, f); }
      forall i | 0 <= i < |keys| ensures keys[i] != key { assert props[i] in props; }
    }
  }

  lemma SortedKeysAgree(keys: seq<string>, required: seq<string>)
    requires Distinct(keys) && Distinct(required) && Sort(required, KeyLe) == required
    ensures Sort(keys, KeyLe) == required <==> |keys| == |required| && (set k | k in keys) == (set k | k in required)
  {
    P.KeyOrder();
    SortPermutes(keys, KeyLe);
    var a, b := set k | k in keys, set k | k in required;
    assert forall k :: (k in a <==> k in keys) && (k in b <==> k in required);
    hide Sort, KeyLe;
    if a == b {
      SameElements(keys, required);
      SortIsCanonical(keys, required, KeyLe);
    }
  }

  lemma SectionNames()
    ensures Distinct(P.REQUIRED_AEO_FIELDS) && |R.SECTIONS| == |P.REQUIRED_AEO_FIELDS|
    ensures (set s | s in R.SECTIONS) == (set s | s in P.REQUIRED_AEO_FIELDS)
    ensures forall s :: s in R.SECTIONS <==> s in P.REQUIRED_AEO_FIELDS
  {}

  lemma ShapesAgree(props: seq<Prop>)
    requires KeysDistinct(props)
    ensures P.HasExactShape(Obj(props)) <==> R.HasExactRequiredFields(RustFields(props))
  {
    KeySet(props);
    SectionNames();
    P.RequiredIsSorted();
    hide RustFields, Sort, KeyLe, Distinct;
    SortedKeysAgree(P.Keys(props), P.REQUIRED_AEO_FIELDS);
  }

  lemma AuthoritiesAgree(props: seq<Prop>, expected: string)
    requires WellFormed(Obj(props)) && P.IsJson(Obj(props))
    ensures P.SectionsMatch(Obj(props), expected) <==> R.AuthorityFieldsMatch(RustFields(props), expected)
  {
    forall s ensures P.Member(Obj(props), s, "authority_id") == Str(expected) <==>
                     R.Member(RustFields(props), s, "authority_id") == Some(String(expected)) {
      MembersAgree(props, s, "authority_id");
    }
    SectionNames();
    hide P.Member, R.Member;
  }

  // ----- Scope bounds -----

  function BoundsOf(aeo: Js): Js { P.Member(aeo, "scope", "bounds") }

  /** The bounds are strings within the maximum scope, at least one. */
  predicate StringBounds(bounds: Js, maximum: seq<string>) {
    && bounds.Arr? && bounds.items != []
    && forall i :: 0 <= i < |bounds.items| ==> bounds.items[i].Str? && bounds.items[i].s in maximum
  }

  predicate SomeJsBlank(bounds: Js) {
    bounds.Arr? && exists i :: 0 <= i < |bounds.items| && bounds.items[i].Str? && P.Blank(bounds.items[i].s)
  }

  predicate SomeRustBlank(bounds: Js) {
    bounds.Arr? && exists i :: 0 <= i < |bounds.items| && bounds.items[i].Str? && R.Blank(bounds.items[i].s)
  }

  lemma JsBounds(bounds: Js, maximum: seq<string>)
    ensures P.BoundsMatch(bounds, maximum) <==> StringBounds(bounds, maximum) && !SomeJsBlank(bounds)
  {
    hide P.Blank;
  }

  lemma RustBounds(props: seq<Prop>, maximum: seq<string>)
    requires WellFormed(Obj(props)) && P.IsJson(Obj(props))
    ensures var requested := R.ExtractScopeBounds(RustFields(props));
      (requested.Some? && R.ContainsAll(maximum, requested.value)) <==>
      StringBounds(BoundsOf(Obj(props)), maximum) && !SomeRustBlank(BoundsOf(Obj(props)))
  {
    MembersAgree(props, "scope", "bounds");
    var bounds := BoundsOf(Obj(props));
    assert bounds != Undefined && !bounds.Arr? ==> !RustData(bounds).Array?;
    if bounds.Arr? {
      ItemsAgree(bounds.items);
      assert R.Member(RustFields(props), "scope", "bounds") == Some(RustData(bounds));
      hide P.Member, R.Member, R.Blank, RustData, RustFields, WellFormed, P.IsJson;
      var items, requested := RustData(bounds).items, R.ExtractScopeBounds(RustFields(props));
      assert RustData(bounds) == Array(items);
      if requested.Some? {
        assert |requested.value| == |items|;
        forall i | 0 <= i < |items| ensures requested.value[i] in requested.value && bounds.items[i].Str? && bounds.items[i].s == requested.value[i] {}
      }
    }
  }

  lemma ItemsAgree(items: seq<Js>)
    ensures RustData(Arr(items)).Array? && |RustData(Arr(items)).items| == |items|
    ensures forall i :: 0 <= i < |items| ==> (items[i].Str? <==> RustData(Arr(items)).items[i].String?)
    ensures forall i :: 0 <= i < |items| && items[i].Str? ==> RustData(Arr(items)).items[i] == String(items[i].s)
  {}

  // ----- The two verdicts -----

  /** Everything both validators check in the same way. */
  predicate Passes(aeo: Js, context: R.Context) {
    && P.HasExactShape(aeo)
    && P.SectionsMatch(aeo, context.expectedAuthority)
    && StringBounds(BoundsOf(aeo), context.maximumScope)
    && P.Member(aeo, "validation", "object_hash").Str?
  }

  /** The text that the JavaScript side hashes, where `canonicalize` returns. */
  function JsText(aeo: Js): string { CanonicalText(P.AeoObjectForHash(aeo)) }

  /** The text that the Rust side hashes. */
  function RustText(aeo: Js): string { Text(R.AeoObjectForHash(RustData(aeo))) }

  ghost predicate JsStored(hash: string -> string, aeo: Js) {
    P.Member(aeo, "validation", "object_hash") == Str(hash(JsText(aeo)))
  }

  ghost predicate RustStored(hash: string -> string, aeo: Js) {
    P.Member(aeo, "validation", "object_hash") == Str(hash(RustText(aeo)))
  }

  predicate LongHash(aeo: Js) {
    var stored := P.Member(aeo, "validation", "object_hash");
    stored.Str? && |stored.s| == 64
  }

  lemma JsVerdict(hash: string -> string, aeo: Js, context: R.Context)
    requires DigestSized(hash) && WellFormed(aeo)
    ensures P.ValidateAeo(hash, aeo, context) == P.Valid <==>
      Passes(aeo, context) && !SomeJsBlank(BoundsOf(aeo)) && JsStored(hash, aeo) && !Clashes(P.AeoObjectForHash(aeo))
    ensures P.ValidateAeo(hash, aeo, context) == P.Crashed <==>
      Passes(aeo, context) && !SomeJsBlank(BoundsOf(aeo)) && LongHash(aeo) && Clashes(P.AeoObjectForHash(aeo))
  {
    JsBounds(BoundsOf(aeo), context.maximumScope);
    P.ObjectForHashIsWellFormed(aeo);
    CanonicalizeIsPrint(P.AeoObjectForHash(aeo));
    hide P.HasExactShape, P.SectionsMatch, P.BoundsMatch, StringBounds, SomeJsBlank, P.Member, CanonicalText, P.AeoObjectForHash, WellFormed,
      Canonicalize, Clashes;
  }

  lemma RustVerdict(hash: string -> string, aeo: Js, context: R.Context)
    requires DigestSized(hash) && WellFormed(aeo) && P.IsJson(aeo)
    ensures R.Accepted(hash, RustData(aeo), context) <==>
      Passes(aeo, context) && !SomeRustBlank(BoundsOf(aeo)) && RustStored(hash, aeo)
  {
    assert aeo.Obj? <==> RustData(aeo).Object?;
    if aeo.Obj? {
      assert aeo == Obj(aeo.props) && RustData(aeo) == Object(RustFields(aeo.props));
      ShapesAgree(aeo.props);
      AuthoritiesAgree(aeo.props, context.expectedAuthority);
      RustBounds(aeo.props, context.maximumScope);
      HashedIsPrintable(aeo);
      RustStoredHash(aeo.props);
      hide P.HasExactShape, P.SectionsMatch, StringBounds, SomeRustBlank, P.Member, R.AeoObjectForHash, RustData, RustFields,
        R.HasExactRequiredFields, R.AuthorityFieldsMatch, R.ExtractScopeBounds, R.ContainsAll, R.StoredHash, Text, NumbersValid,
        WellFormed, P.IsJson;
    } else {
      hide *;
      NoObjectPasses(aeo, context);
      NoObjectAccepted(hash, RustData(aeo), context);
    }
  }

  lemma NoObjectPasses(aeo: Js, context: R.Context)
    ensures !aeo.Obj? ==> !Passes(aeo, context)
  {}

  lemma NoObjectAccepted(hash: string -> string, v: Json, context: R.Context)
    ensures !v.Object? ==> !R.Accepted(hash, v, context)
  {}

  lemma RustStoredHash(props: seq<Prop>)
    requires WellFormed(Obj(props)) && P.IsJson(Obj(props))
    ensures var m := P.Member(Obj(props), "validation", "object_hash");
      R.StoredHash(Object(RustFields(props))) == if m.Str? then Some(m.s) else None
  {
    MembersAgree(props, "validation", "object_hash");
    var m := P.Member(Obj(props), "validation", "object_hash");
    assert m.Str? <==> RustData(m).String?;
    assert m.Str? ==> RustData(m) == String(m.s);
    hide P.Member, R.Member, RustData, RustFields;
  }

  lemma HashedIsPrintable(aeo: Js)
    requires WellFormed(aeo) && P.IsJson(aeo) && aeo.Obj?
    ensures NumbersValid(R.AeoObjectForHash(RustData(aeo)))
  {
    P.ObjectForHashIsWellFormed(aeo);
    assert aeo == Obj(aeo.props);
    HashedObjectsAgree(aeo.props);
    RustIsPrintable(P.AeoObjectForHash(aeo));
    hide *;
  }

  /** Clearing a stored hash replaces one leaf. */
  lemma HashedIs(aeo: Js) returns (props: seq<Prop>, i: nat, inner: seq<Prop>, j: nat)
    requires WellFormed(aeo) && P.IsJson(aeo) && P.Member(aeo, "validation", "object_hash").Str?
    ensures aeo == Obj(props) && i < |props| && props[i] == Prop("validation", Obj(inner))
    ensures j < |inner| && inner[j].key == "object_hash" && inner[j].value.Str?
    ensures P.AeoObjectForHash(aeo) ==
      Obj(props[i := Prop(props[i].key, Obj(inner[j := Prop(inner[j].key, NullValue)]))])
  {
    P.CloneOfJson(aeo);
    props := aeo.props;
    inner := Lookup(props, "validation").value.props;
    LookupIsJson(props, "validation");
    LookupFinds(props, "validation");
    LookupFinds(inner, "object_hash");
    i := PropAt(props, Prop("validation", Obj(inner)));
    j := PropAt(inner, Prop("object_hash", Lookup(inner, "object_hash").value));
    NotProto();
    AssignAt(inner, j, Prop("object_hash", NullValue));
    var cleared := inner[j := Prop("object_hash", NullValue)];
    AssignAt(props, i, Prop("validation", Obj(cleared)));
    assert P.AeoObjectForHash(aeo) == Obj(props[i := Prop("validation", Obj(cleared))]);
  }

  /** Clearing a stored hash leaves the keys, so whether the two sides print alike and whether JavaScript throws. */
  lemma HashedIsAlike(aeo: Js)
    requires WellFormed(aeo) && P.IsJson(aeo) && P.Member(aeo, "validation", "object_hash").Str?
    ensures Alike(P.AeoObjectForHash(aeo)) <==> Alike(aeo)
    ensures Clashes(P.AeoObjectForHash(aeo)) <==> Clashes(aeo)
  {
    var props, i, inner, j := HashedIs(aeo);
    hide P.AeoObjectForHash, P.Member, WellFormed, P.IsJson;
    assert Alike(inner[j].value) && Alike(NullValue) && !Clashes(inner[j].value) && !Clashes(NullValue);
    var cleared := Obj(inner[j := Prop(inner[j].key, NullValue)]);
    ReplacedIsAlike(inner, j, NullValue);
    ReplacedClashes(inner, j, NullValue);
    ReplacedIsAlike(props, i, cleared);
    ReplacedClashes(props, i, cleared);
  }

  /** Only the value of a `__proto__` property locks keys. */
  lemma ReplacedClashes(props: seq<Prop>, i: nat, value: Js)
    requires i < |props| && props[i].key != PROTO && (Clashes(value) <==> Clashes(props[i].value))
    ensures Clashes(Obj(props[i := Prop(props[i].key, value)])) <==> Clashes(Obj(props))
  {
    var s := props[i := Prop(props[i].key, value)];
    hide Locked;
    assert forall a, b :: 0 <= a < |props| && 0 <= b < |props| ==> (ClashAt(s[a], s[b]) <==> ClashAt(props[a], props[b]));
    assert KeyClash(s) <==> KeyClash(props);
    assert forall k :: 0 <= k < |props| ==> (Clashes(s[k].value) <==> Clashes(props[k].value));
    if Clashes(Obj(s)) && !KeyClash(s) {
      var k :| 0 <= k < |s| && Clashes(s[k].value);
      assert Clashes(props[k].value);
    }
    if Clashes(Obj(props)) && !KeyClash(props) {
      var k :| 0 <= k < |props| && Clashes(props[k].value);
      assert Clashes(s[k].value);
    }
  }

  lemma ReplacedIsAlike(props: seq<Prop>, i: nat, value: Js)
    requires i < |props| && (Alike(value) <==> Alike(props[i].value))
    ensures Alike(Obj(props[i := Prop(props[i].key, value)])) <==> Alike(Obj(props))
  {
    var s := props[i := Prop(props[i].key, value)];
    assert forall k :: 0 <= k < |props| ==> s[k].key == props[k].key;
    hide SameOrder;
    assert KeysAlike(s) <==> KeysAlike(props);
  }

  lemma TextsAgree(aeo: Js)
    requires WellFormed(aeo) && P.IsJson(aeo) && P.Member(aeo, "validation", "object_hash").Str?
    ensures JsText(aeo) == RustText(aeo) <==> Alike(aeo)
  {
    P.ObjectForHashIsWellFormed(aeo);
    assert aeo == Obj(aeo.props);
    HashedObjectsAgree(aeo.props);
    HashedIsAlike(aeo);
    OneTextIffAlike(P.AeoObjectForHash(aeo));
    hide CanonicalText, Canonicalize, Text, RustData, Alike, WellFormed, P.IsJson, P.AeoObjectForHash, R.AeoObjectForHash, P.Member;
  }

  // ----- Exactly when the validators part -----

  /** JavaScript takes the AEO: it is blameless there, and Rust finds a blank bound or another text. */
  ghost predicate JsAlone(hash: string -> string, aeo: Js, context: R.Context) {
    && Passes(aeo, context) && JsStored(hash, aeo) && !SomeJsBlank(BoundsOf(aeo)) && !Clashes(aeo)
    && (SomeRustBlank(BoundsOf(aeo)) || !Alike(aeo))
  }

  ghost predicate RustAlone(hash: string -> string, aeo: Js, context: R.Context) {
    && Passes(aeo, context) && RustStored(hash, aeo) && !SomeRustBlank(BoundsOf(aeo))
    && (SomeJsBlank(BoundsOf(aeo)) || !Alike(aeo))
  }

  /** For a value that JSON can carry the two verdicts differ exactly for an AEO of one of these two kinds, unless
      the two texts that the sides hash collide; and JavaScript throws exactly for a clash that it gets to. */
  lemma DivergenceIsExact(hash: string -> string, aeo: Js, context: R.Context)
    requires DigestSized(hash) && WellFormed(aeo) && P.IsJson(aeo)
    requires !R.Collision(hash, JsText(aeo), RustText(aeo))
    ensures R.IsMap(RustData(aeo))
    ensures P.ValidateAeo(hash, aeo, context) == P.Valid && !R.Accepted(hash, RustData(aeo), context) <==> JsAlone(hash, aeo, context)
    ensures R.Accepted(hash, RustData(aeo), context) && P.ValidateAeo(hash, aeo, context) != P.Valid <==> RustAlone(hash, aeo, context)
    ensures P.ValidateAeo(hash, aeo, context) == P.Crashed <==>
      Passes(aeo, context) && !SomeJsBlank(BoundsOf(aeo)) && LongHash(aeo) && Clashes(aeo)
  {
    RustIsMap(aeo);
    JsVerdict(hash, aeo, context);
    RustVerdict(hash, aeo, context);
    if P.Member(aeo, "validation", "object_hash").Str? {
      TextsAgree(aeo);
      HashedIsAlike(aeo);
      AlikeNeverClashes(aeo);
    }
    hide P.HasExactShape, P.SectionsMatch, StringBounds, SomeJsBlank, SomeRustBlank, P.Member, JsText, RustText, P.ValidateAeo,
      R.Accepted, Alike, WellFormed, P.IsJson, R.IsMap, Clashes, P.AeoObjectForHash;
  }

  lemma AlikeNeverClashes(v: Js)
    ensures Alike(v) ==> !Clashes(v)
  {
    if Alike(v) {
      AlikeSetsNone(v);
      NoPrototypeNoClash(v);
    }
  }

  /** Where the sides print alike, the verdicts are one exactly if no bound of an otherwise acceptable AEO is
      blank in one language alone. */
  lemma ValidatorsAgree(hash: string -> string, aeo: Js, context: R.Context)
    requires DigestSized(hash) && WellFormed(aeo) && P.IsJson(aeo) && Alike(aeo)
    ensures R.IsMap(RustData(aeo)) && ToJson(aeo) == RustData(aeo)
    ensures (P.ValidateAeo(hash, aeo, context) == P.Valid <==> R.Accepted(hash, RustData(aeo), context)) <==>
      (Passes(aeo, context) && JsStored(hash, aeo) ==> (SomeJsBlank(BoundsOf(aeo)) <==> SomeRustBlank(BoundsOf(aeo))))
  {
    RustIsMap(aeo);
    AlikeHasOneData(aeo);
    JsVerdict(hash, aeo, context);
    RustVerdict(hash, aeo, context);
    if P.Member(aeo, "validation", "object_hash").Str? {
      TextsAgree(aeo);
      HashedIsAlike(aeo);
      AlikeNeverClashes(aeo);
    }
    hide P.HasExactShape, P.SectionsMatch, StringBounds, SomeJsBlank, SomeRustBlank, P.Member, JsText, RustText, P.ValidateAeo,
      R.Accepted, Alike, WellFormed, P.IsJson, R.IsMap, Clashes, P.AeoObjectForHash;
  }

  // ----- AEOs on which the validators part -----

  /** A complete AEO with further properties in its intent, one bound, and a stored hash. */
  function Sample(intent: seq<Prop>, bound: string, objectHash: Js): Js {
    Obj([Prop("finality", Obj([AUTHORITY])), Prop("intent", Obj([AUTHORITY] + intent)),
         Prop("scope", Obj([AUTHORITY, Prop("bounds", Arr([Str(bound)]))])), Prop("target", Obj([AUTHORITY])),
         Prop("validation", Obj([AUTHORITY, Prop("object_hash", objectHash)]))])
  }

  const AUTHORITY := Prop("authority_id", Str("authority-1"))

  function SampleContext(bound: string): R.Context { R.Context("authority-1", [bound]) }

  ghost predicate Extra(intent: seq<Prop>) {
    WellFormed(Obj([AUTHORITY] + intent)) && P.IsJson(Obj([AUTHORITY] + intent))
  }

  lemma LeavesAreExtra(intent: seq<Prop>)
    requires KeysDistinct(intent)
    requires forall i :: 0 <= i < |intent| ==> intent[i].key != "authority_id" && (intent[i].value.Str? || intent[i].value.NullValue?)
    ensures Extra(intent)
  {
    var props := [AUTHORITY] + intent;
    forall i | 0 <= i < |props| ensures WellFormed(props[i].value) && P.IsJson(props[i].value) {
      assert props[i] == if i == 0 then AUTHORITY else intent[i - 1];
    }
    assert KeysDistinct(props);
  }

  lemma LeavesDoNotClash(intent: seq<Prop>)
    requires forall i :: 0 <= i < |intent| ==> intent[i].value.Str? || intent[i].value.NullValue?
    ensures !Clashes(Obj([AUTHORITY] + intent))
  {
    var props := [AUTHORITY] + intent;
    forall i | 0 <= i < |props| ensures !props[i].value.Obj? && !props[i].value.Arr? {
      assert props[i] == if i == 0 then AUTHORITY else intent[i - 1];
    }
  }

  lemma SampleIsJson(intent: seq<Prop>, bound: string, objectHash: Js)
    requires Extra(intent) && (objectHash.NullValue? || objectHash.Str?)
    ensures WellFormed(Sample(intent, bound, objectHash)) && P.IsJson(Sample(intent, bound, objectHash))
  {
    BoundIsJson(bound);
    SectionIsJson(Prop("bounds", Arr([Str(bound)])));
    SectionIsJson(Prop("object_hash", objectHash));
    ExtraHolds(intent);
    SampleLookups(intent, bound, objectHash);
    FiveSections(Sample(intent, bound, objectHash).props, [AUTHORITY] + intent, [AUTHORITY, Prop("bounds", Arr([Str(bound)]))],
      [AUTHORITY, Prop("object_hash", objectHash)]);
  }

  lemma BoundIsJson(bound: string)
    ensures WellFormed(Arr([Str(bound)])) && P.IsJson(Arr([Str(bound)]))
  {}

  lemma FiveSections(props: seq<Prop>, intent: seq<Prop>, scope: seq<Prop>, validation: seq<Prop>)
    requires KeysDistinct(props) && |props| == 5
    requires WellFormed(Obj([AUTHORITY])) && P.IsJson(Obj([AUTHORITY])) && WellFormed(Obj(intent)) && P.IsJson(Obj(intent))
    requires WellFormed(Obj(scope)) && P.IsJson(Obj(scope)) && WellFormed(Obj(validation)) && P.IsJson(Obj(validation))
    requires props[0].value == props[3].value == Obj([AUTHORITY]) && props[1].value == Obj(intent)
    requires props[2].value == Obj(scope) && props[4].value == Obj(validation)
    ensures WellFormed(Obj(props)) && P.IsJson(Obj(props))
  {
    hide KeysDistinct, AUTHORITY;
    forall i | 0 <= i < |props| ensures WellFormed(props[i].value) && P.IsJson(props[i].value) {}
  }

  lemma ExtraHolds(intent: seq<Prop>)
    requires Extra(intent)
    ensures WellFormed(Obj([AUTHORITY] + intent)) && P.IsJson(Obj([AUTHORITY] + intent))
  {}

  lemma SectionIsJson(p: Prop)
    requires p.key != "authority_id" && WellFormed(p.value) && P.IsJson(p.value)
    ensures WellFormed(Obj([AUTHORITY, p])) && P.IsJson(Obj([AUTHORITY, p]))
    ensures WellFormed(Obj([AUTHORITY])) && P.IsJson(Obj([AUTHORITY]))
  {}

  lemma SampleLookups(intent: seq<Prop>, bound: string, objectHash: Js)
    ensures var props := Sample(intent, bound, objectHash).props;
      && KeysDistinct(props) && P.Keys(props) == P.REQUIRED_AEO_FIELDS
      && Lookup(props, "finality") == Lookup(props, "target") == Some(Obj([AUTHORITY]))
      && Lookup(props, "intent") == Some(Obj([AUTHORITY] + intent))
      && Lookup(props, "scope") == Some(Obj([AUTHORITY, Prop("bounds", Arr([Str(bound)]))]))
      && Lookup(props, "validation") == Some(Obj([AUTHORITY, Prop("object_hash", objectHash)]))
  {
    var props := Sample(intent, bound, objectHash).props;
    hide Lookup;
    LookupAt(props, 0);
    LookupAt(props, 1);
    LookupAt(props, 2);
    LookupAt(props, 3);
    LookupAt(props, 4);
  }

  lemma SecondLookup(p: Prop)
    requires p.key != "authority_id"
    ensures Lookup([AUTHORITY, p], p.key) == Some(p.value)
  {
    LookupAt([AUTHORITY, p], 1);
  }

  lemma FirstLookup(rest: seq<Prop>)
    ensures Lookup([AUTHORITY] + rest, "authority_id") == Some(Str("authority-1"))
  {}

  lemma SampleMembers(intent: seq<Prop>, bound: string, objectHash: Js)
    ensures var aeo := Sample(intent, bound, objectHash);
      && (forall s :: s in P.REQUIRED_AEO_FIELDS ==> P.Member(aeo, s, "authority_id") == Str("authority-1"))
      && BoundsOf(aeo) == Arr([Str(bound)]) && P.Member(aeo, "validation", "object_hash") == objectHash
  {
    SampleLookups(intent, bound, objectHash);
    FirstLookup([]);
    FirstLookup(intent);
    FirstLookup([Prop("bounds", Arr([Str(bound)]))]);
    FirstLookup([Prop("object_hash", objectHash)]);
    SecondLookup(Prop("bounds", Arr([Str(bound)])));
    SecondLookup(Prop("object_hash", objectHash));
    assert [AUTHORITY] + [] == [AUTHORITY];
    assert [AUTHORITY] + [Prop("bounds", Arr([Str(bound)]))] == [AUTHORITY, Prop("bounds", Arr([Str(bound)]))];
    assert [AUTHORITY] + [Prop("object_hash", objectHash)] == [AUTHORITY, Prop("object_hash", objectHash)];
    hide Lookup, Sample, AUTHORITY;
    assert Sample(intent, bound, objectHash).Obj? by { SampleIsObject(intent, bound, objectHash); }
  }

  lemma SampleIsObject(intent: seq<Prop>, bound: string, objectHash: Js)
    ensures Sample(intent, bound, objectHash).Obj?
  {}

  lemma SamplePasses(intent: seq<Prop>, bound: string, objectHash: string)
    ensures Passes(Sample(intent, bound, Str(objectHash)), SampleContext(bound))
  {
    SampleLookups(intent, bound, Str(objectHash));
    SampleMembers(intent, bound, Str(objectHash));
    P.RequiredIsSorted();
    SampleIsObject(intent, bound, Str(objectHash));
    hide Sample, Lookup, P.Member, Sort, KeyLe;
  }

  /** The stored hash does not enter the text it is the hash of. */
  lemma SampleForHash(intent: seq<Prop>, bound: string, objectHash: string)
    requires Extra(intent)
    ensures P.AeoObjectForHash(Sample(intent, bound, Str(objectHash))) == Sample(intent, bound, NullValue)
  {
    SampleIsJson(intent, bound, Str(objectHash));
    SampleLookups(intent, bound, Str(objectHash));
    SampleCleared(intent, bound, objectHash);
    SampleIsObject(intent, bound, Str(objectHash));
    hide *;
    var aeo := Sample(intent, bound, Str(objectHash));
    HashedIsCleared(aeo);
    ClearedObject(aeo.props, [AUTHORITY, Prop("object_hash", Str(objectHash))]);
  }

  lemma ClearedHash(objectHash: string)
    ensures Assign([AUTHORITY, Prop("object_hash", Str(objectHash))], Prop("object_hash", NullValue)) == [AUTHORITY, Prop("object_hash", NullValue)]
  {
    var inner := [AUTHORITY, Prop("object_hash", Str(objectHash))];
    NotProto();
    hide Assign;
    AssignAt(inner, 1, Prop("object_hash", NullValue));
    assert inner[1 := Prop("object_hash", NullValue)] == [AUTHORITY, Prop("object_hash", NullValue)];
  }

  lemma SampleCleared(intent: seq<Prop>, bound: string, objectHash: string)
    ensures Sample(intent, bound, Str(objectHash)).Obj?
    ensures Assign([AUTHORITY, Prop("object_hash", Str(objectHash))], Prop("object_hash", NullValue)) == [AUTHORITY, Prop("object_hash", NullValue)]
    ensures Obj(Assign(Sample(intent, bound, Str(objectHash)).props, Prop("validation", Obj([AUTHORITY, Prop("object_hash", NullValue)])))) ==
      Sample(intent, bound, NullValue)
  {
    SampleIsObject(intent, bound, Str(objectHash));
    ValidationIsLast(intent, bound, objectHash);
    hide *;
    ClearedHash(objectHash);
    SampleLookups(intent, bound, Str(objectHash));
    NotProto();
    AssignAt(Sample(intent, bound, Str(objectHash)).props, 4, Prop("validation", Obj([AUTHORITY, Prop("object_hash", NullValue)])));
  }

  lemma ValidationIsLast(intent: seq<Prop>, bound: string, objectHash: string)
    ensures var props := Sample(intent, bound, Str(objectHash)).props;
      && |props| == 5 && props[4].key == "validation"
      && Obj(props[4 := Prop("validation", Obj([AUTHORITY, Prop("object_hash", NullValue)]))]) == Sample(intent, bound, NullValue)
  {
    hide AUTHORITY;
  }

  lemma JsSealed(hash: string -> string, intent: seq<Prop>, bound: string)
    requires Extra(intent)
    ensures WellFormed(Sample(intent, bound, NullValue))
    ensures var aeo := Sample(intent, bound, Str(hash(CanonicalText(Sample(intent, bound, NullValue)))));
      && WellFormed(aeo) && P.IsJson(aeo) && JsStored(hash, aeo) && Passes(aeo, SampleContext(bound))
      && BoundsOf(aeo) == Arr([Str(bound)])
  {
    SampleIsJson(intent, bound, NullValue);
    var h := hash(CanonicalText(Sample(intent, bound, NullValue)));
    SampleIsJson(intent, bound, Str(h));
    SampleForHash(intent, bound, h);
    SampleMembers(intent, bound, Str(h));
    SamplePasses(intent, bound, h);
    hide Sample, CanonicalText, P.AeoObjectForHash, P.Member, Passes, WellFormed, P.IsJson, BoundsOf;
  }

  lemma PlainBound()
    ensures !P.Blank("action:write") && !R.Blank("action:write")
  {
    assert "action:write"[0] in "action:write";
  }

  /** An AEO that the two sides do not print alike, sealed with the JavaScript text: JavaScript takes it, unless it
      throws, and Rust refuses it unless the two texts collide. */
  lemma UnalikeDivergence(hash: string -> string, intent: seq<Prop>)
    requires DigestSized(hash) && Extra(intent) && !Alike(Obj([AUTHORITY] + intent)) && !Clashes(Obj([AUTHORITY] + intent))
    ensures var aeo := Sample(intent, "action:write", Str(hash(CanonicalText(Sample(intent, "action:write", NullValue)))));
      && WellFormed(aeo) && JsText(aeo) != RustText(aeo)
      && P.ValidateAeo(hash, aeo, SampleContext("action:write")) == P.Valid
      && (R.Accepted(hash, RustData(aeo), SampleContext("action:write")) ==> R.Collision(hash, JsText(aeo), RustText(aeo)))
  {
    hide *;
    JsSealed(hash, intent, "action:write");
    var h := hash(CanonicalText(Sample(intent, "action:write", NullValue)));
    var aeo := Sample(intent, "action:write", Str(h));
    SampleIsUnalike(intent, "action:write", Str(h));
    SampleClashes(intent, "action:write", Str(h));
    PlainBound();
    OneBound("action:write");
    JsVerdict(hash, aeo, SampleContext("action:write"));
    RustVerdict(hash, aeo, SampleContext("action:write"));
    StoredIsString(hash, aeo);
    HashedIsAlike(aeo);
    TextsAgree(aeo);
    BothStored(hash, aeo);
  }

  lemma StoredIsString(hash: string -> string, aeo: Js)
    ensures JsStored(hash, aeo) || RustStored(hash, aeo) ==> P.Member(aeo, "validation", "object_hash").Str?
  {
    hide P.Member;
  }

  /** One stored hash for two texts. */
  lemma BothStored(hash: string -> string, aeo: Js)
    ensures JsStored(hash, aeo) && RustStored(hash, aeo) ==> JsText(aeo) == RustText(aeo) || R.Collision(hash, JsText(aeo), RustText(aeo))
  {
    hide P.Member, JsText, RustText;
  }

  lemma SampleClashes(intent: seq<Prop>, bound: string, objectHash: Js)
    requires !objectHash.Obj? && !objectHash.Arr?
    ensures Clashes(Sample(intent, bound, objectHash)) <==> Clashes(Obj([AUTHORITY] + intent))
  {
    var props := Sample(intent, bound, objectHash).props;
    assert !Clashes(AUTHORITY.value) && !Clashes(Str(bound)) && !Clashes(objectHash);
    PlainSections(bound, objectHash);
    hide AUTHORITY;
    forall i | 0 <= i < |props| ensures props[i].key != PROTO && (i != 1 ==> !Clashes(props[i].value)) {}
    assert props[1].value == Obj([AUTHORITY] + intent);
    assert !KeyClash(props);
  }

  lemma PlainSections(bound: string, objectHash: Js)
    requires !objectHash.Obj? && !objectHash.Arr?
    ensures !Clashes(Obj([AUTHORITY])) && !Clashes(Obj([AUTHORITY, Prop("bounds", Arr([Str(bound)]))]))
    ensures !Clashes(Obj([AUTHORITY, Prop("object_hash", objectHash)]))
  {
    assert !Clashes(Str(bound)) && !Clashes(AUTHORITY.value) && !Clashes(objectHash);
    assert !Clashes(Arr([Str(bound)]));
  }

  lemma SampleIsUnalike(intent: seq<Prop>, bound: string, objectHash: Js)
    requires !Alike(Obj([AUTHORITY] + intent))
    ensures !Alike(Sample(intent, bound, objectHash))
  {
    var props := Sample(intent, bound, objectHash).props;
    assert props[1].value == Obj([AUTHORITY] + intent);
  }

  /** Two keys that the languages sort in opposite orders. */
  lemma KeyOrderDivergence(hash: string -> string)
    requires DigestSized(hash)
    ensures var intent := [Prop("\U{FF61}", NullValue), Prop("\U{1F600}", NullValue)];
      var aeo := Sample(intent, "action:write", Str(hash(CanonicalText(Sample(intent, "action:write", NullValue)))));
      && WellFormed(aeo) && JsText(aeo) != RustText(aeo)
      && P.ValidateAeo(hash, aeo, SampleContext("action:write")) == P.Valid
      && (R.Accepted(hash, RustData(aeo), SampleContext("action:write")) ==> R.Collision(hash, JsText(aeo), RustText(aeo)))
  {
    var intent := [Prop("\U{FF61}", NullValue), Prop("\U{1F600}", NullValue)];
    assert "\U{FF61}"[0] != "\U{1F600}"[0];
    LeavesAreExtra(intent);
    var props := [AUTHORITY] + intent;
    assert !SameOrder(props[1].key, props[2].key) by { KeyOrdersDiffer(); }
    LeavesDoNotClash(intent);
    hide *;
    UnalikeKeys(props, 1, 2);
    UnalikeDivergence(hash, intent);
  }

  lemma KeyOrdersDiffer()
    ensures R.Before("\U{FF61}", "\U{1F600}") && !KeyLe("\U{FF61}", "\U{1F600}")
  {}

  lemma UnalikeKeys(props: seq<Prop>, i: nat, j: nat)
    requires i < |props| && j < |props| && (!SameOrder(props[i].key, props[j].key) || props[i].key == PROTO)
    ensures !Alike(Obj(props))
  {
    hide SameOrder;
  }

  /** An own __proto__ property, which JavaScript leaves out of its text. */
  lemma ProtoDivergence(hash: string -> string)
    requires DigestSized(hash)
    ensures var intent := [Prop(PROTO, Str("x"))];
      var aeo := Sample(intent, "action:write", Str(hash(CanonicalText(Sample(intent, "action:write", NullValue)))));
      && WellFormed(aeo) && JsText(aeo) != RustText(aeo)
      && P.ValidateAeo(hash, aeo, SampleContext("action:write")) == P.Valid
      && (R.Accepted(hash, RustData(aeo), SampleContext("action:write")) ==> R.Collision(hash, JsText(aeo), RustText(aeo)))
  {
    var intent := [Prop(PROTO, Str("x"))];
    LeavesAreExtra(intent);
    var props := [AUTHORITY] + intent;
    assert props[1].key == PROTO;
    LeavesDoNotClash(intent);
    hide *;
    UnalikeKeys(props, 1, 1);
    UnalikeDivergence(hash, intent);
  }

  /** An own `__proto__` object that holds a later key of the same object, sealed with the Rust text: Rust takes the
      AEO, and validateAeo throws. */
  lemma CrashDivergence(hash: string -> string)
    requires DigestSized(hash)
    ensures var intent := [Prop(PROTO, Obj([Prop("z", NullValue)])), Prop("z", NullValue)];
      var aeo := Sample(intent, "action:write", Str(hash(Text(RustData(Sample(intent, "action:write", NullValue))))));
      && WellFormed(aeo) && P.ValidateAeo(hash, aeo, SampleContext("action:write")) == P.Crashed
      && R.Accepted(hash, RustData(aeo), SampleContext("action:write"))
  {
    var intent := [Prop(PROTO, Obj([Prop("z", NullValue)])), Prop("z", NullValue)];
    ProtoIntent();
    hide *;
    var h := hash(Text(RustData(Sample(intent, "action:write", NullValue))));
    var aeo := Sample(intent, "action:write", Str(h));
    SampleIsJson(intent, "action:write", Str(h));
    RustSealed(hash, intent, "action:write");
    SampleClashes(intent, "action:write", Str(h));
    SampleMembers(intent, "action:write", Str(h));
    PlainBound();
    OneBound("action:write");
    JsVerdict(hash, aeo, SampleContext("action:write"));
    RustVerdict(hash, aeo, SampleContext("action:write"));
    HashedIsAlike(aeo);
    StoredIsLong(hash, aeo);
  }

  lemma ProtoIntent()
    ensures var intent := [Prop(PROTO, Obj([Prop("z", NullValue)])), Prop("z", NullValue)];
      Extra(intent) && Clashes(Obj([AUTHORITY] + intent))
  {
    var inner := Obj([Prop("z", NullValue)]);
    assert WellFormed(inner) && P.IsJson(inner);
    var props := [AUTHORITY] + [Prop(PROTO, inner), Prop("z", NullValue)];
    LaterKeyClashes(props, "z");
    assert props[0] == AUTHORITY && props[1] == Prop(PROTO, inner) && props[2] == Prop("z", NullValue);
    assert KeysDistinct(props);
    forall i | 0 <= i < |props| ensures WellFormed(props[i].value) && P.IsJson(props[i].value) {}
  }

  lemma StoredIsLong(hash: string -> string, aeo: Js)
    requires DigestSized(hash)
    ensures RustStored(hash, aeo) ==> LongHash(aeo)
  {
    hide P.Member, RustText;
  }

  lemma RustSealed(hash: string -> string, intent: seq<Prop>, bound: string)
    requires Extra(intent)
    ensures var aeo := Sample(intent, bound, Str(hash(Text(RustData(Sample(intent, bound, NullValue))))));
      && RustStored(hash, aeo) && Passes(aeo, SampleContext(bound)) && BoundsOf(aeo) == Arr([Str(bound)])
  {
    hide *;
    var h := hash(Text(RustData(Sample(intent, bound, NullValue))));
    var aeo := Sample(intent, bound, Str(h));
    SampleIsJson(intent, bound, Str(h));
    SampleForHash(intent, bound, h);
    SampleMembers(intent, bound, Str(h));
    SamplePasses(intent, bound, h);
    SampleIsObject(intent, bound, Str(h));
    HashedObjectsAgree(aeo.props);
    RustStoredIs(hash, aeo);
  }

  lemma RustStoredIs(hash: string -> string, aeo: Js)
    ensures RustStored(hash, aeo) <==> P.Member(aeo, "validation", "object_hash") == Str(hash(Text(R.AeoObjectForHash(RustData(aeo)))))
  {}

  /** Bounds that are blank in one language alone: Rust takes the first AEO and JavaScript refuses it, and
      the other way round for the second, whatever the Rust context. */
  lemma BlankDivergence(hash: string -> string, rustContext: R.Context)
    requires DigestSized(hash)
    ensures var aeo := Sample([], "\U{FEFF}", Str(hash(CanonicalText(Sample([], "\U{FEFF}", NullValue)))));
      && WellFormed(aeo) && P.ValidateAeo(hash, aeo, SampleContext("\U{FEFF}")) == P.Rejected
      && R.Accepted(hash, RustData(aeo), SampleContext("\U{FEFF}"))
    ensures var aeo := Sample([], "\U{85}", Str(hash(CanonicalText(Sample([], "\U{85}", NullValue)))));
      && WellFormed(aeo) && P.ValidateAeo(hash, aeo, SampleContext("\U{85}")) == P.Valid
      && !R.Accepted(hash, RustData(aeo), rustContext)
  {
    BlanksDiffer();
    hide *;
    assert Extra([]) by { NoExtra(); }
    BlankCase(hash, "\U{FEFF}", rustContext);
    BlankCase(hash, "\U{85}", rustContext);
  }

  lemma NoExtra()
    ensures Extra([])
  {}

  lemma BlanksDiffer()
    ensures P.Blank("\U{FEFF}") && !R.Blank("\U{FEFF}")
    ensures R.Blank("\U{85}") && !P.Blank("\U{85}")
  {
    assert "\U{FEFF}"[0] in "\U{FEFF}" && "\U{85}"[0] in "\U{85}";
  }

  /** A sealed AEO with one bound: each side takes it exactly if the bound is not blank there. */
  lemma BlankCase(hash: string -> string, bound: string, rustContext: R.Context)
    requires DigestSized(hash) && Extra([])
    ensures var aeo := Sample([], bound, Str(hash(CanonicalText(Sample([], bound, NullValue)))));
      && WellFormed(aeo)
      && P.ValidateAeo(hash, aeo, SampleContext(bound)) == (if P.Blank(bound) then P.Rejected else P.Valid)
      && (R.Accepted(hash, RustData(aeo), SampleContext(bound)) <==> !R.Blank(bound))
      && (R.Blank(bound) ==> !R.Accepted(hash, RustData(aeo), rustContext))
  {
    hide *;
    JsSealed(hash, [], bound);
    var h := hash(CanonicalText(Sample([], bound, NullValue)));
    var aeo := Sample([], bound, Str(h));
    SampleIsAlike(bound, Str(h));
    OneBound(bound);
    JsVerdict(hash, aeo, SampleContext(bound));
    RustVerdict(hash, aeo, SampleContext(bound));
    RustVerdict(hash, aeo, rustContext);
    StoredIsString(hash, aeo);
    AlikeNeverClashes(aeo);
    HashedIsAlike(aeo);
    TextsAgreeStored(hash, aeo);
  }

  lemma TextsAgreeStored(hash: string -> string, aeo: Js)
    requires WellFormed(aeo) && P.IsJson(aeo) && Alike(aeo) && JsStored(hash, aeo)
    ensures RustStored(hash, aeo)
  {
    TextsAgree(aeo);
    hide JsText, RustText, P.Member, WellFormed, P.IsJson, Alike;
  }

  lemma OneBound(bound: string)
    ensures SomeJsBlank(Arr([Str(bound)])) <==> P.Blank(bound)
    ensures SomeRustBlank(Arr([Str(bound)])) <==> R.Blank(bound)
  {
    hide P.Blank, R.Blank;
    assert Arr([Str(bound)]).items[0] == Str(bound);
  }

  lemma SampleIsAlike(bound: string, objectHash: Js)
    requires objectHash.Str?
    ensures Alike(Sample([], bound, objectHash))
  {
    AsciiKeys();
    hide SameOrder;
    assert [AUTHORITY] + [] == [AUTHORITY];
    assert Alike(Obj([AUTHORITY]));
    assert Alike(Arr([Str(bound)]));
    assert Alike(Obj([AUTHORITY, Prop("bounds", Arr([Str(bound)]))]));
    assert Alike(Obj([AUTHORITY, Prop("object_hash", objectHash)]));
  }

  lemma AsciiKeys()
    ensures forall a, b :: InBasicPlane(a) && InBasicPlane(b) ==> SameOrder(a, b)
    ensures InBasicPlane("authority_id") && InBasicPlane("bounds") && InBasicPlane("object_hash") && InBasicPlane("finality")
    ensures InBasicPlane("intent") && InBasicPlane("scope") && InBasicPlane("target") && InBasicPlane("validation")
  {
    forall a, b | InBasicPlane(a) && InBasicPlane(b) ensures SameOrder(a, b) { OrdersAgree(a, b); }
  }
}
