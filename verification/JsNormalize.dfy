/** src/canonical.js, `normalize` and `canonicalize`, step by step.  Inside `normalize` the assignment of
    `__proto__` sets the prototype of the object under construction; a later key that is read-only on that
    prototype cannot be assigned any more, and the source throws a TypeError. */
module JsNormalize {
  import opened Prelude
  import opened Sorting
  import opened Canonicalization
  import opened JsCanonical

  // ----- One object -----

  /** Assigning any other value to `__proto__` does nothing. */
  predicate SetsPrototype(v: Js) { v.Obj? || v.Arr? || v.NullValue? }

  /** The names that an object with this prototype cannot be assigned: the properties of a frozen object and of
      its own prototypes.  Arrays are not frozen, and built-in prototypes are writable. */
  function Locked(v: Js): set<string>
    decreases v, 1
  {
    if v.Obj? then LockedIn(v.props) else {}
  }

  function LockedIn(props: seq<Prop>): set<string>
    decreases props, 0
  {
    if props == [] then {}
    else (if props[0].key == PROTO then Locked(props[0].value) else {props[0].key}) + LockedIn(props[1..])
  }

  /** The object under construction: its own properties, and its prototype if that is no longer Object.prototype. */
  datatype Making = Making(own: seq<Prop>, proto: Option<Js>)

  /** `normalized[key] = value` for a key that is not there yet; None is a TypeError. */
  function Store(m: Making, p: Prop): Option<Making> {
    if p.key == PROTO then Some(if SetsPrototype(p.value) then m.(proto := Some(p.value)) else m)
    else if m.proto.Some? && p.key in Locked(m.proto.value) then None
    else Some(m.(own := Assign(m.own, p)))
  }

  function StoreAll(props: seq<Prop>): Option<Making> {
    if props == [] then Some(Making([], None))
    else
      var before := StoreAll(props[..|props| - 1]);
      if before == None then None else Store(before.value, props[|props| - 1])
  }

  function PrototypeProp(proto: Option<Js>): seq<Prop> { if proto == None then [] else [Prop(PROTO, proto.value)] }

  // ----- normalize -----

  /** What `normalize` returns, or None for a TypeError.  In a result the property `__proto__` stands for the
      prototype of an object, where that is not Object.prototype. */
  function Normalize(v: Js): Option<Js> {
    match v
    case Undefined => Some(NullValue)
    case NonFinite => Some(NullValue)
    case Other => Some(NullValue)
    case Arr(items) =>
      if exists i :: 0 <= i < |items| && Normalize(items[i]) == None then None
      else Some(Arr(seq(|items|, i requires 0 <= i < |items| => Normalize(items[i]).value)))
    case Obj(props) =>
      if exists i :: 0 <= i < |props| && Normalize(props[i].value) == None then None
      else
        var made := StoreAll(Sort(seq(|props|, i requires 0 <= i < |props| => Prop(props[i].key, Normalize(props[i].value).value)), PropLe));
        if made == None then None else Some(Obj(made.value.own + PrototypeProp(made.value.proto)))
    case _ => Some(v)
  }

  /** Some object in the value has an own `__proto__` object that holds, itself or through its own `__proto__`, a
      key that the outer object has too and that comes after `__proto__`. */
  predicate Clashes(v: Js) {
    match v
    case Arr(items) => exists i :: 0 <= i < |items| && Clashes(items[i])
    case Obj(props) => KeyClash(props) || exists i :: 0 <= i < |props| && Clashes(props[i].value)
    case _ => false
  }

  predicate KeyClash(props: seq<Prop>) {
    exists i, j :: 0 <= i < |props| && 0 <= j < |props| && ClashAt(props[i], props[j])
  }

  predicate ClashAt(proto: Prop, p: Prop) {
    proto.key == PROTO && p.key != PROTO && KeyLe(PROTO, p.key) && p.key in Locked(proto.value)
  }

  // ----- The form with prototypes -----

  function PrototypeOf(props: seq<Prop>): Option<Js> {
    if props == [] then None
    else if props[|props| - 1].key == PROTO && SetsPrototype(props[|props| - 1].value) then Some(props[|props| - 1].value)
    else PrototypeOf(props[..|props| - 1])
  }

  /** What `normalize` returns where it returns. */
  function KeptForm(v: Js): Js {
    match v
    case Undefined => NullValue
    case NonFinite => NullValue
    case Other => NullValue
    case Arr(items) => Arr(seq(|items|, i requires 0 <= i < |items| => KeptForm(items[i])))
    case Obj(props) =>
      var sorted := Sort(seq(|props|, i requires 0 <= i < |props| => Prop(props[i].key, KeptForm(props[i].value))), PropLe);
      Obj(Build(sorted) + PrototypeProp(PrototypeOf(sorted)))
    case _ => v
  }

  function KeptForms(props: seq<Prop>): seq<Prop> {
    seq(|props|, i requires 0 <= i < |props| => Prop(props[i].key, KeptForm(props[i].value)))
  }

  // ----- Building one object -----

  /** An earlier `__proto__` locks a later key. */
  ghost predicate Blocked(props: seq<Prop>) {
    exists i, j :: 0 <= i < j < |props| && props[i].key == PROTO && props[j].key in Locked(props[i].value)
  }

  lemma {:induction false} PrototypeIs(props: seq<Prop>)
    requires KeysDistinct(props)
    ensures PrototypeOf(props).Some? ==> SetsPrototype(PrototypeOf(props).value) && Prop(PROTO, PrototypeOf(props).value) in props
    ensures forall p :: p in props && p.key == PROTO && SetsPrototype(p.value) ==> PrototypeOf(props) == Some(p.value)
  {
    if props != [] {
      var n := |props| - 1;
      assert props == props[..n] + [props[n]];
      PrototypeIs(props[..n]);
      forall p | p in props && p.key == PROTO && SetsPrototype(p.value) ensures PrototypeOf(props) == Some(p.value) {
        var i :| 0 <= i < |props| && props[i] == p;
        if i < n {
          assert props[n].key != PROTO;
          assert props[..n][i] in props[..n];
        }
      }
    }
  }

  lemma BlockedLast(props: seq<Prop>)
    requires KeysDistinct(props) && props != []
    ensures var n := |props| - 1;
      var proto := PrototypeOf(props[..n]);
      Blocked(props) <==> Blocked(props[..n]) || (proto.Some? && props[n].key in Locked(proto.value))
  {
    var n := |props| - 1;
    PrototypeIs(props[..n]);
    OnlyObjectsLock();
    BlockedByLast(props, props[..n], props[n], PrototypeOf(props[..n]));
  }

  lemma BlockedByLast(props: seq<Prop>, front: seq<Prop>, last: Prop, proto: Option<Js>)
    requires props == front + [last] && forall v :: Locked(v) != {} ==> SetsPrototype(v)
    requires proto.Some? ==> Prop(PROTO, proto.value) in front
    requires forall p :: p in front && p.key == PROTO && SetsPrototype(p.value) ==> proto == Some(p.value)
    ensures Blocked(props) <==> Blocked(front) || (proto.Some? && last.key in Locked(proto.value))
  {
    hide Locked, SetsPrototype;
    if Blocked(props) {
      var i, j :| 0 <= i < j < |props| && props[i].key == PROTO && props[j].key in Locked(props[i].value);
      if j < |front| {
        assert front[i] == props[i] && front[j] == props[j];
        assert Blocked(front);
      } else {
        assert front[i] in front;
      }
    }
    if Blocked(front) {
      var i, j :| 0 <= i < j < |front| && front[i].key == PROTO && front[j].key in Locked(front[i].value);
      assert props[i] == front[i] && props[j] == front[j];
    }
    if proto.Some? && last.key in Locked(proto.value) {
      var i :| 0 <= i < |front| && front[i] == Prop(PROTO, proto.value);
      assert props[i] == front[i] && props[|front|] == last;
    }
  }

  lemma OnlyObjectsLock()
    ensures forall v :: Locked(v) != {} ==> SetsPrototype(v)
  {}

  lemma {:induction false} StoreAllIs(props: seq<Prop>)
    requires KeysDistinct(props)
    ensures StoreAll(props) == if Blocked(props) then None else Some(Making(Build(props), PrototypeOf(props)))
  {
    if props != [] {
      var n := |props| - 1;
      StoreAllIs(props[..n]);
      BlockedLast(props);
      PrototypeIs(props);
      PrototypeIs(props[..n]);
      hide Locked, Assign, Blocked, KeysDistinct;
      if props[n].key == PROTO {
        ProtoComesOnce(props);
      }
    }
  }

  lemma ProtoComesOnce(props: seq<Prop>)
    requires KeysDistinct(props) && props != [] && props[|props| - 1].key == PROTO
    ensures PrototypeOf(props[..|props| - 1]) == None
  {
    PrototypeIs(props[..|props| - 1]);
  }

  // ----- What locks, and what clashes -----

  predicate Locks(p: Prop, key: string) { if p.key == PROTO then key in Locked(p.value) else p.key == key }

  lemma {:induction false} LockedInHolds(props: seq<Prop>, key: string)
    ensures key in LockedIn(props) <==> exists p :: p in props && Locks(p, key)
  {
    hide Locked;
    if props != [] {
      assert props == [props[0]] + props[1..];
      LockedInHolds(props[1..], key);
      if Locks(props[0], key) {
        assert props[0] in props;
      }
    }
  }

  /** The properties of a kept object: those of its normal form with kept values, and its prototype. */
  lemma KeptHolds(props: seq<Prop>)
    requires KeysDistinct(props)
    ensures KeysDistinct(KeptForms(props)) && KeysDistinct(KeptForm(Obj(props)).props)
    ensures forall q :: q in KeptForm(Obj(props)).props <==> q in KeptForms(props) && (q.key == PROTO ==> SetsPrototype(q.value))
  {
    hide KeptForm;
    var all := KeptForms(props);
    var sorted := Sort(all, PropLe);
    assert KeysDistinct(all);
    SortKeepsKeysDistinct(all);
    SortPermutes(all, PropLe);
    BuildHolds(sorted);
    PrototypeIs(sorted);
    KeptObject(props);
    hide Build, Sort, PrototypeOf, SetsPrototype;
    AppendPrototype(Build(sorted), PrototypeOf(sorted));
  }

  lemma KeptObject(props: seq<Prop>)
    ensures KeptForm(Obj(props)) == Obj(Build(Sort(KeptForms(props), PropLe)) + PrototypeProp(PrototypeOf(Sort(KeptForms(props), PropLe))))
  {}

  lemma AppendPrototype(own: seq<Prop>, proto: Option<Js>)
    requires KeysDistinct(own) && forall q :: q in own ==> q.key != PROTO
    ensures KeysDistinct(own + PrototypeProp(proto))
    ensures forall q :: q in own + PrototypeProp(proto) <==> q in own || (q.key == PROTO && proto == Some(q.value))
  {
    forall i | 0 <= i < |own| ensures own[i].key != PROTO { assert own[i] in own; }
  }

  lemma KeptFormsHold(props: seq<Prop>)
    ensures forall q :: q in KeptForms(props) ==> exists p :: p in props && q == Prop(p.key, KeptForm(p.value))
    ensures forall p :: p in props ==> Prop(p.key, KeptForm(p.value)) in KeptForms(props)
  {
    hide KeptForm;
    var all := KeptForms(props);
    forall q | q in all ensures exists p :: p in props && q == Prop(p.key, KeptForm(p.value)) {
      var i :| 0 <= i < |all| && all[i] == q;
      assert props[i] in props;
    }
    forall p | p in props ensures Prop(p.key, KeptForm(p.value)) in all {
      var i :| 0 <= i < |props| && props[i] == p;
      assert all[i] in all;
    }
  }

  /** What `normalize` returns is well formed, has the data of the value, and locks the same names. */
  lemma {:induction false} KeptFormHolds(v: Js)
    requires WellFormed(v)
    ensures WellFormed(KeptForm(v)) && ToJson(KeptForm(v)) == ToJson(v) && Locked(KeptForm(v)) == Locked(v)
    decreases v
  {
    match v
    case Arr(items) =>
      forall i | 0 <= i < |items| ensures WellFormed(KeptForm(items[i])) && ToJson(KeptForm(items[i])) == ToJson(items[i]) {
        KeptFormHolds(items[i]);
      }
      assert ToJson(KeptForm(v)).items == ToJson(v).items;
    case Obj(props) =>
      forall p | p in props
        ensures WellFormed(KeptForm(p.value)) && ToJson(KeptForm(p.value)) == ToJson(p.value) && Locked(KeptForm(p.value)) == Locked(p.value)
      {
        var i :| 0 <= i < |props| && props[i] == p;
        KeptFormHolds(props[i].value);
      }
      KeptObjectHolds(props);
    case _ =>
  }

  lemma KeptObjectHolds(props: seq<Prop>)
    requires KeysDistinct(props)
    requires forall p :: p in props ==>
      WellFormed(KeptForm(p.value)) && ToJson(KeptForm(p.value)) == ToJson(p.value) && Locked(KeptForm(p.value)) == Locked(p.value)
    ensures WellFormed(KeptForm(Obj(props))) && ToJson(KeptForm(Obj(props))) == ToJson(Obj(props))
    ensures Locked(KeptForm(Obj(props))) == Locked(Obj(props))
  {
    KeptHolds(props);
    KeptFormsHold(props);
    var kept := KeptForm(Obj(props)).props;
    assert KeptForm(Obj(props)) == Obj(kept);
    hide KeptForm, KeptForms, SetsPrototype;
    forall i | 0 <= i < |kept| ensures WellFormed(kept[i].value) {
      assert kept[i] in kept;
    }
    KeptFields(props, kept);
    KeptLocks(props, kept);
  }

  /** `kept` has the properties of `props` with other values, but perhaps not `__proto__`. */
  ghost predicate Corresponds(props: seq<Prop>, kept: seq<Prop>) {
    && (forall q :: q in kept ==> exists p :: p in props && q == Prop(p.key, KeptForm(p.value)))
    && (forall p :: p in props && (p.key == PROTO ==> SetsPrototype(KeptForm(p.value))) ==> Prop(p.key, KeptForm(p.value)) in kept)
  }

  lemma KeptFields(props: seq<Prop>, kept: seq<Prop>)
    requires KeysDistinct(props) && KeysDistinct(kept) && Corresponds(props, kept)
    requires forall p :: p in props ==> ToJson(KeptForm(p.value)) == ToJson(p.value)
    ensures ToJson(Obj(kept)) == ToJson(Obj(props))
  {
    FieldsHold(props);
    FieldsHold(kept);
    ObjectFields(props);
    ObjectFields(kept);
    hide ToJson, Fields, KeptForm, SetsPrototype;
    assert forall f :: f in Fields(kept) <==> f in Fields(props) by {
      forall f | f in Fields(kept) ensures f in Fields(props) {
        var q :| q in kept && f == Field(q.key, ToJson(q.value));
        var p :| p in props && q == Prop(p.key, KeptForm(p.value));
      }
      forall f | f in Fields(props) ensures f in Fields(kept) {
        var p :| p in props && f == Field(p.key, ToJson(p.value));
        assert Prop(p.key, KeptForm(p.value)) in kept;
      }
    }
    SortedFieldsAgree(Fields(kept), Fields(props));
  }

  lemma KeptLocks(props: seq<Prop>, kept: seq<Prop>)
    requires Corresponds(props, kept)
    requires forall p :: p in props ==> Locked(KeptForm(p.value)) == Locked(p.value)
    ensures Locked(Obj(kept)) == Locked(Obj(props))
  {
    OnlyObjectsLock();
    forall key ensures key in LockedIn(kept) <==> key in LockedIn(props) {
      KeptLocksKey(props, kept, key);
    }
    assert Locked(Obj(kept)) == LockedIn(kept) && Locked(Obj(props)) == LockedIn(props);
  }

  lemma KeptLocksKey(props: seq<Prop>, kept: seq<Prop>, key: string)
    requires Corresponds(props, kept)
    requires forall p :: p in props ==> Locked(KeptForm(p.value)) == Locked(p.value)
    requires forall v :: Locked(v) != {} ==> SetsPrototype(v)
    ensures key in LockedIn(kept) <==> key in LockedIn(props)
  {
    LockedInHolds(props, key);
    LockedInHolds(kept, key);
    hide KeptForm, SetsPrototype, Locked, LockedIn;
    if key in LockedIn(kept) {
      var q :| q in kept && Locks(q, key);
      var p :| p in props && q == Prop(p.key, KeptForm(p.value));
      assert Locks(p, key);
    }
    if key in LockedIn(props) {
      var p :| p in props && Locks(p, key);
      assert Prop(p.key, KeptForm(p.value)) in kept;
      assert Locks(Prop(p.key, KeptForm(p.value)), key);
    }
  }

  // ----- Exactly when normalize throws, and what it returns otherwise -----

  lemma IndexOf(props: seq<Prop>, p: Prop) returns (i: nat)
    requires p in props
    ensures i < |props| && props[i] == p
  {
    i :| 0 <= i < |props| && props[i] == p;
  }

  lemma BlockedMeansClash(props: seq<Prop>, sorted: seq<Prop>)
    requires KeysDistinct(sorted) && Sorted(sorted, PropLe) && Blocked(sorted)
    requires forall q :: q in sorted ==> exists p :: p in props && p.key == q.key && Locked(p.value) == Locked(q.value)
    ensures KeyClash(props)
  {
    hide Locked, KeyLe;
    var i, j :| 0 <= i < j < |sorted| && sorted[i].key == PROTO && sorted[j].key in Locked(sorted[i].value);
    assert sorted[i] in sorted && sorted[j] in sorted && PropLe(sorted[i], sorted[j]);
    var p :| p in props && p.key == PROTO && Locked(p.value) == Locked(sorted[i].value);
    var r :| r in props && r.key == sorted[j].key;
    var a := IndexOf(props, p);
    var b := IndexOf(props, r);
    assert ClashAt(props[a], props[b]);
  }

  lemma ClashMeansBlocked(props: seq<Prop>, sorted: seq<Prop>)
    requires Sorted(sorted, PropLe) && KeyClash(props)
    requires forall p :: p in props ==> exists q :: q in sorted && q.key == p.key && Locked(p.value) == Locked(q.value)
    ensures Blocked(sorted)
  {
    var a, b :| 0 <= a < |props| && 0 <= b < |props| && ClashAt(props[a], props[b]);
    hide Locked;
    assert props[a] in props && props[b] in props;
    var p :| p in sorted && p.key == PROTO && Locked(p.value) == Locked(props[a].value);
    var q :| q in sorted && q.key == props[b].key;
    var i := IndexOf(sorted, p);
    var j := IndexOf(sorted, q);
    if j < i {
      assert PropLe(sorted[j], sorted[i]);
      KeyLeAntisymmetric(PROTO, q.key);
    }
  }

  lemma BlockedIffClash(props: seq<Prop>)
    requires KeysDistinct(props) && forall p :: p in props ==> Locked(KeptForm(p.value)) == Locked(p.value)
    ensures KeysDistinct(Sort(KeptForms(props), PropLe))
    ensures Blocked(Sort(KeptForms(props), PropLe)) <==> KeyClash(props)
  {
    KeptFormsHold(props);
    PropPreorder();
    assert KeysDistinct(KeptForms(props));
    SortKeepsKeysDistinct(KeptForms(props));
    SortPermutes(KeptForms(props), PropLe);
    SortSorts(KeptForms(props), PropLe);
    var sorted := Sort(KeptForms(props), PropLe);
    hide Sort, KeptForm, KeptForms, Locked, Sorted, Blocked, KeyClash, KeysDistinct;
    forall q | q in sorted ensures exists p :: p in props && p.key == q.key && Locked(p.value) == Locked(q.value) {
      var p :| p in props && q == Prop(p.key, KeptForm(p.value));
    }
    forall p | p in props ensures exists q :: q in sorted && q.key == p.key && Locked(p.value) == Locked(q.value) {
      assert Prop(p.key, KeptForm(p.value)) in sorted;
    }
    if Blocked(sorted) {
      BlockedMeansClash(props, sorted);
    }
    if KeyClash(props) {
      ClashMeansBlocked(props, sorted);
    }
  }

  /** `normalize` throws exactly for a clash, and otherwise returns the kept form. */
  lemma {:induction false} NormalizeIsExact(v: Js)
    requires WellFormed(v)
    ensures Normalize(v) == if Clashes(v) then None else Some(KeptForm(v))
    decreases v
  {
    match v
    case Arr(items) =>
      forall i | 0 <= i < |items| ensures Normalize(items[i]) == if Clashes(items[i]) then None else Some(KeptForm(items[i])) {
        NormalizeIsExact(items[i]);
      }
      if !Clashes(v) {
        assert Normalize(v).value.items == KeptForm(v).items;
      }
    case Obj(props) =>
      forall p | p in props
        ensures Normalize(p.value) == (if Clashes(p.value) then None else Some(KeptForm(p.value))) && Locked(KeptForm(p.value)) == Locked(p.value)
      {
        var i := IndexOf(props, p);
        NormalizeIsExact(props[i].value);
        KeptFormHolds(props[i].value);
      }
      ObjectIsExact(props);
    case _ =>
  }

  lemma ObjectIsExact(props: seq<Prop>)
    requires KeysDistinct(props)
    requires forall p :: p in props ==> Normalize(p.value) == if Clashes(p.value) then None else Some(KeptForm(p.value))
    requires forall p :: p in props ==> Locked(KeptForm(p.value)) == Locked(p.value)
    ensures Normalize(Obj(props)) == if Clashes(Obj(props)) then None else Some(KeptForm(Obj(props)))
  {
    assert Clashes(Obj(props)) <==> KeyClash(props) || exists i :: 0 <= i < |props| && Clashes(props[i].value);
    assert forall i :: 0 <= i < |props| ==> props[i] in props;
    if exists i :: 0 <= i < |props| && Clashes(props[i].value) {
      assert Normalize(Obj(props)) == None;
    } else {
      BlockedIffClash(props);
      StoreAllIs(Sort(KeptForms(props), PropLe));
      KeptObject(props);
      NormalizedObject(props);
    }
  }

  lemma NormalizedObject(props: seq<Prop>)
    requires forall i :: 0 <= i < |props| ==> Normalize(props[i].value) == Some(KeptForm(props[i].value))
    ensures var made := StoreAll(Sort(KeptForms(props), PropLe));
      Normalize(Obj(props)) == if made == None then None else Some(Obj(made.value.own + PrototypeProp(made.value.proto)))
  {
    hide KeptForm, StoreAll, Sort;
    assert seq(|props|, i requires 0 <= i < |props| => Prop(props[i].key, Normalize(props[i].value).value)) == KeptForms(props);
  }

  // ----- Values that set no prototype -----

  /** No object in the value has an own `__proto__` that would become a prototype. */
  ghost predicate NoPrototype(v: Js) {
    match v
    case Arr(items) => forall i :: 0 <= i < |items| ==> NoPrototype(items[i])
    case Obj(props) => forall i :: 0 <= i < |props| ==> NoPrototype(props[i].value) && (props[i].key == PROTO ==> Inert(props[i].value))
    case _ => true
  }

  predicate Inert(v: Js) { v.Boolean? || v.Num? || v.Str? }

  lemma {:induction false} InertIff(v: Js)
    ensures SetsPrototype(KeptForm(v)) <==> !Inert(v)
  {}

  /** A value without prototypes keeps its normal form, and nothing is lost from what `normalize` returns. */
  lemma {:induction false} PlainForm(v: Js)
    requires WellFormed(v)
    ensures NoPrototype(v) <==> KeptForm(v) == NormalForm(v)
    decreases v
  {
    match v
    case Arr(items) =>
      forall i | 0 <= i < |items| ensures NoPrototype(items[i]) <==> KeptForm(items[i]) == NormalForm(items[i]) { PlainForm(items[i]); }
      if NoPrototype(v) {
        assert KeptForm(v).items == NormalForm(v).items;
      }
      if KeptForm(v) == NormalForm(v) {
        forall i | 0 <= i < |items| ensures NoPrototype(items[i]) {
          assert KeptForm(v).items[i] == NormalForm(v).items[i];
        }
      }
    case Obj(props) =>
      forall p | p in props ensures NoPrototype(p.value) <==> KeptForm(p.value) == NormalForm(p.value) {
        var i := IndexOf(props, p);
        PlainForm(props[i].value);
      }
      PlainObject(props);
    case _ =>
  }

  lemma PlainObject(props: seq<Prop>)
    requires KeysDistinct(props) && forall p :: p in props ==> (NoPrototype(p.value) <==> KeptForm(p.value) == NormalForm(p.value))
    ensures NoPrototype(Obj(props)) <==> KeptForm(Obj(props)) == NormalForm(Obj(props))
  {
    assert forall i :: 0 <= i < |props| ==> props[i] in props;
    if NoPrototype(Obj(props)) {
      PlainIsNormal(props);
    }
    if KeptForm(Obj(props)) == NormalForm(Obj(props)) {
      KeptIsNormal(props);
    }
  }

  lemma PlainIsNormal(props: seq<Prop>)
    requires KeysDistinct(props) && forall i :: 0 <= i < |props| ==> KeptForm(props[i].value) == NormalForm(props[i].value)
    requires forall p :: p in props && p.key == PROTO ==> Inert(p.value)
    ensures KeptForm(Obj(props)) == NormalForm(Obj(props))
  {
    SameForms(props);
    KeptObject(props);
    NoPrototypeProp(props);
    NormalFormHolds(props);
    hide *;
    NoProp();
    assert Build(Sort(KeptForms(props), PropLe)) + [] == Build(Sort(KeptForms(props), PropLe));
  }

  lemma NoProp()
    ensures PrototypeProp(None) == []
  {}

  lemma SameForms(props: seq<Prop>)
    requires forall i :: 0 <= i < |props| ==> KeptForm(props[i].value) == NormalForm(props[i].value)
    ensures KeptForms(props) == NormalForms(props)
  {
    hide KeptForm, NormalForm;
  }

  lemma NoPrototypeProp(props: seq<Prop>)
    requires KeysDistinct(props) && forall p :: p in props && p.key == PROTO ==> Inert(p.value)
    ensures PrototypeOf(Sort(KeptForms(props), PropLe)) == None
  {
    var sorted := Sort(KeptForms(props), PropLe);
    KeptFormsHold(props);
    assert KeysDistinct(KeptForms(props));
    SortKeepsKeysDistinct(KeptForms(props));
    SortPermutes(KeptForms(props), PropLe);
    PrototypeIs(sorted);
    hide KeptForm, KeptForms, Sort, PrototypeOf, SetsPrototype, Inert;
    if PrototypeOf(sorted).Some? {
      var q := Prop(PROTO, PrototypeOf(sorted).value);
      var p :| p in props && q == Prop(p.key, KeptForm(p.value));
      InertIff(p.value);
    }
  }

  lemma KeptIsNormal(props: seq<Prop>)
    requires KeysDistinct(props) && KeptForm(Obj(props)) == NormalForm(Obj(props))
    ensures forall p :: p in props ==> (p.key == PROTO ==> Inert(p.value)) && (p.key != PROTO ==> KeptForm(p.value) == NormalForm(p.value))
  {
    KeptHolds(props);
    KeptFormsHold(props);
    NormalFormHolds(props);
    var b := NormalForm(Obj(props)).props;
    hide KeptForm, NormalForm, KeptForms, SetsPrototype, Inert;
    forall p | p in props ensures (p.key == PROTO ==> Inert(p.value)) && (p.key != PROTO ==> KeptForm(p.value) == NormalForm(p.value)) {
      InertIff(p.value);
      if p.key != PROTO {
        assert Prop(p.key, KeptForm(p.value)) in b;
        assert Prop(p.key, NormalForm(p.value)) in b;
        assert KeptForm(p.value) == NormalForm(p.value) by {
          var i := IndexOf(b, Prop(p.key, KeptForm(p.value)));
          var j := IndexOf(b, Prop(p.key, NormalForm(p.value)));
          assert i == j;
        }
      }
    }
  }

  lemma {:induction false} NoPrototypeNoClash(v: Js)
    requires NoPrototype(v)
    ensures !Clashes(v)
    decreases v
  {
    match v
    case Arr(items) =>
      forall i | 0 <= i < |items| ensures !Clashes(items[i]) { NoPrototypeNoClash(items[i]); }
    case Obj(props) =>
      forall i | 0 <= i < |props| ensures !Clashes(props[i].value) { NoPrototypeNoClash(props[i].value); }
    case _ =>
  }

  lemma {:induction false} NormalFormIsPlain(v: Js)
    requires WellFormed(v)
    ensures NoPrototype(NormalForm(v))
    decreases v
  {
    match v
    case Arr(items) =>
      forall i | 0 <= i < |items| ensures NoPrototype(NormalForm(items[i])) { NormalFormIsPlain(items[i]); }
    case Obj(props) =>
      NormalFormHolds(props);
      var b := NormalForm(v).props;
      forall i | 0 <= i < |b| ensures NoPrototype(b[i].value) && b[i].key != PROTO {
        assert b[i] in b;
        var p :| p in props && b[i] == Prop(p.key, NormalForm(p.value));
        var k := IndexOf(props, p);
        NormalFormIsPlain(props[k].value);
      }
    case _ =>
  }

  /** What `normalize` returns keeps the data of the value. */
  lemma NormalizeKeepsData(v: Js)
    requires WellFormed(v)
    ensures Normalize(v).Some? ==>
      var kept := Normalize(v).value;
      WellFormed(kept) && ToJson(kept) == ToJson(v) && NormalForm(kept) == NormalForm(v)
  {
    NormalizeIsExact(v);
    KeptFormHolds(v);
    DataDeterminesForm(KeptForm(v), v);
  }

  /** Values with the same data are given the same properties in the same order, prototypes aside. */
  lemma DataDeterminesNormalForm(v: Js, w: Js)
    requires WellFormed(v) && WellFormed(w) && ToJson(v) == ToJson(w)
    ensures Normalize(v).Some? && Normalize(w).Some? ==> NormalForm(Normalize(v).value) == NormalForm(Normalize(w).value)
  {
    NormalizeKeepsData(v);
    NormalizeKeepsData(w);
    DataDeterminesForm(v, w);
  }

  lemma NormalFormStays(v: Js)
    requires WellFormed(v)
    ensures Normalize(NormalForm(v)) == Some(NormalForm(v))
  {
    FormKeepsData(v);
    FormIdempotent(v);
    NormalFormIsPlain(v);
    NormalizeIsExact(NormalForm(v));
    PlainForm(NormalForm(v));
    NoPrototypeNoClash(NormalForm(v));
  }

  /** A second call sees the own properties of what the first returned.  It never throws and returns them as they
      are: the same value exactly if no prototype was set. */
  lemma NormalizeIdempotent(v: Js)
    requires WellFormed(v)
    ensures Normalize(v).Some? ==>
      && Normalize(NormalForm(Normalize(v).value)) == Some(NormalForm(Normalize(v).value))
      && (Normalize(NormalForm(Normalize(v).value)) == Normalize(v) <==> NoPrototype(v))
  {
    NormalizeKeepsData(v);
    NormalFormStays(v);
    NormalizeIsExact(v);
    PlainForm(v);
  }

  // ----- canonicalize -----

  /** None is a TypeError of the outer `normalize`.  The values that are printed are parts of a normal form, which
      `normalize` returns as they are (NormalFormStays). */
  function Canonicalize(v: Js): Option<string>
    requires WellFormed(v)
  {
    if Normalize(v) == None then None else Some(Reprint(v))
  }

  /** `canonicalize` throws exactly for a clash, and otherwise prints the data of the value once. */
  lemma CanonicalizeIsPrint(v: Js)
    requires WellFormed(v)
    ensures Canonicalize(v) == if Clashes(v) then None else Some(CanonicalText(v))
  {
    NormalizeIsExact(v);
    ReprintIsPrint(v);
  }

  /** Where both are printed, two values have one text exactly when they have one normal form. */
  lemma TextDecidesNormalForm(v: Js, w: Js)
    requires WellFormed(v) && WellFormed(w)
    ensures Canonicalize(v).Some? && Canonicalize(w).Some? ==>
      (Canonicalize(v) == Canonicalize(w) <==> NormalForm(Normalize(v).value) == NormalForm(Normalize(w).value))
  {
    CanonicalizeIsPrint(v);
    CanonicalizeIsPrint(w);
    NormalizeKeepsData(v);
    NormalizeKeepsData(w);
    TextDecidesForm(v, w);
  }

  /** The insertion order of keys does not show in what `normalize` returns either, prototypes included. */
  lemma {:induction false} ReorderedKeepsForm(v: Js, w: Js)
    requires WellFormed(v) && WellFormed(w) && Reordered(v, w)
    ensures KeptForm(v) == KeptForm(w)
    decreases v, 1
  {
    match v
    case Arr(items) =>
      forall i | 0 <= i < |items| ensures KeptForm(items[i]) == KeptForm(w.items[i]) {
        ReorderedKeepsForm(items[i], w.items[i]);
      }
      assert KeptForm(v).items == KeptForm(w).items;
    case Obj(a) =>
      ReorderedIsObject(v, w);
      var b := w.props;
      hide WellFormed, Reordered, HasKept, KeptForm;
      forall i: nat | i < |a| ensures HasKept(a[i], b) {
        var j := Twin(v, w, i);
        KeptAt(a[i], b, j);
      }
      forall j: nat | j < |b| ensures HasKept(b[j], a) {
        var i := TwinBack(v, w, j);
        KeptAt(b[j], a, i);
      }
      ObjectsKeepForm(a, b);
      assert v == Obj(a) && w == Obj(b);
    case _ =>
  }

  ghost predicate SameKept(p: Prop, q: Prop) { p.key == q.key && KeptForm(p.value) == KeptForm(q.value) }

  ghost predicate HasKept(p: Prop, props: seq<Prop>) { exists j :: 0 <= j < |props| && SameKept(p, props[j]) }

  lemma KeptAt(p: Prop, props: seq<Prop>, j: nat)
    requires j < |props| && SameKept(p, props[j])
    ensures HasKept(p, props)
  {}

  lemma {:induction false} Twin(v: Js, w: Js, i: nat) returns (j: nat)
    requires WellFormed(v) && WellFormed(w) && Reordered(v, w) && v.Obj? && w.Obj? && i < |v.props|
    ensures j < |w.props| && SameKept(v.props[i], w.props[j])
    decreases v, 0
  {
    assert HasTwin(v, w, i);
    j :| 0 <= j < |w.props| && v.props[i].key == w.props[j].key && Reordered(v.props[i].value, w.props[j].value);
    ReorderedKeepsForm(v.props[i].value, w.props[j].value);
  }

  lemma {:induction false} TwinBack(v: Js, w: Js, j: nat) returns (i: nat)
    requires WellFormed(v) && WellFormed(w) && Reordered(v, w) && v.Obj? && w.Obj? && j < |w.props|
    ensures i < |v.props| && SameKept(w.props[j], v.props[i])
    decreases v, 0
  {
    assert IsTwin(v, w, j);
    i :| 0 <= i < |v.props| && v.props[i].key == w.props[j].key && Reordered(v.props[i].value, w.props[j].value);
    ReorderedKeepsForm(v.props[i].value, w.props[j].value);
  }

  lemma ObjectsKeepForm(a: seq<Prop>, b: seq<Prop>)
    requires KeysDistinct(a) && KeysDistinct(b)
    requires forall i: nat :: i < |a| ==> HasKept(a[i], b)
    requires forall j: nat :: j < |b| ==> HasKept(b[j], a)
    ensures KeptForm(Obj(a)) == KeptForm(Obj(b))
  {
    var s, t := KeptForms(a), KeptForms(b);
    KeptInclude(a, b);
    KeptInclude(b, a);
    assert KeysDistinct(s) && KeysDistinct(t);
    PropsAntisymmetric(s);
    PropsAntisymmetric(t);
    SameElements(s, t);
    PropPreorder();
    hide KeptForm;
    SortIsCanonical(s, t, PropLe);
    KeptObject(a);
    KeptObject(b);
  }

  lemma KeptInclude(a: seq<Prop>, b: seq<Prop>)
    requires forall i: nat :: i < |a| ==> HasKept(a[i], b)
    ensures forall q :: q in KeptForms(a) ==> q in KeptForms(b)
  {
    hide KeptForm;
    forall q | q in KeptForms(a) ensures q in KeptForms(b) {
      var i: nat :| i < |a| && KeptForms(a)[i] == q;
      assert HasKept(a[i], b);
      var j :| 0 <= j < |b| && SameKept(a[i], b[j]);
      assert KeptForms(b)[j] == q;
    }
  }

  lemma {:induction false} ReorderedClashes(v: Js, w: Js)
    requires WellFormed(v) && WellFormed(w) && Reordered(v, w) && Clashes(v)
    ensures Clashes(w)
    decreases v
  {
    match v
    case Arr(items) =>
      var i :| 0 <= i < |items| && Clashes(items[i]);
      ReorderedClashes(items[i], w.items[i]);
    case Obj(props) =>
      ReorderedIsObject(v, w);
      if KeyClash(props) {
        ReorderedKeyClash(v, w);
      } else {
        var i: nat :| i < |props| && Clashes(props[i].value);
        assert HasTwin(v, w, i);
        var j :| 0 <= j < |w.props| && props[i].key == w.props[j].key && Reordered(props[i].value, w.props[j].value);
        ReorderedClashes(props[i].value, w.props[j].value);
      }
    case _ =>
  }

  lemma ReorderedKeyClash(v: Js, w: Js)
    requires WellFormed(v) && WellFormed(w) && Reordered(v, w) && v.Obj? && w.Obj? && KeyClash(v.props)
    ensures KeyClash(w.props)
  {
    var i: nat, k: nat :| i < |v.props| && k < |v.props| && ClashAt(v.props[i], v.props[k]);
    hide Reordered, WellFormed, Locked, KeyLe;
    var j := TwinLocks(v, w, i);
    var l := TwinLocks(v, w, k);
    assert ClashAt(w.props[j], w.props[l]);
  }

  lemma TwinLocks(v: Js, w: Js, i: nat) returns (j: nat)
    requires WellFormed(v) && WellFormed(w) && Reordered(v, w) && v.Obj? && w.Obj? && i < |v.props|
    ensures j < |w.props| && v.props[i].key == w.props[j].key && Locked(v.props[i].value) == Locked(w.props[j].value)
  {
    j := Twin(v, w, i);
    KeptFormHolds(v.props[i].value);
    KeptFormHolds(w.props[j].value);
    hide Reordered, KeptForm, Locked;
  }

  lemma {:induction false} ReorderedBack(v: Js, w: Js)
    requires Reordered(v, w)
    ensures Reordered(w, v)
    decreases v
  {
    match v
    case Arr(items) =>
      forall i | 0 <= i < |items| ensures Reordered(w.items[i], items[i]) { ReorderedBack(items[i], w.items[i]); }
    case Obj(props) =>
      forall j: nat | j < |w.props| ensures HasTwin(w, v, j) {
        assert IsTwin(v, w, j);
        var i :| 0 <= i < |props| && props[i].key == w.props[j].key && Reordered(props[i].value, w.props[j].value);
        ReorderedBack(props[i].value, w.props[j].value);
      }
      forall i: nat | i < |props| ensures IsTwin(w, v, i) {
        assert HasTwin(v, w, i);
        var j :| 0 <= j < |w.props| && props[i].key == w.props[j].key && Reordered(props[i].value, w.props[j].value);
        ReorderedBack(props[i].value, w.props[j].value);
      }
    case _ =>
  }

  /** The insertion order of keys, at any level, decides neither the text nor whether there is one. */
  lemma InsertionOrderIsInvisible(v: Js, w: Js)
    requires WellFormed(v) && WellFormed(w) && Reordered(v, w)
    ensures Canonicalize(v) == Canonicalize(w)
  {
    ReorderedHasSameData(v, w);
    ReorderedBack(v, w);
    if Clashes(v) { ReorderedClashes(v, w); }
    if Clashes(w) { ReorderedClashes(w, v); }
    CanonicalizeIsPrint(v);
    CanonicalizeIsPrint(w);
  }

  /** An own property called __proto__ is lost: these two different objects share one text. */
  lemma ProtoPropertyIsLost()
    ensures Canonicalize(Obj([Prop(PROTO, Str("x"))])) == Canonicalize(Obj([])) != None
  {
    var v, w := Obj([Prop(PROTO, Str("x"))]), Obj([]);
    assert WellFormed(v) && WellFormed(w);
    assert Fields(v.props) == [];
    assert NoPrototype(v.props[0].value);
    NoPrototypeNoClash(v);
    NoPrototypeNoClash(w);
    CanonicalizeIsPrint(v);
    CanonicalizeIsPrint(w);
  }

  /** The keys of an own `__proto__` object lock the same keys outside it: on this object `canonicalize` throws. */
  lemma ProtoObjectThrows()
    ensures Canonicalize(Obj([Prop(PROTO, Obj([Prop("z", NullValue)])), Prop("z", NullValue)])) == None
  {
    var inner := Obj([Prop("z", NullValue)]);
    var props := [Prop(PROTO, inner), Prop("z", NullValue)];
    assert WellFormed(inner) && WellFormed(Obj(props));
    LaterKeyClashes(props, "z");
    CanonicalizeIsPrint(Obj(props));
  }

  lemma LaterKeyClashes(props: seq<Prop>, key: string)
    requires |props| >= 2 && key != "" && Utf16Rank(key[0]) > Utf16Rank('_')
    requires props[|props| - 2] == Prop(PROTO, Obj([Prop(key, NullValue)])) && props[|props| - 1] == Prop(key, NullValue)
    ensures Clashes(Obj(props))
  {
    var n := |props|;
    LockedInHolds([Prop(key, NullValue)], key);
    assert Locks(Prop(key, NullValue), key) && Prop(key, NullValue) in [Prop(key, NullValue)];
    assert ClashAt(props[n - 2], props[n - 1]);
  }
}
