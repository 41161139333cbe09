/** continuity-core/src/aeo_validation.rs.  A BTreeMap is the list of its entries in key order; the
    hash is any function of the canonical text. */
module AeoValidation {
  import opened Prelude
  import opened Canonicalization
  import opened CanonicalDecoding

  datatype ValidationDecision = Valid | NullDecision

  datatype Context = Context(expectedAuthority: string, maximumScope: seq<string>)

  const SECTIONS := ["intent", "scope", "validation", "target", "finality"]

  // ----- BTreeMap -----

  /** The order of Rust strings, which is the order of their code points. */
  predicate Before(a: string, b: string) {
    b != "" && (a == "" || a[0] < b[0] || (a[0] == b[0] && Before(a[1..], b[1..])))
  }

  ghost predicate Ascending(fields: seq<Field>) {
    forall i, j :: 0 <= i < j < |fields| ==> Before(fields[i].key, fields[j].key)
  }

  /** Every object in the value is a BTreeMap. */
  ghost predicate IsMap(v: Json) {
    match v
    case Array(items) => forall i :: 0 <= i < |items| ==> IsMap(items[i])
    case Object(fields) => Ascending(fields) && forall i :: 0 <= i < |fields| ==> IsMap(fields[i].value)
    case _ => true
  }

  function Get(fields: seq<Field>, key: string): Option<Json> {
    if fields == [] then None else if fields[0].key == key then Some(fields[0].value) else Get(fields[1..], key)
  }

  /** `BTreeMap::insert`. */
  function Put(fields: seq<Field>, key: string, value: Json): seq<Field> {
    if fields == [] || Before(key, fields[0].key) then [Field(key, value)] + fields
    else if fields[0].key == key then [Field(key, value)] + fields[1..]
    else [fields[0]] + Put(fields[1..], key, value)
  }

  lemma {:induction false} BeforeIsStrict(a: string, b: string)
    ensures Before(a, b) ==> a != b && !Before(b, a)
    ensures a == b || Before(a, b) || Before(b, a)
  {
    if a != "" && b != "" && a[0] == b[0] {
      assert a == [a[0]] + a[1..] && b == [b[0]] + b[1..];
      BeforeIsStrict(a[1..], b[1..]);
    }
  }

  lemma {:induction false} BeforeTransitive(a: string, b: string, c: string)
    requires Before(a, b) && Before(b, c)
    ensures Before(a, c)
  {
    if a != "" && a[0] == b[0] == c[0] {
      BeforeTransitive(a[1..], b[1..], c[1..]);
    }
  }

  lemma {:induction false} GetAbsent(fields: seq<Field>, key: string)
    requires forall f :: f in fields ==> f.key != key
    ensures Get(fields, key) == None
  {
    if fields != [] {
      GetAbsent(fields[1..], key);
    }
  }

  lemma GetBelow(fields: seq<Field>, key: string)
    requires Ascending(fields) && (fields == [] || Before(key, fields[0].key))
    ensures Get(fields, key) == None
  {
    forall f | f in fields ensures f.key != key {
      var i :| 0 <= i < |fields| && fields[i] == f;
      if i > 0 {
        BeforeTransitive(key, fields[0].key, f.key);
      }
      BeforeIsStrict(key, f.key);
    }
    GetAbsent(fields, key);
  }

  lemma AscendingTail(fields: seq<Field>)
    requires Ascending(fields) && fields != []
    ensures Ascending(fields[1..]) && Get(fields[1..], fields[0].key) == None
    ensures forall k :: Get(fields, k) == if k == fields[0].key then Some(fields[0].value) else Get(fields[1..], k)
  {
    GetBelow(fields[1..], fields[0].key);
  }

  lemma HeadIsFound(fields: seq<Field>)
    ensures fields != [] ==> Get(fields, fields[0].key).Some?
  {}

  /** Two BTreeMaps with the same lookups are the same value. */
  lemma {:induction false} GetDetermines(a: seq<Field>, b: seq<Field>)
    requires Ascending(a) && Ascending(b) && forall k :: Get(a, k) == Get(b, k)
    ensures a == b
  {
    HeadIsFound(a);
    HeadIsFound(b);
    if a != [] && b != [] {
      BeforeIsStrict(a[0].key, b[0].key);
      if Before(a[0].key, b[0].key) {
        GetBelow(b, a[0].key);
      }
      if Before(b[0].key, a[0].key) {
        GetBelow(a, b[0].key);
      }
      AscendingTail(a);
      AscendingTail(b);
      GetDetermines(a[1..], b[1..]);
      assert a == [a[0]] + a[1..] && b == [b[0]] + b[1..];
    }
  }

  lemma {:induction false} PutKeys(fields: seq<Field>, key: string, value: Json)
    ensures forall f :: f in Put(fields, key, value) ==> f in fields || f == Field(key, value)
  {
    if fields != [] && !Before(key, fields[0].key) && fields[0].key != key {
      PutKeys(fields[1..], key, value);
    }
  }

  lemma PutFirst(fields: seq<Field>, key: string, value: Json)
    requires Ascending(fields) && fields != [] && Before(key, fields[0].key)
    ensures Ascending([Field(key, value)] + fields)
  {
    forall j | 0 < j < |fields| ensures Before(key, fields[j].key) {
      BeforeTransitive(key, fields[0].key, fields[j].key);
    }
  }

  /** Inserting keeps the order and changes the one lookup. */
  lemma {:induction false} PutHolds(fields: seq<Field>, key: string, value: Json)
    requires Ascending(fields)
    ensures Ascending(Put(fields, key, value))
    ensures forall k :: Get(Put(fields, key, value), k) == if k == key then Some(value) else Get(fields, k)
  {
    if fields == [] {
    } else if Before(key, fields[0].key) {
      PutFirst(fields, key, value);
    } else if fields[0].key == key {
      assert ([Field(key, value)] + fields[1..])[1..] == fields[1..];
    } else {
      var rest := Put(fields[1..], key, value);
      PutHolds(fields[1..], key, value);
      PutKeys(fields[1..], key, value);
      BeforeIsStrict(key, fields[0].key);
      forall j | 0 <= j < |rest| ensures Before(fields[0].key, rest[j].key) {
        assert rest[j] in rest;
      }
      assert ([fields[0]] + rest)[1..] == rest;
    }
  }

  // ----- The object that is hashed -----

  /** `object.get(section)?.as_object()?.get(key)`. */
  function Member(fields: seq<Field>, section: string, key: string): Option<Json> {
    match Get(fields, section)
    case Some(Object(inner)) => Get(inner, key)
    case _ => None
  }

  /** The value with one field of one section written; a section that is no object stays. */
  function WithMember(v: Json, section: string, key: string, value: Json): Json {
    if !v.Object? then v
    else match Get(v.fields, section)
      case Some(Object(inner)) => Object(Put(v.fields, section, Object(Put(inner, key, value))))
      case _ => v
  }

  function AeoObjectForHash(v: Json): Json { WithMember(v, "validation", "object_hash", Null) }

  function StoredHash(v: Json): Option<string> {
    if !v.Object? then None
    else match Member(v.fields, "validation", "object_hash")
      case Some(String(h)) => Some(h)
      case _ => None
  }

  // ----- Validation -----

  predicate HasExactRequiredFields(fields: seq<Field>) {
    |fields| == |SECTIONS| && (set f | f in fields :: f.key) == (set s | s in SECTIONS)
  }

  predicate AuthorityFieldsMatch(fields: seq<Field>, expected: string) {
    forall s :: s in SECTIONS ==> Member(fields, s, "authority_id") == Some(String(expected))
  }

  /** Rust's `char::is_whitespace`. */
  predicate IsWhitespace(c: char) {
    var n := c as nat;
    9 <= n <= 13 || n == 32 || n == 0x85 || n == 0xA0 || n == 0x1680 || 0x2000 <= n <= 0x200A ||
    n == 0x2028 || n == 0x2029 || n == 0x202F || n == 0x205F || n == 0x3000
  }

  predicate Blank(s: string) { forall c :: c in s ==> IsWhitespace(c) }

  function ExtractScopeBounds(fields: seq<Field>): (r: Option<seq<string>>)
    ensures r.Some? <==> var m := Member(fields, "scope", "bounds");
      m.Some? && m.value.Array? && m.value.items != [] &&
      forall i :: 0 <= i < |m.value.items| ==> m.value.items[i].String? && !Blank(m.value.items[i].s)
    ensures r.Some? ==> var items := Member(fields, "scope", "bounds").value.items;
      |r.value| == |items| && forall i :: 0 <= i < |items| ==> items[i] == String(r.value[i])
  {
    match Member(fields, "scope", "bounds")
    case Some(Array(items)) =>
      if items == [] || exists i :: 0 <= i < |items| && (!items[i].String? || Blank(items[i].s)) then None
      else Some(seq(|items|, i requires 0 <= i < |items| => items[i].s))
    case _ => None
  }

  predicate ContainsAll(maximum: seq<string>, requested: seq<string>) {
    forall b :: b in requested ==> b in maximum
  }

  /** Everything that is checked before the hash. */
  predicate ShapeAccepted(v: Json, context: Context) {
    && v.Object?
    && HasExactRequiredFields(v.fields)
    && AuthorityFieldsMatch(v.fields, context.expectedAuthority)
    && ExtractScopeBounds(v.fields).Some?
    && ContainsAll(context.maximumScope, ExtractScopeBounds(v.fields).value)
  }

  ghost predicate Accepted(hash: string -> string, v: Json, context: Context) {
    && ShapeAccepted(v, context)
    && NumbersValid(AeoObjectForHash(v))
    && StoredHash(v) == Some(hash(Text(AeoObjectForHash(v))))
  }

  method ValidateAeo(hash: string -> string, value: Json, context: Context) returns (decision: ValidationDecision)
    ensures decision == if Accepted(hash, value, context) then Valid else NullDecision
  {
    if !value.Object? || !HasExactRequiredFields(value.fields) {
      return NullDecision;
    }
    if !AuthorityFieldsMatch(value.fields, context.expectedAuthority) {
      return NullDecision;
    }
    var requested := ExtractScopeBounds(value.fields);
    if requested == None || !ContainsAll(context.maximumScope, requested.value) {
      return NullDecision;
    }
    var expectedHash := StoredHash(value);
    if expectedHash == None {
      return NullDecision;
    }
    var text := CanonicalString(AeoObjectForHash(value));
    if text == None || hash(text.value) != expectedHash.value {
      return NullDecision;
    }
    return Valid;
  }

  // ----- Exact-object binding -----

  /** Two different texts with one hash. */
  ghost predicate Collision(hash: string -> string, a: string, b: string) { a != b && hash(a) == hash(b) }

  lemma SectionsAreMaps(v: Json)
    requires IsMap(v) && v.Object?
    ensures forall s :: Get(v.fields, s).Some? ==> IsMap(Get(v.fields, s).value)
  {
    forall s | Get(v.fields, s).Some? ensures IsMap(Get(v.fields, s).value) {
      GetFinds(v.fields, s);
    }
  }

  lemma {:induction false} GetFinds(fields: seq<Field>, key: string)
    requires Get(fields, key).Some?
    ensures exists i :: 0 <= i < |fields| && fields[i] == Field(key, Get(fields, key).value)
  {
    if fields[0].key == key {
      assert fields[0] == Field(key, Get(fields, key).value);
    } else {
      GetFinds(fields[1..], key);
      var i :| 0 <= i < |fields[1..]| && fields[1..][i] == Field(key, Get(fields, key).value);
      assert fields[i + 1] == Field(key, Get(fields, key).value);
    }
  }

  /** Writing one field of a section changes that lookup and no other. */
  lemma WithMemberHolds(v: Json, section: string, key: string, value: Json)
    requires IsMap(v) && v.Object? && Get(v.fields, section).Some? && Get(v.fields, section).value.Object?
    ensures var w := WithMember(v, section, key, value);
      && w.Object? && Ascending(w.fields)
      && (forall s :: s != section ==> Get(w.fields, s) == Get(v.fields, s))
      && Get(w.fields, section).Some? && Get(w.fields, section).value.Object?
      && Ascending(Get(w.fields, section).value.fields)
      && forall k :: Member(w.fields, section, k) == if k == key then Some(value) else Member(v.fields, section, k)
  {
    SectionsAreMaps(v);
    var inner := Get(v.fields, section).value.fields;
    PutHolds(inner, key, value);
    PutHolds(v.fields, section, Object(Put(inner, key, value)));
  }

  /** The hashed object and the stored hash together are the whole object. */
  lemma HashedObjectDetermines(v: Json, w: Json)
    requires IsMap(v) && IsMap(w) && StoredHash(v).Some? && StoredHash(v) == StoredHash(w)
    requires AeoObjectForHash(v) == AeoObjectForHash(w)
    ensures v == w
  {
    hide IsMap, Ascending;
    assert Ascending(v.fields) && Ascending(w.fields) by { MapFields(v); MapFields(w); }
    WithMemberHolds(v, "validation", "object_hash", Null);
    WithMemberHolds(w, "validation", "object_hash", Null);
    SectionsAreMaps(v);
    SectionsAreMaps(w);
    var a, b := Get(v.fields, "validation").value, Get(w.fields, "validation").value;
    MapFields(a);
    MapFields(b);
    forall k ensures Get(a.fields, k) == Get(b.fields, k) {
      assert Member(v.fields, "validation", k) == Member(w.fields, "validation", k);
    }
    GetDetermines(a.fields, b.fields);
    assert a == b;
    GetDetermines(v.fields, w.fields);
  }

  lemma MapFields(v: Json)
    requires IsMap(v) && v.Object?
    ensures Ascending(v.fields)
  {}

  /** Two accepted objects that store one hash are one object, unless the hash collides on their texts;
      so a change after validation that keeps the stored hash is refused. */
  lemma ExactObjectBinding(hash: string -> string, v: Json, w: Json, contextV: Context, contextW: Context)
    requires IsMap(v) && IsMap(w)
    requires Accepted(hash, v, contextV) && StoredHash(v) == StoredHash(w)
    requires !Collision(hash, Text(AeoObjectForHash(v)), Text(AeoObjectForHash(w)))
    ensures Accepted(hash, w, contextW) ==> v == w
    ensures v != w ==> !Accepted(hash, w, contextW)
  {
    hide Text, AeoObjectForHash, ShapeAccepted, IsMap;
    if Accepted(hash, w, contextW) {
      TextInjective(AeoObjectForHash(v), AeoObjectForHash(w), "", "");
      HashedObjectDetermines(v, w);
    }
  }

  // ----- Sealing an object -----

  function Sealed(v: Json, h: string): Json { WithMember(v, "validation", "object_hash", String(h)) }

  lemma SealingKeepsHashedObject(v: Json, h: string)
    requires IsMap(v) && v.Object? && Get(v.fields, "validation").Some? && Get(v.fields, "validation").value.Object?
    ensures AeoObjectForHash(Sealed(v, h)) == AeoObjectForHash(v)
  {
    SectionsAreMaps(v);
    var inner := Get(v.fields, "validation").value.fields;
    PutTwice(inner, "object_hash", String(h), Null);
    var once := Object(Put(inner, "object_hash", String(h)));
    PutHolds(v.fields, "validation", once);
    PutTwice(v.fields, "validation", once, Object(Put(inner, "object_hash", Null)));
  }

  lemma PutTwice(fields: seq<Field>, key: string, first: Json, second: Json)
    requires Ascending(fields)
    ensures Put(Put(fields, key, first), key, second) == Put(fields, key, second)
  {
    PutHolds(fields, key, first);
    PutHolds(Put(fields, key, first), key, second);
    PutHolds(fields, key, second);
    GetDetermines(Put(Put(fields, key, first), key, second), Put(fields, key, second));
  }

  lemma {:induction false} PutExisting(fields: seq<Field>, key: string, value: Json)
    requires Ascending(fields) && Get(fields, key).Some?
    ensures |Put(fields, key, value)| == |fields|
    ensures forall i :: 0 <= i < |fields| ==> Put(fields, key, value)[i].key == fields[i].key
  {
    if Before(key, fields[0].key) {
      GetBelow(fields, key);
    } else if fields[0].key != key {
      PutExisting(fields[1..], key, value);
    }
  }

  /** The checks before the hash read the key set, the authorities and the bounds alone. */
  lemma SameShape(a: seq<Field>, b: seq<Field>, context: Context)
    requires |a| == |b| && forall i :: 0 <= i < |a| ==> a[i].key == b[i].key
    requires forall s :: Member(a, s, "authority_id") == Member(b, s, "authority_id")
    requires Member(a, "scope", "bounds") == Member(b, "scope", "bounds")
    ensures ShapeAccepted(Object(a), context) == ShapeAccepted(Object(b), context)
  {
    hide Member;
    SameKeys(a, b);
  }

  lemma SealingKeepsShape(v: Json, h: string, context: Context)
    requires IsMap(v) && v.Object? && Get(v.fields, "validation").Some? && Get(v.fields, "validation").value.Object?
    ensures ShapeAccepted(Sealed(v, h), context) <==> ShapeAccepted(v, context)
  {
    hide IsMap, Ascending, ShapeAccepted, Put, Before;
    var w := Sealed(v, h);
    WithMemberHolds(v, "validation", "object_hash", String(h));
    var inner := Get(v.fields, "validation").value.fields;
    MapFields(v);
    PutExisting(v.fields, "validation", Object(Put(inner, "object_hash", String(h))));
    SameShape(v.fields, w.fields, context);
  }

  lemma SameKeys(a: seq<Field>, b: seq<Field>)
    requires |a| == |b| && forall i :: 0 <= i < |a| ==> a[i].key == b[i].key
    ensures (set f | f in a :: f.key) == (set f | f in b :: f.key)
  {
    forall f | f in a ensures f.key in (set g | g in b :: g.key) {
      var i :| 0 <= i < |a| && a[i] == f;
      assert b[i] in b;
    }
    forall f | f in b ensures f.key in (set g | g in a :: g.key) {
      var i :| 0 <= i < |b| && b[i] == f;
      assert a[i] in a;
    }
  }

  lemma ShapeHasValidation(v: Json, context: Context)
    requires ShapeAccepted(v, context)
    ensures v.Object? && Get(v.fields, "validation").Some? && Get(v.fields, "validation").value.Object?
  {
    assert SECTIONS[2] in SECTIONS;
    assert Member(v.fields, "validation", "authority_id").Some?;
  }

  lemma SealedStores(v: Json, h: string)
    requires IsMap(v) && v.Object? && Get(v.fields, "validation").Some? && Get(v.fields, "validation").value.Object?
    ensures StoredHash(Sealed(v, h)) == Some(h)
  {
    WithMemberHolds(v, "validation", "object_hash", String(h));
  }

  /** Whatever hash is stored, exactly one is accepted: that of the object with the hash cleared. */
  lemma OneHashIsAccepted(hash: string -> string, v: Json, h: string, context: Context)
    requires IsMap(v) && ShapeAccepted(v, context) && NumbersValid(AeoObjectForHash(v))
    ensures Accepted(hash, Sealed(v, h), context) <==> h == hash(Text(AeoObjectForHash(v)))
  {
    hide ShapeAccepted, AeoObjectForHash, NumbersValid, Text, StoredHash, Sealed, Get, IsMap;
    ShapeHasValidation(v, context);
    SealedStores(v, h);
    SealingKeepsHashedObject(v, h);
    SealingKeepsShape(v, h, context);
  }
}
