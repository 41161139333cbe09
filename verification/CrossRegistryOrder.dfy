/** When the cross-registry traversal does not see the order in which records arrive. */
module CrossRegistryOrder {
  import opened Prelude
  import opened Sorting
  import opened JsCanonical
  import opened JsNormalize
  import opened JsObjects
  import opened CrossRegistry
  import opened CrossRegistrySafety

  /** `localeCompare` as an order: total, transitive, and zero for equal strings alone. */
  ghost predicate IsCollation(le: (string, string) -> bool) {
    Preorder(le) && forall a, b :: le(a, b) && le(b, a) ==> a == b
  }

  lemma RecordPreorder(le: (string, string) -> bool)
    requires IsCollation(le)
    ensures Preorder(RecordOrder(le))
  {
    hide RecordIdentity, Canonical;
    var order := RecordOrder(le);
    forall a, b, c | order(a, b) && order(b, c) ensures order(a, c) {
      StepsCompose(le, RecordIdentity(a), RecordIdentity(b), RecordIdentity(c), Canonical(a), Canonical(b), Canonical(c));
    }
    forall a, b ensures order(a, b) || order(b, a) {
      PairsCompare(le, RecordIdentity(a), RecordIdentity(b), Canonical(a), Canonical(b));
    }
  }

  lemma StepsCompose(le: (string, string) -> bool, id1: string, id2: string, id3: string, text1: string, text2: string, text3: string)
    requires IsCollation(le) && PairLe(le, id1, id2, text1, text2) && PairLe(le, id2, id3, text2, text3)
    ensures PairLe(le, id1, id3, text1, text3)
  {}

  lemma PairsCompare(le: (string, string) -> bool, id1: string, id2: string, text1: string, text2: string)
    requires IsCollation(le)
    ensures PairLe(le, id1, id2, text1, text2) || PairLe(le, id2, id1, text2, text1)
    ensures PairLe(le, id1, id2, text1, text2) && PairLe(le, id2, id1, text2, text1) <==> id1 == id2 && text1 == text2
  {}

  ghost predicate WellFormedRecords(records: seq<Js>) { forall r :: r in records ==> WellFormed(r) }

  /** Records that set no prototype anywhere. */
  ghost predicate PlainRecords(records: seq<Js>) { forall r :: r in records ==> WellFormed(r) && NoPrototype(r) }

  /** Well-formed records in normal form. */
  ghost predicate NormalRecords(records: seq<Js>) {
    forall r :: r in records ==> WellFormed(r) && NormalForm(r) == r
  }

  lemma NormalizeEachHolds(records: seq<Js>)
    requires WellFormedRecords(records)
    ensures WellFormedRecords(NormalizeEach(records))
    ensures PlainRecords(records) ==> NormalRecords(NormalizeEach(records))
  {
    hide NormalForm, WellFormed, KeptForm, NoPrototype;
    var all := NormalizeEach(records);
    forall r | r in all ensures WellFormed(r) && (PlainRecords(records) ==> NormalForm(r) == r) {
      var i :| 0 <= i < |all| && all[i] == r;
      assert records[i] in records;
      KeptFormHolds(records[i]);
      PlainForm(records[i]);
      FormIdempotent(records[i]);
    }
  }

  /** Two records compare equal exactly when they have one identity and one normal form: they then differ in
      prototypes at most. */
  lemma RecordTies(le: (string, string) -> bool, a: Js, b: Js)
    requires IsCollation(le) && WellFormed(a) && WellFormed(b)
    ensures RecordOrder(le)(a, b) && RecordOrder(le)(b, a) <==> RecordIdentity(a) == RecordIdentity(b) && NormalForm(a) == NormalForm(b)
  {
    hide RecordIdentity, NormalForm, WellFormed;
    PairsCompare(le, RecordIdentity(a), RecordIdentity(b), Canonical(a), Canonical(b));
    TextDecidesForm(a, b);
    hide CanonicalText;
  }

  /** Records in normal form that compare equal are equal. */
  lemma RecordAntisymmetric(le: (string, string) -> bool, records: seq<Js>)
    requires IsCollation(le) && NormalRecords(records)
    ensures AntisymmetricOn(RecordOrder(le), records)
  {
    hide RecordIdentity, NormalForm, WellFormed, RecordOrder;
    forall a, b | a in records && b in records && RecordOrder(le)(a, b) && RecordOrder(le)(b, a) ensures a == b {
      RecordTies(le, a, b);
    }
  }

  /** No two different records of a registry compare equal once they are normalized. */
  ghost predicate NoTies(env: Env, records: seq<Js>) { AntisymmetricOn(RecordOrder(env.le), NormalizeEach(records)) }

  /** Records that set no prototype do not tie. */
  lemma PlainRecordsDoNotTie(env: Env, records: seq<Js>)
    requires IsCollation(env.le) && PlainRecords(records)
    ensures NoTies(env, records)
  {
    NormalizeEachHolds(records);
    hide NormalForm, WellFormed, NoPrototype, NormalizeEach, RecordOrder;
    RecordAntisymmetric(env.le, NormalizeEach(records));
  }

  /** The same records in any order: the same results of `normalize`. */
  ghost predicate SameRecords(a: seq<Js>, b: seq<Js>) { multiset(NormalizeEach(a)) == multiset(NormalizeEach(b)) }

  /** Records with their keys in another order are the same records. */
  lemma ReorderedRecords(a: seq<Js>, b: seq<Js>)
    requires WellFormedRecords(a) && WellFormedRecords(b) && |a| == |b|
    requires forall i :: 0 <= i < |a| ==> Reordered(a[i], b[i])
    ensures SameRecords(a, b)
  {
    hide KeptForm, WellFormed, Reordered;
    forall i | 0 <= i < |a| ensures KeptForm(a[i]) == KeptForm(b[i]) {
      assert a[i] in a && b[i] in b;
      ReorderedKeepsForm(a[i], b[i]);
    }
    assert NormalizeEach(a) == NormalizeEach(b);
  }

  lemma SortedRecordsAgree(env: Env, a: seq<Js>, b: seq<Js>)
    requires IsCollation(env.le) && NoTies(env, a) && SameRecords(a, b)
    ensures SortRecords(env, a) == SortRecords(env, b)
  {
    RecordPreorder(env.le);
    hide RecordOrder, NormalizeEach;
    SortIsCanonical(NormalizeEach(a), NormalizeEach(b), RecordOrder(env.le));
  }

  /** The order of a registry is invisible exactly when no two different records of it tie. */
  lemma OrderIsInvisibleIff(env: Env, records: seq<Js>)
    requires IsCollation(env.le)
    ensures NoTies(env, records) <==>
      forall other :: multiset(other) == multiset(records) ==> SortRecords(env, other) == SortRecords(env, records)
  {
    hide KeptForm, RecordOrder, SortRecords;
    if NoTies(env, records) {
      forall other | multiset(other) == multiset(records) ensures SortRecords(env, other) == SortRecords(env, records) {
        NormalizeEachPermutes(records, other);
        SortedRecordsAgree(env, records, other);
      }
    } else {
      var all := NormalizeEach(records);
      var x, y :| x in all && y in all && RecordOrder(env.le)(x, y) && RecordOrder(env.le)(y, x) && x != y;
      var i :| 0 <= i < |all| && all[i] == x;
      var j :| 0 <= j < |all| && all[j] == y;
      var first, second := TieShows(env, records, i, j);
    }
  }

  lemma TieShows(env: Env, records: seq<Js>, i: nat, j: nat) returns (first: seq<Js>, second: seq<Js>)
    requires IsCollation(env.le) && i < |records| && j < |records|
    requires var all := NormalizeEach(records);
      RecordOrder(env.le)(all[i], all[j]) && RecordOrder(env.le)(all[j], all[i]) && all[i] != all[j]
    ensures multiset(first) == multiset(records) == multiset(second) && SortRecords(env, first) != SortRecords(env, second)
  {
    var a, b := records[i], records[j];
    var rest := Remaining(records, i, j);
    RecordPreorder(env.le);
    hide *;
    PairFirst(a, b, rest);
    PairFirst(b, a, rest);
    TiesShow(KeptForm(a), KeptForm(b), NormalizeEach(rest), RecordOrder(env.le));
    SwapPair(a, b, rest);
    first, second := [a, b] + rest, [b, a] + rest;
    SortRecordsIs(env, first);
    SortRecordsIs(env, second);
  }

  lemma SortRecordsIs(env: Env, records: seq<Js>)
    ensures SortRecords(env, records) == Sort(NormalizeEach(records), RecordOrder(env.le))
  {}

  lemma SwapPair<T>(a: T, b: T, rest: seq<T>)
    ensures multiset([a, b] + rest) == multiset([b, a] + rest)
  {
    assert multiset([a, b]) == multiset([b, a]);
  }

  lemma PairFirst(a: Js, b: Js, rest: seq<Js>)
    ensures NormalizeEach([a, b] + rest) == [KeptForm(a), KeptForm(b)] + NormalizeEach(rest)
  {
    hide KeptForm;
  }

  /** What is left without two positions. */
  lemma Remaining(records: seq<Js>, i: nat, j: nat) returns (rest: seq<Js>)
    requires i < |records| && j < |records| && i != j
    ensures multiset([records[i], records[j]] + rest) == multiset(records)
  {
    var a, b := if i < j then i else j, if i < j then j else i;
    rest := records[..a] + records[a + 1..b] + records[b + 1..];
    assert records == records[..a] + [records[a]] + records[a + 1..b] + [records[b]] + records[b + 1..];
    TakeTwo(records[..a], records[a], records[a + 1..b], records[b], records[b + 1..]);
    SwapPair(records[a], records[b], rest);
  }

  lemma TakeTwo<T>(front: seq<T>, a: T, middle: seq<T>, b: T, back: seq<T>)
    ensures multiset(front + [a] + middle + [b] + back) == multiset([a, b] + (front + middle + back))
  {}

  /** A record whose `__proto__` holds its decision ties with one that inherits another decision. */
  lemma InheritedDecisionsTie(le: (string, string) -> bool)
    requires IsCollation(le)
    ensures var a, b := Inheriting("d1"), Inheriting("d2");
      && WellFormed(a) && WellFormed(b) && Normalize(a).Some? && Normalize(b).Some?
      && RecordOrder(le)(Normalize(a).value, Normalize(b).value) && RecordOrder(le)(Normalize(b).value, Normalize(a).value)
      && FieldOf(Normalize(a).value, "decision_id") == "d1" && FieldOf(Normalize(b).value, "decision_id") == "d2"
  {
    var a, b := Inheriting("d1"), Inheriting("d2");
    InheritingHolds("d1");
    InheritingHolds("d2");
    assert Fields(a.props) == Fields(a.props[1..]) == Fields(b.props[1..]) == Fields(b.props);
    ObjectFields(a.props);
    ObjectFields(b.props);
    hide *;
    DataDeterminesForm(a, b);
    NormalizeKeepsData(a);
    NormalizeKeepsData(b);
    RecordTies(le, Normalize(a).value, Normalize(b).value);
  }

  /** An execution that inherits its decision from its own `__proto__` object. */
  function Inheriting(decision: string): Js {
    Obj([Prop(PROTO, Obj([Prop("decision_id", Str(decision))])), Prop("execution_id", Str("e1"))])
  }

  lemma InheritingHolds(decision: string)
    ensures var r := Inheriting(decision);
      && r.Obj? && KeysDistinct(r.props) && WellFormed(r) && Normalize(r).Some?
      && RecordIdentity(Normalize(r).value) == "e1" && FieldOf(Normalize(r).value, "decision_id") == decision
  {
    var proto := Obj([Prop("decision_id", Str(decision))]);
    var p, q := Prop(PROTO, proto), Prop("execution_id", Str("e1"));
    assert WellFormed(Str(decision));
    assert WellFormed(proto);
    assert WellFormed(Obj([p, q]));
    KeptPair(p, q, decision);
    var kept := Obj([q, p]);
    NormalizeIsExact(Obj([p, q]));
    InheritedReads(kept, decision);
    hide *;
    FirstNamedAt(kept, IDENTITY_FIELDS, 5);
    IdentityIs(kept, "e1");
    DecisionIs(kept, decision);
  }
  /** `normalize` of such a record keeps its two properties: one own, one inherited. */
  lemma KeptPair(p: Prop, q: Prop, decision: string)
    requires p == Prop(PROTO, Obj([Prop("decision_id", Str(decision))])) && q == Prop("execution_id", Str("e1"))
    ensures !Clashes(Obj([p, q])) && KeptForm(Obj([p, q])) == Obj([q, p])
  {
    var inner := [Prop("decision_id", Str(decision))];
    SingleKeeps(inner[0]);
    SingleDoesNotClash(inner[0]);
    assert KeptForms([p, q]) == [p, q];
    assert Utf16Rank(PROTO[0]) < Utf16Rank("execution_id"[0]);
    assert PropLe(p, q);
    hide KeyLe;
    SortedPair(p, q);
    KeptObject([p, q]);
    BuildPair(p, q);
    LockedInHolds(inner, "execution_id");
    PairDoesNotClash(p, q);
  }

  lemma SingleKeeps(p: Prop)
    requires p.key != PROTO && p.value.Str?
    ensures KeptForm(Obj([p])) == Obj([p]) && SetsPrototype(Obj([p]))
  {
    assert KeptForms([p]) == [p];
    assert Sort([p], PropLe) == [p];
    KeptObject([p]);
    assert Build([p]) == [p] && PrototypeOf([p]) == None;
  }

  lemma SingleDoesNotClash(p: Prop)
    requires p.key != PROTO && p.value.Str?
    ensures !Clashes(Obj([p]))
  {
    assert !Clashes(p.value);
  }

  lemma SortedPair(p: Prop, q: Prop)
    requires PropLe(p, q)
    ensures Sort([p, q], PropLe) == [p, q]
  {
    assert [p, q][1..] == [q];
    assert Sort([q], PropLe) == [q];
  }

  lemma BuildPair(p: Prop, q: Prop)
    requires p.key == PROTO && q.key != PROTO && SetsPrototype(p.value)
    ensures Build([p, q]) + PrototypeProp(PrototypeOf([p, q])) == [q, p]
  {
    assert [p, q][..1] == [p];
    assert Build([p]) == [] && Build([p, q]) == [q];
    assert PrototypeOf([p]) == Some(p.value) && PrototypeOf([p, q]) == Some(p.value);
  }

  lemma PairDoesNotClash(p: Prop, q: Prop)
    requires p.key == PROTO && !Clashes(p.value) && !Clashes(q.value) && q.key !in Locked(p.value) && q.key != PROTO
    ensures !Clashes(Obj([p, q]))
  {
    hide Locked;
    assert !KeyClash([p, q]);
  }

  lemma InheritedReads(kept: Js, decision: string)
    requires kept == Obj([Prop("execution_id", Str("e1")), Prop(PROTO, Obj([Prop("decision_id", Str(decision))]))])
    ensures Read(kept, "execution_id") == Str("e1") && Read(kept, "decision_id") == Str(decision)
    ensures |IDENTITY_FIELDS| > 5 && IDENTITY_FIELDS[5] == "execution_id"
    ensures forall i :: 0 <= i < 5 ==> Missing(Read(kept, IDENTITY_FIELDS[i]))
  {
    var inner := Obj([Prop("decision_id", Str(decision))]);
    forall name: string | name != "execution_id" && name != PROTO ensures Read(kept, name) == Read(inner, name) {
      ReadThrough(Prop("execution_id", Str("e1")), inner, name);
    }
    assert Read(inner, "decision_id") == Str(decision);
    forall name: string | name != "decision_id" ensures Read(inner, name) == Undefined {
      assert |"decision_id"| != |PROTO|;
      ReadSingle(Prop("decision_id", Str(decision)), name);
    }
  }

  lemma ReadSingle(p: Prop, name: string)
    requires p.key != name && p.key != PROTO
    ensures Read(Obj([p]), name) == Undefined
  {
    assert [p][1..] == [];
    assert Lookup([p], name) == Lookup([p][1..], name) == None;
    assert ReadPrototype([p], name) == ReadPrototype([p][1..], name);
  }

  lemma ReadThrough(p: Prop, proto: Js, name: string)
    requires p.key != name && p.key != PROTO && name != PROTO
    ensures Read(Obj([p, Prop(PROTO, proto)]), name) == Read(proto, name)
  {
    var props := [p, Prop(PROTO, proto)];
    assert props[1..] == [Prop(PROTO, proto)];
    assert props[1..][1..] == [];
    assert Lookup(props[1..], name) == None;
    assert ReadPrototype(props, name) == ReadPrototype(props[1..], name) == Read(proto, name);
  }

  lemma {:induction false} FirstNamedAt(record: Js, names: seq<string>, k: nat)
    requires k < |names| && !Missing(Read(record, names[k])) && forall i :: 0 <= i < k ==> Missing(Read(record, names[i]))
    ensures FirstNamed(record, names) == Read(record, names[k])
  {
    hide Read;
    if k > 0 {
      FirstNamedAt(record, names[1..], k - 1);
    }
  }

  lemma IdentityIs(record: Js, id: string)
    requires FirstNamed(record, IDENTITY_FIELDS) == Str(id)
    ensures RecordIdentity(record) == id
  {
    hide FirstNamed, IDENTITY_FIELDS;
  }

  lemma DecisionIs(record: Js, decision: string)
    requires Read(record, "decision_id") == Str(decision)
    ensures FieldOf(record, "decision_id") == decision
  {}

  /** The registries of two states hold the same records. */
  ghost predicate SameRegistries(s1: Js, s2: Js) {
    forall i: nat :: i < 13 ==> SameRecords(Registry(s1, ORDER[i]), Registry(s2, ORDER[i]))
  }

  /** No two different records of one registry tie. */
  ghost predicate Untied(env: Env, state: Js) { forall i: nat :: i < 13 ==> NoTies(env, Registry(state, ORDER[i])) }

  lemma CanonicalTablesAgree(env: Env, s1: Js, s2: Js)
    requires IsCollation(env.le) && SameRegistries(s1, s2) && Untied(env, s1)
    ensures CanonicalTables(env, s1) == CanonicalTables(env, s2)
  {
    hide SortRecords, SameRecords, Registry, NoTies;
    forall i: nat | i < 13 ensures SortRecords(env, Registry(s1, ORDER[i])) == SortRecords(env, Registry(s2, ORDER[i])) {
      SortedRecordsAgree(env, Registry(s1, ORDER[i]), Registry(s2, ORDER[i]));
    }
    var a, b := CanonicalTables(env, s1), CanonicalTables(env, s2);
    assert forall i: nat :: i < 13 ==> a[i] == b[i];
  }

  /** Where no two different records tie, reordering records, or keys inside records, changes neither the canonical
      state nor anything computed from it: the drifts, the edges, and the nine hashes; only the reasons may tell, by
      the input order. */
  lemma RecordOrderIsInvisible(env: Env, s1: Js, s2: Js, limit: int)
    requires IsCollation(env.le) && SameRegistries(s1, s2) && Untied(env, s1)
    ensures CanonicalRegistryState(env, s1) == CanonicalRegistryState(env, s2)
    ensures !Clashes(s1) && !Clashes(s2) ==> (Traversal(env, s1, limit).Some? <==> Traversal(env, s2, limit).Some?)
    ensures Traversal(env, s1, limit).Some? && Traversal(env, s2, limit).Some? ==>
      var a, b := Traversal(env, s1, limit).value, Traversal(env, s2, limit).value;
      b.(nullReasons := a.nullReasons, legitimate := a.legitimate) == a
      && (NonCanonicalInputOrder(env, s1) == NonCanonicalInputOrder(env, s2) ==> a == b)
  {
    hide CanonicalTables, Limited, MapsOf, AllFindings, SomeThrow, AsObject, HashCanonical, NullReasons, Unresolved, Classes, Sort;
    hide EdgeObjects, DriftObjects, OrphanObjects, NonceEntries, ContinuityEdges, ProofEdges, Strings, SameRegistries, NonCanonicalInputOrder;
    hide Untied, OwnTables, Clashes;
    CanonicalTablesAgree(env, s1, s2);
  }

  lemma NormalizeEachConcat(a: seq<Js>, b: seq<Js>)
    ensures NormalizeEach(a + b) == NormalizeEach(a) + NormalizeEach(b)
  {
    hide KeptForm;
  }

  lemma {:induction false} NormalizeEachPermutes(a: seq<Js>, b: seq<Js>)
    requires multiset(a) == multiset(b)
    ensures multiset(NormalizeEach(a)) == multiset(NormalizeEach(b))
  {
    hide KeptForm;
    PermutationsAgree(a, b);
    if a != [] {
      assert a[0] in b;
      var i :| 0 <= i < |b| && b[i] == a[0];
      var front, back := b[..i], b[i + 1..];
      assert b == front + ([a[0]] + back);
      assert a == [a[0]] + a[1..];
      WithoutOne(a[0], a[1..], front, back);
      NormalizeEachPermutes(a[1..], front + back);
      NormalizeEachConcat([a[0]], a[1..]);
      NormalizeEachConcat(front, back);
      NormalizeEachConcat([a[0]], back);
      NormalizeEachConcat(front, [a[0]] + back);
      hide NormalizeEach;
      WithOne(NormalizeEach([a[0]]), NormalizeEach(a[1..]), NormalizeEach(front), NormalizeEach(back));
    } else {
      assert b == [];
    }
  }

  lemma WithoutOne<T>(x: T, rest: seq<T>, front: seq<T>, back: seq<T>)
    requires multiset([x] + rest) == multiset(front + ([x] + back))
    ensures multiset(rest) == multiset(front + back)
  {
    assert multiset([x] + rest) == multiset{x} + multiset(rest);
    assert multiset(front + ([x] + back)) == multiset(front) + (multiset{x} + multiset(back));
    assert multiset(rest) == multiset([x] + rest) - multiset{x};
    assert multiset(front + back) == multiset(front + ([x] + back)) - multiset{x};
  }

  lemma WithOne<T>(one: seq<T>, rest: seq<T>, front: seq<T>, back: seq<T>)
    requires multiset(rest) == multiset(front + back)
    ensures multiset(one + rest) == multiset(front + (one + back))
  {}

  /** A permutation inside each registry leaves the same records. */
  lemma PermutedRegistries(s1: Js, s2: Js)
    requires forall i: nat :: i < 13 ==> multiset(Registry(s1, ORDER[i])) == multiset(Registry(s2, ORDER[i]))
    ensures SameRegistries(s1, s2)
  {
    hide Registry, NormalizeEach;
    forall i: nat | i < 13 ensures SameRecords(Registry(s1, ORDER[i]), Registry(s2, ORDER[i])) {
      NormalizeEachPermutes(Registry(s1, ORDER[i]), Registry(s2, ORDER[i]));
    }
  }

  // ----- The canonical state, canonicalized again -----

  lemma OrderIsDistinct()
    ensures Distinct(ORDER)
  {}

  lemma RegistryOfTables(t: Tables, i: nat)
    requires i < 13
    ensures Registry(AsObject(t), ORDER[i]) == t[i]
  {
    var props := AsObject(t).props;
    OrderIsDistinct();
    hide ORDER;
    assert KeysDistinct(props);
    LookupAt(props, i);
  }

  lemma RegistryOfCanonical(env: Env, state: Js, i: nat)
    requires i < 13
    ensures Registry(CanonicalRegistryState(env, state), ORDER[i]) == OwnParts(SortRecords(env, Registry(state, ORDER[i])))
  {
    hide AsObject, SortRecords, Registry, OwnParts;
    RegistryOfTables(OwnTables(CanonicalTables(env, state)), i);
  }

  ghost predicate WellFormedRegistries(state: Js) { forall i: nat :: i < 13 ==> WellFormedRecords(Registry(state, ORDER[i])) }

  ghost predicate PlainRegistries(state: Js) { forall i: nat :: i < 13 ==> PlainRecords(Registry(state, ORDER[i])) }

  /** What a registry's canonical records are made of. */
  lemma SortedRecordsHold(env: Env, records: seq<Js>)
    requires WellFormedRecords(records)
    ensures var sorted := SortRecords(env, records);
      && multiset(sorted) == multiset(NormalizeEach(records)) && WellFormedRecords(sorted)
      && (forall r :: r in sorted <==> r in NormalizeEach(records))
      && (PlainRecords(records) ==> NormalRecords(sorted))
      && (IsCollation(env.le) ==> Sorted(sorted, RecordOrder(env.le)))
  {
    NormalizeEachHolds(records);
    SortPermutes(NormalizeEach(records), RecordOrder(env.le));
    hide Sort, WellFormed, NormalForm, NormalizeEach, RecordOrder, NoPrototype, Sorted;
    if IsCollation(env.le) {
      RecordPreorder(env.le);
      SortSorts(NormalizeEach(records), RecordOrder(env.le));
    }
  }

  /** The own parts of records are in normal form, and normalizing them again changes nothing. */
  lemma OwnPartsHold(records: seq<Js>)
    requires WellFormedRecords(records)
    ensures NormalRecords(OwnParts(records)) && PlainRecords(OwnParts(records))
    ensures NormalizeEach(OwnParts(records)) == OwnParts(records)
    ensures NormalRecords(records) ==> OwnParts(records) == records
  {
    hide WellFormed, NormalForm, NoPrototype, KeptForm;
    var own := OwnParts(records);
    forall i | 0 <= i < |own|
      ensures WellFormed(own[i]) && NormalForm(own[i]) == own[i] && NoPrototype(own[i]) && KeptForm(own[i]) == own[i]
    {
      assert records[i] in records;
      FormKeepsData(records[i]);
      FormIdempotent(records[i]);
      NormalFormIsPlain(records[i]);
      PlainForm(own[i]);
    }
    assert forall i :: 0 <= i < |records| ==> records[i] in records;
  }

  lemma PlainSortIsStable(env: Env, records: seq<Js>)
    requires IsCollation(env.le) && PlainRecords(records)
    ensures var sorted := SortRecords(env, records);
      NormalRecords(sorted) && OwnParts(sorted) == sorted && SortRecords(env, OwnParts(sorted)) == sorted
  {
    var sorted := SortRecords(env, records);
    assert WellFormedRecords(records);
    SortedRecordsHold(env, records);
    OwnPartsHold(sorted);
    RecordPreorder(env.le);
    RecordAntisymmetric(env.le, sorted);
    assert SortRecords(env, OwnParts(sorted)) == Sort(NormalizeEach(OwnParts(sorted)), RecordOrder(env.le));
    hide *;
    SortOfSorted(sorted, RecordOrder(env.le));
  }

  /** A registry comes back as it was only if no record set a prototype. */
  lemma StableSortIsPlain(env: Env, records: seq<Js>)
    requires WellFormedRecords(records)
    requires SortRecords(env, OwnParts(SortRecords(env, records))) == SortRecords(env, records)
    ensures PlainRecords(records)
  {
    var sorted := SortRecords(env, records);
    SortedRecordsHold(env, records);
    OwnPartsHold(sorted);
    SortPermutes(OwnParts(sorted), RecordOrder(env.le));
    assert forall r :: r in sorted ==> r in OwnParts(sorted);
    hide WellFormed, NormalForm, NoPrototype, KeptForm, RecordOrder, Sort;
    forall r | r in records ensures NoPrototype(r) {
      var i :| 0 <= i < |records| && records[i] == r;
      assert NormalizeEach(records)[i] == KeptForm(r);
      assert KeptForm(r) in sorted;
      assert NormalForm(KeptForm(r)) == KeptForm(r);
      KeptFormHolds(r);
      DataDeterminesForm(KeptForm(r), r);
      PlainForm(r);
    }
  }

  /** Canonicalizing the canonical state gives the same tables exactly if no record set a prototype, which the second
      call does not see; and then the state comes back as it was. */
  lemma CanonicalStateIdempotent(env: Env, state: Js)
    requires IsCollation(env.le) && WellFormedRegistries(state)
    ensures CanonicalTables(env, CanonicalRegistryState(env, state)) == CanonicalTables(env, state) <==> PlainRegistries(state)
    ensures PlainRegistries(state) ==>
      CanonicalRegistryState(env, CanonicalRegistryState(env, state)) == CanonicalRegistryState(env, state)
  {
    var t, again := CanonicalTables(env, state), CanonicalTables(env, CanonicalRegistryState(env, state));
    forall i: nat | i < 13
      ensures WellFormedRecords(Registry(state, ORDER[i]))
      ensures again[i] == t[i] <==> PlainRecords(Registry(state, ORDER[i]))
    {
      RegistryOfCanonical(env, state, i);
      hide Registry, SortRecords, WellFormedRecords, PlainRecords, CanonicalRegistryState, OwnParts, IsCollation;
      if PlainRecords(Registry(state, ORDER[i])) {
        PlainSortIsStable(env, Registry(state, ORDER[i]));
      }
      if again[i] == t[i] {
        StableSortIsPlain(env, Registry(state, ORDER[i]));
      }
    }
    hide Registry, SortRecords, WellFormedRecords, PlainRecords, OwnParts, CanonicalTables;
    if PlainRegistries(state) {
      assert again == t;
    }
  }

  lemma RegistriesMatch(env: Env, state: Js)
    requires IsCollation(env.le) && PlainRegistries(state)
    ensures SameRegistries(state, CanonicalRegistryState(env, state)) && Untied(env, state)
  {
    forall i: nat | i < 13
      ensures SameRecords(Registry(state, ORDER[i]), Registry(CanonicalRegistryState(env, state), ORDER[i]))
      ensures NoTies(env, Registry(state, ORDER[i]))
    {
      RegistryOfCanonical(env, state, i);
      var records := Registry(state, ORDER[i]);
      assert PlainRecords(records) && WellFormedRecords(records);
      hide Registry, SortRecords, OwnParts, IsCollation, NormalizeEach, WellFormed, NoPrototype, CanonicalRegistryState, NoTies;
      PlainRecordsDoNotTie(env, records);
      SortedRecordsHold(env, records);
      OwnPartsHold(SortRecords(env, records));
    }
  }

  predicate NothingFound(s: Snapshot) { s.driftClasses == [] && s.unresolvedEdges == [] }

  /** Of two states with the same records, one that is in order is legitimate if the other is. */
  lemma LegitimateUpToOrder(env: Env, s1: Js, s2: Js, limit: int)
    requires CanonicalTables(env, s1) == CanonicalTables(env, s2)
    ensures !NonCanonicalInputOrder(env, s2) && Traversal(env, s1, limit).Some? && Traversal(env, s2, limit).Some? ==>
      (Traversal(env, s1, limit).value.legitimate ==> Traversal(env, s2, limit).value.legitimate)
  {
    hide Traversal, NonCanonicalInputOrder, CanonicalTables, AllFindings, MapsOf, Limited, Clean;
    LegitimateIffClean(env, s1, limit);
    LegitimateIffClean(env, s2, limit);
  }

  /** Without their prototypes, the canonical records of each registry are still in order. */
  ghost predicate OwnOrderKept(env: Env, state: Js) {
    forall i: nat :: i < 13 ==> Sorted(OwnParts(SortRecords(env, Registry(state, ORDER[i]))), RecordOrder(env.le))
  }

  lemma OwnOrderKeptIff(env: Env, records: seq<Js>)
    requires IsCollation(env.le) && WellFormedRecords(records)
    ensures var own := OwnParts(SortRecords(env, records));
      && (Sorted(own, RecordOrder(env.le)) <==> OwnParts(SortRecords(env, own)) == own)
      && NormalRecords(own) && NormalRecords(OwnParts(SortRecords(env, own)))
      && (PlainRecords(records) ==> Sorted(own, RecordOrder(env.le)))
  {
    var sorted := SortRecords(env, records);
    var own := OwnParts(sorted);
    SortedRecordsHold(env, records);
    OwnPartsHold(sorted);
    PlainIsWellFormed(own);
    SortedRecordsHold(env, own);
    OwnPartsHold(SortRecords(env, own));
    RecordAntisymmetric(env.le, own);
    RecordPreorder(env.le);
    SortRecordsIs(env, own);
    hide *;
    if Sorted(own, RecordOrder(env.le)) {
      SortOfSorted(own, RecordOrder(env.le));
    }
  }

  lemma PlainIsWellFormed(records: seq<Js>)
    requires PlainRecords(records)
    ensures WellFormedRecords(records)
  {
    hide NoPrototype;
  }

  /** A state of normal records tells its tables by its normal form. */
  lemma TablesFromForm(o: Tables, p: Tables)
    requires forall i: nat :: i < 13 ==> NormalRecords(o[i]) && NormalRecords(p[i])
    requires NormalForm(AsObject(o)) == NormalForm(AsObject(p))
    ensures o == p
  {
    OrderIsDistinct();
    forall i: nat | i < 13 ensures o[i] == p[i] {
      FormHolds(o, i);
      FormHolds(p, i);
      hide *;
    }
  }

  lemma FormHolds(t: Tables, i: nat)
    requires i < 13 && NormalRecords(t[i]) && Distinct(ORDER)
    ensures Own(NormalForm(AsObject(t)), ORDER[i]) == Arr(t[i])
  {
    var props := AsObject(t).props;
    assert AsObject(t) == Obj(props) && props[i] == Prop(ORDER[i], Arr(t[i]));
    OrderHasNoProto();
    hide ORDER, AsObject;
    assert KeysDistinct(props);
    assert props[i] in props;
    FormOfRecords(t[i]);
    NormalFormHolds(props);
    hide NormalForm, NormalForms, Build, Sort, KeysDistinct, NormalRecords;
    LookupIs(NormalForm(Obj(props)).props, Prop(ORDER[i], Arr(t[i])));
  }

  lemma OrderHasNoProto()
    ensures forall i: nat :: i < 13 ==> ORDER[i] != PROTO
  {}

  lemma FormOfRecords(records: seq<Js>)
    requires NormalRecords(records)
    ensures NormalForm(Arr(records)) == Arr(records)
  {
    forall i | 0 <= i < |records| ensures NormalForm(records[i]) == records[i] { assert records[i] in records; }
    assert NormalForm(Arr(records)).items == records;
  }

  /** Two states whose texts do not collide under the hash. */
  ghost predicate NoCollision(env: Env, s1: Js, s2: Js) {
    env.hash(CanonicalText(s1)) == env.hash(CanonicalText(s2)) ==> CanonicalText(s1) == CanonicalText(s2)
  }

  /** Absent a collision, the canonical state triggers NON_CANONICAL_INPUT_ORDER exactly if losing prototypes puts
      its records out of order, which cannot happen where none is set. */
  lemma CanonicalStateFlag(env: Env, state: Js)
    requires IsCollation(env.le) && WellFormedRegistries(state)
    ensures var canonical := CanonicalRegistryState(env, state);
      NoCollision(env, canonical, CanonicalRegistryState(env, canonical)) ==>
        (NonCanonicalInputOrder(env, canonical) <==> !OwnOrderKept(env, state))
    ensures PlainRegistries(state) ==> OwnOrderKept(env, state) && !NonCanonicalInputOrder(env, CanonicalRegistryState(env, state))
  {
    var canonical := CanonicalRegistryState(env, state);
    var again := CanonicalRegistryState(env, canonical);
    var o, p := OwnTables(CanonicalTables(env, state)), OwnTables(CanonicalTables(env, canonical));
    forall i: nat | i < 13
      ensures NormalRecords(o[i]) && NormalRecords(p[i])
      ensures Sorted(OwnParts(SortRecords(env, Registry(state, ORDER[i]))), RecordOrder(env.le)) <==> o[i] == p[i]
      ensures PlainRecords(Registry(state, ORDER[i])) ==> Sorted(OwnParts(SortRecords(env, Registry(state, ORDER[i]))), RecordOrder(env.le))
    {
      RegistryOfCanonical(env, state, i);
      hide Registry, SortRecords, OwnParts, CanonicalRegistryState, Sorted, RecordOrder, NormalRecords, PlainRecords;
      OwnOrderKeptIff(env, Registry(state, ORDER[i]));
    }
    CanonicalStateIsWellFormed(env, state);
    CanonicalStateIsWellFormed(env, canonical);
    assert canonical == AsObject(o) && again == AsObject(p);
    assert PlainRegistries(state) ==> OwnOrderKept(env, state);
    hide *;
    OwnOrderIs(env, state, o, p);
    FlagIs(env, canonical, again);
    if NormalForm(AsObject(o)) == NormalForm(AsObject(p)) {
      TablesFromForm(o, p);
    }
  }

  lemma OwnOrderIs(env: Env, state: Js, o: Tables, p: Tables)
    requires forall i: nat :: i < 13 ==>
      (Sorted(OwnParts(SortRecords(env, Registry(state, ORDER[i]))), RecordOrder(env.le)) <==> o[i] == p[i])
    ensures OwnOrderKept(env, state) <==> o == p
  {
    hide Sorted, OwnParts, SortRecords, RecordOrder, Registry;
    if OwnOrderKept(env, state) {
      assert forall i: nat :: i < 13 ==> o[i] == p[i];
    }
  }

  lemma FlagIs(env: Env, state: Js, canonical: Js)
    requires WellFormed(state) && WellFormed(canonical) && canonical == CanonicalRegistryState(env, state)
    ensures NoCollision(env, state, canonical) ==> (NonCanonicalInputOrder(env, state) <==> NormalForm(state) != NormalForm(canonical))
    ensures state == canonical ==> !NonCanonicalInputOrder(env, state)
  {
    hide NormalForm, WellFormed, CanonicalText, CanonicalRegistryState;
    TextDecidesForm(state, canonical);
  }

  /** The canonical state is plain, and holds well-formed records. */
  lemma CanonicalStateIsWellFormed(env: Env, state: Js)
    requires WellFormedRegistries(state)
    ensures WellFormed(CanonicalRegistryState(env, state)) && NoPrototype(CanonicalRegistryState(env, state))
    ensures WellFormedRegistries(CanonicalRegistryState(env, state))
  {
    var canonical := CanonicalRegistryState(env, state);
    var t := OwnTables(CanonicalTables(env, state));
    forall i: nat | i < 13
      ensures WellFormedRecords(Registry(canonical, ORDER[i])) && WellFormed(Arr(t[i])) && NoPrototype(Arr(t[i]))
    {
      RegistryOfCanonical(env, state, i);
      hide Registry, SortRecords, OwnParts, WellFormedRecords, CanonicalRegistryState, NormalRecords, PlainRecords;
      SortedRecordsHold(env, Registry(state, ORDER[i]));
      OwnPartsHold(SortRecords(env, Registry(state, ORDER[i])));
      PlainIsWellFormed(t[i]);
      ArrayOf(t[i]);
    }
    OrderIsDistinct();
    OrderHasNoProto();
    hide ORDER, Registry, SortRecords, OwnParts, WellFormedRecords, CanonicalTables;
    assert KeysDistinct(AsObject(t).props);
    assert forall i: nat :: i < 13 ==> AsObject(t).props[i] == Prop(ORDER[i], Arr(t[i]));
  }

  lemma ArrayOf(records: seq<Js>)
    requires PlainRecords(records)
    ensures WellFormed(Arr(records)) && NoPrototype(Arr(records))
  {
    assert forall i :: 0 <= i < |records| ==> records[i] in records;
  }

  /** For records that set no prototype the canonical state is legitimate exactly if nothing was found in the original:
      canonicalizing a legitimate state, or one that lacks only the order, gives a legitimate one. */
  lemma CanonicalStateIsInOrder(env: Env, state: Js, limit: int)
    requires IsCollation(env.le) && WellFormedRegistries(state)
    ensures var canonical := CanonicalRegistryState(env, state);
      PlainRegistries(state) && Traversal(env, state, limit).Some? ==>
        && Traversal(env, canonical, limit).Some?
        && (Traversal(env, state, limit).value.legitimate ==> Traversal(env, canonical, limit).value.legitimate)
        && (Traversal(env, canonical, limit).value.legitimate <==> NothingFound(Traversal(env, state, limit).value))
  {
    var canonical := CanonicalRegistryState(env, state);
    hide *;
    if PlainRegistries(state) && Traversal(env, state, limit).Some? {
      CanonicalStateFlag(env, state);
      RegistriesMatch(env, state);
      CanonicalStateIsWellFormed(env, state);
      NoPrototypeNoClash(canonical);
      TraversalMeansNoClash(env, state, limit);
      CanonicalTablesAgree(env, state, canonical);
      RecordOrderIsInvisible(env, state, canonical, limit);
      LegitimateUpToOrder(env, state, canonical, limit);
      LegitimateIffNothingFound(env, canonical, limit);
      SameFindings(Traversal(env, state, limit).value, Traversal(env, canonical, limit).value);
    }
  }

  lemma TraversalMeansNoClash(env: Env, state: Js, limit: int)
    ensures Traversal(env, state, limit).Some? ==> !Clashes(state)
  {
    hide Clashes, CanonicalTables, Limited, MapsOf, AllFindings, SomeThrow;
  }

  lemma SameFindings(a: Snapshot, b: Snapshot)
    requires b.(nullReasons := a.nullReasons, legitimate := a.legitimate) == a
    ensures NothingFound(a) <==> NothingFound(b)
  {}

  lemma LegitimateIffNothingFound(env: Env, state: Js, limit: int)
    ensures Traversal(env, state, limit).Some? && !NonCanonicalInputOrder(env, state) ==>
      (Traversal(env, state, limit).value.legitimate <==> NothingFound(Traversal(env, state, limit).value))
  {
    var t := Limited(CanonicalTables(env, state), limit);
    var all := AllFindings(env, t, MapsOf(t), PASSES);
    hide CanonicalTables, Limited, MapsOf, AllFindings, SomeThrow, AsObject, HashCanonical, NullReasons, Unresolved, Classes, Sort;
    hide NonCanonicalInputOrder;
    NoReasons(false, Sort(Unresolved(all.edges), EdgeOrder(env)), Sort(Classes(all.drifts), KeyLe));
  }

  lemma RegistryIsWellFormed(state: Js, name: string)
    requires WellFormed(state)
    ensures WellFormedRecords(Registry(state, name))
  {
    OwnIsWellFormed(state, name);
    hide Own;
    var records := Registry(state, name);
    forall r | r in records ensures WellFormed(r) {
      var i :| 0 <= i < |records| && records[i] == r;
      assert WellFormed(Own(state, name).items[i]);
    }
  }

  lemma ReasonIff(nonCanonical: bool, unresolved: seq<Edge>, classes: seq<string>)
    ensures "NON_CANONICAL_INPUT_ORDER" in NullReasons(nonCanonical, unresolved, classes) <==> nonCanonical
  {
    ReasonListIff(nonCanonical, unresolved, classes);
    hide ReasonList;
    SortPermutes(ReasonList(nonCanonical, unresolved, classes), KeyLe);
  }

  lemma ReasonListIff(nonCanonical: bool, unresolved: seq<Edge>, classes: seq<string>)
    ensures "NON_CANONICAL_INPUT_ORDER" in ReasonList(nonCanonical, unresolved, classes) <==> nonCanonical
  {
    assert "NON_CANONICAL_INPUT_ORDER"[0] != "AMBIGUOUS_RECON_ORDERING"[0];
    assert "NON_CANONICAL_INPUT_ORDER"[0] != "MISSING_LINEAGE_EDGE"[0];
    assert "NON_CANONICAL_INPUT_ORDER"[0] != "STALE_RECONCILIATION_EVIDENCE"[0];
  }

  lemma ReasonOfTraversal(env: Env, state: Js, limit: int)
    ensures Traversal(env, state, limit).Some? ==>
      ("NON_CANONICAL_INPUT_ORDER" in Traversal(env, state, limit).value.nullReasons <==> NonCanonicalInputOrder(env, state))
  {
    var t := Limited(CanonicalTables(env, state), limit);
    var all := AllFindings(env, t, MapsOf(t), PASSES);
    hide CanonicalTables, Limited, MapsOf, AllFindings, SomeThrow, AsObject, HashCanonical, NullReasons, Unresolved, Classes, Sort;
    hide NonCanonicalInputOrder, Clashes;
    ReasonIff(NonCanonicalInputOrder(env, state), Sort(Unresolved(all.edges), EdgeOrder(env)), Sort(Classes(all.drifts), KeyLe));
  }

  /** Absent a hash collision, a traversal reports NON_CANONICAL_INPUT_ORDER exactly for a state that is not its own
      canonical form. */
  lemma OrderFlagIsExact(env: Env, state: Js, limit: int)
    requires WellFormed(state)
    ensures var canonical := CanonicalRegistryState(env, state);
      && WellFormed(canonical)
      && (Traversal(env, state, limit).Some? && NoCollision(env, state, canonical) ==>
         ("NON_CANONICAL_INPUT_ORDER" in Traversal(env, state, limit).value.nullReasons <==> NormalForm(state) != NormalForm(canonical)))
  {
    var canonical := CanonicalRegistryState(env, state);
    forall i: nat | i < 13 ensures WellFormedRecords(Registry(state, ORDER[i])) {
      RegistryIsWellFormed(state, ORDER[i]);
    }
    assert WellFormedRegistries(state);
    hide *;
    CanonicalStateIsWellFormed(env, state);
    FlagIs(env, state, canonical);
    ReasonOfTraversal(env, state, limit);
  }
}
