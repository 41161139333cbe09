/** What a LEGITIMATE snapshot of the cross-registry traversal guarantees. */
module CrossRegistrySafety {
  import opened Prelude
  import opened Sorting
  import opened JsCanonical
  import opened JsObjects
  import opened CrossRegistry

  // ----- A legitimate snapshot is a clean one -----

  ghost predicate Clean(f: Findings) { f.drifts == [] && forall e :: e in f.edges ==> e.resolved }

  lemma {:induction false} NothingUnresolved(edges: seq<Edge>)
    ensures Unresolved(edges) == [] <==> forall e :: e in edges ==> e.resolved
  {
    if edges != [] {
      NothingUnresolved(edges[1..]);
      assert edges == [edges[0]] + edges[1..];
      if Unresolved(edges) == [] {
        assert edges[0].resolved;
      }
    }
  }

  lemma {:induction false} NoClasses(drifts: seq<Drift>)
    ensures Classes(drifts) == [] <==> drifts == []
  {
    if drifts != [] {
      NoClasses(drifts[..|drifts| - 1]);
    }
  }

  lemma NoReasons(nonCanonical: bool, unresolved: seq<Edge>, classes: seq<string>)
    ensures NullReasons(nonCanonical, unresolved, classes) == [] <==> !nonCanonical && unresolved == [] && classes == []
  {
    hide KeyLe;
    SortPermutes(ReasonList(nonCanonical, unresolved, classes), KeyLe);
  }

  /** LEGITIMATE is decided by the edges, the drifts and the input order, and by nothing else. */
  lemma LegitimateIffClean(env: Env, state: Js, limit: int)
    ensures var t := Limited(CanonicalTables(env, state), limit);
      Traversal(env, state, limit).Some? ==>
        (Traversal(env, state, limit).value.legitimate <==>
          Clean(AllFindings(env, t, MapsOf(t), PASSES)) && !NonCanonicalInputOrder(env, state))
  {
    var t := Limited(CanonicalTables(env, state), limit);
    var all := AllFindings(env, t, MapsOf(t), PASSES);
    hide AllFindings, MapsOf, Limited, CanonicalTables, NullReasons, KeyLe, HashCanonical, NonCanonicalInputOrder;
    SortPermutes(Unresolved(all.edges), EdgeOrder(env));
    SortPermutes(Classes(all.drifts), KeyLe);
    NothingUnresolved(all.edges);
    NoClasses(all.drifts);
    NoReasons(NonCanonicalInputOrder(env, state), Sort(Unresolved(all.edges), EdgeOrder(env)), Sort(Classes(all.drifts), KeyLe));
  }

  lemma {:induction false} CleanPass(env: Env, t: Tables, maps: Maps, pass: Pass, records: seq<Js>)
    ensures Clean(PassFindings(env, t, maps, pass, records)) ==>
      forall record :: record in records ==> Clean(Check(env, t, maps, pass, record))
  {
    hide Check;
    if records != [] {
      var n := |records| - 1;
      assert records == records[..n] + [records[n]];
      CleanPass(env, t, maps, pass, records[..n]);
    }
  }

  lemma {:induction false} CleanPasses(env: Env, t: Tables, maps: Maps, passes: seq<Pass>)
    requires Clean(AllFindings(env, t, maps, passes))
    ensures forall pass :: pass in passes ==> Clean(PassFindings(env, t, maps, pass, RecordsOf(t, maps, pass)))
  {
    hide PassFindings, RecordsOf;
    if passes != [] {
      var n := |passes| - 1;
      assert passes == passes[..n] + [passes[n]];
      CleanPasses(env, t, maps, passes[..n]);
    }
  }

  lemma CleanRecord(env: Env, t: Tables, maps: Maps, pass: Pass, record: Js)
    requires Clean(AllFindings(env, t, maps, PASSES)) && record in RecordsOf(t, maps, pass)
    ensures Clean(Check(env, t, maps, pass, record))
  {
    CleanPasses(env, t, maps, PASSES);
    assert pass in PASSES by { EveryPass(pass); }
    CleanPass(env, t, maps, pass, RecordsOf(t, maps, pass));
  }

  lemma EveryPass(pass: Pass)
    ensures pass in PASSES
  {
    assert PASSES[0] == ContinuityPass && PASSES[1] == AuthorityPass && PASSES[2] == AeoPass && PASSES[3] == ValidationPass &&
      PASSES[4] == ExecutionPass && PASSES[5] == ProofPass && PASSES[6] == DuplicatePass && PASSES[7] == ReusePass &&
      PASSES[8] == InvocationPass && PASSES[9] == PreoPass && PASSES[10] == TopologyPass && PASSES[11] == GovernancePass &&
      PASSES[12] == RootPass && PASSES[13] == ClosurePass;
  }

  // ----- Joins -----

  /** Exactly one position of the table holds a row with these fields, and it is this row. */
  ghost predicate UniqueRow(records: seq<Js>, keys: seq<Key>, row: Js) {
    exists i :: 0 <= i < |records| && records[i] == row && OnlyAt(records, keys, i)
  }

  ghost predicate OnlyAt(records: seq<Js>, keys: seq<Key>, i: int) {
    forall j :: 0 <= j < |records| ==> (Has(records[j], keys) <==> j == i)
  }

  lemma {:induction false} NoRows(records: seq<Js>, keys: seq<Key>)
    ensures Rows(records, keys) == [] <==> forall j :: 0 <= j < |records| ==> !Has(records[j], keys)
  {
    hide Has;
    if records != [] {
      NoRows(records[1..], keys);
      assert forall j :: 0 < j < |records| ==> records[j] == records[1..][j - 1];
    }
  }

  lemma {:induction false} OneRow(records: seq<Js>, keys: seq<Key>)
    requires |Rows(records, keys)| == 1
    ensures UniqueRow(records, keys, Rows(records, keys)[0])
  {
    hide Has;
    if Has(records[0], keys) {
      NoRows(records[1..], keys);
      assert forall j :: 0 < j < |records| ==> records[j] == records[1..][j - 1];
      assert OnlyAt(records, keys, 0);
    } else {
      OneRow(records[1..], keys);
      var i :| 0 <= i < |records[1..]| && records[1..][i] == Rows(records, keys)[0] && OnlyAt(records[1..], keys, i);
      assert forall j :: 0 < j < |records| ==> records[j] == records[1..][j - 1];
      assert OnlyAt(records, keys, i + 1);
    }
  }

  /** A resolved join has found the one row there is. */
  lemma ResolvedIsUnique(records: seq<Js>, keys: seq<Key>)
    requires Resolved(One(records, keys))
    ensures UniqueRow(records, keys, One(records, keys).row) && One(records, keys).row in records
  {
    OneRow(records, keys);
  }

  lemma SameMeans(row: Js, record: Js, names: seq<string>)
    ensures Has(row, Same(record, names)) <==> forall n :: n in names ==> FieldOf(row, n) == FieldOf(record, n)
  {
    hide FieldOf;
    var keys := Same(record, names);
    forall n | n in names ensures Key(n, FieldOf(record, n)) in keys {
      var i :| 0 <= i < |names| && names[i] == n;
      assert keys[i] == Key(n, FieldOf(record, n));
    }
  }

  lemma UniqueHas(records: seq<Js>, keys: seq<Key>, row: Js)
    requires UniqueRow(records, keys, row)
    ensures Has(row, keys) && row in records
  {}

  /** Two positions cannot both hold a row that is unique. */
  lemma UniquePosition(records: seq<Js>, keys: seq<Key>, row: Js, i: int, j: int)
    requires UniqueRow(records, keys, row)
    requires 0 <= i < |records| && 0 <= j < |records| && Has(records[i], keys) && Has(records[j], keys)
    ensures i == j
  {}

  // ----- The Maps hold what was put into them -----

  lemma {:induction false} MembersAdd<V>(buckets: seq<Bucket<V>>, item: Keyed<V>, asSet: bool, key: string)
    ensures Members(Add(buckets, item, asSet), key) ==
      if key == item.key then AddMember(Members(buckets, key), item.member, asSet) else Members(buckets, key)
  {
    if buckets != [] && buckets[0].key != item.key {
      MembersAdd(buckets[1..], item, asSet, key);
    }
  }

  function WithKey<V>(items: seq<Keyed<V>>, key: string): seq<V> {
    if items == [] then []
    else WithKey(items[..|items| - 1], key) + (if items[|items| - 1].key == key then [items[|items| - 1].member] else [])
  }

  /** A Map of arrays holds, under each key, every member that came with it, in order. */
  lemma {:induction false} ArraysHoldAll<V>(items: seq<Keyed<V>>, key: string)
    ensures Members(Grouped(items, false), key) == WithKey(items, key)
  {
    if items != [] {
      var n := |items| - 1;
      ArraysHoldAll(items[..n], key);
      MembersAdd(Grouped(items[..n], false), items[n], false, key);
    }
  }

  /** A Map of Sets holds each of them once. */
  lemma {:induction false} SetsHoldEach<V>(items: seq<Keyed<V>>, key: string)
    ensures Distinct(Members(Grouped(items, true), key))
    ensures forall x :: x in Members(Grouped(items, true), key) <==> Keyed(key, x) in items
  {
    if items != [] {
      var n := |items| - 1;
      assert items == items[..n] + [items[n]];
      SetsHoldEach(items[..n], key);
      MembersAdd(Grouped(items[..n], true), items[n], true, key);
    }
  }

  lemma {:induction false} TwoWithKey<V>(items: seq<Keyed<V>>, i: nat, j: nat, key: string)
    requires i < j < |items| && items[i].key == items[j].key == key
    ensures |WithKey(items, key)| >= 2
  {
    var n := |items| - 1;
    if j < n {
      TwoWithKey(items[..n], i, j, key);
    } else {
      OneWithKey(items[..n], i, key);
    }
  }

  lemma {:induction false} OneWithKey<V>(items: seq<Keyed<V>>, i: nat, key: string)
    requires i < |items| && items[i].key == key
    ensures |WithKey(items, key)| >= 1
  {
    var n := |items| - 1;
    if i < n {
      OneWithKey(items[..n], i, key);
    }
  }

  lemma {:induction false} NonceItemsHold(records: seq<Js>, record: Js)
    requires record in records && FieldOf(record, "invocation_nonce") != ""
    ensures Keyed(FieldOf(record, "invocation_nonce"), BoundObject(record)) in NonceItems(records)
  {
    hide FieldOf, BoundObject;
    if records[0] != record {
      NonceItemsHold(records[1..], record);
    }
  }

  // ----- What each clean check says -----

  lemma EdgesResolve(f: Findings, i: nat)
    requires Clean(f) && i < |f.edges|
    ensures f.edges[i].resolved
  {
    assert f.edges[i] in f.edges;
  }

  /** What an execution without findings has joined. */
  ghost predicate ExecutionJoins(t: Tables, e: Js) {
    && Resolved(ValidationOf(t, e)) && Resolved(ProofOf(t, e)) && Resolved(AuthorityOf(t, e))
    && Resolved(One(t[SESSIONS], Same(e, ["session_id"]))) && Resolved(One(t[CONTINUITIES], Same(e, ["continuity_id"])))
    && IsHistoricallyValidAuthority(FieldOf(AuthorityOf(t, e).row, "status"))
    && FieldOf(AuthorityOf(t, e).row, "session_id") == FieldOf(e, "session_id")
    && FieldOf(ValidationOf(t, e).row, "status") == FieldOf(ValidationOf(t, e).row, "result") == "VALID"
  }

  lemma CleanExecution(t: Tables, e: Js)
    ensures Clean(CheckExecution(t, e)) ==> ExecutionJoins(t, e)
  {
    if Clean(CheckExecution(t, e)) {
      var f := CheckExecution(t, e);
      EdgesResolve(f, 0);
      EdgesResolve(f, 1);
      EdgesResolve(f, 2);
      EdgesResolve(f, 3);
      EdgesResolve(f, 4);
      hide FieldOf, One, Same, RecordIdentity, IsHistoricallyValidAuthority, ValidationOf, ProofOf, AuthorityOf, Truthy;
    }
  }

  lemma CleanProof(env: Env, t: Tables, p: Js)
    ensures Clean(CheckProof(env, t, p)) ==> Resolved(One(t[EXECUTIONS], Same(p, ["execution_id"])))
  {
    hide CheckProof, One, Same, Resolved;
    ProofFindings(env, t, p);
    if Clean(CheckProof(env, t, p)) {
      EdgesResolve(CheckProof(env, t, p), 0);
    }
  }

  /** What the check of a proof says of its execution and its hash. */
  lemma ProofFindings(env: Env, t: Tables, p: Js)
    ensures var f := CheckProof(env, t, p);
      var execution := One(t[EXECUTIONS], Same(p, ["execution_id"]));
      && |f.edges| > 0 && (f.edges[0].resolved <==> Resolved(execution))
      && (f.drifts == [] ==> FieldOf(p, "validated_object_hash") != "")
  {
    hide FieldOf, One, Same, RecordIdentity, IsHistoricallyValidAuthority, AuthorityOf, Found, Ambiguous, Resolved, LineageReferencesFail;
  }

  /** What a validation without findings has joined. */
  ghost predicate ValidationJoins(env: Env, t: Tables, v: Js) {
    var aeo := One(t[AEOS], Same(v, ["decision_id", "validated_object_hash"]));
    && Resolved(aeo)
    && CanonicalObjectHash(env, aeo.row) == FieldOf(v, "validated_object_hash") != ""
    && Resolved(One(t[INVOCATIONS], Same(v, ["invocation_nonce", "validated_object_hash"])))
    && FieldOf(v, "invocation_nonce") != ""
  }

  lemma CleanValidation(env: Env, t: Tables, v: Js)
    ensures Clean(CheckValidation(env, t, v)) ==> ValidationJoins(env, t, v)
  {
    if Clean(CheckValidation(env, t, v)) {
      var f := CheckValidation(env, t, v);
      EdgesResolve(f, 0);
      EdgesResolve(f, 1);
      EdgesResolve(f, 2);
      hide FieldOf, One, Same, RecordIdentity, CanonicalObjectHash, SerializationOf, Read, StringOr, Truthy;
    }
  }

  lemma CleanReuse(maps: Maps, authority: Js)
    requires Clean(CheckReuse(maps, authority))
    ensures |Members(maps.executionByAuthority, FieldOf(authority, "decision_id"))| <= 1
    ensures FieldOf(authority, "status") == "REVOKED" ==> Members(maps.executionByAuthority, FieldOf(authority, "decision_id")) == []
  {
    hide FieldOf, RecordIdentity;
  }

  lemma CleanInvocation(t: Tables, maps: Maps, invocation: Js)
    requires Clean(CheckInvocation(t, maps, invocation))
    ensures |Members(maps.nonceToObjects, FieldOf(invocation, "invocation_nonce"))| == 1
    ensures FieldOf(invocation, "status") == "EXECUTED"
  {
    hide FieldOf, RecordIdentity, One, Same, Truthy;
  }

  /** What a continuity without findings is: live, and hashed as its canonical lineage says. */
  ghost predicate ContinuityStands(env: Env, continuity: Js) {
    var canonical := ParseObject(env, Read(continuity, "canonical_continuity"));
    && FieldOf(continuity, "status") == "ACTIVE" && FieldOf(continuity, "revoked_at") == ""
    && canonical.Some?
    && HashCanonical(env, ContinuityHashMaterial(canonical.value)) == FieldOf(continuity, "continuity_hash")
  }

  lemma CleanContinuity(env: Env, t: Tables, continuity: Js)
    ensures Clean(CheckContinuity(env, t, continuity)) ==> ContinuityStands(env, continuity)
  {
    hide FieldOf, RecordIdentity, One, Same, Truthy, ParseObject, HashCanonical, ContinuityHashMaterial, Rows;
  }

  // ----- The same, for the records of a clean traversal -----

  lemma ExecutionIsClean(env: Env, t: Tables, e: Js)
    requires Clean(AllFindings(env, t, MapsOf(t), PASSES)) && e in t[EXECUTIONS]
    ensures Clean(CheckExecution(t, e))
  {
    hide AllFindings, MapsOf, CheckExecution, Clean;
    CleanRecord(env, t, MapsOf(t), ExecutionPass, e);
  }

  lemma ProofIsClean(env: Env, t: Tables, p: Js)
    requires Clean(AllFindings(env, t, MapsOf(t), PASSES)) && p in t[PROOFS]
    ensures Clean(CheckProof(env, t, p))
  {
    hide AllFindings, MapsOf, CheckProof, Clean;
    CleanRecord(env, t, MapsOf(t), ProofPass, p);
  }

  lemma ValidationIsClean(env: Env, t: Tables, v: Js)
    requires Clean(AllFindings(env, t, MapsOf(t), PASSES)) && v in t[VALIDATIONS]
    ensures Clean(CheckValidation(env, t, v))
  {
    hide AllFindings, MapsOf, CheckValidation, Clean;
    CleanRecord(env, t, MapsOf(t), ValidationPass, v);
  }

  lemma ContinuityIsClean(env: Env, t: Tables, continuity: Js)
    requires Clean(AllFindings(env, t, MapsOf(t), PASSES)) && continuity in t[CONTINUITIES]
    ensures Clean(CheckContinuity(env, t, continuity))
  {
    hide AllFindings, MapsOf, CheckContinuity, Clean;
    CleanRecord(env, t, MapsOf(t), ContinuityPass, continuity);
  }

  lemma InvocationIsClean(env: Env, t: Tables, invocation: Js)
    requires Clean(AllFindings(env, t, MapsOf(t), PASSES)) && invocation in t[INVOCATIONS]
    ensures Clean(CheckInvocation(t, MapsOf(t), invocation))
  {
    hide AllFindings, MapsOf, CheckInvocation, Clean;
    CleanRecord(env, t, MapsOf(t), InvocationPass, invocation);
  }

  lemma AuthorityIsClean(env: Env, t: Tables, authority: Js)
    requires Clean(AllFindings(env, t, MapsOf(t), PASSES)) && authority in t[AUTHORITIES]
    ensures Clean(CheckReuse(MapsOf(t), authority))
  {
    hide AllFindings, MapsOf, CheckReuse, Clean;
    CleanRecord(env, t, MapsOf(t), ReusePass, authority);
  }

  /** A resolved join finds a row of the table with the same fields. */
  lemma JoinedRow(records: seq<Js>, record: Js, names: seq<string>)
    requires Resolved(One(records, Same(record, names)))
    ensures var row := One(records, Same(record, names)).row;
      UniqueRow(records, Same(record, names), row) && row in records && forall n :: n in names ==> FieldOf(row, n) == FieldOf(record, n)
  {
    hide Rows, FieldOf, Has, Same, UniqueRow, One, Truthy;
    var row := One(records, Same(record, names)).row;
    ResolvedIsUnique(records, Same(record, names));
    UniqueHas(records, Same(record, names), row);
    SameMeans(row, record, names);
  }

  // ----- No replay -----

  /** Everything one execution stands on, each found at exactly one position. */
  ghost predicate FullyBound(env: Env, t: Tables, e: Js) {
    var validation := ValidationOf(t, e).row;
    var authority := AuthorityOf(t, e).row;
    var continuity := One(t[CONTINUITIES], Same(e, ["continuity_id"])).row;
    var aeo := One(t[AEOS], Same(e, ["decision_id", "validated_object_hash"])).row;
    var invocation := One(t[INVOCATIONS], Same(e, ["invocation_nonce", "validated_object_hash"])).row;
    && UniqueRow(t[SESSIONS], Same(e, ["session_id"]), One(t[SESSIONS], Same(e, ["session_id"])).row)
    && UniqueRow(t[CONTINUITIES], Same(e, ["continuity_id"]), continuity)
    && ContinuityStands(env, continuity)
    && UniqueRow(t[AUTHORITIES], Same(e, ["decision_id"]), authority)
    && IsHistoricallyValidAuthority(FieldOf(authority, "status")) && FieldOf(authority, "session_id") == FieldOf(e, "session_id")
    && UniqueRow(t[VALIDATIONS], Same(e, ["decision_id", "validated_object_hash", "invocation_nonce"]), validation)
    && FieldOf(validation, "status") == FieldOf(validation, "result") == "VALID"
    && UniqueRow(t[PROOFS], Same(e, ["execution_id", "decision_id", "validated_object_hash"]), ProofOf(t, e).row)
    && UniqueRow(t[AEOS], Same(e, ["decision_id", "validated_object_hash"]), aeo)
    && CanonicalObjectHash(env, aeo) == FieldOf(e, "validated_object_hash") != ""
    && UniqueRow(t[INVOCATIONS], Same(e, ["invocation_nonce", "validated_object_hash"]), invocation)
    && FieldOf(invocation, "status") == "EXECUTED" && FieldOf(e, "invocation_nonce") != ""
  }

  /** No two executions share an id, a decision or a nonce. */
  ghost predicate NoReplay(executions: seq<Js>) {
    forall i, j :: 0 <= i < j < |executions| ==>
      && FieldOf(executions[i], "execution_id") != FieldOf(executions[j], "execution_id")
      && FieldOf(executions[i], "decision_id") != FieldOf(executions[j], "decision_id")
      && FieldOf(executions[i], "invocation_nonce") != FieldOf(executions[j], "invocation_nonce")
  }

  /** No two proofs share a decision and an object hash. */
  ghost predicate NoDuplicateProof(proofs: seq<Js>) {
    forall i, j :: 0 <= i < j < |proofs| ==> BoundObject(proofs[i]) != BoundObject(proofs[j])
  }

  lemma SameFields(a: Js, b: Js, names: seq<string>)
    requires forall n :: n in names ==> FieldOf(a, n) == FieldOf(b, n)
    ensures Same(a, names) == Same(b, names)
  {}

  /** The validation an execution joins repeats its decision, hash and nonce. */
  lemma ExecutionHasValidation(env: Env, t: Tables, e: Js)
    requires Clean(AllFindings(env, t, MapsOf(t), PASSES)) && e in t[EXECUTIONS]
    ensures var v := ValidationOf(t, e).row;
      && UniqueRow(t[VALIDATIONS], Same(e, ["decision_id", "validated_object_hash", "invocation_nonce"]), v)
      && v in t[VALIDATIONS] && FieldOf(v, "decision_id") == FieldOf(e, "decision_id")
      && FieldOf(v, "validated_object_hash") == FieldOf(e, "validated_object_hash")
      && FieldOf(v, "invocation_nonce") == FieldOf(e, "invocation_nonce")
  {
    hide AllFindings, MapsOf, FieldOf, CheckExecution, UniqueRow, Has, One, Same, Resolved, Clean;
    ExecutionIsClean(env, t, e);
    CleanExecution(t, e);
    var names := ["decision_id", "validated_object_hash", "invocation_nonce"];
    JoinedRow(t[VALIDATIONS], e, names);
    assert names[0] in names && names[1] in names && names[2] in names;
  }

  lemma ExecutionHasProof(env: Env, t: Tables, e: Js)
    requires Clean(AllFindings(env, t, MapsOf(t), PASSES)) && e in t[EXECUTIONS]
    ensures ProofOf(t, e).row in t[PROOFS] && FieldOf(ProofOf(t, e).row, "execution_id") == FieldOf(e, "execution_id")
    ensures UniqueRow(t[PROOFS], Same(e, ["execution_id", "decision_id", "validated_object_hash"]), ProofOf(t, e).row)
  {
    hide AllFindings, MapsOf, FieldOf, CheckExecution, UniqueRow, Has, One, Same, Resolved, Clean;
    ExecutionIsClean(env, t, e);
    CleanExecution(t, e);
    var names := ["execution_id", "decision_id", "validated_object_hash"];
    JoinedRow(t[PROOFS], e, names);
    assert names[0] in names;
  }

  lemma ExecutionHasAuthority(env: Env, t: Tables, e: Js)
    requires Clean(AllFindings(env, t, MapsOf(t), PASSES)) && e in t[EXECUTIONS]
    ensures AuthorityOf(t, e).row in t[AUTHORITIES] && FieldOf(AuthorityOf(t, e).row, "decision_id") == FieldOf(e, "decision_id")
    ensures UniqueRow(t[AUTHORITIES], Same(e, ["decision_id"]), AuthorityOf(t, e).row)
  {
    hide AllFindings, MapsOf, FieldOf, CheckExecution, UniqueRow, Has, One, Same, Resolved, Clean;
    ExecutionIsClean(env, t, e);
    CleanExecution(t, e);
    JoinedRow(t[AUTHORITIES], e, ["decision_id"]);
  }

  lemma ExecutionHasContinuity(env: Env, t: Tables, e: Js)
    requires Clean(AllFindings(env, t, MapsOf(t), PASSES)) && e in t[EXECUTIONS]
    ensures UniqueRow(t[SESSIONS], Same(e, ["session_id"]), One(t[SESSIONS], Same(e, ["session_id"])).row)
    ensures var continuity := One(t[CONTINUITIES], Same(e, ["continuity_id"])).row;
      && UniqueRow(t[CONTINUITIES], Same(e, ["continuity_id"]), continuity)
      && ContinuityStands(env, continuity)
  {
    hide AllFindings, MapsOf, FieldOf, CheckExecution, CheckContinuity, UniqueRow, Has, One, Same, Resolved, Clean, ContinuityStands;
    ExecutionIsClean(env, t, e);
    CleanExecution(t, e);
    JoinedRow(t[SESSIONS], e, ["session_id"]);
    JoinedRow(t[CONTINUITIES], e, ["continuity_id"]);
    var continuity := One(t[CONTINUITIES], Same(e, ["continuity_id"])).row;
    ContinuityIsClean(env, t, continuity);
    CleanContinuity(env, t, continuity);
  }

  /** The AEO and the invocation of a validation, named by the fields it shares with an execution. */
  lemma ValidationBinds(env: Env, t: Tables, e: Js, v: Js)
    requires Clean(AllFindings(env, t, MapsOf(t), PASSES)) && v in t[VALIDATIONS]
    requires FieldOf(v, "decision_id") == FieldOf(e, "decision_id") && FieldOf(v, "validated_object_hash") == FieldOf(e, "validated_object_hash")
    requires FieldOf(v, "invocation_nonce") == FieldOf(e, "invocation_nonce")
    ensures var aeo := One(t[AEOS], Same(e, ["decision_id", "validated_object_hash"])).row;
      && UniqueRow(t[AEOS], Same(e, ["decision_id", "validated_object_hash"]), aeo)
      && CanonicalObjectHash(env, aeo) == FieldOf(e, "validated_object_hash") != ""
    ensures var invocation := One(t[INVOCATIONS], Same(e, ["invocation_nonce", "validated_object_hash"])).row;
      && UniqueRow(t[INVOCATIONS], Same(e, ["invocation_nonce", "validated_object_hash"]), invocation)
      && FieldOf(invocation, "status") == "EXECUTED" && FieldOf(e, "invocation_nonce") != ""
      && |Members(MapsOf(t).nonceToObjects, FieldOf(e, "invocation_nonce"))| == 1
  {
    hide AllFindings, MapsOf, FieldOf, CheckValidation, CheckInvocation, CanonicalObjectHash, UniqueRow, Has, One, Resolved, Members, Clean;
    ValidationIsClean(env, t, v);
    CleanValidation(env, t, v);
    SameFields(v, e, ["decision_id", "validated_object_hash"]);
    SameFields(v, e, ["invocation_nonce", "validated_object_hash"]);
    hide Same;
    JoinedRow(t[AEOS], e, ["decision_id", "validated_object_hash"]);
    var names := ["invocation_nonce", "validated_object_hash"];
    JoinedRow(t[INVOCATIONS], e, names);
    assert names[0] in names;
    var invocation := One(t[INVOCATIONS], Same(e, names)).row;
    InvocationIsClean(env, t, invocation);
    CleanInvocation(t, MapsOf(t), invocation);
  }

  lemma ExecutionIsBound(env: Env, t: Tables, e: Js)
    requires Clean(AllFindings(env, t, MapsOf(t), PASSES)) && e in t[EXECUTIONS]
    ensures FullyBound(env, t, e)
  {
    hide AllFindings, MapsOf, FieldOf, CheckExecution, CanonicalObjectHash, UniqueRow, Has, One, Same, Resolved, Clean, Members;
    hide ValidationOf, ProofOf, AuthorityOf, IsHistoricallyValidAuthority, ContinuityStands;
    ExecutionIsClean(env, t, e);
    CleanExecution(t, e);
    ExecutionHasValidation(env, t, e);
    ExecutionHasProof(env, t, e);
    ExecutionHasAuthority(env, t, e);
    ExecutionHasContinuity(env, t, e);
    ValidationBinds(env, t, e, ValidationOf(t, e).row);
  }

  lemma ProofNamesOnePosition(env: Env, t: Tables, p: Js, i: nat, j: nat)
    requires Clean(AllFindings(env, t, MapsOf(t), PASSES)) && p in t[PROOFS] && i < |t[EXECUTIONS]| && j < |t[EXECUTIONS]|
    requires FieldOf(t[EXECUTIONS][i], "execution_id") == FieldOf(p, "execution_id") == FieldOf(t[EXECUTIONS][j], "execution_id")
    ensures i == j
  {
    hide AllFindings, MapsOf, FieldOf, CheckProof, UniqueRow, Has, One, Same, Resolved, Clean;
    ProofIsClean(env, t, p);
    CleanProof(env, t, p);
    var keys := Same(p, ["execution_id"]);
    JoinedRow(t[EXECUTIONS], p, ["execution_id"]);
    SameMeans(t[EXECUTIONS][i], p, ["execution_id"]);
    SameMeans(t[EXECUTIONS][j], p, ["execution_id"]);
    UniquePosition(t[EXECUTIONS], keys, One(t[EXECUTIONS], keys).row, i, j);
  }

  /** Through its proof, and the proof's own join back, an execution id names one position. */
  lemma ExecutionIdsDiffer(env: Env, t: Tables, i: nat, j: nat)
    requires Clean(AllFindings(env, t, MapsOf(t), PASSES)) && i < j < |t[EXECUTIONS]|
    ensures FieldOf(t[EXECUTIONS][i], "execution_id") != FieldOf(t[EXECUTIONS][j], "execution_id")
  {
    var a, b := t[EXECUTIONS][i], t[EXECUTIONS][j];
    hide AllFindings, MapsOf, FieldOf, UniqueRow, Same, ProofOf, Clean;
    ExecutionHasProof(env, t, a);
    if FieldOf(a, "execution_id") == FieldOf(b, "execution_id") {
      ProofNamesOnePosition(env, t, ProofOf(t, a).row, i, j);
    }
  }

  lemma SharedDecisionIsCounted(t: Tables, i: nat, j: nat)
    requires i < j < |t[EXECUTIONS]|
    requires FieldOf(t[EXECUTIONS][i], "decision_id") == FieldOf(t[EXECUTIONS][j], "decision_id")
    ensures |Members(MapsOf(t).executionByAuthority, FieldOf(t[EXECUTIONS][i], "decision_id"))| >= 2
  {
    var items := ExecutionItems(t[EXECUTIONS]);
    var d := FieldOf(t[EXECUTIONS][i], "decision_id");
    assert items[i].key == d && items[j].key == d;
    hide FieldOf, Members, WithKey, Grouped, NonceItems, ProofItems;
    ArraysHoldAll(items, d);
    TwoWithKey(items, i, j, d);
  }

  /** Through its authority, which is used at most once, a decision names one position. */
  lemma DecisionsDiffer(env: Env, t: Tables, i: nat, j: nat)
    requires Clean(AllFindings(env, t, MapsOf(t), PASSES)) && i < j < |t[EXECUTIONS]|
    ensures FieldOf(t[EXECUTIONS][i], "decision_id") != FieldOf(t[EXECUTIONS][j], "decision_id")
  {
    hide AllFindings, MapsOf, FieldOf, CheckReuse, AuthorityOf, Members, Clean, UniqueRow, Same;
    var a, b := t[EXECUTIONS][i], t[EXECUTIONS][j];
    ExecutionHasAuthority(env, t, a);
    var authority := AuthorityOf(t, a).row;
    AuthorityIsClean(env, t, authority);
    CleanReuse(MapsOf(t), authority);
    if FieldOf(b, "decision_id") == FieldOf(a, "decision_id") {
      SharedDecisionIsCounted(t, i, j);
    }
  }

  // ----- No duplicate proof -----

  lemma {:induction false} NoLongBuckets(buckets: seq<Bucket<Js>>, key: string)
    requires Duplicates(buckets) == []
    ensures |Members(buckets, key)| <= 1
  {
    if buckets != [] {
      NoLongBuckets(buckets[1..], key);
    }
  }

  lemma {:induction false} EveryProofIsKept(proofs: seq<Js>)
    requires forall p :: p in proofs ==> BoundObject(p) != ":"
    ensures |ProofItems(proofs)| == |proofs|
    ensures forall i :: 0 <= i < |proofs| ==> ProofItems(proofs)[i] == Keyed(BoundObject(proofs[i]), proofs[i])
  {
    hide BoundObject;
    if proofs != [] {
      assert proofs[0] in proofs;
      EveryProofIsKept(proofs[1..]);
    }
  }

  lemma ProofIsNamed(env: Env, t: Tables, p: Js)
    requires Clean(AllFindings(env, t, MapsOf(t), PASSES)) && p in t[PROOFS]
    ensures BoundObject(p) != ":"
  {
    hide AllFindings, MapsOf, FieldOf, CheckProof, Clean;
    ProofIsClean(env, t, p);
    ProofHasHash(env, t, p);
  }

  lemma ProofHasHash(env: Env, t: Tables, p: Js)
    ensures Clean(CheckProof(env, t, p)) ==> FieldOf(p, "validated_object_hash") != ""
  {
    hide CheckProof, FieldOf;
    ProofFindings(env, t, p);
  }

  lemma NothingIsDuplicate(env: Env, t: Tables)
    requires Clean(AllFindings(env, t, MapsOf(t), PASSES))
    ensures Duplicates(MapsOf(t).proofTruth) == []
  {
    hide AllFindings, MapsOf, Duplicates, Clean;
    var duplicates := Duplicates(MapsOf(t).proofTruth);
    if duplicates != [] {
      CleanRecord(env, t, MapsOf(t), DuplicatePass, duplicates[0]);
      DuplicateIsFound(duplicates[0]);
    }
  }

  lemma DuplicateIsFound(p: Js)
    ensures !Clean(CheckDuplicate(p))
  {}

  /** No two proofs stand for one decision and hash, so the proof of an execution is the only one it can have. */
  lemma ProofsDiffer(env: Env, t: Tables, i: nat, j: nat)
    requires Clean(AllFindings(env, t, MapsOf(t), PASSES)) && i < j < |t[PROOFS]|
    ensures BoundObject(t[PROOFS][i]) != BoundObject(t[PROOFS][j])
  {
    var items := ProofItems(t[PROOFS]);
    var key := BoundObject(t[PROOFS][i]);
    assert MapsOf(t).proofTruth == Grouped(items, false);
    hide AllFindings, MapsOf, BoundObject, Clean, ProofItems, Grouped, Members, WithKey, Duplicates;
    forall p | p in t[PROOFS] ensures BoundObject(p) != ":" {
      ProofIsNamed(env, t, p);
    }
    EveryProofIsKept(t[PROOFS]);
    NothingIsDuplicate(env, t);
    NoLongBuckets(Grouped(items, false), key);
    ArraysHoldAll(items, key);
    if BoundObject(t[PROOFS][j]) == key {
      TwoWithKey(items, i, j, key);
    }
  }

  lemma SplitAtDigest(d1: string, h1: string, d2: string, h2: string)
    requires |h1| == |h2| && d1 + ":" + h1 == d2 + ":" + h2
    ensures d1 == d2
  {
    assert |d1| == |d2|;
    assert (d1 + ":" + h1)[..|d1|] == d1 && (d2 + ":" + h2)[..|d2|] == d2;
  }

  lemma HashIsDigest(env: Env, aeo: Js)
    requires DigestSized(env.hash) && CanonicalObjectHash(env, aeo) != ""
    ensures |CanonicalObjectHash(env, aeo)| == 64
  {}

  lemma BoundThroughValidation(env: Env, t: Tables, e: Js)
    requires DigestSized(env.hash)
    requires Clean(AllFindings(env, t, MapsOf(t), PASSES)) && e in t[EXECUTIONS]
    ensures |FieldOf(e, "validated_object_hash")| == 64 && FieldOf(e, "invocation_nonce") != ""
    ensures |Members(MapsOf(t).nonceToObjects, FieldOf(e, "invocation_nonce"))| == 1
  {
    hide AllFindings, MapsOf, FieldOf, UniqueRow, One, Same, Members, CanonicalObjectHash, ValidationOf, Clean;
    ExecutionHasValidation(env, t, e);
    ValidationBinds(env, t, e, ValidationOf(t, e).row);
    HashIsDigest(env, One(t[AEOS], Same(e, ["decision_id", "validated_object_hash"])).row);
  }

  /** Two executions that share a nonce put their bound objects under it. */
  lemma SharedNonceIsCounted(t: Tables, a: Js, b: Js)
    requires a in t[EXECUTIONS] && b in t[EXECUTIONS]
    requires FieldOf(a, "invocation_nonce") == FieldOf(b, "invocation_nonce") != ""
    ensures var objects := Members(MapsOf(t).nonceToObjects, FieldOf(a, "invocation_nonce"));
      BoundObject(a) in objects && BoundObject(b) in objects
  {
    var records := t[VALIDATIONS] + t[EXECUTIONS];
    assert MapsOf(t).nonceToObjects == Grouped(NonceItems(records), true);
    hide FieldOf, NonceItems, Members, Grouped, BoundObject, MapsOf;
    assert a in records && b in records;
    NonceItemsHold(records, a);
    NonceItemsHold(records, b);
    SetsHoldEach(NonceItems(records), FieldOf(a, "invocation_nonce"));
  }

  /** Through its invocation, whose nonce stands for one bound object, a nonce names one decision. */
  lemma NoncesDiffer(env: Env, t: Tables, i: nat, j: nat)
    requires DigestSized(env.hash)
    requires Clean(AllFindings(env, t, MapsOf(t), PASSES)) && i < j < |t[EXECUTIONS]|
    ensures FieldOf(t[EXECUTIONS][i], "invocation_nonce") != FieldOf(t[EXECUTIONS][j], "invocation_nonce")
  {
    var a, b := t[EXECUTIONS][i], t[EXECUTIONS][j];
    hide AllFindings, MapsOf, FieldOf, Members, Clean;
    BoundThroughValidation(env, t, a);
    BoundThroughValidation(env, t, b);
    DecisionsDiffer(env, t, i, j);
    if FieldOf(a, "invocation_nonce") == FieldOf(b, "invocation_nonce") {
      SharedNonceIsCounted(t, a, b);
      SameObject(Members(MapsOf(t).nonceToObjects, FieldOf(a, "invocation_nonce")), BoundObject(a), BoundObject(b));
      SplitAtDigest(FieldOf(a, "decision_id"), FieldOf(a, "validated_object_hash"), FieldOf(b, "decision_id"), FieldOf(b, "validated_object_hash"));
    }
  }

  lemma SameObject(objects: seq<string>, x: string, y: string)
    requires |objects| == 1 && x in objects && y in objects
    ensures x == y
  {}

  /** A LEGITIMATE snapshot contains no replay: within the traversed slice, executions have pairwise distinct
      ids, decisions and nonces, no two proofs stand for one object, and each execution is bound to one session,
      continuity, authority, AEO, validation, proof and invocation, with one object hash throughout. */
  lemma LegitimateMeansNoReplay(env: Env, state: Js, limit: int)
    requires DigestSized(env.hash)
    ensures var t := Limited(CanonicalTables(env, state), limit);
      Traversal(env, state, limit).Some? && Traversal(env, state, limit).value.legitimate ==>
        && NoReplay(t[EXECUTIONS]) && NoDuplicateProof(t[PROOFS])
        && forall e :: e in t[EXECUTIONS] ==> FullyBound(env, t, e)
  {
    var t := Limited(CanonicalTables(env, state), limit);
    LegitimateIffClean(env, state, limit);
    hide *;
    if Clean(AllFindings(env, t, MapsOf(t), PASSES)) {
      CleanMeansNoReplay(env, t);
    }
  }

  lemma CleanMeansNoReplay(env: Env, t: Tables)
    requires DigestSized(env.hash) && Clean(AllFindings(env, t, MapsOf(t), PASSES))
    ensures NoReplay(t[EXECUTIONS]) && NoDuplicateProof(t[PROOFS])
    ensures forall e :: e in t[EXECUTIONS] ==> FullyBound(env, t, e)
  {
    hide *;
    forall i: nat, j: nat | i < j < |t[EXECUTIONS]|
      ensures FieldOf(t[EXECUTIONS][i], "execution_id") != FieldOf(t[EXECUTIONS][j], "execution_id")
      ensures FieldOf(t[EXECUTIONS][i], "decision_id") != FieldOf(t[EXECUTIONS][j], "decision_id")
      ensures FieldOf(t[EXECUTIONS][i], "invocation_nonce") != FieldOf(t[EXECUTIONS][j], "invocation_nonce")
    {
      ExecutionIdsDiffer(env, t, i, j);
      DecisionsDiffer(env, t, i, j);
      NoncesDiffer(env, t, i, j);
    }
    forall e | e in t[EXECUTIONS] ensures FullyBound(env, t, e) {
      ExecutionIsBound(env, t, e);
    }
    NoReplayHolds(t[EXECUTIONS]);
    forall i: nat, j: nat | i < j < |t[PROOFS]| ensures BoundObject(t[PROOFS][i]) != BoundObject(t[PROOFS][j]) {
      ProofsDiffer(env, t, i, j);
    }
    NoDuplicateHolds(t[PROOFS]);
  }

  lemma NoDuplicateHolds(proofs: seq<Js>)
    requires forall i, j :: 0 <= i < j < |proofs| ==> BoundObject(proofs[i]) != BoundObject(proofs[j])
    ensures NoDuplicateProof(proofs)
  {}

  lemma NoReplayHolds(executions: seq<Js>)
    requires forall i, j :: 0 <= i < j < |executions| ==>
      && FieldOf(executions[i], "execution_id") != FieldOf(executions[j], "execution_id")
      && FieldOf(executions[i], "decision_id") != FieldOf(executions[j], "decision_id")
      && FieldOf(executions[i], "invocation_nonce") != FieldOf(executions[j], "invocation_nonce")
    ensures NoReplay(executions)
  {}
}
