/** runtime/reconciliation/cross-registry-reconciliation-engine.js: the traversal that joins thirteen
    registries and decides whether the snapshot is legitimate. */
module CrossRegistry {
  import opened Prelude
  import opened Sorting
  import opened JsCanonical
  import opened JsNormalize
  import opened JsObjects

  /** SHA-256 of a text, `JSON.parse`, and `localeCompare(a, b) <= 0`. */
  datatype Env = Env(hash: string -> string, parse: string -> Option<Js>, le: (string, string) -> bool)

  // ----- Reading records -----

  // Records are read after `normalize`, so a read goes on to the prototype that an own `__proto__` has set.

  /** `String(value)`. */
  function StringOf(v: Js): string
    decreases v, 1
  {
    match v
    case Undefined => "undefined"
    case NullValue => "null"
    case Boolean(b) => if b then "true" else "false"
    case Num(text) => text
    case Str(s) => s
    case Arr(items) => Joined(items)
    case _ => "[object Object]"
  }

  /** `items.join(',')`. */
  function Joined(items: seq<Js>): string
    decreases items, 0
  {
    if items == [] then ""
    else (if Missing(items[0]) then "" else StringOf(items[0])) + (if |items| == 1 then "" else ",") + Joined(items[1..])
  }

  predicate Missing(v: Js) { v.Undefined? || v.NullValue? }

  function FieldOf(record: Js, name: string): string {
    var v := Read(record, name);
    if Missing(v) then "" else StringOf(v)
  }

  /** `String(value || fallback)`. */
  function StringOr(v: Js, fallback: string): string { if Truthy(v) then StringOf(v) else fallback }

  /** `record.a ?? record.b ?? ...`. */
  function FirstNamed(record: Js, names: seq<string>): Js {
    if names == [] then Undefined
    else if !Missing(Read(record, names[0])) then Read(record, names[0])
    else FirstNamed(record, names[1..])
  }

  /** `canonicalize`, which JsNormalize.CanonicalizeIsPrint shows to be one print of the data. */
  function Canonical(v: Js): string { CanonicalText(v) }

  function HashCanonical(env: Env, v: Js): string { env.hash(Canonical(v)) }

  const IDENTITY_FIELDS := [
    "session_id", "continuity_id", "authority_id", "aeo_id", "validation_id", "execution_id", "proof_id",
    "invocation_nonce", "preo_id", "snapshot_id", "governance_observation_id", "observation_id", "closure_id",
    "reconciliation_id"]

  function RecordIdentity(record: Js): string {
    var id := FirstNamed(record, IDENTITY_FIELDS);
    if Missing(id) then Canonical(record) else StringOf(id)
  }

  predicate IsTrue(v: Js) { v == Boolean(true) || v == Str("true") || v == Num("1") || v == Str("1") }

  /** An object of a record, which loses its prototype, or the text of one: there the source also catches the
      TypeError of `normalize`. */
  function ParseObject(env: Env, v: Js): Option<Js> {
    if v.Obj? then Some(NormalForm(v))
    else if !v.Str? || v.s == "" then None
    else match env.parse(v.s)
      case Some(Obj(props)) => if Clashes(Obj(props)) then None else Some(KeptForm(Obj(props)))
      case _ => None
  }

  function CanonicalObjectHash(env: Env, record: Js): string {
    match ParseObject(env, FirstNamed(record, ["canonical_aeo", "canonical_object", "validated_object", "object"]))
    case Some(parsed) => HashCanonical(env, parsed)
    case None => ""
  }

  predicate IsHistoricallyValidAuthority(status: string) {
    status in ["ACTIVE", "VALIDATED", "RESERVED", "EXECUTED", "CONSUMED"]
  }

  // ----- Canonical order -----

  type Tables = t: seq<seq<Js>> | |t| == 13 witness seq(13, _ => [])

  const ORDER := [
    "session_registry", "continuity_registry", "authority_registry", "aeo_registry", "validation_registry",
    "execution_registry", "proof_registry", "invocation_registry", "preo_registry", "runtime_topology_registry",
    "recursive_governance_containment_registry", "root_authority_observability_registry",
    "unauthorized_mutation_closure_registry"]

  type RegistryIndex = i: nat | i < 13

  const SESSIONS: RegistryIndex := 0
  const CONTINUITIES: RegistryIndex := 1
  const AUTHORITIES: RegistryIndex := 2
  const AEOS: RegistryIndex := 3
  const VALIDATIONS: RegistryIndex := 4
  const EXECUTIONS: RegistryIndex := 5
  const PROOFS: RegistryIndex := 6
  const INVOCATIONS: RegistryIndex := 7
  const PREOS: RegistryIndex := 8
  const TOPOLOGIES: RegistryIndex := 9
  const GOVERNANCES: RegistryIndex := 10
  const ROOTS: RegistryIndex := 11
  const CLOSURES: RegistryIndex := 12

  function Registry(state: Js, name: string): seq<Js> {
    match Own(state, name) case Arr(items) => items case _ => []
  }

  /** `records.map(normalize)`, for records on which `normalize` does not throw. */
  function NormalizeEach(records: seq<Js>): seq<Js> {
    seq(|records|, i requires 0 <= i < |records| => KeptForm(records[i]))
  }

  /** The comparator of `sortRecords`: identity first, then canonical text. */
  function RecordOrder(le: (string, string) -> bool): (Js, Js) -> bool {
    (a: Js, b: Js) => PairLe(le, RecordIdentity(a), RecordIdentity(b), Canonical(a), Canonical(b))
  }

  predicate PairLe(le: (string, string) -> bool, idA: string, idB: string, textA: string, textB: string) {
    if idA != idB then le(idA, idB) else le(textA, textB)
  }

  function SortRecords(env: Env, records: seq<Js>): seq<Js> { Sort(NormalizeEach(records), RecordOrder(env.le)) }

  function CanonicalTables(env: Env, state: Js): Tables {
    seq(13, i requires 0 <= i < 13 => SortRecords(env, Registry(state, ORDER[i])))
  }

  function AsObject(t: Tables): Js { Obj(seq(13, i requires 0 <= i < 13 => Prop(ORDER[i], Arr(t[i])))) }

  function OwnParts(records: seq<Js>): seq<Js> { seq(|records|, i requires 0 <= i < |records| => NormalForm(records[i])) }

  function OwnTables(t: Tables): Tables { seq(13, i requires 0 <= i < 13 => OwnParts(t[i])) }

  /** The canonical state as another call sees it: with the own properties of its records. */
  function CanonicalRegistryState(env: Env, state: Js): Js { AsObject(OwnTables(CanonicalTables(env, state))) }

  /** `records.slice(0, limit)`. */
  function Slice(records: seq<Js>, limit: int): seq<Js> {
    if limit >= |records| then records
    else if limit >= 0 then records[..limit]
    else if limit + |records| > 0 then records[..limit + |records|]
    else []
  }

  function Limited(t: Tables, limit: int): Tables { seq(13, i requires 0 <= i < 13 => Slice(t[i], limit)) }

  // ----- Edges and drifts -----

  datatype Edge = Edge(fromRegistry: string, fromId: string, toRegistry: string, toId: string, relation: string,
                       resolved: bool, driftClass: string)

  datatype Drift = Drift(driftClass: string, registry: string, recordId: string, reason: string)

  datatype Findings = Findings(edges: seq<Edge>, drifts: seq<Drift>)

  function EdgeObject(e: Edge): Js {
    Obj([Prop("object_type", Str("CrossRegistryLineageEdge")), Prop("from_registry", Str(e.fromRegistry)),
         Prop("from_id", Str(e.fromId)), Prop("to_registry", Str(e.toRegistry)), Prop("to_id", Str(e.toId)),
         Prop("relation", Str(e.relation)), Prop("status", Str(if e.resolved then "RESOLVED" else "UNRESOLVED")),
         Prop("drift_class", Str(e.driftClass))])
  }

  function DriftObject(d: Drift): Js {
    Obj([Prop("object_type", Str("CrossRegistryDrift")), Prop("drift_class", Str(d.driftClass)),
         Prop("registry", Str(d.registry)), Prop("record_id", Str(d.recordId)), Prop("reason", Str(d.reason)),
         Prop("legitimacy_status", Str("NULL"))])
  }

  function OrphanObject(d: Drift): Js {
    Obj([Prop("registry", Str(d.registry)), Prop("record_id", Str(d.recordId)), Prop("drift_class", Str(d.driftClass)),
         Prop("reason", Str(d.reason))])
  }

  /** A drift raised when its condition holds. */
  function When(condition: bool, driftClass: string, registry: RegistryIndex, record: Js, reason: string): seq<Drift> {
    if condition then [Drift(driftClass, ORDER[registry], RecordIdentity(record), reason)] else []
  }

  function Link(from: RegistryIndex, record: Js, to: RegistryIndex, toId: string, relation: string, target: Match,
                driftClass: string): Edge
  {
    Edge(ORDER[from], RecordIdentity(record), ORDER[to], toId, relation, Resolved(target), driftClass)
  }

  // ----- Joins -----

  datatype Key = Key(name: string, value: string)

  predicate Has(row: Js, keys: seq<Key>) { forall k :: k in keys ==> FieldOf(row, k.name) == k.value }

  function Rows(records: seq<Js>, keys: seq<Key>): seq<Js> {
    if records == [] then [] else (if Has(records[0], keys) then [records[0]] else []) + Rows(records[1..], keys)
  }

  /** What `one` returns; the match is null when no row qualifies. */
  datatype Match = Match(row: Js, count: nat)

  function One(records: seq<Js>, keys: seq<Key>): Match {
    var rows := Rows(records, keys);
    Match(if rows == [] then NullValue else rows[0], |rows|)
  }

  predicate Found(m: Match) { Truthy(m.row) }

  predicate Ambiguous(m: Match) { m.count > 1 }

  predicate Resolved(m: Match) { Found(m) && !Ambiguous(m) }

  /** The fields of a record that a row must repeat. */
  function Same(record: Js, names: seq<string>): seq<Key> {
    seq(|names|, i requires 0 <= i < |names| => Key(names[i], FieldOf(record, names[i])))
  }

  // ----- Continuity -----

  function StringsOf(v: Js): Js {
    if v.Arr? then Arr(seq(|v.items|, i requires 0 <= i < |v.items| => Str(StringOf(v.items[i])))) else Arr([])
  }

  /** `normalize(value ?? {})`. */
  function NormalizedOr(v: Js): Js { if Missing(v) then Obj([]) else NormalForm(v) }

  function ContinuityHashMaterial(input: Js): Js {
    var revocation := Read(input, "revocation");
    Obj([Prop("actor_chain", StringsOf(Read(input, "actor_chain"))),
         Prop("authority_chain", StringsOf(Read(input, "authority_chain"))),
         Prop("constraints", NormalizedOr(Read(input, "constraints"))),
         Prop("continuity_id", Str(StringOr(Read(input, "continuity_id"), ""))),
         Prop("expires_at", Str(StringOr(Read(input, "expires_at"), ""))),
         Prop("identity_id", Str(StringOr(Read(input, "identity_id"), ""))),
         Prop("issued_at", Str(StringOr(Read(input, "issued_at"), ""))),
         Prop("parent_continuity_id", if Truthy(Read(input, "parent_continuity_id")) then Str(StringOf(Read(input, "parent_continuity_id"))) else NullValue),
         Prop("revocation", Obj([Prop("revoked_at", if Missing(Read(revocation, "revoked_at")) then NullValue else Read(revocation, "revoked_at")),
                                 Prop("status", Str(StringOr(Read(revocation, "status"), "ACTIVE")))])),
         Prop("scope", NormalizedOr(Read(input, "scope"))),
         Prop("session_id", Str(StringOr(Read(input, "session_id"), "")))])
  }

  /** The first reason for which a continuity drifts, or the empty string. */
  function ContinuityDrift(env: Env, continuity: Js, session: Js, continuities: seq<Js>): string {
    if !Truthy(session) then "continuity requires canonical session lineage"
    else if FieldOf(continuity, "session_id") != FieldOf(session, "session_id") then "continuity session differs from session registry"
    else if FieldOf(continuity, "identity_id") != FieldOf(session, "identity_id") then "continuity identity differs from session registry"
    else if FieldOf(continuity, "status") != "ACTIVE" || FieldOf(continuity, "revoked_at") != "" then "continuity must remain ACTIVE and unrevoked"
    else match ParseObject(env, Read(continuity, "canonical_continuity"))
      case None => "continuity canonical lineage is missing or malformed"
      case Some(canonical) =>
        var actualHash := HashCanonical(env, ContinuityHashMaterial(canonical));
        var parent := StringOr(Read(canonical, "parent_continuity_id"), "");
        if actualHash != FieldOf(continuity, "continuity_hash") || actualHash != StringOr(Read(canonical, "continuity_hash"), "")
        then "continuity hash must match canonical continuity lineage"
        else if parent != FieldOf(continuity, "parent_continuity_id") then "continuity parent differs from canonical continuity lineage"
        else if parent != "" && Rows(continuities, [Key("continuity_id", parent)]) == [] then "continuity parent must resolve in continuity registry"
        else ""
  }

  function CheckContinuity(env: Env, t: Tables, continuity: Js): Findings {
    var session := One(t[SESSIONS], Same(continuity, ["session_id"]));
    var reason := ContinuityDrift(env, continuity, session.row, t[CONTINUITIES]);
    Findings(
      [Link(CONTINUITIES, continuity, SESSIONS, FieldOf(continuity, "session_id"), "CONTINUITY_SESSION", session, "CONTINUITY_DRIFT")],
      When(Ambiguous(session), "RECONCILIATION_DRIFT", CONTINUITIES, continuity, "continuity session resolves ambiguously") +
      When(reason != "", "CONTINUITY_DRIFT", CONTINUITIES, continuity, reason))
  }

  // ----- Authority, AEO, validation -----

  function CheckAuthority(t: Tables, authority: Js): Findings {
    var session := One(t[SESSIONS], Same(authority, ["session_id"]));
    var continuity := One(t[CONTINUITIES], Same(authority, ["continuity_id"]));
    Findings(
      [Link(AUTHORITIES, authority, SESSIONS, FieldOf(authority, "session_id"), "AUTHORITY_SESSION", session, "LINEAGE_DRIFT"),
       Link(AUTHORITIES, authority, CONTINUITIES, FieldOf(authority, "continuity_id"), "AUTHORITY_CONTINUITY", continuity, "LINEAGE_DRIFT")],
      When(!Found(session) || !Found(continuity), "LINEAGE_DRIFT", AUTHORITIES, authority, "authority requires valid session and continuity") +
      When(Ambiguous(session) || Ambiguous(continuity), "RECONCILIATION_DRIFT", AUTHORITIES, authority, "authority lineage resolves ambiguously") +
      When(Found(continuity) && FieldOf(continuity.row, "session_id") != FieldOf(authority, "session_id"),
        "CONTINUITY_DRIFT", AUTHORITIES, authority, "authority session differs from continuity session"))
  }

  function CheckAeo(t: Tables, aeo: Js): Findings {
    var authority := One(t[AUTHORITIES], Same(aeo, ["authority_id"]));
    Findings(
      [Link(AEOS, aeo, AUTHORITIES, FieldOf(aeo, "authority_id"), "AEO_AUTHORITY", authority, "LINEAGE_DRIFT")],
      When(!Found(authority), "LINEAGE_DRIFT", AEOS, aeo, "AEO requires valid authority") +
      When(Ambiguous(authority), "RECONCILIATION_DRIFT", AEOS, aeo, "AEO authority resolves ambiguously") +
      When(Found(authority) && FieldOf(aeo, "continuity_id") != "" && FieldOf(authority.row, "continuity_id") != "" &&
           FieldOf(aeo, "continuity_id") != FieldOf(authority.row, "continuity_id"),
        "CONTINUITY_DRIFT", AEOS, aeo, "AEO continuity differs from authority continuity"))
  }

  function CheckValidation(env: Env, t: Tables, validation: Js): Findings {
    var aeo := One(t[AEOS], Same(validation, ["decision_id", "validated_object_hash"]));
    var session := One(t[SESSIONS], Same(validation, ["session_id"]));
    var invocation := One(t[INVOCATIONS], Same(validation, ["invocation_nonce", "validated_object_hash"]));
    var objectHash := CanonicalObjectHash(env, aeo.row);
    Findings(
      [Link(VALIDATIONS, validation, AEOS, RecordIdentity(aeo.row), "VALIDATION_AEO", aeo, "VALIDATION_DRIFT"),
       Link(VALIDATIONS, validation, SESSIONS, FieldOf(validation, "session_id"), "VALIDATION_SESSION", session, "VALIDATION_DRIFT"),
       Link(VALIDATIONS, validation, INVOCATIONS, FieldOf(validation, "invocation_nonce"), "VALIDATION_NONCE", invocation, "REPLAY_DRIFT")],
      When(!Found(aeo) || !Found(session) || !Found(invocation) || FieldOf(validation, "invocation_nonce") == "",
        "VALIDATION_DRIFT", VALIDATIONS, validation, "validation requires AEO, session, and nonce") +
      When(Ambiguous(aeo) || Ambiguous(session) || Ambiguous(invocation),
        "RECONCILIATION_DRIFT", VALIDATIONS, validation, "validation lineage resolves ambiguously") +
      When(Found(aeo) && (objectHash == "" || objectHash != FieldOf(validation, "validated_object_hash") ||
                          objectHash != FieldOf(aeo.row, "validated_object_hash")),
        "LINEAGE_DRIFT", VALIDATIONS, validation, "validation hash must equal the canonical serialized object hash") +
      When(Found(aeo) && SerializationOf(env, Read(aeo.row, "canonical_aeo")) != StringOr(Read(aeo.row, "canonical_aeo"), ""),
        "LINEAGE_DRIFT", AEOS, aeo.row, "canonical object serialization is not stable"))
  }

  function SerializationOf(env: Env, v: Js): string {
    match ParseObject(env, v) case Some(parsed) => Canonical(parsed) case None => Canonical(NullValue)
  }

  // ----- Execution and proof -----

  function ValidationOf(t: Tables, execution: Js): Match {
    One(t[VALIDATIONS], Same(execution, ["decision_id", "validated_object_hash", "invocation_nonce"]))
  }

  function ProofOf(t: Tables, execution: Js): Match {
    One(t[PROOFS], Same(execution, ["execution_id", "decision_id", "validated_object_hash"]))
  }

  function AuthorityOf(t: Tables, record: Js): Match { One(t[AUTHORITIES], Same(record, ["decision_id"])) }

  function IdOrEmpty(m: Match): string { if Found(m) then RecordIdentity(m.row) else "" }

  function CheckExecution(t: Tables, execution: Js): Findings {
    hide *;
    var validation := ValidationOf(t, execution);
    var session := One(t[SESSIONS], Same(execution, ["session_id"]));
    var continuity := One(t[CONTINUITIES], Same(execution, ["continuity_id"]));
    var proof := ProofOf(t, execution);
    var authority := AuthorityOf(t, execution);
    Findings(
      [Link(EXECUTIONS, execution, VALIDATIONS, RecordIdentity(validation.row), "EXECUTION_VALIDATION", validation, "ORPHAN_EXECUTION"),
       Link(EXECUTIONS, execution, SESSIONS, FieldOf(execution, "session_id"), "EXECUTION_SESSION", session, "ORPHAN_EXECUTION"),
       Link(EXECUTIONS, execution, CONTINUITIES, FieldOf(execution, "continuity_id"), "EXECUTION_CONTINUITY", continuity, "ORPHAN_EXECUTION"),
       Link(EXECUTIONS, execution, PROOFS, IdOrEmpty(proof), "EXECUTION_PROOF", proof, "PROOF_DRIFT"),
       Link(EXECUTIONS, execution, AUTHORITIES, IdOrEmpty(authority), "EXECUTION_AUTHORITY", authority, "LINEAGE_DRIFT")],
      When(!Found(validation) || !Found(session) || !Found(continuity),
        "ORPHAN_EXECUTION", EXECUTIONS, execution, "execution requires validation, session, and continuity") +
      When(!Found(proof), "PROOF_DRIFT", EXECUTIONS, execution, "execution requires canonical proof lineage") +
      When(!Found(authority) || !IsHistoricallyValidAuthority(FieldOf(authority.row, "status")) ||
           FieldOf(authority.row, "session_id") != FieldOf(execution, "session_id"),
        "LINEAGE_DRIFT", EXECUTIONS, execution, "execution authority must exist and be historically valid for the execution session") +
      When(Ambiguous(validation) || Ambiguous(session) || Ambiguous(continuity) || Ambiguous(proof) || Ambiguous(authority),
        "RECONCILIATION_DRIFT", EXECUTIONS, execution, "execution lineage resolves ambiguously") +
      When(Found(validation) && (FieldOf(validation.row, "validated_object_hash") != FieldOf(execution, "validated_object_hash") ||
           FieldOf(validation.row, "status") != "VALID" || FieldOf(validation.row, "result") != "VALID"),
        "VALIDATION_DRIFT", EXECUTIONS, execution, "execution requires matching VALID validation result") +
      When(FieldOf(execution, "status") != "" && FieldOf(execution, "status") != "EXECUTED",
        "EXECUTION_DRIFT", EXECUTIONS, execution, "execution status must remain EXECUTED within reconciled lineage"))
  }

  /** The authority and execution that a proof's lineage names. */
  predicate LineageReferencesFail(env: Env, proof: Js, authority: Match, execution: Match) {
    var authorityLineage := ParseObject(env, Read(proof, "authority_lineage"));
    var executionLineage := ParseObject(env, Read(proof, "execution_lineage"));
    || authorityLineage == None
    || executionLineage == None
    || (Found(authority) && StringOr(Read(authorityLineage.value, "authority_id"), "") != FieldOf(authority.row, "authority_id"))
    || (Found(execution) && StringOr(Read(executionLineage.value, "execution_id"), "") != FieldOf(execution.row, "execution_id"))
  }

  function CheckProof(env: Env, t: Tables, proof: Js): Findings {
    hide *;
    var execution := One(t[EXECUTIONS], Same(proof, ["execution_id"]));
    var authority := AuthorityOf(t, proof);
    var continuity := One(t[CONTINUITIES], Same(proof, ["continuity_id"]));
    Findings(
      [Link(PROOFS, proof, EXECUTIONS, FieldOf(proof, "execution_id"), "PROOF_EXECUTION", execution, "ORPHAN_PROOF"),
       Link(PROOFS, proof, AUTHORITIES, RecordIdentity(authority.row), "PROOF_AUTHORITY", authority, "ORPHAN_PROOF"),
       Link(PROOFS, proof, CONTINUITIES, FieldOf(proof, "continuity_id"), "PROOF_CONTINUITY", continuity, "ORPHAN_PROOF")],
      When(!Found(execution), "ORPHAN_EXECUTION", PROOFS, proof, "proof references missing execution lineage") +
      When(!Found(execution) || !Found(authority) || FieldOf(proof, "validated_object_hash") == "",
        "ORPHAN_PROOF", PROOFS, proof, "proof requires execution, authority, and validated object hash") +
      When(Found(authority) && (!IsHistoricallyValidAuthority(FieldOf(authority.row, "status")) ||
                                FieldOf(authority.row, "session_id") != FieldOf(proof, "session_id")),
        "LINEAGE_DRIFT", PROOFS, proof, "proof authority must exist and be historically valid for the proof session") +
      When(!Found(continuity), "ORPHAN_PROOF", PROOFS, proof, "proof requires continuity lineage") +
      When(Ambiguous(execution) || Ambiguous(authority) || Ambiguous(continuity),
        "RECONCILIATION_DRIFT", PROOFS, proof, "proof lineage resolves ambiguously") +
      When(Found(execution) && FieldOf(execution.row, "validated_object_hash") != FieldOf(proof, "validated_object_hash"),
        "PROOF_DRIFT", PROOFS, proof, "proof hash differs from execution hash") +
      When(Found(continuity) && FieldOf(proof, "continuity_hash") != FieldOf(continuity.row, "continuity_hash"),
        "PROOF_DRIFT", PROOFS, proof, "proof continuity hash differs from continuity registry") +
      When(LineageReferencesFail(env, proof, authority, execution),
        "PROOF_DRIFT", PROOFS, proof, "proof authority and execution lineage references must resolve deterministically"))
  }

  // ----- The three Maps of the traversal -----

  /** One entry of a Map whose values are arrays or Sets, in insertion order. */
  datatype Bucket<V> = Bucket(key: string, members: seq<V>)

  datatype Keyed<V> = Keyed(key: string, member: V)

  /** Adds a member under a key; a Set keeps one copy. */
  function Add<V(==)>(buckets: seq<Bucket<V>>, item: Keyed<V>, asSet: bool): seq<Bucket<V>> {
    if buckets == [] then [Bucket(item.key, [item.member])]
    else if buckets[0].key != item.key then [buckets[0]] + Add(buckets[1..], item, asSet)
    else [Bucket(item.key, AddMember(buckets[0].members, item.member, asSet))] + buckets[1..]
  }

  function AddMember<V(==)>(members: seq<V>, member: V, asSet: bool): seq<V> {
    if asSet && member in members then members else members + [member]
  }

  /** `map.get(key) ?? []`. */
  function Members<V>(buckets: seq<Bucket<V>>, key: string): seq<V> {
    if buckets == [] then [] else if buckets[0].key == key then buckets[0].members else Members(buckets[1..], key)
  }

  function Grouped<V(==)>(items: seq<Keyed<V>>, asSet: bool): seq<Bucket<V>> {
    if items == [] then [] else Add(Grouped(items[..|items| - 1], asSet), items[|items| - 1], asSet)
  }

  method Group<V(==)>(items: seq<Keyed<V>>, asSet: bool) returns (buckets: seq<Bucket<V>>)
    ensures buckets == Grouped(items, asSet)
  {
    buckets := [];
    for i := 0 to |items|
      invariant buckets == Grouped(items[..i], asSet)
    {
      buckets := Add(buckets, items[i], asSet);
      assert items[..i + 1][..i] == items[..i];
    }
    assert items[..|items|] == items;
  }

  function BoundObject(record: Js): string { FieldOf(record, "decision_id") + ":" + FieldOf(record, "validated_object_hash") }

  /** Proofs by decision and hash, but those that carry neither. */
  function ProofItems(proofs: seq<Js>): seq<Keyed<Js>> {
    if proofs == [] then []
    else (if BoundObject(proofs[0]) == ":" then [] else [Keyed(BoundObject(proofs[0]), proofs[0])]) + ProofItems(proofs[1..])
  }

  function ExecutionItems(executions: seq<Js>): seq<Keyed<Js>> {
    seq(|executions|, i requires 0 <= i < |executions| => Keyed(FieldOf(executions[i], "decision_id"), executions[i]))
  }

  /** Bound objects by nonce, but for records without one. */
  function NonceItems(records: seq<Js>): seq<Keyed<string>> {
    if records == [] then []
    else (if FieldOf(records[0], "invocation_nonce") == "" then []
          else [Keyed(FieldOf(records[0], "invocation_nonce"), BoundObject(records[0]))]) + NonceItems(records[1..])
  }

  datatype Maps = Maps(proofTruth: seq<Bucket<Js>>, executionByAuthority: seq<Bucket<Js>>, nonceToObjects: seq<Bucket<string>>)

  function MapsOf(t: Tables): Maps {
    Maps(Grouped(ProofItems(t[PROOFS]), false), Grouped(ExecutionItems(t[EXECUTIONS]), false),
         Grouped(NonceItems(t[VALIDATIONS] + t[EXECUTIONS]), true))
  }

  /** The proofs that share their bound object with another. */
  function Duplicates(buckets: seq<Bucket<Js>>): seq<Js> {
    if buckets == [] then [] else (if |buckets[0].members| > 1 then buckets[0].members else []) + Duplicates(buckets[1..])
  }

  // ----- Duplicates, reuse and invocations -----

  function CheckDuplicate(proof: Js): Findings {
    Findings([], When(true, "PROOF_DRIFT", PROOFS, proof, "duplicate proof cannot become canonical truth"))
  }

  function CheckReuse(maps: Maps, authority: Js): Findings {
    var uses := |Members(maps.executionByAuthority, FieldOf(authority, "decision_id"))|;
    Findings([],
      When((FieldOf(authority, "status") == "REVOKED" && uses > 0) || uses > 1,
        "REPLAY_DRIFT", AUTHORITIES, authority, "revoked or already consumed authority cannot be reused for execution") +
      When(FieldOf(authority, "status") == "CONSUMED" && uses > 1,
        "REPLAY_DRIFT", AUTHORITIES, authority, "consumed authority cannot authorize multiple executions"))
  }

  function CheckInvocation(t: Tables, maps: Maps, invocation: Js): Findings {
    var objects := Members(maps.nonceToObjects, FieldOf(invocation, "invocation_nonce"));
    var bound := Same(invocation, ["decision_id", "validated_object_hash", "invocation_nonce"]);
    var validation := One(t[VALIDATIONS], bound);
    var execution := One(t[EXECUTIONS], bound);
    Findings([],
      When(|objects| != 1, "REPLAY_DRIFT", INVOCATIONS, invocation, "invocation nonce must map to exactly one validated/executed object") +
      When(!Found(validation) || !Found(execution), "REPLAY_DRIFT", INVOCATIONS, invocation, "invocation requires validation and execution lineage") +
      When(Ambiguous(validation) || Ambiguous(execution), "RECONCILIATION_DRIFT", INVOCATIONS, invocation, "invocation lineage resolves ambiguously") +
      When(FieldOf(invocation, "status") != "EXECUTED", "REPLAY_DRIFT", INVOCATIONS, invocation, "invocation status must remain EXECUTED") +
      When((Found(validation) && FieldOf(invocation, "continuity_id") != FieldOf(validation.row, "continuity_id")) ||
           (Found(execution) && FieldOf(invocation, "continuity_id") != FieldOf(execution.row, "continuity_id")),
        "REPLAY_DRIFT", INVOCATIONS, invocation, "invocation continuity must match validation and execution lineage"))
  }

  // ----- Evidence registries -----

  function CheckPreo(t: Tables, preo: Js): Findings {
    var authority := One(t[AUTHORITIES], Same(preo, ["decision_id", "authority_id"]));
    var aeo := One(t[AEOS], Same(preo, ["decision_id"]) + [Key("validated_object_hash", FieldOf(preo, "reviewed_hash"))]);
    Findings(
      [Link(PREOS, preo, AUTHORITIES, FieldOf(preo, "authority_id"), "PREO_AUTHORITY", authority, "REGISTRY_DRIFT"),
       Link(PREOS, preo, AEOS, FieldOf(preo, "reviewed_hash"), "PREO_AEO_REVIEWED_HASH", aeo, "REGISTRY_DRIFT")],
      When(!Found(authority) || !Found(aeo), "REGISTRY_DRIFT", PREOS, preo, "PREO requires authority and reviewed AEO hash lineage") +
      When(Ambiguous(authority) || Ambiguous(aeo), "RECONCILIATION_DRIFT", PREOS, preo, "PREO lineage resolves ambiguously") +
      When(Found(authority) && FieldOf(preo, "continuity_id") != FieldOf(authority.row, "continuity_id"),
        "REGISTRY_DRIFT", PREOS, preo, "PREO continuity differs from authority lineage") +
      When(FieldOf(preo, "status") != "PREO_VALID", "REGISTRY_DRIFT", PREOS, preo, "PREO status must remain PREO_VALID") +
      When(IsTrue(Read(preo, "executable")) || IsTrue(Read(preo, "creates_authority")) || IsTrue(Read(preo, "proof_generating")),
        "REGISTRY_DRIFT", PREOS, preo, "PREO must bind governed merge legitimacy only"))
  }

  predicate ActsAsAuthority(record: Js) {
    IsTrue(Read(record, "executable")) || IsTrue(Read(record, "deployment_capable")) || IsTrue(Read(record, "creates_authority"))
  }

  function CheckTopology(record: Js): Findings {
    Findings([], When(ActsAsAuthority(record) || Read(record, "evidence_only") == Str("false"),
      "TOPOLOGY_DRIFT", TOPOLOGIES, record, "topology evidence became authoritative or executable"))
  }

  function CheckGovernance(record: Js): Findings {
    Findings([], When(ActsAsAuthority(record) || Read(record, "evidence_only") == Str("false"),
      "TOPOLOGY_DRIFT", GOVERNANCES, record, "recursive governance containment must remain evidence-only"))
  }

  function CheckRoot(record: Js): Findings {
    Findings([], When(ActsAsAuthority(record) || Read(record, "non_authoritative") == Str("false"),
      "REGISTRY_DRIFT", ROOTS, record, "root authority evidence cannot grant authority"))
  }

  function CheckClosure(record: Js): Findings {
    Findings([], When(IsTrue(Read(record, "executable")) || IsTrue(Read(record, "creates_authority")) || IsTrue(Read(record, "proof_generating")),
      "REGISTRY_DRIFT", CLOSURES, record, "observability evidence cannot become proof or authority"))
  }

  // ----- The loops, in order -----

  datatype Pass =
    | ContinuityPass | AuthorityPass | AeoPass | ValidationPass | ExecutionPass | ProofPass | DuplicatePass | ReusePass
    | InvocationPass | PreoPass | TopologyPass | GovernancePass | RootPass | ClosurePass

  const PASSES := [
    ContinuityPass, AuthorityPass, AeoPass, ValidationPass, ExecutionPass, ProofPass, DuplicatePass, ReusePass,
    InvocationPass, PreoPass, TopologyPass, GovernancePass, RootPass, ClosurePass]

  function RecordsOf(t: Tables, maps: Maps, pass: Pass): seq<Js> {
    match pass
    case ContinuityPass => t[CONTINUITIES]
    case AuthorityPass => t[AUTHORITIES]
    case AeoPass => t[AEOS]
    case ValidationPass => t[VALIDATIONS]
    case ExecutionPass => t[EXECUTIONS]
    case ProofPass => t[PROOFS]
    case DuplicatePass => Duplicates(maps.proofTruth)
    case ReusePass => t[AUTHORITIES]
    case InvocationPass => t[INVOCATIONS]
    case PreoPass => t[PREOS]
    case TopologyPass => t[TOPOLOGIES]
    case GovernancePass => t[GOVERNANCES]
    case RootPass => t[ROOTS]
    case ClosurePass => t[CLOSURES]
  }

  function Check(env: Env, t: Tables, maps: Maps, pass: Pass, record: Js): Findings {
    match pass
    case ContinuityPass => CheckContinuity(env, t, record)
    case AuthorityPass => CheckAuthority(t, record)
    case AeoPass => CheckAeo(t, record)
    case ValidationPass => CheckValidation(env, t, record)
    case ExecutionPass => CheckExecution(t, record)
    case ProofPass => CheckProof(env, t, record)
    case DuplicatePass => CheckDuplicate(record)
    case ReusePass => CheckReuse(maps, record)
    case InvocationPass => CheckInvocation(t, maps, record)
    case PreoPass => CheckPreo(t, record)
    case TopologyPass => CheckTopology(record)
    case GovernancePass => CheckGovernance(record)
    case RootPass => CheckRoot(record)
    case ClosurePass => CheckClosure(record)
  }

  /** Reading a field of a null record without `?.` throws a TypeError. */
  predicate Throws(pass: Pass, record: Js) {
    record.NullValue? && pass in {ProofPass, PreoPass, TopologyPass, GovernancePass, RootPass, ClosurePass}
  }

  function PassFindings(env: Env, t: Tables, maps: Maps, pass: Pass, records: seq<Js>): Findings {
    if records == [] then Findings([], [])
    else
      var rest := PassFindings(env, t, maps, pass, records[..|records| - 1]);
      var last := Check(env, t, maps, pass, records[|records| - 1]);
      Findings(rest.edges + last.edges, rest.drifts + last.drifts)
  }

  function AllFindings(env: Env, t: Tables, maps: Maps, passes: seq<Pass>): Findings {
    if passes == [] then Findings([], [])
    else
      var rest := AllFindings(env, t, maps, passes[..|passes| - 1]);
      var last := PassFindings(env, t, maps, passes[|passes| - 1], RecordsOf(t, maps, passes[|passes| - 1]));
      Findings(rest.edges + last.edges, rest.drifts + last.drifts)
  }

  predicate SomeThrow(t: Tables, maps: Maps, passes: seq<Pass>) {
    exists pass :: pass in passes && exists record :: record in RecordsOf(t, maps, pass) && Throws(pass, record)
  }

  class Context {
    var edges: seq<Edge>
    var drift: seq<Drift>
    var orphans: seq<Drift>

    constructor ()
      ensures edges == [] && drift == [] && orphans == []
    {
      edges, drift, orphans := [], [], [];
    }

    /** `ctx.edges.push`, and `addDrift`, which records each drift a second time as an orphan. */
    method Record(findings: Findings)
      modifies this
      ensures edges == old(edges) + findings.edges
      ensures drift == old(drift) + findings.drifts
      ensures orphans == old(orphans) + findings.drifts
    {
      edges := edges + findings.edges;
      for i := 0 to |findings.drifts|
        invariant edges == old(edges) + findings.edges
        invariant drift == old(drift) + findings.drifts[..i]
        invariant orphans == old(orphans) + findings.drifts[..i]
      {
        drift := drift + [findings.drifts[i]];
        orphans := orphans + [findings.drifts[i]];
      }
    }

    method Scan(env: Env, t: Tables, maps: Maps, pass: Pass) returns (ok: bool)
      modifies this
      ensures ok <==> forall record :: record in RecordsOf(t, maps, pass) ==> !Throws(pass, record)
      ensures ok ==> var all := PassFindings(env, t, maps, pass, RecordsOf(t, maps, pass));
        edges == old(edges) + all.edges && drift == old(drift) + all.drifts && orphans == old(orphans) + all.drifts
    {
      hide Check;
      var records := RecordsOf(t, maps, pass);
      ok := true;
      for i := 0 to |records|
        invariant forall record :: record in records[..i] ==> !Throws(pass, record)
        invariant var all := PassFindings(env, t, maps, pass, records[..i]);
          edges == old(edges) + all.edges && drift == old(drift) + all.drifts && orphans == old(orphans) + all.drifts
      {
        if Throws(pass, records[i]) {
          return false;
        }
        Record(Check(env, t, maps, pass, records[i]));
        assert records[..i + 1][..i] == records[..i];
      }
      assert records[..|records|] == records;
    }
  }

  // ----- The snapshot -----

  datatype Snapshot = Snapshot(
    lineageEdges: seq<Js>, drift: seq<Js>, driftClasses: seq<string>, unresolvedEdges: seq<Js>, orphanedRecords: seq<Js>,
    reconciliationInputHash: string, conflictSetHash: string, registrySetHash: string, lineageGraphHash: string,
    continuityGraphHash: string, proofGraphHash: string, replayGraphHash: string, topologyBindingHash: string,
    governanceBindingHash: string, nullReasons: seq<string>, legitimate: bool)

  function HashOrder(env: Env): (Js, Js) -> bool {
    (a: Js, b: Js) => env.le(HashCanonical(env, a), HashCanonical(env, b))
  }

  /** Edges keep their meaning next to the object that is hashed. */
  function EdgeOrder(env: Env): (Edge, Edge) -> bool {
    (a: Edge, b: Edge) => env.le(HashCanonical(env, EdgeObject(a)), HashCanonical(env, EdgeObject(b)))
  }

  function EdgeObjects(edges: seq<Edge>): seq<Js> { seq(|edges|, i requires 0 <= i < |edges| => EdgeObject(edges[i])) }

  function DriftObjects(drifts: seq<Drift>): seq<Js> { seq(|drifts|, i requires 0 <= i < |drifts| => DriftObject(drifts[i])) }

  function OrphanObjects(drifts: seq<Drift>): seq<Js> { seq(|drifts|, i requires 0 <= i < |drifts| => OrphanObject(drifts[i])) }

  function Unresolved(edges: seq<Edge>): seq<Edge> {
    if edges == [] then [] else (if edges[0].resolved then [] else [edges[0]]) + Unresolved(edges[1..])
  }

  /** The relations that name a continuity or a session. */
  const CONTINUITY_RELATIONS := [
    "CONTINUITY_SESSION", "AUTHORITY_SESSION", "AUTHORITY_CONTINUITY", "VALIDATION_SESSION", "EXECUTION_SESSION",
    "EXECUTION_CONTINUITY", "PROOF_CONTINUITY"]

  function ContinuityEdges(edges: seq<Edge>): seq<Edge> {
    if edges == [] then []
    else (if edges[0].relation in CONTINUITY_RELATIONS then [edges[0]] else []) + ContinuityEdges(edges[1..])
  }

  function ProofEdges(edges: seq<Edge>): seq<Edge> {
    if edges == [] then []
    else (if edges[0].fromRegistry == ORDER[PROOFS] || edges[0].toRegistry == ORDER[PROOFS] then [edges[0]] else []) + ProofEdges(edges[1..])
  }

  function Classes(drifts: seq<Drift>): seq<string> {
    if drifts == [] then []
    else
      var rest := Classes(drifts[..|drifts| - 1]);
      var last := drifts[|drifts| - 1].driftClass;
      if last in rest then rest else rest + [last]
  }

  /** Map entries as arrays, sorted as `Array.prototype.sort` does: by their joined text. */
  function NonceEntries(buckets: seq<Bucket<string>>): seq<Js> {
    Sort(seq(|buckets|, i requires 0 <= i < |buckets| => Arr([Str(buckets[i].key), Strings(Sort(buckets[i].members, KeyLe))])),
      (a: Js, b: Js) => KeyLe(StringOf(a), StringOf(b)))
  }

  function ReasonList(nonCanonical: bool, unresolved: seq<Edge>, classes: seq<string>): seq<string> {
    (if "RECONCILIATION_DRIFT" in classes then ["AMBIGUOUS_RECON_ORDERING"] else []) +
    (if unresolved != [] || classes != [] then ["MISSING_LINEAGE_EDGE"] else []) +
    (if nonCanonical then ["NON_CANONICAL_INPUT_ORDER"] else []) +
    (if "CONTINUITY_DRIFT" in classes then ["STALE_RECONCILIATION_EVIDENCE"] else [])
  }

  function NullReasons(nonCanonical: bool, unresolved: seq<Edge>, classes: seq<string>): seq<string> {
    Sort(ReasonList(nonCanonical, unresolved, classes), KeyLe)
  }

  function NonCanonicalInputOrder(env: Env, state: Js): bool {
    HashCanonical(env, state) != HashCanonical(env, CanonicalRegistryState(env, state))
  }

  function SnapshotOf(env: Env, canonical: Tables, t: Tables, maps: Maps, edges: seq<Edge>, drifts: seq<Drift>, nonCanonical: bool): Snapshot {
    var lineage := Sort(edges, EdgeOrder(env));
    var unresolved := Sort(Unresolved(edges), EdgeOrder(env));
    var classes := Sort(Classes(drifts), KeyLe);
    var orphaned := Sort(OrphanObjects(drifts), HashOrder(env));
    var reasons := NullReasons(nonCanonical, unresolved, classes);
    Snapshot(
      EdgeObjects(lineage), Sort(DriftObjects(drifts), HashOrder(env)), classes, EdgeObjects(unresolved), orphaned,
      HashCanonical(env, AsObject(canonical)),
      HashCanonical(env, Obj([Prop("unresolved_edges", Arr(EdgeObjects(unresolved))), Prop("orphaned_records", Arr(orphaned)),
                              Prop("drift_classes", Strings(classes))])),
      HashCanonical(env, AsObject(t)),
      HashCanonical(env, Arr(EdgeObjects(lineage))),
      HashCanonical(env, Arr(EdgeObjects(ContinuityEdges(lineage)))),
      HashCanonical(env, Arr(EdgeObjects(ProofEdges(lineage)))),
      HashCanonical(env, Obj([Prop("invocations", Arr(t[INVOCATIONS])), Prop("nonce_to_objects", Arr(NonceEntries(maps.nonceToObjects)))])),
      HashCanonical(env, Arr(t[TOPOLOGIES])),
      HashCanonical(env, Obj([Prop("recursive", Arr(t[GOVERNANCES])), Prop("root", Arr(t[ROOTS])), Prop("closure", Arr(t[CLOSURES])),
                              Prop("preo", Arr(t[PREOS]))])),
      reasons, reasons == [])
  }

  /** The snapshot of a state, or None for a TypeError: of `canonicalize` on the state, or of a loop. */
  function Traversal(env: Env, state: Js, limit: int): Option<Snapshot> {
    var canonical := CanonicalTables(env, state);
    var t := Limited(canonical, limit);
    var maps := MapsOf(t);
    var all := AllFindings(env, t, maps, PASSES);
    if Clashes(state) || SomeThrow(t, maps, PASSES) then None
    else Some(SnapshotOf(env, canonical, t, maps, all.edges, all.drifts, NonCanonicalInputOrder(env, state)))
  }

  const DEFAULT_LIMIT := 1000

  /** The default parameter `state = {}`. */
  function Defaulted(state: Js): Js { if state.Undefined? then Obj([]) else state }

  function LimitOf(limit: Option<int>): int { if limit.Some? then limit.value else DEFAULT_LIMIT }

  /** None stands for a TypeError: a null state, a clash that `canonicalize` meets in it, or a null record whose
      field is read. */
  method TraverseCrossRegistries(env: Env, state: Js, limit: Option<int>) returns (snapshot: Option<Snapshot>)
    ensures snapshot == if state.NullValue? then None else Traversal(env, Defaulted(state), LimitOf(limit))
  {
    if state.NullValue? || Clashes(Defaulted(state)) {
      TraversalIs(env, Defaulted(state), LimitOf(limit));
      return None;
    }
    hide *;
    var nonCanonical := NonCanonicalInputOrder(env, Defaulted(state));
    var canonical := CanonicalTables(env, Defaulted(state));
    var t := Limited(canonical, LimitOf(limit));
    snapshot := TraverseTables(env, canonical, t, nonCanonical);
    TraversalIs(env, Defaulted(state), LimitOf(limit));
  }

  /** The loops over the limited tables, and the snapshot. */
  method TraverseTables(env: Env, canonical: Tables, t: Tables, nonCanonical: bool) returns (snapshot: Option<Snapshot>)
    ensures var maps := MapsOf(t);
      var all := AllFindings(env, t, maps, PASSES);
      snapshot == if SomeThrow(t, maps, PASSES) then None else Some(SnapshotOf(env, canonical, t, maps, all.edges, all.drifts, nonCanonical))
  {
    hide *;
    var maps := BuildMaps(t);
    var ctx := new Context();
    FirstPass(env, t, maps);
    for i := 0 to |PASSES|
      invariant fresh(ctx)
      invariant var all := AllFindings(env, t, maps, PASSES[..i]);
        ctx.edges == all.edges && ctx.drift == all.drifts && ctx.orphans == all.drifts
      invariant !SomeThrow(t, maps, PASSES[..i])
    {
      NextPass(env, t, maps, i);
      var ok := ctx.Scan(env, t, maps, PASSES[i]);
      if !ok {
        return None;
      }
    }
    assert PASSES[..|PASSES|] == PASSES;
    return Some(SnapshotOf(env, canonical, t, maps, ctx.edges, ctx.drift, nonCanonical));
  }

  method BuildMaps(t: Tables) returns (maps: Maps)
    ensures maps == MapsOf(t)
  {
    hide *;
    var proofTruth := Group(ProofItems(t[PROOFS]), false);
    var executionByAuthority := Group(ExecutionItems(t[EXECUTIONS]), false);
    var nonceToObjects := Group(NonceItems(t[VALIDATIONS] + t[EXECUTIONS]), true);
    MapsAre(t);
    return Maps(proofTruth, executionByAuthority, nonceToObjects);
  }

  lemma MapsAre(t: Tables)
    ensures MapsOf(t) ==
      Maps(Grouped(ProofItems(t[PROOFS]), false), Grouped(ExecutionItems(t[EXECUTIONS]), false),
           Grouped(NonceItems(t[VALIDATIONS] + t[EXECUTIONS]), true))
  {}

  lemma TraversalIs(env: Env, state: Js, limit: int)
    ensures var canonical := CanonicalTables(env, state);
      var t := Limited(canonical, limit);
      var maps := MapsOf(t);
      var all := AllFindings(env, t, maps, PASSES);
      Traversal(env, state, limit) ==
        if Clashes(state) || SomeThrow(t, maps, PASSES) then None
        else Some(SnapshotOf(env, canonical, t, maps, all.edges, all.drifts, NonCanonicalInputOrder(env, state)))
  {}

  lemma FirstPass(env: Env, t: Tables, maps: Maps)
    ensures AllFindings(env, t, maps, PASSES[..0]) == Findings([], []) && !SomeThrow(t, maps, PASSES[..0])
  {}

  /** One more loop: its findings come last, and a null record that throws there throws from then on. */
  lemma NextPass(env: Env, t: Tables, maps: Maps, i: nat)
    requires i < |PASSES|
    ensures var rest := AllFindings(env, t, maps, PASSES[..i]);
      var last := PassFindings(env, t, maps, PASSES[i], RecordsOf(t, maps, PASSES[i]));
      AllFindings(env, t, maps, PASSES[..i + 1]) == Findings(rest.edges + last.edges, rest.drifts + last.drifts)
    ensures var quiet := forall record :: record in RecordsOf(t, maps, PASSES[i]) ==> !Throws(PASSES[i], record);
      && (!SomeThrow(t, maps, PASSES[..i]) && quiet ==> !SomeThrow(t, maps, PASSES[..i + 1]))
      && (!quiet ==> SomeThrow(t, maps, PASSES))
  {
    hide PassFindings, RecordsOf, Throws;
    var passes := PASSES;
    hide PASSES;
    assert passes[..i + 1][..i] == passes[..i];
    assert forall pass :: pass in passes[..i + 1] <==> pass in passes[..i] || pass == passes[i];
  }
}
