/** The JavaScript path of an AEO: compiled from a filesystem AEO (src/lib/compile-canonical-aeo.ts),
    validated (src/continuity-core.js) and executed through an adapter (src/lib/adapter-contract.ts). */
module AeoPipeline {
  import opened Prelude
  import opened Sorting
  import opened JsCanonical
  import opened JsNormalize
  import opened JsObjects
  import AeoValidation

  // ----- JavaScript values -----

  /** `section.key`, undefined where either is missing. */
  function Member(v: Js, section: string, key: string): Js {
    if !v.Obj? then Undefined
    else match Lookup(v.props, section)
      case Some(Obj(inner)) => (match Lookup(inner, key) case Some(value) => value case None => Undefined)
      case _ => Undefined
  }

  /** The characters `String.prototype.trim` removes. */
  predicate IsSpace(c: char) {
    var n := c as nat;
    9 <= n <= 13 || n == 32 || n == 0xA0 || n == 0x1680 || 0x2000 <= n <= 0x200A ||
    n == 0x2028 || n == 0x2029 || n == 0x202F || n == 0x205F || n == 0x3000 || n == 0xFEFF
  }

  predicate Blank(s: string) { forall c :: c in s ==> IsSpace(c) }

  function TrimStart(s: string): string { if s != "" && IsSpace(s[0]) then TrimStart(s[1..]) else s }

  function TrimEnd(s: string): string { if s != "" && IsSpace(s[|s| - 1]) then TrimEnd(s[..|s| - 1]) else s }

  function Trim(s: string): string { TrimEnd(TrimStart(s)) }

  predicate NonBlankString(v: Js) { v.Str? && !Blank(v.s) }

  predicate Serialized(v: Js) { !v.Undefined? && !v.Other? }

  /** `JSON.parse(JSON.stringify(value))`. */
  function JsonClone(v: Js): Js
    decreases v, 1
  {
    match v
    case Undefined => NullValue
    case NonFinite => NullValue
    case Other => NullValue
    case Arr(items) => Arr(seq(|items|, i requires 0 <= i < |items| => JsonClone(items[i])))
    case Obj(props) => Obj(CloneProps(props))
    case _ => v
  }

  function CloneProps(props: seq<Prop>): seq<Prop>
    decreases props, 0
  {
    if props == [] then []
    else (if Serialized(props[0].value) then [Prop(props[0].key, JsonClone(props[0].value))] else []) + CloneProps(props[1..])
  }

  /** Values that JSON text can carry. */
  predicate IsJson(v: Js) {
    match v
    case Undefined => false
    case NonFinite => false
    case Other => false
    case Arr(items) => forall i :: 0 <= i < |items| ==> IsJson(items[i])
    case Obj(props) => forall i :: 0 <= i < |props| ==> IsJson(props[i].value)
    case _ => true
  }

  lemma {:induction false} CloneOfJson(v: Js)
    requires IsJson(v)
    ensures JsonClone(v) == v
    decreases v, 1
  {
    match v
    case Arr(items) =>
      forall i | 0 <= i < |items| ensures JsonClone(items[i]) == items[i] { CloneOfJson(items[i]); }
      assert JsonClone(v).items == items;
    case Obj(props) => CloneOfProps(props);
    case _ =>
  }

  lemma {:induction false} CloneOfProps(props: seq<Prop>)
    requires forall i :: 0 <= i < |props| ==> IsJson(props[i].value)
    ensures CloneProps(props) == props
    decreases props, 0
  {
    if props != [] {
      CloneOfJson(props[0].value);
      CloneOfProps(props[1..]);
    }
  }

  lemma {:induction false} CloneIsWellFormed(v: Js)
    requires WellFormed(v)
    ensures WellFormed(JsonClone(v))
    decreases v, 1
  {
    match v
    case Arr(items) =>
      forall i | 0 <= i < |items| ensures WellFormed(JsonClone(items[i])) { CloneIsWellFormed(items[i]); }
    case Obj(props) => ClonePropsHold(props);
    case _ =>
  }

  lemma {:induction false} ClonePropsHold(props: seq<Prop>)
    requires KeysDistinct(props) && forall i :: 0 <= i < |props| ==> WellFormed(props[i].value)
    ensures KeysDistinct(CloneProps(props))
    ensures forall p :: p in CloneProps(props) ==> WellFormed(p.value) && exists q :: q in props && q.key == p.key
    decreases props, 0
  {
    if props != [] {
      var rest := CloneProps(props[1..]);
      CloneIsWellFormed(props[0].value);
      ClonePropsHold(props[1..]);
      assert props == [props[0]] + props[1..];
      hide WellFormed, JsonClone, Serialized;
      forall j | 0 <= j < |rest| ensures rest[j].key != props[0].key {
        assert rest[j] in rest;
        var q :| q in props[1..] && q.key == rest[j].key;
      }
      assert props[0] in props;
    }
  }

  // ----- continuity-core.js -----

  /** `Crashed` is a TypeError in `canonicalize`. */
  datatype Verdict = Valid | Rejected | Crashed

  const REQUIRED_AEO_FIELDS := ["finality", "intent", "scope", "target", "validation"]

  function Keys(props: seq<Prop>): seq<string> { seq(|props|, i requires 0 <= i < |props| => props[i].key) }

  /** An object with exactly the five sections; `Object.keys` of anything else gives other keys. */
  predicate HasExactShape(aeo: Js) { aeo.Obj? && Sort(Keys(aeo.props), KeyLe) == REQUIRED_AEO_FIELDS }

  function ClearHash(clone: Js): Js {
    if !clone.Obj? then clone
    else match Lookup(clone.props, "validation")
      case Some(Obj(inner)) => Obj(Assign(clone.props, Prop("validation", Obj(Assign(inner, Prop("object_hash", NullValue))))))
      case _ => clone
  }

  function AeoObjectForHash(aeo: Js): Js { ClearHash(JsonClone(aeo)) }

  lemma AssignIsWellFormed(props: seq<Prop>, p: Prop)
    requires WellFormed(Obj(props)) && WellFormed(p.value)
    ensures WellFormed(Obj(Assign(props, p)))
  {
    if p.key != PROTO {
      if exists q :: q in props && q.key == p.key {
        var q :| q in props && q.key == p.key;
        var i :| 0 <= i < |props| && props[i] == q;
        AssignAt(props, i, p);
      } else {
        PlaceHolds(props, p);
        var placed := Place(props, p);
        forall i | 0 <= i < |placed| ensures WellFormed(placed[i].value) {
          assert placed[i] in placed;
          assert placed[i] == p || placed[i] in props;
        }
      }
    }
  }

  lemma ObjectForHashIsWellFormed(aeo: Js)
    requires WellFormed(aeo)
    ensures WellFormed(AeoObjectForHash(aeo))
  {
    CloneIsWellFormed(aeo);
    var clone := JsonClone(aeo);
    if clone.Obj? {
      LookupFinds(clone.props, "validation");
      if Lookup(clone.props, "validation").Some? && Lookup(clone.props, "validation").value.Obj? {
        var inner := Lookup(clone.props, "validation").value.props;
        AssignIsWellFormed(inner, Prop("object_hash", NullValue));
        AssignIsWellFormed(clone.props, Prop("validation", Obj(Assign(inner, Prop("object_hash", NullValue)))));
      }
    }
  }

  predicate SectionsMatch(aeo: Js, expected: string) {
    forall s :: s in REQUIRED_AEO_FIELDS ==> Member(aeo, s, "authority_id") == Str(expected)
  }

  predicate BoundsMatch(bounds: Js, maximum: seq<string>) {
    && bounds.Arr? && bounds.items != []
    && forall i :: 0 <= i < |bounds.items| ==> NonBlankString(bounds.items[i]) && bounds.items[i].s in maximum
  }

  function ValidateAeo(hash: string -> string, aeo: Js, context: AeoValidation.Context): Verdict
    requires WellFormed(aeo)
  {
    ObjectForHashIsWellFormed(aeo);
    if !HasExactShape(aeo) then Rejected
    else if !SectionsMatch(aeo, context.expectedAuthority) then Rejected
    else if !BoundsMatch(Member(aeo, "scope", "bounds"), context.maximumScope) then Rejected
    else
      var stored := Member(aeo, "validation", "object_hash");
      if !stored.Str? || |stored.s| != 64 then Rejected
      else
        match Canonicalize(AeoObjectForHash(aeo))
        case None => Crashed
        case Some(text) => if hash(text) != stored.s then Rejected else Valid
  }

  // ----- compile-canonical-aeo.ts -----

  /** The fields of a filesystem AEO that the compiler reads. */
  datatype FilesystemAEO = FilesystemAEO(
    purpose: string, allowedOperations: seq<string>, authorityLineageHash: string, decisionId: string,
    proposedDiffHash: string, replayNonce: string, system: string, operation: string, path: string,
    proofRequired: bool, proofType: string)

  datatype Compilation =
    | Denied(reason: string)
    | Compiled(aeo: Js, aeoHash: string, context: AeoValidation.Context)

  function Bounds(f: FilesystemAEO): seq<string> {
    ["system:" + f.system] + seq(|f.allowedOperations|, i requires 0 <= i < |f.allowedOperations| => "action:" + f.allowedOperations[i])
  }

  function FinalitySection(f: FilesystemAEO): Js {
    Obj([Prop("authority_id", Str(f.authorityLineageHash)), Prop("proof_required", Boolean(f.proofRequired)),
         Prop("proof_type", Str(f.proofType))])
  }

  function IntentSection(f: FilesystemAEO): Js {
    Obj([Prop("authority_id", Str(f.authorityLineageHash)), Prop("value", Str(f.purpose))])
  }

  function ScopeSection(f: FilesystemAEO): Js {
    Obj([Prop("authority_id", Str(f.authorityLineageHash)), Prop("bounds", Strings(Bounds(f)))])
  }

  function TargetSection(f: FilesystemAEO): Js {
    Obj([Prop("action", Str(f.operation)), Prop("authority_id", Str(f.authorityLineageHash)),
         Prop("operation", Str(f.operation)), Prop("path", Str(f.path)), Prop("system", Str(f.system))])
  }

  function ValidationSection(f: FilesystemAEO, objectHash: Js): Js {
    Obj([Prop("authority_id", Str(f.authorityLineageHash)), Prop("decision_id", Str(f.decisionId)),
         Prop("object_hash", objectHash), Prop("proposed_diff_hash", Str(f.proposedDiffHash)),
         Prop("replay_nonce", Str(f.replayNonce))])
  }

  function CanonicalAEO(f: FilesystemAEO, objectHash: Js): (aeo: Js)
    requires objectHash.NullValue? || objectHash.Str?
    ensures PlainJson(aeo)
  {
    var aeo := Obj([Prop("finality", FinalitySection(f)), Prop("intent", IntentSection(f)), Prop("scope", ScopeSection(f)),
                    Prop("target", TargetSection(f)), Prop("validation", ValidationSection(f, objectHash))]);
    SectionsAreJson(f, objectHash);
    hide FinalitySection, IntentSection, ScopeSection, TargetSection, ValidationSection;
    aeo
  }

  /** JSON data in which no object sets a prototype. */
  ghost predicate PlainJson(v: Js) { WellFormed(v) && IsJson(v) && NoPrototype(v) }

  predicate Leaf(v: Js) { v.Str? || v.Boolean? || v.NullValue? }

  lemma LeavesAreJson(props: seq<Prop>)
    requires KeysDistinct(props) && forall i :: 0 <= i < |props| ==> Leaf(props[i].value) && props[i].key != PROTO
    ensures PlainJson(Obj(props))
  {}

  lemma BoundsAreJson(texts: seq<string>)
    ensures PlainJson(Strings(texts))
  {}

  lemma ScopeIsJson(f: FilesystemAEO)
    ensures PlainJson(ScopeSection(f))
  {
    BoundsAreJson(Bounds(f));
    hide Strings, Bounds;
    WithBounds(f.authorityLineageHash, Strings(Bounds(f)));
  }

  lemma WithBounds(authority: string, bounds: Js)
    requires PlainJson(bounds)
    ensures PlainJson(Obj([Prop("authority_id", Str(authority)), Prop("bounds", bounds)]))
  {
    assert PlainJson(Str(authority));
  }

  lemma SmallSectionsAreJson(f: FilesystemAEO)
    ensures PlainJson(FinalitySection(f)) && PlainJson(IntentSection(f)) && PlainJson(TargetSection(f))
  {
    hide PlainJson;
    LeavesAreJson(FinalitySection(f).props);
    LeavesAreJson(IntentSection(f).props);
    LeavesAreJson(TargetSection(f).props);
  }

  lemma ValidationIsJson(f: FilesystemAEO, objectHash: Js)
    requires objectHash.NullValue? || objectHash.Str?
    ensures PlainJson(ValidationSection(f, objectHash))
  {
    hide PlainJson;
    LeavesAreJson(ValidationSection(f, objectHash).props);
  }

  lemma SectionsAreJson(f: FilesystemAEO, objectHash: Js)
    requires objectHash.NullValue? || objectHash.Str?
    ensures PlainJson(FinalitySection(f)) && PlainJson(IntentSection(f)) && PlainJson(ScopeSection(f)) && PlainJson(TargetSection(f))
    ensures PlainJson(ValidationSection(f, objectHash))
  {
    hide *;
    SmallSectionsAreJson(f);
    ValidationIsJson(f, objectHash);
    ScopeIsJson(f);
  }

  /** `canonicalize` returns here, since no key of the AEO is `__proto__` (PrintsCanonical). */
  function CompileCanonicalAEOFromFilesystem(hash: string -> string, aeo: Option<FilesystemAEO>): Compilation {
    if aeo == None then Denied("NULL_FILESYSTEM_AEO")
    else
      var f := aeo.value;
      if Blank(f.authorityLineageHash) then Denied("MISSING_CANONICAL_AUTHORITY_ID")
      else
        var objectHash := hash(CanonicalText(CanonicalAEO(f, NullValue)));
        var canonical := CanonicalAEO(f, Str(objectHash));
        Compiled(canonical, "sha256:" + hash(CanonicalText(canonical)), AeoValidation.Context(f.authorityLineageHash, Bounds(f)))
  }

  // ----- adapter-contract.ts -----

  datatype NullReason =
    | NullAeoInput | NullValidatedHash | NullExecutor | NullEmittedAt | AeoShapeInvalid | ObjectHashMismatch
    | ExecutorReturnedNull | EvidenceMissingExecutionId | EvidenceMissingExecutedAt | EvidenceSurfaceMismatch
    | EvidenceAdapterSpecificNull | NullContinuityContext | ExecutionNotEligible

  /** `Thrown` is a TypeError: a property read of null or undefined, or a clash that `canonicalize` meets. */
  datatype Outcome = NullResult(reason: NullReason) | Receipt(id: string, body: Js) | Thrown

  /** `execute` is the adapter, called with the AEO, the validated hash and the emission time. */
  datatype Executor = Executor(execute: (Js, string, string) -> Js)

  /** What the continuity gate reads of the AEO. */
  datatype LineageClaim = LineageClaim(
    lineageKey: string, continuityId: Js, parentContinuityId: Js, parentExecutedObjectHash: Js,
    validatedObjectHash: string, nonce: Js)

  /** `===` on primitive values; distinct objects are never identical here. */
  predicate StrictEqual(a: Js, b: Js) { a == b && !a.NonFinite? && !a.Arr? && !a.Obj? && !a.Other? }

  function ComputeAdapterAEOHash(hash: string -> string, aeo: Js): Option<string>
    requires WellFormed(aeo)
  {
    match Canonicalize(aeo)
    case None => None
    case Some(text) => Some("sha256:" + hash(text))
  }

  /** The prefixed hash of a value that can be printed. */
  function PrefixedHash(hash: string -> string, v: Js): string { "sha256:" + hash(CanonicalText(v)) }

  lemma AdapterHashIs(hash: string -> string, aeo: Js)
    requires WellFormed(aeo)
    ensures ComputeAdapterAEOHash(hash, aeo) == if Clashes(aeo) then None else Some(PrefixedHash(hash, aeo))
  {
    CanonicalizeIsPrint(aeo);
  }

  /** The eligibility classifier and `String(value ?? '')` are given. */
  datatype Host = Host(hash: string -> string, eligible: LineageClaim -> bool, text: Js -> string)

  function Claim(validation: Js, key: string, validatedHash: string): LineageClaim
  {
    LineageClaim(key, Own(validation, "continuity_id"), Own(validation, "parent_continuity_id"),
      Own(validation, "parent_executed_object_hash"), validatedHash, Own(validation, "replay_nonce"))
  }

  /** The continuity gate: None lets the run through, without a lineage; otherwise the lineage fields that
      enter the receipt, or the refusal. */
  datatype Gate = Pass(binding: seq<Prop>) | Refuse(reason: NullReason)

  function ContinuityGate(host: Host, validation: Js, validatedHash: string, hasContinuity: bool): Gate {
    if !NonBlankString(Own(validation, "lineage_key")) then Pass([])
    else if !hasContinuity then Refuse(NullContinuityContext)
    else if !host.eligible(Claim(validation, Trim(Own(validation, "lineage_key").s), validatedHash)) then Refuse(ExecutionNotEligible)
    else Pass([
      Prop("continuity_id", Str(host.text(Own(validation, "continuity_id")))),
      Prop("parent_continuity_id", Str(host.text(Own(validation, "parent_continuity_id")))),
      Prop("parent_executed_object_hash", Str(host.text(Own(validation, "parent_executed_object_hash")))),
      Prop("lineage_eligibility", Str("ELIGIBLE"))])
  }

  /** The checks on what the adapter returned: None when it passes. */
  function EvidenceRefusal(evidence: Js, target: Js): Option<Outcome> {
    if !Truthy(evidence) then Some(NullResult(ExecutorReturnedNull))
    else if !NonBlankString(Own(evidence, "execution_id")) then Some(NullResult(EvidenceMissingExecutionId))
    else if !NonBlankString(Own(evidence, "executed_at")) then Some(NullResult(EvidenceMissingExecutedAt))
    else if target.Undefined? || target.NullValue? then Some(Thrown)
    else if !StrictEqual(Own(evidence, "adapter_surface"), Own(target, "system")) then Some(NullResult(EvidenceSurfaceMismatch))
    else if !Own(evidence, "adapter_specific").Obj? then Some(NullResult(EvidenceAdapterSpecificNull))
    else None
  }

  function ReceiptBody(hash: string -> string, recomputed: string, evidence: Js, validation: Js, emittedAt: string,
                       binding: seq<Prop>): Js
  {
    Obj([Prop("validated_object_hash", Str(recomputed)), Prop("executed_object_hash", Str(recomputed)),
         Prop("execution_evidence_hash", Str(PrefixedHash(hash, evidence))),
         Prop("adapter_surface", Own(evidence, "adapter_surface")), Prop("decision_id", Own(validation, "decision_id")),
         Prop("replay_nonce", Own(validation, "replay_nonce")), Prop("execution_result", Str("EXECUTED")),
         Prop("creates_authority", Boolean(false)), Prop("emitted_at", Str(emittedAt))] + binding)
  }

  function ExecuteWithAdapter(host: Host, aeo: Js, validatedHash: Js, executor: Option<Executor>, emittedAt: Js,
                              hasContinuity: bool): Outcome
    requires WellFormed(aeo)
    requires executor.Some? ==> forall a, h, t :: WellFormed(executor.value.execute(a, h, t))
  {
    if !Truthy(aeo) then NullResult(NullAeoInput)
    else if !NonBlankString(validatedHash) then NullResult(NullValidatedHash)
    else if executor == None then NullResult(NullExecutor)
    else if !NonBlankString(emittedAt) then NullResult(NullEmittedAt)
    else if !HasExactShape(aeo) then NullResult(AeoShapeInvalid)
    else
      match ComputeAdapterAEOHash(host.hash, aeo)
      case None => Thrown
      case Some(recomputed) =>
        if recomputed != validatedHash.s then NullResult(ObjectHashMismatch)
        else
          var validation := Own(aeo, "validation");
          OwnIsWellFormed(aeo, "validation");
          if validation.Undefined? || validation.NullValue? then Thrown
          else Dispatch(host, aeo, validation, recomputed, executor.value, emittedAt.s, hasContinuity)
  }

  const BODY_KEYS := ["validated_object_hash", "executed_object_hash", "execution_evidence_hash", "adapter_surface",
    "decision_id", "replay_nonce", "execution_result", "creates_authority", "emitted_at"]

  const BINDING_KEYS := ["continuity_id", "parent_continuity_id", "parent_executed_object_hash", "lineage_eligibility"]

  lemma BodyKeysAreDistinct()
    ensures Distinct(BODY_KEYS + BINDING_KEYS)
  {}

  lemma BodyKeys(hash: string -> string, recomputed: string, evidence: Js, validation: Js, emittedAt: string, binding: seq<Prop>)
    requires binding == [] || Keys(binding) == BINDING_KEYS
    ensures KeysDistinct(ReceiptBody(hash, recomputed, evidence, validation, emittedAt, binding).props)
  {
    BodyKeysAreDistinct();
    hide CanonicalText, Own, Distinct, WellFormed;
    var props := ReceiptBody(hash, recomputed, evidence, validation, emittedAt, binding).props;
    assert Keys(props) == BODY_KEYS + Keys(binding);
    KeysAreDistinct(props, BODY_KEYS + BINDING_KEYS);
  }

  lemma BindingIs(host: Host, validation: Js, recomputed: string, hasContinuity: bool, binding: seq<Prop>)
    requires ContinuityGate(host, validation, recomputed, hasContinuity) == Pass(binding)
    ensures binding == [] || Keys(binding) == BINDING_KEYS
    ensures forall i :: 0 <= i < |binding| ==> binding[i].value.Str?
  {
    hide Own, NonBlankString, Claim;
  }

  lemma BodyIsWellFormed(host: Host, recomputed: string, evidence: Js, validation: Js, emittedAt: string,
                         hasContinuity: bool, binding: seq<Prop>)
    requires WellFormed(evidence) && WellFormed(validation)
    requires ContinuityGate(host, validation, recomputed, hasContinuity) == Pass(binding)
    ensures WellFormed(ReceiptBody(host.hash, recomputed, evidence, validation, emittedAt, binding))
  {
    hide CanonicalText, Own, ContinuityGate, KeysDistinct, PrefixedHash;
    OwnIsWellFormed(evidence, "adapter_surface");
    OwnIsWellFormed(validation, "decision_id");
    OwnIsWellFormed(validation, "replay_nonce");
    BindingIs(host, validation, recomputed, hasContinuity, binding);
    BodyKeys(host.hash, recomputed, evidence, validation, emittedAt, binding);
    var props := ReceiptBody(host.hash, recomputed, evidence, validation, emittedAt, binding).props;
    BodyValues(host.hash, recomputed, evidence, validation, emittedAt, binding);
    hide ReceiptBody;
    forall i | 0 <= i < |props| ensures WellFormed(props[i].value) {
      assert FromElsewhere(props[i].value, evidence, validation) || Leaf(props[i].value);
    }
    assert ReceiptBody(host.hash, recomputed, evidence, validation, emittedAt, binding) == Obj(props);
  }

  /** The values of a receipt body that are not computed for it. */
  predicate FromElsewhere(v: Js, evidence: Js, validation: Js) {
    v == Own(evidence, "adapter_surface") || v == Own(validation, "decision_id") || v == Own(validation, "replay_nonce")
  }

  lemma BodyValues(hash: string -> string, recomputed: string, evidence: Js, validation: Js, emittedAt: string, binding: seq<Prop>)
    requires binding == [] || Keys(binding) == BINDING_KEYS
    requires forall i :: 0 <= i < |binding| ==> binding[i].value.Str?
    ensures var body := ReceiptBody(hash, recomputed, evidence, validation, emittedAt, binding);
      body.Obj? && forall i :: 0 <= i < |body.props| ==>
        (FromElsewhere(body.props[i].value, evidence, validation) || Leaf(body.props[i].value)) && body.props[i].key != PROTO
  {
    hide PrefixedHash, Own;
    PlainKeys(binding);
    var props := ReceiptBody(hash, recomputed, evidence, validation, emittedAt, binding).props;
    forall i | 0 <= i < |props|
      ensures (FromElsewhere(props[i].value, evidence, validation) || Leaf(props[i].value)) && props[i].key != PROTO
    {
      assert i >= 9 ==> props[i] == binding[i - 9];
    }
  }

  lemma KeysAreDistinct(props: seq<Prop>, keys: seq<string>)
    requires Distinct(keys) && Keys(props) <= keys
    ensures KeysDistinct(props)
  {
    forall i, j | 0 <= i < j < |props| ensures props[i].key != props[j].key {
      assert keys[i] == Keys(props)[i] && keys[j] == Keys(props)[j];
    }
  }

  /** After the hash check: gate, executor, evidence, receipt. */
  function Dispatch(host: Host, aeo: Js, validation: Js, recomputed: string, executor: Executor, emittedAt: string,
                    hasContinuity: bool): Outcome
    requires WellFormed(aeo) && WellFormed(validation) && forall a, h, t :: WellFormed(executor.execute(a, h, t))
  {
    match ContinuityGate(host, validation, recomputed, hasContinuity)
    case Refuse(reason) => NullResult(reason)
    case Pass(binding) =>
      var evidence := executor.execute(aeo, recomputed, emittedAt);
      var refusal := EvidenceRefusal(evidence, Own(aeo, "target"));
      if refusal.Some? then refusal.value
      else if Canonicalize(evidence) == None then Thrown
      else
        BodyIsWellFormed(host, recomputed, evidence, validation, emittedAt, hasContinuity, binding);
        var body := ReceiptBody(host.hash, recomputed, evidence, validation, emittedAt, binding);
        match Canonicalize(body)
        case None => Thrown
        case Some(text) => Receipt("sha256:" + host.hash(text), body)
  }

  // ----- Compile, validate, execute -----

  /** Two different texts with one hash. */
  ghost predicate Collision(hash: string -> string, v: Js, w: Js) {
    CanonicalText(v) != CanonicalText(w) && hash(CanonicalText(v)) == hash(CanonicalText(w))
  }

  lemma KeyOrder()
    ensures Preorder(KeyLe) && forall a, b :: KeyLe(a, b) && KeyLe(b, a) ==> a == b
  {
    forall a, b, c | KeyLe(a, b) && KeyLe(b, c) ensures KeyLe(a, c) { KeyLeTransitive(a, b, c); }
    forall a, b ensures KeyLe(a, b) || KeyLe(b, a) { KeyLeConnected(a, b); }
    forall a, b | KeyLe(a, b) && KeyLe(b, a) ensures a == b { KeyLeAntisymmetric(a, b); }
  }

  lemma RequiredIsSorted()
    ensures Sort(REQUIRED_AEO_FIELDS, KeyLe) == REQUIRED_AEO_FIELDS
  {
    var keys := REQUIRED_AEO_FIELDS;
    KeyOrder();
    assert Sorted(keys, KeyLe) by {
      forall i, j | 0 <= i < j < |keys| ensures KeyLe(keys[i], keys[j]) {
        assert Utf16Rank(keys[i][0]) < Utf16Rank(keys[j][0]);
      }
    }
    hide KeyLe;
    SortOfSorted(keys, KeyLe);
  }

  lemma CanonicalShape(f: FilesystemAEO, objectHash: Js)
    requires objectHash.NullValue? || objectHash.Str?
    ensures HasExactShape(CanonicalAEO(f, objectHash))
  {
    assert Keys(CanonicalAEO(f, objectHash).props) == REQUIRED_AEO_FIELDS;
    RequiredIsSorted();
  }

  lemma CanonicalSections(f: FilesystemAEO, objectHash: Js)
    requires objectHash.NullValue? || objectHash.Str?
    ensures var props := CanonicalAEO(f, objectHash).props;
      && Lookup(props, "finality") == Some(FinalitySection(f)) && Lookup(props, "intent") == Some(IntentSection(f))
      && Lookup(props, "scope") == Some(ScopeSection(f)) && Lookup(props, "target") == Some(TargetSection(f))
      && Lookup(props, "validation") == Some(ValidationSection(f, objectHash))
  {
    var props := CanonicalAEO(f, objectHash).props;
    hide Lookup, FinalitySection, IntentSection, ScopeSection, TargetSection, ValidationSection;
    LookupAt(props, 0);
    LookupAt(props, 1);
    LookupAt(props, 2);
    LookupAt(props, 3);
    LookupAt(props, 4);
  }

  lemma SectionAuthorities(f: FilesystemAEO, objectHash: Js)
    ensures Lookup(FinalitySection(f).props, "authority_id") == Some(Str(f.authorityLineageHash))
    ensures Lookup(IntentSection(f).props, "authority_id") == Some(Str(f.authorityLineageHash))
    ensures Lookup(ScopeSection(f).props, "authority_id") == Some(Str(f.authorityLineageHash))
    ensures Lookup(ValidationSection(f, objectHash).props, "authority_id") == Some(Str(f.authorityLineageHash))
  {
    hide Bounds, Strings;
  }

  lemma TargetAuthority(f: FilesystemAEO)
    ensures Lookup(TargetSection(f).props, "authority_id") == Some(Str(f.authorityLineageHash))
  {
    LookupAt(TargetSection(f).props, 1);
    assert TargetSection(f).props[1] == Prop("authority_id", Str(f.authorityLineageHash));
  }

  lemma CanonicalAuthorities(f: FilesystemAEO, objectHash: Js)
    requires objectHash.NullValue? || objectHash.Str?
    ensures SectionsMatch(CanonicalAEO(f, objectHash), f.authorityLineageHash)
  {
    CanonicalSections(f, objectHash);
    SectionsAreObjects(f, objectHash);
    SectionAuthorities(f, objectHash);
    TargetAuthority(f);
    hide Lookup, FinalitySection, IntentSection, ScopeSection, TargetSection, ValidationSection, WellFormed, IsJson;
  }

  lemma SectionsAreObjects(f: FilesystemAEO, objectHash: Js)
    ensures FinalitySection(f).Obj? && IntentSection(f).Obj? && ScopeSection(f).Obj? && TargetSection(f).Obj?
    ensures ValidationSection(f, objectHash).Obj?
  {}

  lemma CanonicalBounds(f: FilesystemAEO, objectHash: Js)
    requires objectHash.NullValue? || objectHash.Str?
    ensures Member(CanonicalAEO(f, objectHash), "scope", "bounds") == Strings(Bounds(f))
    ensures BoundsMatch(Strings(Bounds(f)), Bounds(f))
  {
    CanonicalSections(f, objectHash);
    LookupAt(ScopeSection(f).props, 1);
    var bounds := Bounds(f);
    forall i | 0 <= i < |bounds| ensures !Blank(bounds[i]) && bounds[i] in bounds {
      assert bounds[i][0] == 's' || bounds[i][0] == 'a';
      assert bounds[i][0] in bounds[i];
    }
  }

  lemma ValidationReads(f: FilesystemAEO, objectHash: Js)
    requires objectHash.NullValue? || objectHash.Str?
    ensures var section := ValidationSection(f, objectHash);
      && KeysDistinct(section.props)
      && Lookup(section.props, "object_hash") == Some(objectHash)
      && Lookup(section.props, "lineage_key") == None
      && Lookup(section.props, "decision_id") == Some(Str(f.decisionId))
      && Lookup(section.props, "replay_nonce") == Some(Str(f.replayNonce))
      && Assign(section.props, Prop("object_hash", NullValue)) == ValidationSection(f, NullValue).props
  {
    var inner := ValidationSection(f, objectHash).props;
    LookupAt(inner, 1);
    LookupAt(inner, 2);
    LookupAt(inner, 4);
    LookupFinds(inner, "lineage_key");
    hide Lookup, Assign;
    AssignAt(inner, 2, Prop("object_hash", NullValue));
    assert inner[2 := Prop("object_hash", NullValue)] == ValidationSection(f, NullValue).props;
  }

  lemma CanonicalAssign(f: FilesystemAEO, objectHash: string)
    ensures Assign(CanonicalAEO(f, Str(objectHash)).props, Prop("validation", ValidationSection(f, NullValue))) ==
            CanonicalAEO(f, NullValue).props
  {
    hide Lookup, Assign, FinalitySection, IntentSection, ScopeSection, TargetSection, ValidationSection;
    var props := CanonicalAEO(f, Str(objectHash)).props;
    AssignAt(props, 4, Prop("validation", ValidationSection(f, NullValue)));
  }

  /** The validator clears exactly what the compiler left out. */
  lemma CanonicalObjectForHash(f: FilesystemAEO, objectHash: string)
    ensures AeoObjectForHash(CanonicalAEO(f, Str(objectHash))) == CanonicalAEO(f, NullValue)
    ensures Member(CanonicalAEO(f, Str(objectHash)), "validation", "object_hash") == Str(objectHash)
  {
    var aeo := CanonicalAEO(f, Str(objectHash));
    CloneOfJson(aeo);
    CanonicalSections(f, Str(objectHash));
    ValidationReads(f, Str(objectHash));
    CanonicalAssign(f, objectHash);
    assert ValidationSection(f, Str(objectHash)).Obj? && ValidationSection(f, NullValue).Obj?;
    hide CanonicalAEO, ValidationSection, Lookup, Assign, JsonClone, WellFormed, IsJson;
  }

  lemma PrintsCanonical(f: FilesystemAEO, objectHash: Js)
    requires objectHash.NullValue? || objectHash.Str?
    ensures !Clashes(CanonicalAEO(f, objectHash))
    ensures Canonicalize(CanonicalAEO(f, objectHash)) == Some(CanonicalText(CanonicalAEO(f, objectHash)))
  {
    hide CanonicalAEO;
    NoPrototypeNoClash(CanonicalAEO(f, objectHash));
    CanonicalizeIsPrint(CanonicalAEO(f, objectHash));
  }

  /** The compiler refuses a missing AEO or a blank lineage hash and nothing else, and what it returns
      validates under the context it returns. */
  lemma CompiledIsValid(hash: string -> string, aeo: Option<FilesystemAEO>)
    requires DigestSized(hash)
    ensures CompileCanonicalAEOFromFilesystem(hash, aeo).Compiled? <==> aeo.Some? && !Blank(aeo.value.authorityLineageHash)
    ensures match CompileCanonicalAEOFromFilesystem(hash, aeo)
      case Compiled(canonical, aeoHash, context) =>
        && WellFormed(canonical) && ValidateAeo(hash, canonical, context) == Valid
        && ComputeAdapterAEOHash(hash, canonical) == Some(aeoHash)
      case Denied(_) => true
  {
    if aeo.Some? && !Blank(aeo.value.authorityLineageHash) {
      var f := aeo.value;
      var objectHash := hash(CanonicalText(CanonicalAEO(f, NullValue)));
      CanonicalShape(f, Str(objectHash));
      CanonicalAuthorities(f, Str(objectHash));
      CanonicalBounds(f, Str(objectHash));
      CanonicalObjectForHash(f, objectHash);
      PrintsCanonical(f, NullValue);
      PrintsCanonical(f, Str(objectHash));
      hide CanonicalText, CanonicalAEO, Bounds, Blank, HasExactShape, SectionsMatch, BoundsMatch, Member, Strings, Canonicalize;
    }
  }

  /** The adapter's answer is complete for a target system. */
  predicate EvidenceComplete(evidence: Js, system: string) {
    && Truthy(evidence)
    && NonBlankString(Own(evidence, "execution_id"))
    && NonBlankString(Own(evidence, "executed_at"))
    && Own(evidence, "adapter_surface") == Str(system)
    && Own(evidence, "adapter_specific").Obj?
  }

  predicate EvidenceFault(reason: NullReason) {
    reason in {ExecutorReturnedNull, EvidenceMissingExecutionId, EvidenceMissingExecutedAt, EvidenceSurfaceMismatch,
               EvidenceAdapterSpecificNull}
  }

  lemma PrefixedIsNonBlank(digest: string)
    ensures !Blank("sha256:" + digest)
  {
    assert ("sha256:" + digest)[0] == 's';
    assert ("sha256:" + digest)[0] in "sha256:" + digest;
  }

  lemma CanonicalReads(f: FilesystemAEO, objectHash: string)
    ensures var aeo := CanonicalAEO(f, Str(objectHash));
      var validation := Own(aeo, "validation");
      && validation == ValidationSection(f, Str(objectHash))
      && Own(validation, "lineage_key") == Undefined
      && Own(validation, "decision_id") == Str(f.decisionId) && Own(validation, "replay_nonce") == Str(f.replayNonce)
      && Own(aeo, "target") == TargetSection(f) && Own(Own(aeo, "target"), "system") == Str(f.system)
  {
    var aeo, validation, target := CanonicalAEO(f, Str(objectHash)), ValidationSection(f, Str(objectHash)), TargetSection(f);
    assert aeo.Obj? && validation.Obj? && target.Obj?;
    CanonicalSections(f, Str(objectHash));
    ValidationReads(f, Str(objectHash));
    TargetReads(f);
    hide *;
    OwnIsLookup(aeo, "validation");
    OwnIsLookup(aeo, "target");
    OwnIsLookup(validation, "lineage_key");
    OwnIsLookup(validation, "decision_id");
    OwnIsLookup(validation, "replay_nonce");
    OwnIsLookup(target, "system");
  }

  lemma TargetReads(f: FilesystemAEO)
    ensures Lookup(TargetSection(f).props, "system") == Some(Str(f.system))
  {
    LookupAt(TargetSection(f).props, 4);
  }

  lemma ReachesDispatch(host: Host, aeo: Js, executor: Executor, emittedAt: string, hasContinuity: bool)
    requires WellFormed(aeo) && !Clashes(aeo) && HasExactShape(aeo) && !Blank(emittedAt)
    requires forall a, h, t :: WellFormed(executor.execute(a, h, t))
    requires Own(aeo, "validation").Obj?
    ensures WellFormed(Own(aeo, "validation"))
    ensures var h := PrefixedHash(host.hash, aeo);
      ExecuteWithAdapter(host, aeo, Str(h), Some(executor), Str(emittedAt), hasContinuity) ==
      Dispatch(host, aeo, Own(aeo, "validation"), h, executor, emittedAt, hasContinuity)
  {
    hide CanonicalText, Blank, Own, WellFormed, Dispatch, HasExactShape, ComputeAdapterAEOHash, Clashes, PrefixedHash;
    OwnIsOfObject(aeo, "validation");
    HashIsNonBlank(host.hash, aeo);
    AdapterHashIs(host.hash, aeo);
    OwnIsWellFormed(aeo, "validation");
  }

  lemma OwnIsOfObject(v: Js, key: string)
    ensures Own(v, key) != Undefined ==> v.Obj?
  {}

  lemma HashIsNonBlank(hash: string -> string, aeo: Js)
    ensures !Blank(PrefixedHash(hash, aeo))
  {
    PrefixedIsNonBlank(hash(CanonicalText(aeo)));
  }

  /** A run without a lineage key turns on the evidence alone. */
  lemma DispatchWithoutLineage(host: Host, aeo: Js, validation: Js, h: string, executor: Executor, emittedAt: string,
                               hasContinuity: bool, system: string)
    requires WellFormed(aeo) && WellFormed(validation) && forall a, x, t :: WellFormed(executor.execute(a, x, t))
    requires !Clashes(validation) && Own(validation, "lineage_key") == Undefined
    requires Own(aeo, "target").Obj? && Own(Own(aeo, "target"), "system") == Str(system)
    ensures var evidence := executor.execute(aeo, h, emittedAt);
      match Dispatch(host, aeo, validation, h, executor, emittedAt, hasContinuity)
      case Receipt(_, body) =>
        EvidenceComplete(evidence, system) && !Clashes(evidence) && body == ReceiptBody(host.hash, h, evidence, validation, emittedAt, [])
      case NullResult(reason) => !EvidenceComplete(evidence, system) && EvidenceFault(reason)
      case Thrown => EvidenceComplete(evidence, system) && Clashes(evidence)
  {
    hide *;
    var evidence := executor.execute(aeo, h, emittedAt);
    NoLineage(host, validation, h, hasContinuity);
    DispatchPasses(host, aeo, validation, h, executor, emittedAt, hasContinuity);
    CanonicalizeIsPrint(evidence);
    RefusalIs(evidence, Own(aeo, "target"), system);
    if !Clashes(evidence) {
      BodyIsPrinted(host, h, evidence, validation, emittedAt, hasContinuity, []);
    }
  }

  lemma DispatchPasses(host: Host, aeo: Js, validation: Js, h: string, executor: Executor, emittedAt: string, hasContinuity: bool)
    requires WellFormed(aeo) && WellFormed(validation) && forall a, x, t :: WellFormed(executor.execute(a, x, t))
    requires ContinuityGate(host, validation, h, hasContinuity) == Pass([])
    ensures var evidence := executor.execute(aeo, h, emittedAt);
      var refusal := EvidenceRefusal(evidence, Own(aeo, "target"));
      var body := ReceiptBody(host.hash, h, evidence, validation, emittedAt, []);
      && WellFormed(evidence) && WellFormed(body)
      && Dispatch(host, aeo, validation, h, executor, emittedAt, hasContinuity) ==
         if refusal.Some? then refusal.value
         else if Canonicalize(evidence) == None || Canonicalize(body) == None then Thrown
         else Receipt("sha256:" + host.hash(Canonicalize(body).value), body)
  {
    BodyIsWellFormed(host, h, executor.execute(aeo, h, emittedAt), validation, emittedAt, hasContinuity, []);
    hide WellFormed, Canonicalize, ReceiptBody, EvidenceRefusal, ContinuityGate, Own;
  }

  lemma RefusalIs(evidence: Js, target: Js, system: string)
    requires target.Obj? && Own(target, "system") == Str(system)
    ensures var refusal := EvidenceRefusal(evidence, target);
      if refusal == None then EvidenceComplete(evidence, system)
      else refusal.value.NullResult? && EvidenceFault(refusal.value.reason) && !EvidenceComplete(evidence, system)
  {
    hide Own, Truthy, NonBlankString;
  }

  /** The parts of the body come from values that were printed before, so the body does not clash either. */
  lemma BodyIsPrinted(host: Host, h: string, evidence: Js, validation: Js, emittedAt: string, hasContinuity: bool, binding: seq<Prop>)
    requires WellFormed(evidence) && WellFormed(validation) && !Clashes(evidence) && !Clashes(validation)
    requires ContinuityGate(host, validation, h, hasContinuity) == Pass(binding)
    ensures var body := ReceiptBody(host.hash, h, evidence, validation, emittedAt, binding);
      WellFormed(body) && !Clashes(body) && Canonicalize(body) == Some(CanonicalText(body))
  {
    hide *;
    var body := ReceiptBody(host.hash, h, evidence, validation, emittedAt, binding);
    BodyIsWellFormed(host, h, evidence, validation, emittedAt, hasContinuity, binding);
    BindingIs(host, validation, h, hasContinuity, binding);
    BodyValues(host.hash, h, evidence, validation, emittedAt, binding);
    forall i | 0 <= i < |body.props| ensures body.props[i].key != PROTO && !Clashes(body.props[i].value) {
      PartDoesNotClash(body.props[i].value, evidence, validation);
    }
    NothingClashes(body.props);
    CanonicalizeIsPrint(body);
  }

  lemma PartDoesNotClash(v: Js, evidence: Js, validation: Js)
    requires !Clashes(evidence) && !Clashes(validation)
    requires FromElsewhere(v, evidence, validation) || Leaf(v)
    ensures !Clashes(v)
  {
    OwnDoesNotClash(evidence, "adapter_surface");
    OwnDoesNotClash(validation, "decision_id");
    OwnDoesNotClash(validation, "replay_nonce");
    hide Own;
  }

  lemma NothingClashes(props: seq<Prop>)
    requires forall i :: 0 <= i < |props| ==> props[i].key != PROTO && !Clashes(props[i].value)
    ensures !Clashes(Obj(props))
  {
    hide Locked;
    assert !KeyClash(props);
  }

  lemma PlainKeys(binding: seq<Prop>)
    requires binding == [] || Keys(binding) == BINDING_KEYS
    ensures forall i :: 0 <= i < |binding| ==> binding[i].key != PROTO
  {
    forall i | 0 <= i < |binding| ensures binding[i].key != PROTO {
      assert Keys(binding)[i] == binding[i].key;
    }
  }

  lemma BodyReads(host: Host, h: string, evidence: Js, validation: Js, emittedAt: string, hasContinuity: bool, binding: seq<Prop>)
    requires WellFormed(evidence) && WellFormed(validation)
    requires ContinuityGate(host, validation, h, hasContinuity) == Pass(binding)
    ensures var body := ReceiptBody(host.hash, h, evidence, validation, emittedAt, binding);
      && WellFormed(body)
      && Own(body, "validated_object_hash") == Own(body, "executed_object_hash") == Str(h)
      && Own(body, "execution_evidence_hash") == Str(PrefixedHash(host.hash, evidence))
      && Own(body, "decision_id") == Own(validation, "decision_id") && Own(body, "replay_nonce") == Own(validation, "replay_nonce")
      && Own(body, "adapter_surface") == Own(evidence, "adapter_surface") && Own(body, "emitted_at") == Str(emittedAt)
  {
    var body := ReceiptBody(host.hash, h, evidence, validation, emittedAt, binding);
    BodyIsWellFormed(host, h, evidence, validation, emittedAt, hasContinuity, binding);
    BodyIs(host.hash, h, evidence, validation, emittedAt, binding);
    hide *;
    OwnAt(body, 0);
    OwnAt(body, 1);
    OwnAt(body, 2);
    OwnAt(body, 3);
    OwnAt(body, 4);
    OwnAt(body, 5);
    OwnAt(body, 8);
  }

  lemma BodyIs(hash: string -> string, h: string, evidence: Js, validation: Js, emittedAt: string, binding: seq<Prop>)
    ensures var body := ReceiptBody(hash, h, evidence, validation, emittedAt, binding);
      && body.Obj? && |body.props| >= 9
      && body.props[0] == Prop("validated_object_hash", Str(h)) && body.props[1] == Prop("executed_object_hash", Str(h))
      && body.props[2] == Prop("execution_evidence_hash", Str(PrefixedHash(hash, evidence)))
      && body.props[3] == Prop("adapter_surface", Own(evidence, "adapter_surface"))
      && body.props[4] == Prop("decision_id", Own(validation, "decision_id"))
      && body.props[5] == Prop("replay_nonce", Own(validation, "replay_nonce"))
      && body.props[8] == Prop("emitted_at", Str(emittedAt))
  {
    hide Own, CanonicalText, WellFormed;
  }

  lemma OwnAt(v: Js, i: nat)
    requires WellFormed(v) && v.Obj? && i < |v.props|
    ensures Own(v, v.props[i].key) == v.props[i].value
  {
    LookupAt(v.props, i);
  }

  function SealedAEO(hash: string -> string, f: FilesystemAEO): (aeo: Js)
    ensures WellFormed(aeo) && NoPrototype(aeo)
  {
    CanonicalAEO(f, Str(hash(CanonicalText(CanonicalAEO(f, NullValue)))))
  }

  /** A compiled AEO is executed under its own hash exactly when the adapter's evidence is complete and can be
      printed; the receipt then binds that hash as both validated and executed, and only the evidence can be at
      fault: by what it lacks, or by a clash that makes `canonicalize` throw. */
  lemma CompiledIsExecuted(host: Host, f: FilesystemAEO, executor: Executor, emittedAt: string, hasContinuity: bool)
    requires forall a, h, t :: WellFormed(executor.execute(a, h, t))
    requires !Blank(f.authorityLineageHash) && !Blank(emittedAt)
    ensures var aeo := SealedAEO(host.hash, f);
      var h := PrefixedHash(host.hash, aeo);
      var evidence := executor.execute(aeo, h, emittedAt);
      && ComputeAdapterAEOHash(host.hash, aeo) == Some(h)
      && CompileCanonicalAEOFromFilesystem(host.hash, Some(f)) == Compiled(aeo, h, AeoValidation.Context(f.authorityLineageHash, Bounds(f)))
      && match ExecuteWithAdapter(host, aeo, Str(h), Some(executor), Str(emittedAt), hasContinuity)
         case Receipt(_, body) =>
           && EvidenceComplete(evidence, f.system) && !Clashes(evidence)
           && body == ReceiptBody(host.hash, h, evidence, Own(aeo, "validation"), emittedAt, [])
           && Own(body, "validated_object_hash") == Own(body, "executed_object_hash") == Str(h)
           && Own(body, "decision_id") == Str(f.decisionId) && Own(body, "replay_nonce") == Str(f.replayNonce)
           && Own(body, "adapter_surface") == Str(f.system)
         case NullResult(reason) => !EvidenceComplete(evidence, f.system) && EvidenceFault(reason)
         case Thrown => EvidenceComplete(evidence, f.system) && Clashes(evidence)
  {
    var objectHash := host.hash(CanonicalText(CanonicalAEO(f, NullValue)));
    var aeo := SealedAEO(host.hash, f);
    var h := PrefixedHash(host.hash, aeo);
    PrintsCanonical(f, Str(objectHash));
    OwnDoesNotClash(aeo, "validation");
    AdapterHashIs(host.hash, aeo);
    CompiledAs(host.hash, f);
    CanonicalShape(f, Str(objectHash));
    CanonicalReads(f, objectHash);
    SectionsAreObjects(f, Str(objectHash));
    assert aeo == CanonicalAEO(f, Str(objectHash));
    hide *;
    var validation := ValidationSection(f, Str(objectHash));
    ReachesDispatch(host, aeo, executor, emittedAt, hasContinuity);
    DispatchWithoutLineage(host, aeo, validation, h, executor, emittedAt, hasContinuity, f.system);
    NoLineage(host, validation, h, hasContinuity);
    BodyReads(host, h, executor.execute(aeo, h, emittedAt), validation, emittedAt, hasContinuity, []);
    CompleteSurface(executor.execute(aeo, h, emittedAt), f.system);
  }

  lemma CompiledAs(hash: string -> string, f: FilesystemAEO)
    requires !Blank(f.authorityLineageHash)
    ensures var aeo := SealedAEO(hash, f);
      CompileCanonicalAEOFromFilesystem(hash, Some(f)) ==
      Compiled(aeo, PrefixedHash(hash, aeo), AeoValidation.Context(f.authorityLineageHash, Bounds(f)))
  {
    hide CanonicalText, CanonicalAEO, Bounds, Blank;
  }

  lemma NoLineage(host: Host, validation: Js, h: string, hasContinuity: bool)
    requires Own(validation, "lineage_key") == Undefined
    ensures ContinuityGate(host, validation, h, hasContinuity) == Pass([])
  {}

  lemma CompleteSurface(evidence: Js, system: string)
    ensures EvidenceComplete(evidence, system) ==> Own(evidence, "adapter_surface") == Str(system)
  {}

  /** Whatever object reaches the adapter under the hash of a validated one, a receipt means it carries the
      same data, unless the two texts collide; and the receipt comes from an exact shape. */
  lemma ReceiptMeansSameObject(host: Host, validated: Js, h: string, presented: Js, executor: Option<Executor>, emittedAt: Js,
                               hasContinuity: bool)
    requires WellFormed(validated) && WellFormed(presented) && ComputeAdapterAEOHash(host.hash, validated) == Some(h)
    requires executor.Some? ==> forall a, x, t :: WellFormed(executor.value.execute(a, x, t))
    ensures ExecuteWithAdapter(host, presented, Str(h), executor, emittedAt, hasContinuity).Receipt? ==>
      HasExactShape(presented) && (NormalForm(presented) == NormalForm(validated) || Collision(host.hash, validated, presented))
  {
    hide *;
    ReceiptNeedsHash(host, presented, Str(h), executor, emittedAt, hasContinuity);
    AdapterHashIs(host.hash, validated);
    AdapterHashIs(host.hash, presented);
    if PrefixedHash(host.hash, presented) == h {
      PrefixedHashDecides(host.hash, validated, presented);
    }
  }

  lemma ReceiptNeedsHash(host: Host, aeo: Js, validatedHash: Js, executor: Option<Executor>, emittedAt: Js, hasContinuity: bool)
    requires WellFormed(aeo) && (executor.Some? ==> forall a, h, t :: WellFormed(executor.value.execute(a, h, t)))
    ensures ExecuteWithAdapter(host, aeo, validatedHash, executor, emittedAt, hasContinuity).Receipt? ==>
      HasExactShape(aeo) && validatedHash.Str? && ComputeAdapterAEOHash(host.hash, aeo) == Some(validatedHash.s)
  {
    hide Dispatch, ComputeAdapterAEOHash, HasExactShape, Blank, Own, WellFormed;
  }

  /** A prefixed hash decides the normal form, unless the two texts collide. */
  lemma PrefixedHashDecides(hash: string -> string, v: Js, w: Js)
    requires WellFormed(v) && WellFormed(w) && PrefixedHash(hash, v) == PrefixedHash(hash, w)
    ensures NormalForm(v) == NormalForm(w) || Collision(hash, v, w)
  {
    TextDecidesForm(v, w);
    assert PrefixedHash(hash, v)[7..] == hash(CanonicalText(v));
    assert PrefixedHash(hash, w)[7..] == hash(CanonicalText(w));
  }

  // ----- What a receipt id stands for -----

  /** One call of `executeWithAdapter`. */
  datatype Attempt = Attempt(host: Host, aeo: Js, validatedHash: Js, executor: Option<Executor>, emittedAt: Js, hasContinuity: bool)

  ghost predicate WellTyped(c: Attempt) {
    && WellFormed(c.aeo)
    && (c.executor.Some? ==> forall a, h, t :: WellFormed(c.executor.value.execute(a, h, t)))
  }

  function Run(c: Attempt): Outcome
    requires WellTyped(c)
  {
    ExecuteWithAdapter(c.host, c.aeo, c.validatedHash, c.executor, c.emittedAt, c.hasContinuity)
  }

  /** What the adapter returned in an attempt that got as far. */
  function EvidenceOf(c: Attempt): Js
    requires c.executor.Some? && c.emittedAt.Str?
  {
    c.executor.value.execute(c.aeo, PrefixedHash(c.host.hash, c.aeo), c.emittedAt.s)
  }

  /** The receipt of an attempt records its AEO, its evidence and its time, and its id is the hash of that record;
      all three could be printed. */
  ghost predicate Records(c: Attempt, id: string, body: Js) {
    && WellTyped(c) && c.executor.Some? && c.emittedAt.Str? && WellFormed(body)
    && !Clashes(c.aeo) && !Clashes(EvidenceOf(c)) && !Clashes(body)
    && id == PrefixedHash(c.host.hash, body)
    && Own(body, "validated_object_hash") == Str(PrefixedHash(c.host.hash, c.aeo))
    && Own(body, "execution_evidence_hash") == Str(PrefixedHash(c.host.hash, EvidenceOf(c)))
    && Own(body, "emitted_at") == c.emittedAt
  }

  lemma ReceiptRecords(c: Attempt)
    requires WellTyped(c)
    ensures Run(c).Receipt? ==> Records(c, Run(c).id, Run(c).body)
  {
    if Run(c).Receipt? {
      AdapterHashIs(c.host.hash, c.aeo);
      OwnIsWellFormed(c.aeo, "validation");
      OwnDoesNotClash(c.aeo, "validation");
      DispatchRecords(c);
      hide Dispatch, PrefixedHash, ComputeAdapterAEOHash, HasExactShape, Blank, Own, WellFormed;
    }
  }

  /** What passed the checks before the executor. */
  lemma DispatchRecords(c: Attempt)
    requires WellTyped(c) && !Clashes(c.aeo) && c.executor.Some? && c.emittedAt.Str?
    requires WellFormed(Own(c.aeo, "validation")) && !Clashes(Own(c.aeo, "validation"))
    ensures var h := PrefixedHash(c.host.hash, c.aeo);
      var outcome := Dispatch(c.host, c.aeo, Own(c.aeo, "validation"), h, c.executor.value, c.emittedAt.s, c.hasContinuity);
      outcome.Receipt? ==> Records(c, outcome.id, outcome.body)
  {
    hide CanonicalText, Canonicalize, Clashes, Own, WellFormed, ReceiptBody, ContinuityGate, EvidenceRefusal;
    var h, validation := PrefixedHash(c.host.hash, c.aeo), Own(c.aeo, "validation");
    CanonicalizeIsPrint(EvidenceOf(c));
    var gate := ContinuityGate(c.host, validation, h, c.hasContinuity);
    RefusalIsNoReceipt(EvidenceOf(c), Own(c.aeo, "target"));
    if gate.Pass? {
      BodyReads(c.host, h, EvidenceOf(c), validation, c.emittedAt.s, c.hasContinuity, gate.binding);
      if !Clashes(EvidenceOf(c)) {
        BodyIsPrinted(c.host, h, EvidenceOf(c), validation, c.emittedAt.s, c.hasContinuity, gate.binding);
      }
    }
  }

  lemma RefusalIsNoReceipt(evidence: Js, target: Js)
    ensures EvidenceRefusal(evidence, target).Some? ==> !EvidenceRefusal(evidence, target).value.Receipt?
  {
    hide Own, Truthy, NonBlankString;
  }

  /** Two runs whose receipts carry one id recorded one thing: the bodies, lineage fields included, the executed
      AEOs and the evidence have one normal form each, and the times are equal, unless two named texts collide. */
  lemma ReceiptIdBindsRun(first: Attempt, second: Attempt)
    requires WellTyped(first) && WellTyped(second) && first.host.hash == second.host.hash
    ensures Run(first).Receipt? && Run(second).Receipt? && Run(first).id == Run(second).id ==>
      && Records(first, Run(first).id, Run(first).body) && Records(second, Run(second).id, Run(second).body)
      && var hash := first.host.hash;
         Collision(hash, Run(first).body, Run(second).body) || (
         && NormalForm(Run(first).body) == NormalForm(Run(second).body)
         && first.emittedAt == second.emittedAt
         && (NormalForm(first.aeo) == NormalForm(second.aeo) || Collision(hash, first.aeo, second.aeo))
         && (NormalForm(EvidenceOf(first)) == NormalForm(EvidenceOf(second)) || Collision(hash, EvidenceOf(first), EvidenceOf(second))))
  {
    ReceiptRecords(first);
    ReceiptRecords(second);
    if Run(first).Receipt? && Run(second).Receipt? && Run(first).id == Run(second).id {
      var a, b := Run(first).body, Run(second).body;
      hide Run, CanonicalText, NormalForm, WellFormed, Own, EvidenceOf, Collision;
      PrefixedHashDecides(first.host.hash, a, b);
      if NormalForm(a) == NormalForm(b) {
        SameString(a, b, "validated_object_hash");
        SameString(a, b, "execution_evidence_hash");
        SameString(a, b, "emitted_at");
        PrefixedHashDecides(first.host.hash, first.aeo, second.aeo);
        PrefixedHashDecides(first.host.hash, EvidenceOf(first), EvidenceOf(second));
      }
    }
  }

  lemma SameString(a: Js, b: Js, key: string)
    requires WellFormed(a) && WellFormed(b) && NormalForm(a) == NormalForm(b) && key != PROTO
    requires Own(a, key).Str? && Own(b, key).Str?
    ensures Own(a, key) == Own(b, key)
  {
    NormalOwn(a, key);
    NormalOwn(b, key);
    hide NormalForm, Own;
  }
}
