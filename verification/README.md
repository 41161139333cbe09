# ContinuityOS verification

A Dafny model of the parts of ContinuityOS that decide something: canonical bytes and their hash,
exact-object binding from compilation to execution, the lineage and revocation engines, the
cross-registry reconciliation, causal clocks and the replay registry. `dafny verify dfyconfig.toml`
checks all of it.

## What the modules hold

| module | what it models |
|---|---|
| `Fips180`, `Hashing`, `JsNumbers`, `JsPadding`, `JsHex`, `JsSha256` | SHA-256 as FIPS 180-4 defines it, and the Rust and JavaScript loops that compute it |
| `JsonNumber`, `Canonicalization`, `CanonicalDecoding` | the number scanner against section 6 of RFC 8259, the canonical printer, and a parser that inverts it |
| `Sorting`, `JsCanonical`, `JsNormalize`, `JsObjects` | JavaScript values and their normal form and text; `normalize` and `canonicalize` step by step, with the prototypes they set and where they throw |
| `AeoValidation`, `AeoPipeline`, `AeoConformance` | AEO validation in Rust; compile, validate and execute in JavaScript; where the two validators agree |
| `ContinuityRegistry`, `Ancestry` | merged registry views, children maps, and parent walks on data that may hold cycles |
| `RevocationPropagation`, `ClosureHardening`, `LineageReconciliation`, `LineageGraph` | the four lineage engines |
| `CrossRegistry`, `CrossRegistrySafety`, `CrossRegistryOrder` | the thirteen-table traversal, what LEGITIMATE guarantees, and independence of record order |
| `CausalClock`, `ReplayRegistry`, `Prelude` | vector clocks, replay admission in both languages, shared sequence facts |

Code that updates state is a method or a class proved against a specification: the hash loops, the
printer with its output buffer, the scanner, the breadth-first searches and parent walks, the
traversal context, the lineage graph and the replay registries. Code made of expressions is
functions with lemmas. Ids are opaque values; a call sees one moment `now`; the hash outside the
SHA-256 modules is any function of the text, and statements that need it not to collide name the
two texts that would have to.

## Where the code and its documentation part

- `src/continuity-core.js:20` says that `validateAeo` mirrors the Rust validator. For one value held by
  both sides, `AeoConformance.DivergenceIsExact` says exactly when one verdict is given without the
  other: a bound is blank in one language alone, or the two sides hash different texts, which happens
  exactly when some object has an own `__proto__` property or keys that UTF-16 units and code points
  sort differently (`AeoConformance.TextsAgree`); on some of the former JavaScript throws. Sealed AEOs
  with both verdicts are `AeoConformance.KeyOrderDivergence`, `AeoConformance.ProtoDivergence`,
  `AeoConformance.CrashDivergence` and `AeoConformance.BlankDivergence`. Where the sides print alike,
  `AeoConformance.ValidatorsAgree` leaves the blank bounds as the one condition.
- CLOSURE_VERIFIED does not exclude parent cycles: `ClosureHardening.VerifiedWithCycle` is one, two
  entries of which one is revoked. The closure reports exactly the cycles of clean entries of at most
  maxDepth (`ClosureHardening.CycleReportIsExact`), and a verified closure holds no other cycle than
  one through a revoked or expired entry, at any length
  (`ClosureHardening.VerifiedCyclesAreBarriered`).
- `sha256Hex` in `src/canonical.js` computes FIPS 180-4 only below 2^31 - 72 bytes, since its padded
  length goes through 32-bit shifts; at and beyond that size it throws (`JsPadding.PadBuffer`,
  `JsSha256.Sha256Hex`).
- `normalize` drops an own `__proto__` property, so two different objects share one canonical text
  (`JsNormalize.ProtoPropertyIsLost`). If the property holds an object, that becomes the prototype of
  the result and locks its keys: where a later key repeats one, `normalize` throws a TypeError
  (`JsNormalize.NormalizeIsExact`), and so do its callers, except where the reconciliation parses text.
- The cross-registry traversal reads such prototypes. Two records that differ in them alone compare
  equal, and then their order shows (`CrossRegistryOrder.OrderIsInvisibleIff`,
  `CrossRegistryOrder.InheritedDecisionsTie`).

## Model

| member | source | states |
|---|---|---|
| Fips180.PadInjective | continuity-core/src/hashing.rs:29-35 | padding loses nothing: two messages below 2^64 bits with one padded form are one message |
| Fips180.BigEndianInjective | continuity-core/src/hashing.rs:29-35 | fixed-width big-endian bytes determine the number |
| Fips180.ZeroCountIsLeast | continuity-core/src/hashing.rs:32-34 | the zero-pushing loop stops at the least count that fills the block to 56 |
| Hashing.PadMessage | continuity-core/src/hashing.rs:29-35 | the growing buffer ends as the section 5.1.1 padding of the input |
| Hashing.FillSchedule | continuity-core/src/hashing.rs:39-56 | the array holds the section 6.2.2 message schedule, each wrapping sum equal to one sum modulo 2^32 |
| Hashing.RunRounds | continuity-core/src/hashing.rs:57-78 | the eight working variables after 64 rounds are those of section 6.2.2 |
| Hashing.CompressChunk | continuity-core/src/hashing.rs:38-87 | one block updates the hash array in place to the next intermediate hash value |
| Hashing.Sha256 | continuity-core/src/hashing.rs:12-93 | the byte array returned is the FIPS 180-4 digest of the input |
| Hashing.Sha256Hex | continuity-core/src/hashing.rs:7-10 | the text is the lower-case hexadecimal digest, 64 characters |
| JsNumbers.RotateAgrees | src/canonical.js:26-28 | signed shifts and ORs carry the same 32 bits as the word rotation |
| JsNumbers.SigmaAgrees | src/canonical.js:64-65 | the sigma expressions, signed or not, carry the FIPS words |
| JsNumbers.ChooseAgrees | src/canonical.js:72 | the choice expression with `~` carries Ch |
| JsNumbers.MajorityAgrees | src/canonical.js:75 | the majority expression carries Maj |
| JsNumbers.SumAgrees | src/canonical.js:66-76 | sums of signed terms, reduced once by `>>> 0`, equal the sum of the words modulo 2^32 |
| JsPadding.PaddedLength | src/canonical.js:37 | the 32-bit shifts give the right padded length below 2^31 - 72 bytes, and a negative or too small one otherwise |
| JsPadding.PadBuffer | src/canonical.js:35-46 | the buffer is the section 5.1.1 padding; it exists exactly below 2^31 - 72 bytes |
| JsSha256.NextWord | src/canonical.js:64-66 | one schedule step: the double sums stay exact and reduce to the FIPS word |
| JsSha256.Temporaries | src/canonical.js:71-76 | both temporaries of a round: exact sums, equal to the FIPS words |
| JsSha256.RunRounds | src/canonical.js:69-85 | 64 rounds of mixed arithmetic equal the 64 rounds of section 6.2.2 |
| JsSha256.CompressBlock | src/canonical.js:61-95 | one block updates `h` in place to the next intermediate hash value |
| JsHex.PadStartIsHex | src/canonical.js:97 | `toString(16).padStart(8, "0")` is the fixed-width hexadecimal text |
| JsHex.HexByBytes | src/canonical.js:97 | hexadecimal by words is hexadecimal by bytes, so both languages print one text |
| JsSha256.Sha256Hex | src/canonical.js:34-98 | throws exactly from 2^31 - 72 bytes on, and otherwise returns the text the Rust code returns |
| JsonNumber.IsValidJsonNumber | continuity-core/src/canonicalization.rs:131-177 | accepts exactly the RFC 8259 number grammar, and reads no index out of bounds |
| JsonNumber.ScanInt | continuity-core/src/canonicalization.rs:143-152 | every grammatical split has its integer part where the scanner stops |
| JsonNumber.ScanFrac | continuity-core/src/canonicalization.rs:153-162 | every grammatical split has its fraction where the scanner stops |
| JsonNumber.ScanExponent | continuity-core/src/canonicalization.rs:163-176 | what remains is accepted exactly when it is an optional exponent |
| Canonicalization.CanonicalString | continuity-core/src/canonicalization.rs:66-70 | Ok exactly when every nested number is valid, and then the canonical text |
| Canonicalization.WriteCanonical | continuity-core/src/canonicalization.rs:76-111 | appends the canonical text of the value to the buffer, or reports a malformed number inside it |
| Canonicalization.WriteJsonString | continuity-core/src/canonicalization.rs:113-129 | appends the quoted string with the seven short escapes and `\u00xx` for other controls |
| CanonicalDecoding.CharRoundTrip | continuity-core/src/canonicalization.rs:115-126 | every escape is read back as its character, and none starts with a quote |
| CanonicalDecoding.StringRoundTrip | continuity-core/src/canonicalization.rs:113-129 | a printed string is read back exactly up to its closing quote |
| CanonicalDecoding.NumberRoundTrip | continuity-core/src/canonicalization.rs:80-85 | a printed number is read back whole before any delimiter |
| CanonicalDecoding.RoundTrip | continuity-core/src/canonicalization.rs:76-111 | parsing a canonical text followed by the end or a delimiter gives the value and the rest |
| CanonicalDecoding.TextInjective | continuity-core/src/canonicalization.rs:66-111 | two values with one canonical text are one value |
| JsNormalize.NormalizeIsExact | src/canonical.js:5-17 | `normalize` throws exactly when some own `__proto__` object holds, itself or through its own `__proto__`, a later key of the object around it; otherwise it returns the sorted properties and the prototypes so set |
| JsNormalize.NormalizeKeepsData | src/canonical.js:5-17 | what `normalize` returns keeps the JSON data of the value, but for `__proto__` properties |
| JsNormalize.DataDeterminesNormalForm | src/canonical.js:5-17 | values with the same data that both normalize get the same own properties in the same order |
| JsNormalize.NormalizeIdempotent | src/canonical.js:5-17 | a second call never throws and changes no own property; it returns the same value exactly if no prototype was set |
| JsNormalize.PlainForm | src/canonical.js:11-14 | the result carries no prototype of its own exactly for values in which every own `__proto__` is a string, number or boolean |
| JsNormalize.CanonicalizeIsPrint | src/canonical.js:19-24 | `canonicalize` throws exactly where `normalize` does, and otherwise, normalizing again at every level, prints the data once |
| JsNormalize.TextDecidesNormalForm | src/canonical.js:5-24 | two values that are printed have one canonical text exactly when they have one normal form |
| JsNormalize.InsertionOrderIsInvisible | src/canonical.js:11-22 | the insertion order of keys, at any depth, decides neither the text nor whether there is one |
| JsNormalize.ProtoPropertyIsLost | src/canonical.js:11-14 | an own `__proto__` string is lost: two different objects share one text |
| JsNormalize.ProtoObjectThrows | src/canonical.js:11-14 | on `{"__proto__":{"z":null},"z":null}` with own properties `canonicalize` throws |
| AeoValidation.PutHolds | continuity-core/src/aeo_validation.rs:88-97 | inserting into a BTreeMap changes one lookup and keeps the key order |
| AeoValidation.GetDetermines | continuity-core/src/aeo_validation.rs:38-44 | two BTreeMaps with the same lookups are the same value |
| AeoValidation.ExtractScopeBounds | continuity-core/src/aeo_validation.rs:62-72 | bounds are extracted exactly from a non-empty array of strings none of which is blank, and they are its strings |
| AeoValidation.ValidateAeo | continuity-core/src/aeo_validation.rs:14-34 | Valid exactly when shape, authorities, scope and stored hash are all accepted |
| AeoValidation.WithMemberHolds | continuity-core/src/aeo_validation.rs:88-97 | clearing or writing the stored hash touches that field alone |
| AeoValidation.HashedObjectDetermines | continuity-core/src/aeo_validation.rs:74-97 | the hashed object together with the stored hash is the whole object |
| AeoValidation.ExactObjectBinding | continuity-core/src/aeo_validation.rs:14-97 | two accepted objects with one stored hash are one object, so a change that keeps the hash returns Null, unless the two texts collide |
| AeoValidation.SealingKeepsHashedObject | continuity-core/src/aeo_validation.rs:88-97 | the hashed object does not depend on the hash that is stored |
| AeoValidation.OneHashIsAccepted | continuity-core/src/aeo_validation.rs:74-86 | for a well-shaped object exactly one stored hash is accepted: that of the object with the hash cleared |
| AeoPipeline.CompiledIsValid | src/lib/compile-canonical-aeo.ts:76-156 | compilation fails exactly for a missing AEO or a blank lineage hash, and its result validates under the context and has the hash it returns |
| AeoPipeline.CanonicalObjectForHash | src/continuity-core.js:12-18 | what the validator hashes is the object the compiler hashed |
| AeoPipeline.CloneOfJson | src/continuity-core.js:13 | the JSON clone of a value that JSON can carry is the value |
| AeoPipeline.ObjectForHashIsWellFormed | src/continuity-core.js:12-18 | cloning and clearing the hash keep the keys of every object distinct and its numbers valid |
| AeoPipeline.CompiledIsExecuted | src/lib/adapter-contract.ts:230-338 | a compiled AEO under its own hash gets a receipt exactly when the evidence is complete and can be canonicalized, and a throw exactly when it is complete and cannot; never a shape or hash refusal; the receipt carries the one hash twice and the AEO's decision, nonce and system |
| AeoPipeline.ReceiptMeansSameObject | src/lib/adapter-contract.ts:255-264 | any object that gets a receipt under a validated hash has the validated object's normal form, unless the texts collide |
| AeoPipeline.ReceiptRecords | src/lib/adapter-contract.ts:308-337 | a receipt records the hash of the executed AEO, the hash of the adapter's evidence and the time, its id is the hash of that record, and all three could be canonicalized |
| AeoPipeline.ReceiptIdBindsRun | src/lib/adapter-contract.ts:230-338 | two runs whose receipts carry one id have the same receipt body, lineage fields included, the same AEO, evidence and time up to key order, unless two named texts collide |
| AeoConformance.RustIsMap | continuity-core/src/canonicalization.rs:14-16 | the Rust value of a JavaScript value is built of BTreeMaps throughout |
| AeoConformance.OrdersAgree | src/canonical.js:11-22 | UTF-16 order and code point order are one order on keys in the basic plane |
| AeoConformance.OneTextIffAlike | src/canonical.js:19-24 | JavaScript prints the Rust text exactly for values without own `__proto__` properties whose keys both sort alike, in every object |
| AeoConformance.ShapesAgree | src/continuity-core.js:25-29 | sorted-key comparison and set comparison accept the same shapes |
| AeoConformance.RustBounds | src/continuity-core.js:37-43 | the Rust scope check is the JavaScript one but for what counts as blank |
| AeoConformance.AssignIsPut | src/continuity-core.js:14-16 | assigning a property and inserting into the map give the same data |
| AeoConformance.HashedObjectsAgree | src/continuity-core.js:11-18 | both validators clear the stored hash of the same data |
| AeoConformance.TextsAgree | src/continuity-core.js:45-48 | the two sides hash one text exactly for AEOs whose objects print alike |
| AeoConformance.DivergenceIsExact | src/continuity-core.js:20-51 | for a value that JSON can carry one side accepts alone exactly when every common check passes, the stored hash is its own, no bound is blank to it, JavaScript does not throw if it is the one, and the other side finds a blank bound or another text; unless the two texts collide; and `validateAeo` throws exactly for an AEO that passes up to its 64-character hash and cannot be canonicalized |
| AeoConformance.ValidatorsAgree | src/continuity-core.js:20-51 | where both sides print alike, the verdicts are one if and only if no bound of an otherwise accepted AEO is blank in one language alone |
| AeoConformance.KeyOrderDivergence | src/continuity-core.js:45-48 | a sealed AEO with two keys that sort differently: VALID in JavaScript, Null in Rust unless the texts collide |
| AeoConformance.ProtoDivergence | src/continuity-core.js:45-48 | a sealed AEO with an own `__proto__` string: VALID in JavaScript, Null in Rust unless the texts collide |
| AeoConformance.CrashDivergence | src/continuity-core.js:45-48 | a sealed AEO with an own `__proto__` object and a later key that it holds too: Valid in Rust, and `validateAeo` throws |
| AeoConformance.BlankDivergence | src/continuity-core.js:39 | a sealed AEO with the bound U+FEFF is Valid in Rust and NULL in JavaScript, one with U+0085 the other way round |
| ContinuityRegistry.MergeViews | src/recursive-revocation-propagation.ts:1049-1057 | the index holds, for each id, the last entry with that id over all views |
| ContinuityRegistry.BuildChildrenMap | src/recursive-revocation-propagation.ts:300-311 | each child list holds exactly the entries naming that parent, once each |
| ContinuityRegistry.TopHash | src/distributed-continuity-lineage-reconciliation.ts:370-383 | the top hash has the largest count, and that count is all views exactly when they carry one hash |
| Ancestry.UpRepeats | src/recursive-revocation-propagation.ts:517-538 | once a parent walk repeats, every later step repeats an earlier one |
| RevocationPropagation.TraverseDescendantRevocation | src/recursive-revocation-propagation.ts:333-392 | ends on any parent map; lists without repeats exactly the ids within maxDepth below the root; CYCLE_DETECTED exactly when the root lies on a cycle of length at most maxDepth + 1; otherwise DEPTH_EXCEEDED exactly when a descendant lies deeper; the depth reached is the greatest distance listed |
| RevocationPropagation.CycleIsExact | src/recursive-revocation-propagation.ts:353-357 | only the root can be met twice, and it is exactly on a cycle within the bound |
| RevocationPropagation.TooDeepIsExact | src/recursive-revocation-propagation.ts:358-361 | a child refused for depth exists exactly when some id first meets the root beyond maxDepth steps |
| RevocationPropagation.VerifyRevocationPropagationCompleteness | src/recursive-revocation-propagation.ts:396-419 | the incomplete ids are exactly the live entries listed below a recorded root |
| RevocationPropagation.EnforceStaleLineageCollapse | src/recursive-revocation-propagation.ts:423-473 | one collapse for each barriered entry with live descendants at any depth, listing exactly those |
| RevocationPropagation.AuditRevocationAncestry | src/recursive-revocation-propagation.ts:507-556 | names the nearest barriered proper ancestor within maxDepth steps, with the chain up to it, or there is none |
| RevocationPropagation.AuditAgreesWithCollapse | src/recursive-revocation-propagation.ts:423-556 | an audit of a live entry that names r appears in the collapse of r; an entry in a collapse within maxDepth has a revoked ancestor in its audit |
| RevocationPropagation.PropagateRevocationLineage | src/recursive-revocation-propagation.ts:1047-1236 | the verdict, in the source's order of precedence, stated over the parent map alone |
| RevocationPropagation.CompleteMeansRevoked | src/recursive-revocation-propagation.ts:11-13 | after PROPAGATION_COMPLETE no live entry lies below a barriered entry or a recorded root, at any depth |
| ClosureHardening.TraverseContinuityAncestry | src/continuity-lineage-closure-hardening.ts:277-386 | ends on cyclic data with the failure and the chain that the first obstacle on the way up determines |
| ClosureHardening.WalkIsDetermined | src/continuity-lineage-closure-hardening.ts:277-386 | what is promised of the walk leaves one possible result |
| ClosureHardening.CollectSubtree | src/continuity-lineage-closure-hardening.ts:239-255 | lists exactly the ids at or below the start, once each |
| ClosureHardening.CollapseOrphanedSubtrees | src/continuity-lineage-closure-hardening.ts:420-458 | one subtree for each entry with a missing parent, with exactly its descendants |
| ClosureHardening.SubtreesAreDisjoint | src/continuity-lineage-closure-hardening.ts:420-458 | no id lies in two collapsed subtrees |
| ClosureHardening.SubtreesCoverLeavers | src/continuity-lineage-closure-hardening.ts:420-458 | their union is exactly the entries whose parent walk leaves the index |
| ClosureHardening.DetachedMeansLeaves | src/continuity-lineage-closure-hardening.ts:324-367 | a detached entry leaves the index; one that leaves is detached unless its walk first meets a revoked or expired entry or grows too long |
| ClosureHardening.AuditLineageEquivalence | src/continuity-lineage-closure-hardening.ts:462-481 | equivalent exactly when no id carries two hashes across views |
| ClosureHardening.VerifyClosure | src/continuity-lineage-closure-hardening.ts:836-919 | the verdict, in the source's order of precedence, stated over the merged index |
| ClosureHardening.VerifiedWalks | src/continuity-lineage-closure-hardening.ts:897-919 | in a verified closure every parent resolves, and from every entry the walk stops at a root or at a revoked or expired entry within maxDepth entries, past clean entries without repeats |
| ClosureHardening.WalkExists | src/continuity-lineage-closure-hardening.ts:277-386 | every id has a walk as specified |
| ClosureHardening.CycleReportIsExact | src/continuity-lineage-closure-hardening.ts:286-300 | a cycle is reported if and only if some cycle of at most maxDepth entries has no revoked or expired one |
| ClosureHardening.VerifiedCyclesAreBarriered | src/continuity-lineage-closure-hardening.ts:897-919 | each parent cycle left in a verified closure, of any length, passes through a revoked or expired entry |
| ClosureHardening.VerifiedWithCycle | src/continuity-lineage-closure-hardening.ts:906-919 | a registry with a parent cycle whose closure is verified |
| LineageReconciliation.DetectOrphanedContinuityLineage | src/distributed-continuity-lineage-reconciliation.ts:241-257 | lists exactly the entries whose parent is in no view |
| LineageReconciliation.TraverseAncestry | src/distributed-continuity-lineage-reconciliation.ts:268-291 | ok exactly when the walk ends within maxDepth entries; a cycle exactly when an id repeats within them; depth exceeded otherwise |
| LineageReconciliation.VerifyRevocationPropagationCompleteness | src/distributed-continuity-lineage-reconciliation.ts:327-347 | the missing ids are exactly the ACTIVE entries with a covered parent that are not covered themselves |
| LineageReconciliation.CascadeReaches | src/distributed-continuity-lineage-reconciliation.ts:327-347 | with nothing missing, a cascade covers every entry below its root through ACTIVE entries |
| LineageReconciliation.CheckFreshnessBarrier | src/distributed-continuity-lineage-reconciliation.ts:414-429 | lists exactly the entries that expire within the horizon |
| LineageReconciliation.EligibleReplay | src/distributed-continuity-lineage-reconciliation.ts:295-347 | when no propagation is missing, an eligible replay belongs to a live, unexpired entry that lies below no revocation root through ACTIVE entries, at any depth |
| LineageReconciliation.ReconciledReplay | src/distributed-continuity-lineage-reconciliation.ts:740-760 | the same after LINEAGE_RECONCILED, for any replay that is eligible |
| LineageReconciliation.Reconcile | src/distributed-continuity-lineage-reconciliation.ts:583-760 | the verdict, in the source's order of precedence, stated over the merged index |
| LineageReconciliation.ReconciledIsBoundedForest | src/distributed-continuity-lineage-reconciliation.ts:740-760 | LINEAGE_RECONCILED means a forest: parents resolve, walks end at a root after at most maxAncestryDepth entries without repeats, ranks fall along links, and all views carry one hash |
| LineageGraph.AncestorsAreExact | continuity-core/src/lineage.rs:98-117 | Some exactly when the id and all it reaches are present, and then exactly the ids reachable over one or more links, each once |
| LineageGraph.AncestorsStable | continuity-core/src/lineage.rs:98-117 | adding nodes never changes a Some answer, order included |
| LineageGraph.LineageGraph.Insert | continuity-core/src/lineage.rs:54-60 | the first node with an id stays, a second is AMBIGUOUS and changes nothing, and no Some answer changes |
| LineageGraph.LineageGraph.Classify | continuity-core/src/lineage.rs:62-74 | NULL for an absent id, ORPHAN exactly for a missing parent, never AMBIGUOUS |
| LineageGraph.LineageGraph.ClassifyAsValidation | continuity-core/src/lineage.rs:76-81 | VALID exactly when the id and all its parents are present, NULL otherwise |
| LineageGraph.LineageGraph.Ancestors | continuity-core/src/lineage.rs:98-117 | the queue loop ends on cyclic graphs and returns the stored node of each ancestor id |
| CrossRegistry.Group | runtime/reconciliation/cross-registry-reconciliation-engine.js:246-280 | the Map-filling loops build the grouping of their records by key |
| CrossRegistry.Context.Scan | runtime/reconciliation/cross-registry-reconciliation-engine.js:166-315 | each loop appends the edges and drifts of its records in order, each drift once more as an orphan, and fails exactly where a null record throws |
| CrossRegistry.TraverseCrossRegistries | runtime/reconciliation/cross-registry-reconciliation-engine.js:151-376 | the context loops, run in the source's order, give the snapshot that is specified over the canonical state; an undefined state is the empty object; a null one throws, as does one that cannot be canonicalized |
| CrossRegistrySafety.LegitimateIffClean | runtime/reconciliation/cross-registry-reconciliation-engine.js:317-339 | LEGITIMATE exactly when every edge is resolved, no drift was recorded and the input was in canonical order |
| CrossRegistrySafety.ResolvedIsUnique | runtime/reconciliation/cross-registry-reconciliation-engine.js:146-149 | a resolved join has found the row at the one position that qualifies |
| CrossRegistrySafety.ArraysHoldAll | runtime/reconciliation/cross-registry-reconciliation-engine.js:259-265 | a Map of arrays holds under each key every record that came with it, in order |
| CrossRegistrySafety.SetsHoldEach | runtime/reconciliation/cross-registry-reconciliation-engine.js:272-280 | a Map of Sets holds under each key exactly its values, once each |
| CrossRegistrySafety.ExecutionIdsDiffer | runtime/reconciliation/cross-registry-reconciliation-engine.js:215-231 | in a clean traversal no two executions share an execution id, by the proof join and its way back |
| CrossRegistrySafety.DecisionsDiffer | runtime/reconciliation/cross-registry-reconciliation-engine.js:216-270 | no two executions share a decision, by the authority join and the reuse check |
| CrossRegistrySafety.NoncesDiffer | runtime/reconciliation/cross-registry-reconciliation-engine.js:192-291 | no two executions share a nonce, by the validation, its invocation and the one bound object of the nonce |
| CrossRegistrySafety.ProofsDiffer | runtime/reconciliation/cross-registry-reconciliation-engine.js:246-258 | no two proofs share a decision and an object hash, by the duplicate check |
| CrossRegistrySafety.ExecutionIsBound | runtime/reconciliation/cross-registry-reconciliation-engine.js:166-224 | each execution has one session, one ACTIVE continuity whose hash matches its canonical lineage, one historically valid authority of its session, VALID validation, proof, AEO and EXECUTED invocation, and the AEO's own hash is the hash of all of them |
| CrossRegistrySafety.LegitimateMeansNoReplay | runtime/reconciliation/cross-registry-reconciliation-engine.js:151-339 | a LEGITIMATE snapshot contains no replay: executions differ pairwise in id, decision and nonce, proofs in the object they stand for, and each execution is fully bound |
| CrossRegistryOrder.RecordTies | runtime/reconciliation/cross-registry-reconciliation-engine.js:124-126 | two records compare equal exactly when they have one identity and one normal form |
| CrossRegistryOrder.RecordAntisymmetric | runtime/reconciliation/cross-registry-reconciliation-engine.js:124-126 | records in normal form that compare equal are equal, so the sort leaves no choice |
| CrossRegistryOrder.OrderIsInvisibleIff | runtime/reconciliation/cross-registry-reconciliation-engine.js:124-126 | every permutation of a registry sorts to the same records exactly if no two different records of it compare equal |
| CrossRegistryOrder.PlainRecordsDoNotTie | runtime/reconciliation/cross-registry-reconciliation-engine.js:124-126 | records in which no own `__proto__` sets a prototype never compare equal unless they are |
| CrossRegistryOrder.InheritedDecisionsTie | runtime/reconciliation/cross-registry-reconciliation-engine.js:124-126 | two executions that inherit different decisions from own `__proto__` objects compare equal |
| CrossRegistryOrder.RecordOrderIsInvisible | runtime/reconciliation/cross-registry-reconciliation-engine.js:151-336 | where no two different records compare equal, reordering records, or keys within them, leaves the canonical state, edges, drifts and the hashes of input, conflicts, registries, graphs and bindings unchanged |
| CrossRegistryOrder.PermutedRegistries | runtime/reconciliation/cross-registry-reconciliation-engine.js:124-130 | a permutation inside each registry is such a reordering |
| CrossRegistryOrder.ReorderedRecords | runtime/reconciliation/cross-registry-reconciliation-engine.js:124-130 | so is another order of the keys of each record, at any depth |
| CrossRegistryOrder.CanonicalStateIdempotent | runtime/reconciliation/cross-registry-reconciliation-engine.js:128-130 | canonicalizing the canonical state gives its records back exactly if none of them had set a prototype |
| CrossRegistryOrder.CanonicalStateFlag | runtime/reconciliation/cross-registry-reconciliation-engine.js:153 | absent a collision the canonical state triggers NON_CANONICAL_INPUT_ORDER exactly if losing prototypes puts its records out of order, and never where no record sets one |
| CrossRegistryOrder.CanonicalStateIsInOrder | runtime/reconciliation/cross-registry-reconciliation-engine.js:153-154 | for records that set no prototype the canonical state is legitimate exactly when the original showed no drift and no unresolved edge |
| CrossRegistryOrder.OrderFlagIsExact | runtime/reconciliation/cross-registry-reconciliation-engine.js:153 | absent a collision a traversal reports NON_CANONICAL_INPUT_ORDER exactly for a state that is not its own canonical form |
| CausalClock.VectorClockCompare | src/lib/causal-legitimacy-clock.ts:68-88 | early exit and missing-as-zero decide the pointwise order, whatever the order of the node names |
| CausalClock.BeforeIsStrictOrder | src/lib/causal-legitimacy-clock.ts:57-88 | BEFORE is irreflexive and transitive, and AFTER is its dual |
| CausalClock.CompareCausalClocks | src/lib/causal-legitimacy-clock.ts:57-64 | NULL for a missing clock, AMBIGUOUS for an ambiguous one, the pointwise order otherwise |
| CausalClock.DetectCausalAmbiguity | src/lib/causal-legitimacy-clock.ts:95-107 | ambiguous exactly when the present clocks are not a strict chain of unambiguous ones |
| CausalClock.ClassifyCausalLegitimacyClocks | src/lib/causal-legitimacy-clock.ts:172-180 | NULL for a missing clock, AMBIGUOUS for present clocks that are no strict chain, no override otherwise |
| CausalClock.ComputeHappensBefore | src/lib/causal-legitimacy-clock.ts:113-124 | lists in order the candidates strictly before an unambiguous target |
| CausalClock.ClassifiedIsRanked | src/lib/causal-legitimacy-clock.ts:113-180 | when clocks with distinct ids classify as null, all are present, any two are strictly ordered, and the happens-before lists have the sizes 0 to n-1, each once |
| ReplayRegistry.NothingIsAdmittedTwice | continuity-core/src/replay.rs:36-51 | over every run no nonce and no hash is admitted twice, and both used sets are exactly the admitted values, as many as there were admissions |
| ReplayRegistry.RefusedMeansReused | continuity-core/src/replay.rs:15-51 | a request is refused exactly when an admitted one used its nonce or its hash |
| ReplayRegistry.UsedStaysUsed | continuity-core/src/replay.rs:36-51 | later requests never make a used value unused |
| ReplayRegistry.RustRegistry.Classify | continuity-core/src/replay.rs:15-34 | NULL exactly for a missing input, UNUSED exactly when both values are unused, USED exactly when both are used, AMBIGUOUS otherwise |
| ReplayRegistry.JsRegistry.Classify | src/continuity-core.js:142-149 | the same, with falsy inputs for missing ones |
| ReplayRegistry.RustRegistry.Admit | continuity-core/src/replay.rs:36-51 | admits an unused pair and records both values; otherwise answers NULL and changes nothing |
| ReplayRegistry.JsRegistry.Admit | src/continuity-core.js:153-161 | the same, with falsy inputs answered NULL and unchanged state |
| ReplayRegistry.AdmitBoth | src/continuity-core.js:131-162 | on every run of valid requests the JavaScript registry gives the answers of the Rust one |

## Left out

- IsValidJsonNumber: reads characters instead of UTF-8 bytes, which differ only on text it refuses.
- Hashing.Sha256Hex: takes bytes; the UTF-8 encoding of text, `TextEncoder` and lone surrogates are not modelled, so the canonical text meets the hash as an abstract function of text.
- The strength of SHA-256: nothing claims that it does not collide; statements name the two texts that would have to.
- Hashing.Sha256: asks for less than 2^64 bits, the limit of FIPS 180-4 and of the `u64` length.
- ExactObjectBinding: holds for objects whose stored hashes are equal; it says nothing of two objects that store different hashes.
- ValidatorsAgree: compares the validators on one value; the spelling of numbers, which Rust keeps and a JavaScript parser rewrites, is outside it, as are values that JSON cannot carry.
- ExecuteWithAdapter in AeoPipeline: takes the eligibility classifier and `String(value)` as given functions, treats distinct objects as never identical under `===`, and treats NaN as truthy.
- CompileCanonicalAEOFromFilesystem: takes a well-typed filesystem AEO; the `typeof` check on the lineage hash is then always passed. `Object.freeze` has no counterpart.
- Truthy, Own and Read in JsObjects: getters, proxies, `toJSON`, symbol keys and properties inherited from any prototype but those that `normalize` sets are not modelled.
- Normalize in JsNormalize: functions, symbols and BigInts are one kind of value, and arrays have no holes (which `map` skips and `join` prints as empty).
- MergeViews and the three lineage engines: start from parsed views; input checks, forbidden fields, trimming of ids and `Date.parse` come before, and `now` is fixed during a call.
- TraverseDescendantRevocation, EnforceStaleLineageCollapse and CollapseOrphanedSubtrees: the artifact ids and hashes, and the sorting of the listed ids, are not modelled.
- PropagateRevocationLineage: chronology, drift classes, repair diagnostics, replay and proof checks do not enter the verdict and are left out, as are the drift, repair and freshness reports of `VerifyClosure`.
- Reconcile: observation ids, details and the audit surface are left out.
- LineageGraph: `parents` and `children` are plain reads; the JavaScript twin has no `ancestors` and adds nothing to them.
- TraverseCrossRegistries: `JSON.parse` and `localeCompare` are parameters, the latter a total order that is zero for equal strings alone; an object has the text "[object Object]", so `String` of an object with its own or an inherited `toString`, with an array as prototype, or with `"__proto__": null`, on which it throws, is not modelled.
- CanonicalStateIsInOrder: the verdict on the canonical state is compared for records that set no prototype; others are read differently the second time.
- SnapshotOf: the equivalence, output and snapshot hashes, which hash the verdict and the hashes above, and the report built from them are left out.
- LegitimateMeansNoReplay: speaks of the records within `limit`, and maps executions to proofs without claiming the converse.
- VectorClockCompare: counters are real numbers, so NaN is left out; so are node names such as "toString" or "constructor", for which the source reads an inherited function instead of zero and compares neither way. `computeConcurrentLegitimacy` and the clock hashes are left out.
- AdmitBoth: compares the registries on values the Rust types allow, which are never blank.
- Dashboards, telemetry, projections, governance routing, quarantine and drift tables, file and network access: fixed tables, string joins or side effects, settled by reading them.
