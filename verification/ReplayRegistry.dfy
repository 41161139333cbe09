/** continuity-core/src/replay.rs, the replay registry, and its JavaScript twin in
    src/continuity-core.js: each nonce and each object hash is admitted at most once, ever. */
module ReplayRegistry {
  import opened Prelude

  datatype State = Unused | Used | Ambiguous | Null

  datatype Request = Request(nonce: string, hash: string)

  datatype Registry = Registry(nonces: set<string>, hashes: set<string>)

  // ----- One admission -----

  function Classified(r: Registry, q: Request): State {
    match (q.nonce in r.nonces, q.hash in r.hashes)
    case (false, false) => Unused
    case (true, true) => Used
    case _ => Ambiguous
  }

  function Admitted(r: Registry, q: Request): Registry {
    if Classified(r, q) == Unused then Registry(r.nonces + {q.nonce}, r.hashes + {q.hash}) else r
  }

  // ----- Whole runs -----

  function After(requests: seq<Request>): Registry {
    if requests == [] then Registry({}, {}) else Admitted(After(requests[..|requests| - 1]), requests[|requests| - 1])
  }

  /** The requests of a run that were admitted, in order. */
  function Accepted(requests: seq<Request>): seq<Request> {
    if requests == [] then []
    else
      var n := |requests| - 1;
      Accepted(requests[..n]) + if Classified(After(requests[..n]), requests[n]) == Unused then [requests[n]] else []
  }

  function Nonces(a: seq<Request>): seq<string> { seq(|a|, i requires 0 <= i < |a| => a[i].nonce) }

  function Hashes(a: seq<Request>): seq<string> { seq(|a|, i requires 0 <= i < |a| => a[i].hash) }

  /** The list repeats nothing, and the set holds exactly its elements. */
  ghost predicate Collects(used: set<string>, values: seq<string>) {
    Distinct(values) && (forall v :: v in used <==> v in values) && |used| == |values|
  }

  ghost predicate Explains(r: Registry, a: seq<Request>) {
    Collects(r.nonces, Nonces(a)) && Collects(r.hashes, Hashes(a))
  }

  lemma CollectOne(used: set<string>, values: seq<string>, v: string)
    requires Collects(used, values) && v !in used
    ensures Collects(used + {v}, values + [v])
  {
    DistinctAppend(values, v);
  }

  lemma AdmissionStep(r: Registry, a: seq<Request>, q: Request)
    requires Explains(r, a) && Classified(r, q) == Unused
    ensures Explains(Admitted(r, q), a + [q])
  {
    hide Collects;
    CollectOne(r.nonces, Nonces(a), q.nonce);
    CollectOne(r.hashes, Hashes(a), q.hash);
    assert Nonces(a + [q]) == Nonces(a) + [q.nonce] && Hashes(a + [q]) == Hashes(a) + [q.hash];
  }

  /** Over every run no nonce and no hash is admitted twice, and both used sets hold exactly the
      admitted values, so each has as many elements as there were admissions. */
  lemma {:induction false} NothingIsAdmittedTwice(requests: seq<Request>)
    ensures Explains(After(requests), Accepted(requests))
  {
    if requests != [] {
      hide Explains;
      var n := |requests| - 1;
      NothingIsAdmittedTwice(requests[..n]);
      if Classified(After(requests[..n]), requests[n]) == Unused {
        AdmissionStep(After(requests[..n]), Accepted(requests[..n]), requests[n]);
      } else {
        assert Accepted(requests) == Accepted(requests[..n]);
      }
    }
  }

  /** A request is refused exactly when an earlier admission used its nonce or its hash. */
  lemma {:induction false} RefusedMeansReused(requests: seq<Request>, q: Request)
    ensures Classified(After(requests), q) != Unused <==>
            exists a :: a in Accepted(requests) && (a.nonce == q.nonce || a.hash == q.hash)
  {
    NothingIsAdmittedTwice(requests);
    var a := Accepted(requests);
    forall r | r in a && (r.nonce == q.nonce || r.hash == q.hash) ensures Classified(After(requests), q) != Unused {
      var i :| 0 <= i < |a| && a[i] == r;
      assert Nonces(a)[i] == r.nonce && Hashes(a)[i] == r.hash;
      assert r.nonce in After(requests).nonces && r.hash in After(requests).hashes;
    }
    if q.nonce in After(requests).nonces {
      var i :| 0 <= i < |a| && Nonces(a)[i] == q.nonce;
      assert a[i] in a;
    } else if q.hash in After(requests).hashes {
      var i :| 0 <= i < |a| && Hashes(a)[i] == q.hash;
      assert a[i] in a;
    }
  }

  /** Admitting later requests never makes a used value unused again. */
  lemma {:induction false} UsedStaysUsed(requests: seq<Request>, more: seq<Request>)
    ensures After(requests).nonces <= After(requests + more).nonces
    ensures After(requests).hashes <= After(requests + more).hashes
  {
    if more == [] {
      assert requests + more == requests;
    } else {
      var n := |more| - 1;
      var all := requests + more;
      assert all[..|all| - 1] == requests + more[..n];
      UsedStaysUsed(requests, more[..n]);
    }
  }

  // ----- The Rust registry -----

  class RustRegistry {
    var usedNonces: set<string>
    var usedObjectHashes: set<string>
    ghost var history: seq<Request>

    ghost predicate Valid()
      reads this
    {
      After(history) == Registry(usedNonces, usedObjectHashes)
    }

    constructor ()
      ensures Valid() && history == []
    {
      usedNonces, usedObjectHashes, history := {}, {}, [];
    }

    function Classify(nonce: Option<string>, hash: Option<string>, lineage: Option<string>): (state: State)
      reads this
      ensures state == Null <==> nonce == None || hash == None || lineage == None
      ensures state == Unused <==> state != Null && nonce.value !in usedNonces && hash.value !in usedObjectHashes
      ensures state == Used <==> state != Null && nonce.value in usedNonces && hash.value in usedObjectHashes
    {
      match (nonce, hash, lineage)
      case (Some(n), Some(h), Some(_)) =>
        (match (n in usedNonces, h in usedObjectHashes)
         case (false, false) => Unused
         case (true, true) => Used
         case (true, false) => Ambiguous
         case (false, true) => Ambiguous)
      case _ => Null
    }

    method Admit(nonce: string, hash: string, lineage: string) returns (state: State)
      requires Valid()
      modifies this
      ensures Valid() && history == old(history) + [Request(nonce, hash)]
      ensures state == if nonce in old(usedNonces) || hash in old(usedObjectHashes) then Null else Unused
      ensures state == Unused ==> usedNonces == old(usedNonces) + {nonce} && usedObjectHashes == old(usedObjectHashes) + {hash}
      ensures state == Null ==> usedNonces == old(usedNonces) && usedObjectHashes == old(usedObjectHashes)
    {
      match Classify(Some(nonce), Some(hash), Some(lineage)) {
        case Unused =>
          usedNonces := usedNonces + {nonce};
          usedObjectHashes := usedObjectHashes + {hash};
          state := Unused;
        case Used => state := Null;
        case Ambiguous => state := Null;
        case Null => state := Null;
      }
      history := history + [Request(nonce, hash)];
      assert history[..|history| - 1] == old(history);
    }
  }

  // ----- The JavaScript registry -----

  /** None stands for undefined or null, which are falsy like the empty string. */
  predicate Truthy(s: Option<string>) { s.Some? && s.value != "" }

  class JsRegistry {
    var usedNonces: set<string>
    var usedObjectHashes: set<string>

    constructor ()
      ensures usedNonces == {} && usedObjectHashes == {}
    {
      usedNonces, usedObjectHashes := {}, {};
    }

    function Classify(nonce: Option<string>, hash: Option<string>, lineage: Option<string>): (state: State)
      reads this
      ensures state == Null <==> !Truthy(nonce) || !Truthy(hash) || !Truthy(lineage)
      ensures state == Unused <==> state != Null && nonce.value !in usedNonces && hash.value !in usedObjectHashes
      ensures state == Used <==> state != Null && nonce.value in usedNonces && hash.value in usedObjectHashes
    {
      if !Truthy(nonce) || !Truthy(hash) || !Truthy(lineage) then Null
      else
        var nonceUsed, hashUsed := nonce.value in usedNonces, hash.value in usedObjectHashes;
        if !nonceUsed && !hashUsed then Unused
        else if nonceUsed && hashUsed then Used
        else Ambiguous
    }

    method Admit(nonce: Option<string>, hash: Option<string>, lineage: Option<string>) returns (state: State)
      modifies this
      ensures state == if Truthy(nonce) && Truthy(hash) && Truthy(lineage) && nonce.value !in old(usedNonces)
                          && hash.value !in old(usedObjectHashes) then Unused else Null
      ensures state == Unused ==>
                usedNonces == old(usedNonces) + {nonce.value} && usedObjectHashes == old(usedObjectHashes) + {hash.value}
      ensures state == Null ==> usedNonces == old(usedNonces) && usedObjectHashes == old(usedObjectHashes)
    {
      state := Classify(nonce, hash, lineage);
      if state == Unused {
        usedNonces := usedNonces + {nonce.value};
        usedObjectHashes := usedObjectHashes + {hash.value};
        return Unused;
      }
      return Null;
    }
  }

  /** Run side by side on values that the Rust types allow (never blank), the registries always
      answer alike and end in the same state. */
  method AdmitBoth(requests: seq<Request>, lineage: string) returns (rust: seq<State>, js: seq<State>)
    requires lineage != "" && forall q :: q in requests ==> q.nonce != "" && q.hash != ""
    ensures rust == js == Answers(requests)
  {
    var r := new RustRegistry();
    var j := new JsRegistry();
    rust, js := [], [];
    for i := 0 to |requests|
      invariant fresh(r) && fresh(j) && r.Valid() && r.history == requests[..i]
      invariant r.usedNonces == j.usedNonces && r.usedObjectHashes == j.usedObjectHashes
      invariant rust == js == Answers(requests[..i])
    {
      assert requests[i] in requests && requests[..i + 1] == requests[..i] + [requests[i]];
      AnswersNext(requests[..i], requests[i]);
      var a, b := AdmitOnBoth(r, j, requests[i], lineage);
      rust, js := rust + [a], js + [b];
    }
    assert requests[..|requests|] == requests;
  }

  function Answers(requests: seq<Request>): seq<State> {
    if requests == [] then []
    else
      var n := |requests| - 1;
      Answers(requests[..n]) + [if Classified(After(requests[..n]), requests[n]) == Unused then Unused else Null]
  }

  lemma AnswersNext(requests: seq<Request>, q: Request)
    ensures Answers(requests + [q]) == Answers(requests) + [if Classified(After(requests), q) == Unused then Unused else Null]
  {
    assert (requests + [q])[..|requests|] == requests;
  }

  method AdmitOnBoth(r: RustRegistry, j: JsRegistry, q: Request, lineage: string) returns (a: State, b: State)
    requires r.Valid() && r.usedNonces == j.usedNonces && r.usedObjectHashes == j.usedObjectHashes
    requires lineage != "" && q.nonce != "" && q.hash != ""
    modifies r, j
    ensures r.Valid() && r.usedNonces == j.usedNonces && r.usedObjectHashes == j.usedObjectHashes
    ensures r.history == old(r.history) + [q]
    ensures a == b == if Classified(After(old(r.history)), q) == Unused then Unused else Null
  {
    a := r.Admit(q.nonce, q.hash, lineage);
    b := j.Admit(Some(q.nonce), Some(q.hash), Some(lineage));
  }
}
