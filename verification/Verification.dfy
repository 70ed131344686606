/**
  The independent re-check of a decision. A verifier collects the trace and the evidence
  from the objects of a bundle, in whatever order they come, runs every rule again and
  compares, place by place, with the recorded trace.
 */
module Verification {
  import opened Prelude
  import opened Sorting
  import opened Evaluation
  import opened EvaluationDecision

  datatype RuleDecision = RuleDecision(status: Status, reasons: seq<string>)

  /** An evidence object as far as it can be told apart; `content` stands for the rest. */
  datatype Evidence = Evidence(id: Id, sessionID: Id, content: string)

  datatype PolicyReference = PolicyReference(policyID: string, version: string, hash: string)

  datatype Trace = Trace(
    evaluationID: Id, sessionID: Id, completed: bool, required: seq<string>, complete: bool, outcomes: seq<RuleOutcome>,
    verdict: Verdict, evidence: Option<seq<EvidenceReference>>, policy: Option<PolicyReference>)

  /** An object by its path, with what its payload decodes to; `intact` is the evidence's own integrity check. */
  datatype Object = TraceObject(trace: Option<Trace>) | EvidenceObject(decoded: Option<Evidence>, intact: bool) | OtherObject

  /** The policy embedded in the bundle: its identity, its plan, and what validating its document says. */
  datatype PolicyDocument = PolicyDocument(reference: PolicyReference, required: seq<string>, refused: Option<VerificationError>)

  /** A bundle whose digests have been verified. */
  datatype Bundle = Bundle(evaluationID: Id, sessionID: Id, policy: PolicyDocument, objects: seq<Object>)

  datatype RuleError = NotCompiled | ExecutionFailed

  datatype VerificationError =
    | DecisionTraceRequired | EvidenceObjectMismatch | EvidenceInvalid | OutsideScope | VerificationFailed | PolicyRefused
    | RuleNotCompiled | OutcomeMismatch | DecisionMismatch

  /** The rules of the policy, over fixed evidence. */
  type Rules = (string, seq<Evidence>) -> Result<RuleDecision, RuleError>

  // The objects of the bundle -----------------------------------------------------------------

  datatype Collected = Collected(trace: Option<Trace>, byID: map<Id, Evidence>)

  function CollectOne(c: Collected, o: Object): Result<Collected, VerificationError>
  {
    match o
    case TraceObject(trace) =>
      if c.trace.Some? || trace.None? then Err(DecisionTraceRequired) else Ok(c.(trace := trace))
    case EvidenceObject(decoded, intact) =>
      if decoded.None? then Err(EvidenceObjectMismatch)
      else if !intact then Err(EvidenceInvalid)
      else if decoded.value.id in c.byID then Err(EvidenceObjectMismatch)
      else Ok(c.(byID := c.byID[decoded.value.id := decoded.value]))
    case OtherObject => Ok(c)
  }

  function Collect(objects: seq<Object>): Result<Collected, VerificationError>
  {
    if objects == [] then Ok(Collected(None, map[]))
    else
      match Collect(objects[..|objects| - 1])
      case Err(e) => Err(e)
      case Ok(c) => CollectOne(c, objects[|objects| - 1])
  }

  /** Takes the referenced objects out of the index, in order of reference. */
  function Select(refs: seq<EvidenceReference>, session: Id, m: map<Id, Evidence>): Result<(seq<Evidence>, map<Id, Evidence>), VerificationError>
  {
    if refs == [] then Ok(([], m))
    else
      var n := |refs| - 1;
      match Select(refs[..n], session, m)
      case Err(e) => Err(e)
      case Ok(pair) =>
        var r := refs[n];
        if r.status != Qualified then Err(OutsideScope)
        else if r.evidenceID !in pair.1 || pair.1[r.evidenceID].sessionID != session then Err(EvidenceObjectMismatch)
        else Ok((pair.0 + [pair.1[r.evidenceID]], pair.1 - {r.evidenceID}))
  }

  function Inputs(objects: seq<Object>): Result<(Trace, seq<Evidence>), VerificationError>
  {
    match Collect(objects)
    case Err(e) => Err(e)
    case Ok(c) =>
      if c.trace.None? || c.trace.value.evidence.None? || |c.byID| != |c.trace.value.evidence.value| then Err(DecisionTraceRequired)
      else
        match Select(c.trace.value.evidence.value, c.trace.value.sessionID, c.byID)
        case Err(e) => Err(e)
        case Ok(pair) => if |pair.1| != 0 then Err(EvidenceObjectMismatch) else Ok((c.trace.value, pair.0))
  }

  lemma {:induction false} CollectFails(objects: seq<Object>, n: nat)
    requires n <= |objects| && Collect(objects[..n]).Err?
    ensures Collect(objects) == Collect(objects[..n])
    decreases |objects| - n
  {
    hide CollectOne;
    if n == |objects| {
      assert objects[..n] == objects;
    } else {
      assert objects[..n + 1][..n] == objects[..n];
      CollectFails(objects, n + 1);
    }
  }

  lemma {:induction false} SelectFails(refs: seq<EvidenceReference>, session: Id, m: map<Id, Evidence>, n: nat)
    requires n <= |refs| && Select(refs[..n], session, m).Err?
    ensures Select(refs, session, m) == Select(refs[..n], session, m)
    decreases |refs| - n
  {
    if n == |refs| {
      assert refs[..n] == refs;
    } else {
      assert refs[..n + 1][..n] == refs[..n];
      SelectFails(refs, session, m, n + 1);
    }
  }

  method CollectObjects(objects: seq<Object>) returns (r: Result<Collected, VerificationError>)
    ensures r == Collect(objects)
  {
    var trace: Option<Trace> := None;
    var byID: map<Id, Evidence> := map[];
    for i := 0 to |objects|
      invariant Collect(objects[..i]) == Ok(Collected(trace, byID))
    {
      assert objects[..i + 1][..i] == objects[..i];
      match objects[i] {
        case TraceObject(t) =>
          if trace.Some? || t.None? {
            CollectFails(objects, i + 1);
            return Err(DecisionTraceRequired);
          }
          trace := t;
        case EvidenceObject(decoded, intact) =>
          if decoded.None? {
            CollectFails(objects, i + 1);
            return Err(EvidenceObjectMismatch);
          }
          if !intact {
            CollectFails(objects, i + 1);
            return Err(EvidenceInvalid);
          }
          if decoded.value.id in byID {
            CollectFails(objects, i + 1);
            return Err(EvidenceObjectMismatch);
          }
          byID := byID[decoded.value.id := decoded.value];
        case OtherObject =>
      }
    }
    assert objects[..|objects|] == objects;
    return Ok(Collected(trace, byID));
  }

  method VerificationInputs(objects: seq<Object>) returns (r: Result<(Trace, seq<Evidence>), VerificationError>)
    ensures r == Inputs(objects)
  {
    hide Collect;
    var collected := CollectObjects(objects);
    if collected.Err? {
      return Err(collected.error);
    }
    var found, byID := collected.value.trace, collected.value.byID;
    if found.None? || found.value.evidence.None? || |byID| != |found.value.evidence.value| {
      return Err(DecisionTraceRequired);
    }
    var trace, refs := found.value, found.value.evidence.value;
    ghost var m := byID;
    var ordered: seq<Evidence> := [];
    for i := 0 to |refs|
      invariant Select(refs[..i], trace.sessionID, m) == Ok((ordered, byID))
    {
      assert refs[..i + 1][..i] == refs[..i];
      var ref := refs[i];
      if ref.status != Qualified {
        SelectFails(refs, trace.sessionID, m, i + 1);
        return Err(OutsideScope);
      }
      if ref.evidenceID !in byID || byID[ref.evidenceID].sessionID != trace.sessionID {
        SelectFails(refs, trace.sessionID, m, i + 1);
        return Err(EvidenceObjectMismatch);
      }
      ordered := ordered + [byID[ref.evidenceID]];
      byID := byID - {ref.evidenceID};
    }
    assert refs[..|refs|] == refs;
    return if |byID| != 0 then Err(EvidenceObjectMismatch) else Ok((trace, ordered));
  }

  /** `evidence` is what the references name, one by one, all qualified and of the session. */
  ghost predicate Named(evidence: seq<Evidence>, refs: seq<EvidenceReference>, session: Id)
  {
    && |evidence| == |refs|
    && (forall i :: 0 <= i < |refs| ==> evidence[i].id == refs[i].evidenceID && refs[i].status == Qualified && evidence[i].sessionID == session)
    && (forall i, j :: 0 <= i < j < |refs| ==> refs[i].evidenceID != refs[j].evidenceID)
  }

  ghost predicate Indexes(m: map<Id, Evidence>, objects: seq<Evidence>)
  {
    (forall id :: id in m ==> m[id].id == id && m[id] in objects) && (forall o :: o in objects ==> o.id in m && m[o.id] == o) && |m| == |objects|
  }

  lemma IndexStep(m: map<Id, Evidence>, front: seq<Evidence>, o: Evidence)
    requires Indexes(m, front) && forall i :: 0 <= i < |front| ==> front[i].id != o.id
    ensures o.id !in m && Indexes(m[o.id := o], front + [o])
  {
    forall id | id in m ensures id != o.id {
      var i :| 0 <= i < |front| && front[i] == m[id];
    }
    var full := m[o.id := o];
    assert full.Keys == m.Keys + {o.id};
    forall id | id in full ensures full[id].id == id && full[id] in front + [o] {
      assert id != o.id ==> m[id] in front;
      assert o == (front + [o])[|front|];
    }
  }

  lemma NothingIndexed()
    ensures Indexes(map[], [])
  {
  }

  /** The objects no reference names. */
  ghost function Unnamed(m: map<Id, Evidence>, refs: seq<EvidenceReference>): map<Id, Evidence>
  {
    map id | id in m && (forall i :: 0 <= i < |refs| ==> refs[i].evidenceID != id) :: m[id]
  }

  lemma UnnamedLast(m: map<Id, Evidence>, refs: seq<EvidenceReference>)
    requires refs != []
    ensures var n := |refs| - 1; Unnamed(m, refs) == Unnamed(m, refs[..n]) - {refs[n].evidenceID}
  {
    var n := |refs| - 1;
    forall id | id in m ensures id in Unnamed(m, refs) <==> id in Unnamed(m, refs[..n]) && id != refs[n].evidenceID {
      if id in Unnamed(m, refs[..n]) && id != refs[n].evidenceID {
        forall i | 0 <= i < |refs| ensures refs[i].evidenceID != id {
          if i < n { assert refs[..n][i].evidenceID != id; }
        }
      }
    }
  }

  lemma {:induction false} SelectIs(refs: seq<EvidenceReference>, session: Id, m: map<Id, Evidence>, evidence: seq<Evidence>)
    requires Named(evidence, refs, session) && forall i :: 0 <= i < |evidence| ==> evidence[i].id in m && m[evidence[i].id] == evidence[i]
    ensures Select(refs, session, m) == Ok((evidence, Unnamed(m, refs)))
  {
    hide Unnamed;
    if refs == [] {
      NoneNamed(m);
    } else {
      var n := |refs| - 1;
      SelectIs(refs[..n], session, m, evidence[..n]);
      UnnamedLast(m, refs);
      StillUnnamed(m, refs);
      assert evidence == evidence[..n] + [evidence[n]];
    }
  }

  lemma NoneNamed(m: map<Id, Evidence>)
    ensures Unnamed(m, []) == m
  {
  }

  lemma StillUnnamed(m: map<Id, Evidence>, refs: seq<EvidenceReference>)
    requires refs != [] && refs[|refs| - 1].evidenceID in m
    requires forall i, j :: 0 <= i < j < |refs| ==> refs[i].evidenceID != refs[j].evidenceID
    ensures var n := |refs| - 1;
      refs[n].evidenceID in Unnamed(m, refs[..n]) && Unnamed(m, refs[..n])[refs[n].evidenceID] == m[refs[n].evidenceID]
  {
  }

  function EvidenceIn(objects: seq<Object>): seq<Evidence>
  {
    if objects == [] then []
    else
      var o := objects[|objects| - 1];
      EvidenceIn(objects[..|objects| - 1]) + if o.EvidenceObject? && o.decoded.Some? then [o.decoded.value] else []
  }

  function TracesIn(objects: seq<Object>): seq<Trace>
  {
    if objects == [] then []
    else
      var o := objects[|objects| - 1];
      TracesIn(objects[..|objects| - 1]) + if o.TraceObject? && o.trace.Some? then [o.trace.value] else []
  }

  /** Every object that should decode does, and all evidence is intact. */
  ghost predicate Readable(objects: seq<Object>)
  {
    forall i :: 0 <= i < |objects| ==>
      (objects[i].TraceObject? ==> objects[i].trace.Some?) && (objects[i].EvidenceObject? ==> objects[i].decoded.Some? && objects[i].intact)
  }

  ghost predicate DistinctIDs(es: seq<Evidence>)
  {
    forall i, j :: 0 <= i < j < |es| ==> es[i].id != es[j].id
  }

  lemma {:induction false} CollectIs(objects: seq<Object>)
    requires Readable(objects) && |TracesIn(objects)| <= 1 && DistinctIDs(EvidenceIn(objects))
    ensures Collect(objects).Ok? && Indexes(Collect(objects).value.byID, EvidenceIn(objects))
    ensures Collect(objects).value.trace == if TracesIn(objects) == [] then None else Some(TracesIn(objects)[0])
  {
    hide Indexes;
    if objects == [] {
      NothingIndexed();
    } else {
      var n := |objects| - 1;
      var front, o := EvidenceIn(objects[..n]), objects[n];
      assert forall i :: 0 <= i < |front| ==> EvidenceIn(objects)[i] == front[i];
      CollectIs(objects[..n]);
      if o.EvidenceObject? {
        assert EvidenceIn(objects)[|front|] == o.decoded.value;
        IndexStep(Collect(objects[..n]).value.byID, front, o.decoded.value);
      } else {
        assert EvidenceIn(objects) == front;
      }
    }
  }

  /** However a readable bundle orders its objects, the verifier gets its one trace, and the evidence the trace
      names, in the order of the trace. */
  lemma InputsAreTheRuns(objects: seq<Object>, trace: Trace, evidence: seq<Evidence>)
    requires Readable(objects) && TracesIn(objects) == [trace] && multiset(EvidenceIn(objects)) == multiset(evidence)
    requires trace.evidence.Some? && Named(evidence, trace.evidence.value, trace.sessionID)
    ensures Inputs(objects) == Ok((trace, evidence))
  {
    hide Collect, Select, EvidenceIn, TracesIn, Readable, Named;
    var found := EvidenceIn(objects);
    NamedApart(evidence, trace.evidence.value, trace.sessionID);
    DistinctAgain(evidence, found);
    CollectIs(objects);
    SelectsAll(Collect(objects).value.byID, found, trace.evidence.value, trace.sessionID, evidence);
  }

  lemma NamedApart(evidence: seq<Evidence>, refs: seq<EvidenceReference>, session: Id)
    requires Named(evidence, refs, session)
    ensures DistinctIDs(evidence)
  {
    forall i, j | 0 <= i < j < |evidence| ensures evidence[i].id != evidence[j].id {
      assert refs[i].evidenceID != refs[j].evidenceID;
    }
  }

  lemma SelectsAll(m: map<Id, Evidence>, found: seq<Evidence>, refs: seq<EvidenceReference>, session: Id, evidence: seq<Evidence>)
    requires Indexes(m, found) && multiset(found) == multiset(evidence) && Named(evidence, refs, session)
    ensures |m| == |refs| && Select(refs, session, m).Ok? && Select(refs, session, m).value.0 == evidence && |Select(refs, session, m).value.1| == 0
  {
    hide Select;
    InMultiset(found, evidence);
    InMultiset(evidence, found);
    SelectIs(refs, session, m, evidence);
    forall id | id in m ensures exists k :: 0 <= k < |refs| && refs[k].evidenceID == id {
      var i :| 0 <= i < |found| && found[i] == m[id];
      assert found[i] in evidence;
      var k :| 0 <= k < |evidence| && evidence[k] == found[i];
      assert refs[k].evidenceID == id;
    }
    assert Unnamed(m, refs) == map[];
  }

  lemma DistinctAgain(xs: seq<Evidence>, ys: seq<Evidence>)
    requires multiset(xs) == multiset(ys) && DistinctIDs(xs)
    ensures DistinctIDs(ys)
  {
    forall i, j | 0 <= i < j < |ys| ensures ys[i].id != ys[j].id {
      var k, l := PairAgain(xs, ys, i, j);
      assert k < l || l < k;
    }
  }

  // And only such bundles have inputs -------------------------------------------------------------

  lemma {:induction false} CollectSound(objects: seq<Object>)
    requires Collect(objects).Ok?
    ensures Readable(objects) && |TracesIn(objects)| <= 1 && DistinctIDs(EvidenceIn(objects))
  {
    hide Indexes;
    if objects != [] {
      var n := |objects| - 1;
      var front, o := EvidenceIn(objects[..n]), objects[n];
      CollectSound(objects[..n]);
      CollectIs(objects[..n]);
      assert forall i :: 0 <= i < n ==> objects[i] == objects[..n][i];
      if o.EvidenceObject? {
        IndexedFresh(Collect(objects[..n]).value.byID, front, o.decoded.value);
      }
    }
  }

  lemma IndexedFresh(m: map<Id, Evidence>, front: seq<Evidence>, o: Evidence)
    requires Indexes(m, front) && o.id !in m && DistinctIDs(front)
    ensures DistinctIDs(front + [o])
  {
    forall i | 0 <= i < |front| ensures front[i].id != o.id {
      assert front[i] in front;
    }
  }

  /** What a successful selection took, and what it left. */
  lemma {:induction false} SelectSound(refs: seq<EvidenceReference>, session: Id, m: map<Id, Evidence>)
    requires Select(refs, session, m).Ok?
    ensures var (evidence, rest) := Select(refs, session, m).value;
      && |evidence| == |refs| && rest == Unnamed(m, refs)
      && (forall i :: 0 <= i < |refs| ==>
            refs[i].status == Qualified && refs[i].evidenceID in m && evidence[i] == m[refs[i].evidenceID] && evidence[i].sessionID == session)
      && (forall i, j :: 0 <= i < j < |refs| ==> refs[i].evidenceID != refs[j].evidenceID)
  {
    hide Unnamed;
    if refs == [] {
      NoneNamed(m);
    } else {
      var n := |refs| - 1;
      SelectSound(refs[..n], session, m);
      UnnamedLast(m, refs);
      TakenOnce(m, refs);
      assert forall i :: 0 <= i < n ==> refs[i] == refs[..n][i];
    }
  }

  lemma TakenOnce(m: map<Id, Evidence>, refs: seq<EvidenceReference>)
    requires refs != [] && refs[|refs| - 1].evidenceID in Unnamed(m, refs[..|refs| - 1])
    ensures var n := |refs| - 1; var id := refs[n].evidenceID;
      id in m && Unnamed(m, refs[..n])[id] == m[id] && forall i :: 0 <= i < n ==> refs[i].evidenceID != id
  {
    var n := |refs| - 1;
    assert forall i :: 0 <= i < n ==> refs[i] == refs[..n][i];
  }

  lemma {:induction false} OnceEach(es: seq<Evidence>, e: Evidence)
    requires DistinctIDs(es)
    ensures multiset(es)[e] == if e in es then 1 else 0
  {
    if es != [] {
      var n := |es| - 1;
      OnceEach(es[..n], e);
      assert es == es[..n] + [es[n]];
      assert es[n] !in es[..n];
    }
  }

  /** Without repeats, the same elements are the same multiset. */
  lemma SameElements(xs: seq<Evidence>, ys: seq<Evidence>)
    requires DistinctIDs(xs) && DistinctIDs(ys) && forall e :: e in xs <==> e in ys
    ensures multiset(xs) == multiset(ys)
  {
    forall e ensures multiset(xs)[e] == multiset(ys)[e] {
      OnceEach(xs, e);
      OnceEach(ys, e);
    }
  }

  /** A bundle presents a trace with its evidence: every object decodes, all evidence is intact, there is one trace, and
      its references name exactly the evidence, all of it qualified and of the session. */
  ghost predicate Presents(objects: seq<Object>, t: Trace, evidence: seq<Evidence>)
  {
    && Readable(objects) && TracesIn(objects) == [t] && multiset(EvidenceIn(objects)) == multiset(evidence)
    && t.evidence.Some? && Named(evidence, t.evidence.value, t.sessionID)
  }

  lemma SelectedAll(m: map<Id, Evidence>, found: seq<Evidence>, refs: seq<EvidenceReference>, session: Id)
    requires Indexes(m, found) && DistinctIDs(found) && Select(refs, session, m).Ok? && |Select(refs, session, m).value.1| == 0
    ensures Named(Select(refs, session, m).value.0, refs, session) && multiset(found) == multiset(Select(refs, session, m).value.0)
  {
    hide Select;
    SelectSound(refs, session, m);
    var evidence := Select(refs, session, m).value.0;
    NamedApart(evidence, refs, session);
    forall e ensures e in found <==> e in evidence {
      if e in found {
        assert e.id !in Unnamed(m, refs);
        var i :| 0 <= i < |refs| && refs[i].evidenceID == e.id;
        assert evidence[i] == e;
      }
    }
    SameElements(found, evidence);
  }

  /** Of a readable bundle without repeats: no trace, a trace without a binding, or another number of references than
      objects is answered before any reference is looked at. */
  lemma CountDecides(objects: seq<Object>)
    requires Readable(objects) && |TracesIn(objects)| <= 1 && DistinctIDs(EvidenceIn(objects))
    requires TracesIn(objects) == [] || TracesIn(objects)[0].evidence.None?
      || |TracesIn(objects)[0].evidence.value| != |EvidenceIn(objects)|
    ensures Inputs(objects) == Err(DecisionTraceRequired)
  {
    hide Collect, Select, EvidenceIn, TracesIn, Readable, DistinctIDs;
    CollectIs(objects);
  }

  /** The verifier has inputs exactly if the bundle presents them. */
  lemma InputsExactly(objects: seq<Object>, t: Trace, evidence: seq<Evidence>)
    ensures Inputs(objects) == Ok((t, evidence)) <==> Presents(objects, t, evidence)
  {
    hide Collect, Select, EvidenceIn, TracesIn, Readable, Named, Indexes, DistinctIDs;
    if Inputs(objects) == Ok((t, evidence)) {
      CollectSound(objects);
      CollectIs(objects);
      SelectedAll(Collect(objects).value.byID, EvidenceIn(objects), t.evidence.value, t.sessionID);
    }
    if Presents(objects, t, evidence) {
      InputsAreTheRuns(objects, t, evidence);
    }
  }

  // The re-check --------------------------------------------------------------------------------

  predicate Reproduced(recorded: RuleOutcome, d: RuleDecision)
  {
    recorded.status == d.status && recorded.reasons == d.reasons
  }

  /** The first `n` rules, run again. */
  function Recheck(t: Trace, rules: Rules, evidence: seq<Evidence>, n: nat): Result<Verdict, VerificationError>
    requires n <= |t.required| == |t.outcomes|
  {
    if n == 0 then Ok(Verified)
    else
      match Recheck(t, rules, evidence, n - 1)
      case Err(e) => Err(e)
      case Ok(verdict) =>
        var i := n - 1;
        if t.outcomes[i].ruleID != t.required[i] then Err(VerificationFailed)
        else
          match rules(t.required[i], evidence)
          case Err(e) => Err(if e == NotCompiled then RuleNotCompiled else VerificationFailed)
          case Ok(d) => if !Reproduced(t.outcomes[i], d) then Err(OutcomeMismatch) else Ok(Join(verdict, d.status))
  }

  predicate InScope(t: Trace)
  {
    t.completed && t.required != [] && t.complete && |t.outcomes| == |t.required|
  }

  /** The trace is about the evaluation, session and policy the bundle says it is. */
  predicate Identifies(t: Trace, b: Bundle)
  {
    t.evaluationID == b.evaluationID && t.sessionID == b.sessionID && t.policy == Some(b.policy.reference)
  }

  function VerifyTrace(t: Trace, b: Bundle, rules: Rules, evidence: seq<Evidence>): Option<VerificationError>
  {
    if !InScope(t) then Some(OutsideScope)
    else if !Identifies(t, b) || t.required != b.policy.required then Some(VerificationFailed)
    else if b.policy.refused.Some? then b.policy.refused
    else
      match Recheck(t, rules, evidence, |t.required|)
      case Err(e) => Some(e)
      case Ok(verdict) => if verdict != t.verdict then Some(DecisionMismatch) else None
  }

  function VerifyBundle(b: Bundle, rules: Rules): Option<VerificationError>
  {
    match Inputs(b.objects)
    case Err(e) => Some(e)
    case Ok(pair) => VerifyTrace(pair.0, b, rules, pair.1)
  }

  lemma {:induction false} RecheckFails(t: Trace, rules: Rules, evidence: seq<Evidence>, n: nat, k: nat)
    requires n <= k <= |t.required| == |t.outcomes| && Recheck(t, rules, evidence, n).Err?
    ensures Recheck(t, rules, evidence, k) == Recheck(t, rules, evidence, n)
  {
    if n < k {
      RecheckFails(t, rules, evidence, n, k - 1);
    }
  }

  function UpdateResult(result: Verdict, status: Status): Verdict
  {
    if status == Fail then Rejected
    else if status == Inconclusive && result != Rejected then ManualReview
    else if status == Warning && result == Verified then VerifiedWithException
    else result
  }

  method RunAgain(t: Trace, rules: Rules, evidence: seq<Evidence>) returns (r: Result<Verdict, VerificationError>)
    requires |t.required| == |t.outcomes|
    ensures r == Recheck(t, rules, evidence, |t.required|)
  {
    var result := Verified;
    for i := 0 to |t.required|
      invariant Recheck(t, rules, evidence, i) == Ok(result)
    {
      var expected := t.outcomes[i];
      if expected.ruleID != t.required[i] {
        RecheckFails(t, rules, evidence, i + 1, |t.required|);
        return Err(VerificationFailed);
      }
      var decision := rules(t.required[i], evidence);
      if decision.Err? {
        RecheckFails(t, rules, evidence, i + 1, |t.required|);
        return Err(if decision.error == NotCompiled then RuleNotCompiled else VerificationFailed);
      }
      if expected.status != decision.value.status || expected.reasons != decision.value.reasons {
        RecheckFails(t, rules, evidence, i + 1, |t.required|);
        return Err(OutcomeMismatch);
      }
      result := UpdateResult(result, decision.value.status);
    }
    return Ok(result);
  }

  /** One place of the trace names the planned rule and was reproduced. */
  predicate Matched(t: Trace, rules: Rules, evidence: seq<Evidence>, i: nat)
    requires i < |t.required| == |t.outcomes|
  {
    && t.outcomes[i].ruleID == t.required[i]
    && rules(t.required[i], evidence).Ok? && Reproduced(t.outcomes[i], rules(t.required[i], evidence).value)
  }

  /** Accepting means: every place names the planned rule and was reproduced, and the verdict is the worst of them. */
  lemma {:induction false} RecheckExactly(t: Trace, rules: Rules, evidence: seq<Evidence>, n: nat)
    requires n <= |t.required| == |t.outcomes|
    ensures Recheck(t, rules, evidence, n).Ok? <==> forall i :: 0 <= i < n ==> Matched(t, rules, evidence, i)
    ensures Recheck(t, rules, evidence, n).Ok? ==> Recheck(t, rules, evidence, n).value == VerdictOf(t.outcomes[..n])
  {
    if n > 0 {
      RecheckExactly(t, rules, evidence, n - 1);
      assert t.outcomes[..n][..n - 1] == t.outcomes[..n - 1];
      assert (forall i :: 0 <= i < n ==> Matched(t, rules, evidence, i)) <==>
        (forall i :: 0 <= i < n - 1 ==> Matched(t, rules, evidence, i)) && Matched(t, rules, evidence, n - 1);
    }
  }

  /** A complete trace with the right verdict, for the policy of its bundle, is accepted exactly when every place matches. */
  lemma AcceptedExactly(t: Trace, b: Bundle, rules: Rules, evidence: seq<Evidence>)
    requires InScope(t) && Identifies(t, b) && t.required == b.policy.required && b.policy.refused.None? && t.verdict == VerdictOf(t.outcomes)
    ensures VerifyTrace(t, b, rules, evidence) == None <==> forall i :: 0 <= i < |t.required| ==> Matched(t, rules, evidence, i)
  {
    hide Reproduced;
    RecheckExactly(t, rules, evidence, |t.required|);
    assert t.outcomes[..|t.required|] == t.outcomes;
  }

  /** The trace is complete, and about the evaluation, session, policy and plan of the bundle. */
  predicate Attributed(t: Trace, b: Bundle)
  {
    && t.completed && t.complete && t.required != [] && |t.outcomes| == |t.required|
    && t.evaluationID == b.evaluationID && t.sessionID == b.sessionID
    && t.policy == Some(b.policy.reference) && t.required == b.policy.required && b.policy.refused.None?
  }

  /** What acceptance comes to, for a trace with its evidence: running each rule again gives what is recorded at its
      place, and the stored verdict is the worst status recorded. */
  ghost predicate Upheld(t: Trace, b: Bundle, rules: Rules, evidence: seq<Evidence>)
  {
    && Attributed(t, b)
    && (forall i :: 0 <= i < |t.required| ==> Again(t, rules, evidence, i))
    && t.verdict == Worst(t.outcomes)
  }

  predicate Again(t: Trace, rules: Rules, evidence: seq<Evidence>, i: nat)
    requires i < |t.required| == |t.outcomes|
  {
    var o := t.outcomes[i];
    o.ruleID == t.required[i] && rules(o.ruleID, evidence) == Ok(RuleDecision(o.status, o.reasons))
  }

  ghost predicate Sound(b: Bundle, rules: Rules)
  {
    exists t, evidence :: Presents(b.objects, t, evidence) && Upheld(t, b, rules, evidence)
  }

  lemma AgainIsMatched(t: Trace, rules: Rules, evidence: seq<Evidence>, i: nat)
    requires i < |t.required| == |t.outcomes|
    ensures Again(t, rules, evidence, i) <==> Matched(t, rules, evidence, i)
  {
  }

  lemma UpheldExactly(t: Trace, b: Bundle, rules: Rules, evidence: seq<Evidence>)
    ensures VerifyTrace(t, b, rules, evidence) == None <==> Upheld(t, b, rules, evidence)
  {
    hide Recheck, Matched, Again, Worst;
    if |t.required| == |t.outcomes| {
      RecheckExactly(t, rules, evidence, |t.required|);
      assert t.outcomes[..|t.required|] == t.outcomes;
      VerdictIsWorst(t.outcomes);
      forall i | 0 <= i < |t.required| ensures Again(t, rules, evidence, i) <==> Matched(t, rules, evidence, i) {
        AgainIsMatched(t, rules, evidence, i);
      }
    }
  }

  /** For every bundle and all rules: the verifier accepts exactly what it should. */
  lemma VerifiedExactly(b: Bundle, rules: Rules)
    ensures VerifyBundle(b, rules) == None <==> Sound(b, rules)
  {
    hide Inputs, VerifyTrace, Presents, Upheld;
    if VerifyBundle(b, rules) == None {
      var (t, evidence) := Inputs(b.objects).value;
      InputsExactly(b.objects, t, evidence);
      UpheldExactly(t, b, rules, evidence);
      assert Presents(b.objects, t, evidence) && Upheld(t, b, rules, evidence);
    }
    if Sound(b, rules) {
      var t, evidence :| Presents(b.objects, t, evidence) && Upheld(t, b, rules, evidence);
      InputsExactly(b.objects, t, evidence);
      UpheldExactly(t, b, rules, evidence);
    }
  }

  /** What the first place that does not match is refused for. */
  function Fault(t: Trace, rules: Rules, evidence: seq<Evidence>, i: nat): VerificationError
    requires i < |t.required| == |t.outcomes|
  {
    if t.outcomes[i].ruleID != t.required[i] then VerificationFailed
    else
      match rules(t.required[i], evidence)
      case Err(NotCompiled) => RuleNotCompiled
      case Err(ExecutionFailed) => VerificationFailed
      case Ok(_) => OutcomeMismatch
  }

  lemma {:induction false} RecheckFault(t: Trace, rules: Rules, evidence: seq<Evidence>, k: nat, n: nat)
    requires k < n <= |t.required| == |t.outcomes|
    requires (forall i :: 0 <= i < k ==> Matched(t, rules, evidence, i)) && !Matched(t, rules, evidence, k)
    ensures Recheck(t, rules, evidence, n) == Err(Fault(t, rules, evidence, k))
  {
    RecheckExactly(t, rules, evidence, k);
    RecheckFails(t, rules, evidence, k + 1, n);
  }

  /** Why a presented trace is refused: the first place that does not come out again decides, and only if all do, the
      verdict. */
  lemma RefusedExactly(b: Bundle, rules: Rules, t: Trace, evidence: seq<Evidence>)
    requires Presents(b.objects, t, evidence) && Attributed(t, b)
    ensures forall k :: 0 <= k < |t.required| && !Again(t, rules, evidence, k) && (forall i :: 0 <= i < k ==> Again(t, rules, evidence, i)) ==>
      VerifyBundle(b, rules) == Some(Fault(t, rules, evidence, k))
    ensures VerifyBundle(b, rules) == Some(DecisionMismatch) <==>
      (forall i :: 0 <= i < |t.required| ==> Again(t, rules, evidence, i)) && t.verdict != Worst(t.outcomes)
  {
    hide Inputs, Presents, Recheck, Matched, Again, Fault, Worst;
    InputsExactly(b.objects, t, evidence);
    RecheckExactly(t, rules, evidence, |t.required|);
    assert t.outcomes[..|t.required|] == t.outcomes;
    VerdictIsWorst(t.outcomes);
    forall i | 0 <= i < |t.required| ensures Again(t, rules, evidence, i) <==> Matched(t, rules, evidence, i) {
      AgainIsMatched(t, rules, evidence, i);
    }
    forall k | 0 <= k < |t.required| && !Again(t, rules, evidence, k) && (forall i :: 0 <= i < k ==> Again(t, rules, evidence, i))
      ensures Recheck(t, rules, evidence, |t.required|) == Err(Fault(t, rules, evidence, k))
    {
      RecheckFault(t, rules, evidence, k, |t.required|);
    }
    NoDecisionBefore(t, rules, evidence, |t.required|);
  }

  lemma {:induction false} NoDecisionBefore(t: Trace, rules: Rules, evidence: seq<Evidence>, n: nat)
    requires n <= |t.required| == |t.outcomes|
    ensures Recheck(t, rules, evidence, n) != Err(DecisionMismatch)
  {
    if n > 0 {
      NoDecisionBefore(t, rules, evidence, n - 1);
    }
  }

  method VerifyDecision(b: Bundle, rules: Rules) returns (err: Option<VerificationError>)
    ensures err == VerifyBundle(b, rules)
    ensures err.None? <==> Sound(b, rules)
  {
    hide Inputs, Recheck, Sound;
    VerifiedExactly(b, rules);
    var inputs := VerificationInputs(b.objects);
    if inputs.Err? {
      return Some(inputs.error);
    }
    var t, evidence := inputs.value.0, inputs.value.1;
    if !t.completed || t.required == [] || !t.complete || |t.outcomes| != |t.required| {
      return Some(OutsideScope);
    }
    if t.evaluationID != b.evaluationID || t.sessionID != b.sessionID || t.policy.None? || t.policy.value != b.policy.reference {
      return Some(VerificationFailed);
    }
    if t.required != b.policy.required {
      return Some(VerificationFailed);
    }
    if b.policy.refused.Some? {
      return b.policy.refused;
    }
    var result := RunAgain(t, rules, evidence);
    if result.Err? {
      return Some(result.error);
    }
    return if result.value != t.verdict then Some(DecisionMismatch) else None;
  }
}
