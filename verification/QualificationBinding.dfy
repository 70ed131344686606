/**
  Binding a qualification result to an evaluation: which results the aggregate accepts.
 */
module QualificationBinding {
  import opened Prelude
  import opened Text
  import opened Sorting
  import opened Qualification
  import E = Evaluation

  function CodeName(c: Code): string
  {
    match c
    case EvidenceUnavailable => "EVIDENCE_UNAVAILABLE"
    case IntegrityInvalid => "INTEGRITY_INVALID"
    case SourceUntrusted => "SOURCE_UNTRUSTED"
    case TypeNotAllowed => "TYPE_NOT_ALLOWED"
    case TimestampFuture => "TIMESTAMP_FUTURE"
    case EvidenceExpired => "EVIDENCE_EXPIRED"
    case ConfidenceMissing => "CONFIDENCE_MISSING"
    case ConfidenceLow => "CONFIDENCE_LOW"
    case ProvenanceMissing => "PROVENANCE_MISSING"
    case PayloadFieldMissing => "PAYLOAD_FIELD_MISSING"
    case AcquisitionDenied => "ACQUISITION_DENIED"
    case SessionMismatch => "SESSION_MISMATCH"
    case DuplicateObservation => "DUPLICATE_OBSERVATION"
    case ConflictingObservation => "CONFLICTING_OBSERVATION"
  }

  lemma FirstNames(c: Code)
    requires c.EvidenceUnavailable? || c.IntegrityInvalid? || c.SourceUntrusted? || c.TypeNotAllowed?
    ensures IsCode(CodeName(c))
  {
  }

  lemma SecondNames(c: Code)
    requires c.TimestampFuture? || c.EvidenceExpired? || c.ConfidenceMissing? || c.ConfidenceLow?
    ensures IsCode(CodeName(c))
  {
  }

  lemma ThirdNames(c: Code)
    requires c.ProvenanceMissing? || c.PayloadFieldMissing? || c.AcquisitionDenied?
    ensures IsCode(CodeName(c))
  {
  }

  lemma FourthNames(c: Code)
    requires c.SessionMismatch? || c.DuplicateObservation? || c.ConflictingObservation?
    ensures IsCode(CodeName(c))
  {
  }

  lemma CodeNamesAreCodes(c: Code)
    ensures IsCode(CodeName(c)) && Canonical(CodeName(c)) == CodeName(c)
  {
    hide CodeName, IsCode;
    if c.EvidenceUnavailable? || c.IntegrityInvalid? || c.SourceUntrusted? || c.TypeNotAllowed? {
      FirstNames(c);
    } else if c.TimestampFuture? || c.EvidenceExpired? || c.ConfidenceMissing? || c.ConfidenceLow? {
      SecondNames(c);
    } else if c.ProvenanceMissing? || c.PayloadFieldMissing? || c.AcquisitionDenied? {
      ThirdNames(c);
    } else {
      FourthNames(c);
    }
    CodesAreCanonical(CodeName(c));
  }

  /** The codes of the reasons, in order. */
  function Codes(reasons: seq<Reason>): (r: seq<string>)
    ensures |r| == |reasons|
  {
    if reasons == [] then []
    else Codes(reasons[..|reasons| - 1]) + [CodeName(reasons[|reasons| - 1].code)]
  }

  function Reference(e: Entry): E.EvidenceReference
  {
    E.EvidenceReference(e.id, e.status, Codes(e.reasons))
  }

  function BindingOf(r: SetResult): E.EvidenceBinding
  {
    E.EvidenceBinding(r.sessionID, r.status, r.policyVersion, r.at, Codes(r.reasons),
                      seq(|r.evidence|, i requires 0 <= i < |r.evidence| => Reference(r.evidence[i])))
  }

  lemma {:induction false} ReasonCodesNormalize(reasons: seq<Reason>)
    ensures E.NormalizeEvidenceReasons(Codes(reasons)).Ok?
    ensures E.NormalizeEvidenceReasons(Codes(reasons)).value == [] <==> reasons == []
  {
    hide CodeName;
    if reasons != [] {
      var n := |reasons| - 1;
      ReasonCodesNormalize(reasons[..n]);
      CodeNamesAreCodes(reasons[n].code);
      var codes := Codes(reasons);
      assert codes[..n] == Codes(reasons[..n]) && codes[n] == CodeName(reasons[n].code);
      CodeIsNotEmpty(CodeName(reasons[n].code));
    }
  }

  lemma CodeIsNotEmpty(s: string)
    requires IsCode(s)
    ensures s != ""
  {
  }

  /** A verdict is QUALIFIED exactly when it carries no reason. */
  ghost predicate Reasoned(e: Entry)
  {
    (e.status == E.Qualified <==> e.reasons == []) && E.ValidEvidenceStatus(e.status)
  }

  lemma VerdictIsReasoned(p: Policy, ordered: seq<Option<Object>>, session: Id, at: Time, stamp: Time -> string, i: nat)
    requires i < |ordered|
    ensures Reasoned(Verdict(p, ordered, session, at, stamp, i))
    ensures Verdict(p, ordered, session, at, stamp, i).id == if ordered[i].Some? then ordered[i].value.id else 0
  {
    hide ReasonsAgainst, Compared;
  }

  lemma ReferenceNormalizes(e: Entry)
    requires Reasoned(e)
    ensures E.NormalizeReference(Reference(e)).Ok? <==> e.id != 0
    ensures e.id != 0 ==> E.NormalizeReference(Reference(e)).value.status == e.status
  {
    hide Codes, E.NormalizeEvidenceReasons;
    ReasonCodesNormalize(e.reasons);
  }

  /** Every object is there, and no two share an identity. */
  predicate Identified(objects: seq<Option<Object>>)
  {
    && (forall i :: 0 <= i < |objects| ==> objects[i].Some? && objects[i].value.id != 0)
    && (forall i, j :: 0 <= i < j < |objects| ==> objects[i].value.id != objects[j].value.id)
  }

  /** Judged evidence as `Verdicts` gives it. */
  ghost predicate Listed(evidence: seq<Entry>, ordered: seq<Option<Object>>)
  {
    && |evidence| == |ordered|
    && forall i :: 0 <= i < |ordered| ==> Reasoned(evidence[i]) && evidence[i].id == if ordered[i].Some? then ordered[i].value.id else 0
  }

  lemma ReferencesNormalize(evidence: seq<Entry>, ordered: seq<Option<Object>>)
    requires Listed(evidence, ordered) && forall i :: 0 <= i < |ordered| && ordered[i].Some? ==> ordered[i].value.id != 0
    ensures var rs := seq(|evidence|, i requires 0 <= i < |evidence| => Reference(evidence[i]));
      && (E.NormalizeReferences(rs).Ok? <==> Identified(ordered))
      && (Identified(ordered) ==>
            && |E.NormalizeReferences(rs).value| == |evidence|
            && forall i :: 0 <= i < |evidence| ==> E.NormalizeReferences(rs).value[i].status == evidence[i].status)
  {
    hide Reference, E.NormalizeReference;
    var rs := seq(|evidence|, i requires 0 <= i < |evidence| => Reference(evidence[i]));
    forall i | 0 <= i < |evidence|
      ensures E.NormalizeReference(rs[i]).Ok? <==> ordered[i].Some?
      ensures ordered[i].Some? ==> E.NormalizeReference(rs[i]).value.status == evidence[i].status
      ensures rs[i].evidenceID == evidence[i].id
    {
      ReferenceNormalizes(evidence[i]);
      ReferenceID(evidence[i]);
    }
  }

  lemma ReferenceID(e: Entry)
    ensures Reference(e).evidenceID == e.id
  {
  }

  /** Sorting moves objects about; it neither adds nor drops any. */
  lemma IdentifiedWhenSorted(objects: seq<Option<Object>>)
    ensures Identified(objects) <==> Identified(Ordered(objects))
  {
    hide Ordered;
    if Identified(objects) { IdentifiedAgain(objects, Ordered(objects)); }
    if Identified(Ordered(objects)) { IdentifiedAgain(Ordered(objects), objects); }
  }

  lemma IdentifiedAgain(xs: seq<Option<Object>>, ys: seq<Option<Object>>)
    requires Identified(xs) && multiset(xs) == multiset(ys)
    ensures Identified(ys)
  {
    InMultiset(ys, xs);
    forall i, j | 0 <= i < j < |ys| ensures ys[i].value.id != ys[j].value.id {
      var k, l := PairAgain(xs, ys, i, j);
      assert k < l || l < k;
    }
  }

  lemma OverallAccepted(p: Policy, session: Id, at: Time, evidence: seq<Entry>, ordered: seq<Option<Object>>)
    requires session != 0 && at != 0 && TrimSpace(p.version) != "" && Listed(evidence, ordered)
    requires forall i :: 0 <= i < |ordered| && ordered[i].Some? ==> ordered[i].value.id != 0
    ensures E.NormalizeEvidence(BindingOf(Overall(p, session, at, evidence))).Ok? <==> Identified(ordered)
  {
    hide E.NormalizeReferences, E.NormalizeEvidenceReasons, Codes, Identified, Reference, TrimSpace, Reasoned;
    var r := Overall(p, session, at, evidence);
    ReferencesNormalize(evidence, ordered);
    ReasonCodesNormalize(r.reasons);
    assert BindingOf(r).evidence == seq(|evidence|, i requires 0 <= i < |evidence| => Reference(evidence[i]));
  }

  /** The result of qualifying a set is a well-formed binding exactly when every object was there and no two
      shared an identity. An empty set, a rejected set and a qualified set are all acceptable. */
  lemma BindingAcceptedExactly(p: Policy, session: Id, objects: seq<Option<Object>>, at: Time, stamp: Time -> string)
    requires session != 0 && at != 0 && TrimSpace(p.version) != ""
    requires forall i :: 0 <= i < |objects| && objects[i].Some? ==> objects[i].value.id != 0
    ensures E.NormalizeEvidence(BindingOf(Expected(p, session, objects, at, stamp).value)).Ok? <==> Identified(objects)
  {
    hide Ordered, E.NormalizeEvidence, BindingOf, Overall, Identified, TrimSpace, Verdict;
    var ordered := Ordered(objects);
    var evidence := Verdicts(p, ordered, session, at, stamp);
    IdentifiedWhenSorted(objects);
    IdsStayNonzero(objects);
    forall i | 0 <= i < |ordered| ensures Reasoned(evidence[i]) && evidence[i].id == if ordered[i].Some? then ordered[i].value.id else 0 {
      VerdictIsReasoned(p, ordered, session, at, stamp, i);
    }
    OverallAccepted(p, session, at, evidence, ordered);
  }

  /** A running or new evaluation of the session, without outcomes and bound to no other evidence, binds the result of
      qualifying a set exactly when every object was there and no two shared an identity. */
  lemma AggregateBindsExactly(s: E.Aggregate, p: Policy, session: Id, objects: seq<Option<Object>>, at: Time, stamp: Time -> string)
    requires session != 0 && at != 0 && TrimSpace(p.version) != ""
    requires forall i :: 0 <= i < |objects| && objects[i].Some? ==> objects[i].value.id != 0
    ensures var b := BindingOf(Expected(p, session, objects, at, stamp).value);
      E.BindEvidence(s, b).error.None? <==>
        && Identified(objects) && !s.phase.Terminal() && s.outcomes == [] && s.sessionID == session
        && (s.evidence.Some? ==> E.NormalizeEvidence(b).Ok? && s.evidence.value == E.NormalizeEvidence(b).value)
  {
    hide E.NormalizeEvidence, Overall, Verdicts, Ordered, BindingOf, Identified, TrimSpace;
    var b := BindingOf(Expected(p, session, objects, at, stamp).value);
    BindingAcceptedExactly(p, session, objects, at, stamp);
    BindingNamesSession(p, session, objects, at, stamp);
    if E.NormalizeEvidence(b).Ok? {
      NormalizedKeepsSession(b);
    }
  }

  lemma BindingNamesSession(p: Policy, session: Id, objects: seq<Option<Object>>, at: Time, stamp: Time -> string)
    requires session != 0 && at != 0
    ensures BindingOf(Expected(p, session, objects, at, stamp).value).sessionID == session
  {
    hide Verdicts, Ordered, Codes, Reference;
  }

  lemma NormalizedKeepsSession(b: E.EvidenceBinding)
    requires E.NormalizeEvidence(b).Ok?
    ensures E.NormalizeEvidence(b).value.sessionID == b.sessionID
  {
    hide E.NormalizeReferences, E.NormalizeEvidenceReasons, E.CoherentEvidence, TrimSpace;
  }

  /** A missing object makes the result unacceptable. */
  lemma MissingObjectIsRefused(p: Policy, session: Id, at: Time, stamp: Time -> string)
    requires session != 0 && at != 0 && TrimSpace(p.version) != ""
    ensures E.NormalizeEvidence(BindingOf(Expected(p, session, [None], at, stamp).value)).Err?
  {
    hide E.NormalizeEvidence, Expected, BindingOf, TrimSpace;
    var objects: seq<Option<Object>> := [None];
    BindingAcceptedExactly(p, session, objects, at, stamp);
    assert objects[0].None?;
  }

  /** So do two objects that share an identity, whatever else they hold. */
  lemma SharedIdentityIsRefused(p: Policy, session: Id, a: Object, b: Object, at: Time, stamp: Time -> string)
    requires session != 0 && at != 0 && TrimSpace(p.version) != "" && a.id == b.id != 0
    ensures E.NormalizeEvidence(BindingOf(Expected(p, session, [Some(a), Some(b)], at, stamp).value)).Err?
  {
    hide E.NormalizeEvidence, Expected, BindingOf, TrimSpace;
    var objects := [Some(a), Some(b)];
    BindingAcceptedExactly(p, session, objects, at, stamp);
    assert objects[0].value.id == objects[1].value.id;
  }

  lemma IdsStayNonzero(objects: seq<Option<Object>>)
    requires forall i :: 0 <= i < |objects| && objects[i].Some? ==> objects[i].value.id != 0
    ensures forall i :: 0 <= i < |Ordered(objects)| && Ordered(objects)[i].Some? ==> Ordered(objects)[i].value.id != 0
  {
    hide Ordered;
    InMultiset(Ordered(objects), objects);
  }
}
