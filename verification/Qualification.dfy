/**
  Qualifying the evidence of a session. Each object is judged on its own; then objects of
  one source, type and instant are compared with each other. The set is sorted first, and
  the comparison walks a map of groups, so neither order may show in the result.
 */
module Qualification {
  import opened Prelude
  import opened Text
  import opened Sorting
  import E = Evaluation

  datatype Code =
    | EvidenceUnavailable | IntegrityInvalid | SourceUntrusted | TypeNotAllowed | TimestampFuture | EvidenceExpired
    | ConfidenceMissing | ConfidenceLow | ProvenanceMissing | PayloadFieldMissing | AcquisitionDenied
    | SessionMismatch | DuplicateObservation | ConflictingObservation

  datatype Reason = Reason(code: Code, field: string)

  /** `intact` stands for the integrity check of the object, `fields` for the payload members that are not null. */
  datatype Object = Object(
    id: Id, sessionID: Id, evidenceType: string, sourceID: string, observedAt: Time, digest: string, method_: string,
    intact: bool, confidence: Option<real>, provenance: map<string, string>, fields: set<string>)

  datatype Policy = Policy(
    version: string, trustedSources: map<string, bool>, allowedTypes: map<string, bool>, allowedMethods: map<string, bool>,
    maxAge: int, futureTolerance: int, requireConfidence: bool, minimumConfidence: Option<real>,
    requiredProvenance: seq<string>, requiredFields: seq<string>)

  datatype Entry = Entry(id: Id, status: E.EvidenceStatus, reasons: seq<Reason>)

  datatype SetResult = SetResult(sessionID: Id, status: E.EvidenceStatus, at: Time, policyVersion: string, reasons: seq<Reason>, evidence: seq<Entry>)

  datatype QualificationError = SessionIDRequired | QualificationTimeRequired

  // One object ---------------------------------------------------------------------------------

  function When(condition: bool, code: Code, field: string): seq<Reason>
  {
    if condition then [Reason(code, field)] else []
  }

  predicate Denied(allowed: map<string, bool>, value: string)
  {
    |allowed| > 0 && !(value in allowed && allowed[value])
  }

  function Timing(p: Policy, o: Object, at: Time): seq<Reason>
  {
    if o.observedAt > at + p.futureTolerance then [Reason(TimestampFuture, "observed_at")]
    else When(p.maxAge > 0 && Sub(at, o.observedAt) > p.maxAge, EvidenceExpired, "observed_at")
  }

  function Confidence(p: Policy, o: Object): seq<Reason>
  {
    if o.confidence.None? then When(p.requireConfidence || p.minimumConfidence.Some?, ConfidenceMissing, "confidence")
    else When(p.minimumConfidence.Some? && o.confidence.value < p.minimumConfidence.value, ConfidenceLow, "confidence")
  }

  predicate HasProvenance(o: Object, key: string)
  {
    key in o.provenance && TrimSpace(o.provenance[key]) != ""
  }

  function MissingProvenance(o: Object, keys: seq<string>): seq<Reason>
  {
    if keys == [] then []
    else
      var n := |keys| - 1;
      MissingProvenance(o, keys[..n]) + When(!HasProvenance(o, keys[n]), ProvenanceMissing, keys[n])
  }

  function MissingFields(o: Object, keys: seq<string>): seq<Reason>
  {
    if keys == [] then []
    else
      var n := |keys| - 1;
      MissingFields(o, keys[..n]) + When(keys[n] !in o.fields, PayloadFieldMissing, keys[n])
  }

  function ReasonsAgainst(p: Policy, o: Object, at: Time): seq<Reason>
  {
    if !o.intact then [Reason(IntegrityInvalid, "integrity")]
    else
      When(Denied(p.trustedSources, o.sourceID), SourceUntrusted, "source_id")
      + When(Denied(p.allowedTypes, o.evidenceType), TypeNotAllowed, "evidence_type")
      + Timing(p, o, at) + Confidence(p, o)
      + MissingProvenance(o, p.requiredProvenance) + MissingFields(o, p.requiredFields)
      + When(Denied(p.allowedMethods, o.method_), AcquisitionDenied, "acquisition_method")
  }

  function Judged(p: Policy, x: Option<Object>, at: Time): Entry
  {
    match x
    case None => Entry(0, E.Unavailable, [Reason(EvidenceUnavailable, "")])
    case Some(o) =>
      var reasons := ReasonsAgainst(p, o, at);
      Entry(o.id, if reasons == [] then E.Qualified else E.EvidenceRejected, reasons)
  }

  // What speaks against an object, on its own fields ------------------------------------------------

  /** An empty list restricts nothing. */
  predicate Trusted(allowed: map<string, bool>, value: string)
  {
    allowed == map[] || (value in allowed && allowed[value])
  }

  /** No demand on the age, or young enough; the largest duration is no demand, since ages saturate there. */
  predicate Recent(p: Policy, o: Object, at: Time)
  {
    p.maxAge <= 0 || p.maxAge >= MAX_DURATION || at - o.observedAt <= p.maxAge
  }

  /** The object meets every demand of the policy. */
  ghost predicate Fit(p: Policy, o: Object, at: Time)
  {
    && o.intact
    && Trusted(p.trustedSources, o.sourceID) && Trusted(p.allowedTypes, o.evidenceType) && Trusted(p.allowedMethods, o.method_)
    && o.observedAt <= at + p.futureTolerance && Recent(p, o, at)
    && (p.requireConfidence || p.minimumConfidence.Some? ==> o.confidence.Some?)
    && (p.minimumConfidence.Some? && o.confidence.Some? ==> p.minimumConfidence.value <= o.confidence.value)
    && (forall k :: k in p.requiredProvenance ==> k in o.provenance && TrimSpace(o.provenance[k]) != "")
    && (forall k :: k in p.requiredFields ==> k in o.fields)
  }

  /** Each reason and what it is given for; a broken object is given no other. */
  predicate Cause(p: Policy, o: Object, at: Time, r: Reason)
  {
    if r.code == IntegrityInvalid then !o.intact && r.field == "integrity"
    else
      && o.intact
      && match r.code
         case SourceUntrusted => !Trusted(p.trustedSources, o.sourceID) && r.field == "source_id"
         case TypeNotAllowed => !Trusted(p.allowedTypes, o.evidenceType) && r.field == "evidence_type"
         case AcquisitionDenied => !Trusted(p.allowedMethods, o.method_) && r.field == "acquisition_method"
         case TimestampFuture => o.observedAt > at + p.futureTolerance && r.field == "observed_at"
         case EvidenceExpired => o.observedAt <= at + p.futureTolerance && !Recent(p, o, at) && r.field == "observed_at"
         case ConfidenceMissing => (p.requireConfidence || p.minimumConfidence.Some?) && o.confidence.None? && r.field == "confidence"
         case ConfidenceLow =>
           && p.minimumConfidence.Some? && o.confidence.Some? && o.confidence.value < p.minimumConfidence.value
           && r.field == "confidence"
         case ProvenanceMissing =>
           r.field in p.requiredProvenance && !(r.field in o.provenance && TrimSpace(o.provenance[r.field]) != "")
         case PayloadFieldMissing => r.field in p.requiredFields && r.field !in o.fields
         case _ => false
  }

  lemma DeniedIsUntrusted(allowed: map<string, bool>, value: string)
    ensures Denied(allowed, value) <==> !Trusted(allowed, value)
  {
  }

  lemma TimingExactly(p: Policy, o: Object, at: Time, r: Reason)
    ensures r in Timing(p, o, at) <==>
      || (r == Reason(TimestampFuture, "observed_at") && o.observedAt > at + p.futureTolerance)
      || (r == Reason(EvidenceExpired, "observed_at") && o.observedAt <= at + p.futureTolerance && !Recent(p, o, at))
  {
  }

  lemma {:induction false} ProvenanceExactly(o: Object, keys: seq<string>, r: Reason)
    ensures r in MissingProvenance(o, keys) <==> r.code == ProvenanceMissing && r.field in keys && !HasProvenance(o, r.field)
  {
    hide HasProvenance;
    if keys != [] {
      var n := |keys| - 1;
      ProvenanceExactly(o, keys[..n], r);
      assert keys == keys[..n] + [keys[n]];
    }
  }

  lemma {:induction false} FieldsExactly(o: Object, keys: seq<string>, r: Reason)
    ensures r in MissingFields(o, keys) <==> r.code == PayloadFieldMissing && r.field in keys && r.field !in o.fields
  {
    if keys != [] {
      var n := |keys| - 1;
      FieldsExactly(o, keys[..n], r);
      assert keys == keys[..n] + [keys[n]];
    }
  }

  /** A reason is given exactly for its own cause. */
  lemma ReasonsExactly(p: Policy, o: Object, at: Time, r: Reason)
    ensures r in ReasonsAgainst(p, o, at) <==> Cause(p, o, at, r)
  {
    hide Timing, MissingProvenance, MissingFields, Trusted, Denied, Recent, TrimSpace;
    DeniedIsUntrusted(p.trustedSources, o.sourceID);
    DeniedIsUntrusted(p.allowedTypes, o.evidenceType);
    DeniedIsUntrusted(p.allowedMethods, o.method_);
    TimingExactly(p, o, at, r);
    ProvenanceExactly(o, p.requiredProvenance, r);
    FieldsExactly(o, p.requiredFields, r);
  }

  /** Nothing speaks against an object exactly if it meets every demand. */
  lemma FitExactly(p: Policy, o: Object, at: Time)
    ensures ReasonsAgainst(p, o, at) == [] <==> Fit(p, o, at)
  {
    hide ReasonsAgainst, Trusted, Recent, TrimSpace;
    if ReasonsAgainst(p, o, at) != [] {
      ReasonsExactly(p, o, at, ReasonsAgainst(p, o, at)[0]);
    } else if !Fit(p, o, at) {
      var r := SomeCause(p, o, at);
      ReasonsExactly(p, o, at, r);
    }
  }

  lemma SomeCause(p: Policy, o: Object, at: Time) returns (r: Reason)
    requires !Fit(p, o, at)
    ensures Cause(p, o, at, r)
  {
    hide Trusted, Recent, TrimSpace;
    if !o.intact { r := Reason(IntegrityInvalid, "integrity"); }
    else if !Trusted(p.trustedSources, o.sourceID) { r := Reason(SourceUntrusted, "source_id"); }
    else if !Trusted(p.allowedTypes, o.evidenceType) { r := Reason(TypeNotAllowed, "evidence_type"); }
    else if !Trusted(p.allowedMethods, o.method_) { r := Reason(AcquisitionDenied, "acquisition_method"); }
    else if o.observedAt > at + p.futureTolerance { r := Reason(TimestampFuture, "observed_at"); }
    else if !Recent(p, o, at) { r := Reason(EvidenceExpired, "observed_at"); }
    else if (p.requireConfidence || p.minimumConfidence.Some?) && o.confidence.None? { r := Reason(ConfidenceMissing, "confidence"); }
    else if p.minimumConfidence.Some? && o.confidence.value < p.minimumConfidence.value { r := Reason(ConfidenceLow, "confidence"); }
    else if k :| k in p.requiredProvenance && !(k in o.provenance && TrimSpace(o.provenance[k]) != "") { r := Reason(ProvenanceMissing, k); }
    else {
      var k :| k in p.requiredFields && k !in o.fields;
      r := Reason(PayloadFieldMissing, k);
    }
  }

  function Rank(c: Code): nat
  {
    match c
    case SourceUntrusted => 1
    case TypeNotAllowed => 2
    case TimestampFuture => 3
    case EvidenceExpired => 3
    case ConfidenceMissing => 4
    case ConfidenceLow => 4
    case ProvenanceMissing => 5
    case PayloadFieldMissing => 6
    case _ => 7
  }

  ghost predicate Ascends(rs: seq<Reason>)
  {
    forall i, j :: 0 <= i < j < |rs| ==> Rank(rs[i].code) <= Rank(rs[j].code)
  }

  lemma {:induction false} OneCode(o: Object, keys: seq<string>)
    ensures forall i :: 0 <= i < |MissingProvenance(o, keys)| ==> MissingProvenance(o, keys)[i].code == ProvenanceMissing
    ensures forall i :: 0 <= i < |MissingFields(o, keys)| ==> MissingFields(o, keys)[i].code == PayloadFieldMissing
  {
    hide HasProvenance;
    if keys != [] {
      OneCode(o, keys[..|keys| - 1]);
    }
  }

  /** Ascending, with every rank within the bounds. */
  ghost predicate Ranked(rs: seq<Reason>, low: nat, high: nat)
  {
    Ascends(rs) && forall i :: 0 <= i < |rs| ==> low <= Rank(rs[i].code) <= high
  }

  lemma Joined(xs: seq<Reason>, ys: seq<Reason>, low: nat, middle: nat, next: nat, high: nat)
    requires Ranked(xs, low, middle) && Ranked(ys, next, high) && low <= middle <= next <= high
    ensures Ranked(xs + ys, low, high)
  {
    hide Rank;
  }

  lemma OneRanked(condition: bool, code: Code, field: string)
    ensures Ranked(When(condition, code, field), Rank(code), Rank(code))
  {
    hide Rank;
  }

  /** The reasons come in one order, that of the checks. */
  lemma ReasonsAscend(p: Policy, o: Object, at: Time)
    ensures Ascends(ReasonsAgainst(p, o, at))
  {
    hide Denied, MissingProvenance, MissingFields, Timing, Confidence, When, Ascends;
    OneCode(o, p.requiredProvenance);
    OneCode(o, p.requiredFields);
    var a := When(Denied(p.trustedSources, o.sourceID), SourceUntrusted, "source_id");
    var b := When(Denied(p.allowedTypes, o.evidenceType), TypeNotAllowed, "evidence_type");
    var g := When(Denied(p.allowedMethods, o.method_), AcquisitionDenied, "acquisition_method");
    OneRanked(Denied(p.trustedSources, o.sourceID), SourceUntrusted, "source_id");
    OneRanked(Denied(p.allowedTypes, o.evidenceType), TypeNotAllowed, "evidence_type");
    OneRanked(Denied(p.allowedMethods, o.method_), AcquisitionDenied, "acquisition_method");
    PartsRanked(p, o, at);
    Joined(a, b, 1, 1, 2, 2);
    Joined(a + b, Timing(p, o, at), 1, 2, 3, 3);
    Joined(a + b + Timing(p, o, at), Confidence(p, o), 1, 3, 4, 4);
    Joined(a + b + Timing(p, o, at) + Confidence(p, o), MissingProvenance(o, p.requiredProvenance), 1, 4, 5, 5);
    var e := a + b + Timing(p, o, at) + Confidence(p, o) + MissingProvenance(o, p.requiredProvenance);
    Joined(e, MissingFields(o, p.requiredFields), 1, 5, 6, 6);
    Joined(e + MissingFields(o, p.requiredFields), g, 1, 6, 7, 7);
    if !o.intact {
      OnlyOne(Reason(IntegrityInvalid, "integrity"));
    }
  }

  lemma OnlyOne(r: Reason)
    ensures Ascends([r])
  {
  }

  lemma PartsRanked(p: Policy, o: Object, at: Time)
    ensures Ranked(Timing(p, o, at), 3, 3) && Ranked(Confidence(p, o), 4, 4)
    ensures Ranked(MissingProvenance(o, p.requiredProvenance), 5, 5) && Ranked(MissingFields(o, p.requiredFields), 6, 6)
  {
    hide MissingProvenance, MissingFields, Sub;
    OneCode(o, p.requiredProvenance);
    OneCode(o, p.requiredFields);
  }

  method Qualify(p: Policy, x: Option<Object>, at: Time) returns (r: Result<Entry, QualificationError>)
    ensures r == if at == 0 then Err(QualificationTimeRequired) else Ok(Judged(p, x, at))
    ensures r.Ok? && r.value.status == E.Qualified <==> at != 0 && x.Some? && Fit(p, x.value, at)
  {
    if x.Some? { FitExactly(p, x.value, at); }
    hide Fit, Timing, Confidence, HasProvenance, Denied;
    if at == 0 {
      return Err(QualificationTimeRequired);
    }
    if x.None? {
      return Ok(Entry(0, E.Unavailable, [Reason(EvidenceUnavailable, "")]));
    }
    var o := x.value;
    if !o.intact {
      return Ok(Entry(o.id, E.EvidenceRejected, [Reason(IntegrityInvalid, "integrity")]));
    }
    var reasons: seq<Reason> := [];
    if Denied(p.trustedSources, o.sourceID) {
      reasons := reasons + [Reason(SourceUntrusted, "source_id")];
    }
    if Denied(p.allowedTypes, o.evidenceType) {
      reasons := reasons + [Reason(TypeNotAllowed, "evidence_type")];
    }
    assert reasons == When(Denied(p.trustedSources, o.sourceID), SourceUntrusted, "source_id")
                      + When(Denied(p.allowedTypes, o.evidenceType), TypeNotAllowed, "evidence_type");
    reasons := reasons + Timing(p, o, at) + Confidence(p, o);
    ghost var before := reasons;
    for i := 0 to |p.requiredProvenance|
      invariant reasons == before + MissingProvenance(o, p.requiredProvenance[..i])
    {
      assert p.requiredProvenance[..i + 1][..i] == p.requiredProvenance[..i];
      if !HasProvenance(o, p.requiredProvenance[i]) {
        reasons := reasons + [Reason(ProvenanceMissing, p.requiredProvenance[i])];
      }
    }
    assert p.requiredProvenance[..|p.requiredProvenance|] == p.requiredProvenance;
    before := reasons;
    for i := 0 to |p.requiredFields|
      invariant reasons == before + MissingFields(o, p.requiredFields[..i])
    {
      assert p.requiredFields[..i + 1][..i] == p.requiredFields[..i];
      if p.requiredFields[i] !in o.fields {
        reasons := reasons + [Reason(PayloadFieldMissing, p.requiredFields[i])];
      }
    }
    assert p.requiredFields[..|p.requiredFields|] == p.requiredFields;
    if Denied(p.allowedMethods, o.method_) {
      reasons := reasons + [Reason(AcquisitionDenied, "acquisition_method")];
    }
    assert reasons == ReasonsAgainst(p, o, at);
    return Ok(Entry(o.id, if |reasons| > 0 then E.EvidenceRejected else E.Qualified, reasons));
  }

  // The set ------------------------------------------------------------------------------------------

  /** By time, then by identity; what is missing comes last. */
  predicate Precedes(a: Option<Object>, b: Option<Object>)
  {
    if a.None? then false
    else if b.None? then true
    else if a.value.observedAt == b.value.observedAt then a.value.id < b.value.id
    else a.value.observedAt < b.value.observedAt
  }

  predicate InSession(x: Option<Object>, session: Id)
  {
    x.Some? && x.value.sessionID == session
  }

  const NUL: char := '\0'

  /** Source, type and instant as text; `stamp` is the time format. */
  function GroupKey(o: Object, stamp: Time -> string): string
  {
    o.sourceID + [NUL] + o.evidenceType + [NUL] + stamp(o.observedAt)
  }

  predicate Grouped(x: Option<Object>, session: Id, stamp: Time -> string, key: string)
  {
    InSession(x, session) && GroupKey(x.value, stamp) == key
  }

  predicate Peers(ordered: seq<Option<Object>>, session: Id, stamp: Time -> string, i: nat, j: nat)
    requires i < |ordered| && j < |ordered|
  {
    InSession(ordered[i], session) && Grouped(ordered[j], session, stamp, GroupKey(ordered[i].value, stamp))
  }

  /** Another observation of the same thing says something else. */
  predicate Conflicted(ordered: seq<Option<Object>>, session: Id, stamp: Time -> string, i: nat)
    requires i < |ordered|
  {
    exists j :: 0 <= j < |ordered| && Peers(ordered, session, stamp, i, j) && ordered[j].value.digest != ordered[i].value.digest
  }

  /** The same thing was observed before. */
  predicate Repeated(ordered: seq<Option<Object>>, session: Id, stamp: Time -> string, i: nat)
    requires i < |ordered|
  {
    exists j :: 0 <= j < i && Peers(ordered, session, stamp, i, j)
  }

  function Compared(ordered: seq<Option<Object>>, session: Id, stamp: Time -> string, i: nat): seq<Reason>
    requires i < |ordered|
  {
    if !InSession(ordered[i], session) then []
    else if Conflicted(ordered, session, stamp, i) then [Reason(ConflictingObservation, "payload")]
    else if Repeated(ordered, session, stamp, i) then [Reason(DuplicateObservation, "evidence_id")]
    else []
  }

  function Alone(p: Policy, x: Option<Object>, session: Id, at: Time): Entry
  {
    var e := Judged(p, x, at);
    if x.Some? && x.value.sessionID != session then e.(reasons := e.reasons + [Reason(SessionMismatch, "session_id")]) else e
  }

  function Settled(e: Entry): Entry
  {
    if e.reasons != [] && e.status == E.Qualified then e.(status := E.EvidenceRejected) else e
  }

  /** What becomes of one object of the sorted set. */
  function Verdict(p: Policy, ordered: seq<Option<Object>>, session: Id, at: Time, stamp: Time -> string, i: nat): Entry
    requires i < |ordered|
  {
    var e := Alone(p, ordered[i], session, at);
    Settled(e.(reasons := e.reasons + Compared(ordered, session, stamp, i)))
  }

  function Ordered(objects: seq<Option<Object>>): (r: seq<Option<Object>>)
    ensures multiset(r) == multiset(objects)
  {
    StableSort(objects, Precedes)
  }

  function Verdicts(p: Policy, ordered: seq<Option<Object>>, session: Id, at: Time, stamp: Time -> string): (r: seq<Entry>)
    ensures |r| == |ordered|
    ensures forall i :: 0 <= i < |r| ==> r[i] == Verdict(p, ordered, session, at, stamp, i)
  {
    seq(|ordered|, i requires 0 <= i < |ordered| => Verdict(p, ordered, session, at, stamp, i))
  }

  predicate AllQualified(evidence: seq<Entry>)
  {
    forall i :: 0 <= i < |evidence| ==> evidence[i].status == E.Qualified
  }

  function Overall(p: Policy, session: Id, at: Time, evidence: seq<Entry>): SetResult
  {
    if evidence == [] then SetResult(session, E.Unavailable, at, p.version, [Reason(EvidenceUnavailable, "")], [])
    else SetResult(session, if AllQualified(evidence) then E.Qualified else E.EvidenceRejected, at, p.version, [], evidence)
  }

  function Expected(p: Policy, session: Id, objects: seq<Option<Object>>, at: Time, stamp: Time -> string): Result<SetResult, QualificationError>
  {
    if session == 0 then Err(SessionIDRequired)
    else if at == 0 then Err(QualificationTimeRequired)
    else Ok(Overall(p, session, at, Verdicts(p, Ordered(objects), session, at, stamp)))
  }

  // The groups -----------------------------------------------------------------------------------------

  /** The places of one group among the first `n`, ascending. */
  function Members(ordered: seq<Option<Object>>, session: Id, stamp: Time -> string, key: string, n: nat): seq<nat>
    requires n <= |ordered|
  {
    if n == 0 then []
    else Members(ordered, session, stamp, key, n - 1) + if Grouped(ordered[n - 1], session, stamp, key) then [n - 1] else []
  }

  lemma {:induction false} MembersAre(ordered: seq<Option<Object>>, session: Id, stamp: Time -> string, key: string, n: nat)
    requires n <= |ordered|
    ensures var g := Members(ordered, session, stamp, key, n);
      && (forall k :: 0 <= k < |g| ==> g[k] < n && Grouped(ordered[g[k]], session, stamp, key))
      && (forall k, l :: 0 <= k < l < |g| ==> g[k] < g[l])
      && (forall i :: 0 <= i < n && Grouped(ordered[i], session, stamp, key) ==> i in g)
  {
    hide Grouped;
    if n > 0 {
      MembersAre(ordered, session, stamp, key, n - 1);
    }
  }

  /** Whether a group disagrees, as the loop decides it: against its first member only. */
  predicate Disagrees(ordered: seq<Option<Object>>, g: seq<nat>)
    requires forall k :: 0 <= k < |g| ==> g[k] < |ordered| && ordered[g[k]].Some?
  {
    exists k :: 1 <= k < |g| && ordered[g[k]].value.digest != ordered[g[0]].value.digest
  }

  lemma MembersPresent(ordered: seq<Option<Object>>, session: Id, stamp: Time -> string, key: string)
    ensures var g := Members(ordered, session, stamp, key, |ordered|);
      forall k :: 0 <= k < |g| ==> g[k] < |ordered| && ordered[g[k]].Some?
  {
    MembersAre(ordered, session, stamp, key, |ordered|);
  }

  /** The group decides about each of its members what comparing it with all others would. */
  lemma GroupDecides(ordered: seq<Option<Object>>, session: Id, stamp: Time -> string, key: string, i: nat)
    requires i < |ordered| && Grouped(ordered[i], session, stamp, key)
    ensures var g := Members(ordered, session, stamp, key, |ordered|);
      && g != [] && g[0] < |ordered| && (forall k :: 0 <= k < |g| ==> g[k] < |ordered| && ordered[g[k]].Some?)
      && (Conflicted(ordered, session, stamp, i) <==> Disagrees(ordered, g))
      && (Repeated(ordered, session, stamp, i) <==> i != g[0])
  {
    hide GroupKey, Members, Conflicted, Disagrees, Repeated;
    MembersAre(ordered, session, stamp, key, |ordered|);
    var g := Members(ordered, session, stamp, key, |ordered|);
    assert i in g;
    ConflictDecided(ordered, session, stamp, key, i, g);
    RepeatDecided(ordered, session, stamp, key, i, g);
  }

  /** The places of a group: all of it, in order. */
  ghost predicate IsGroup(ordered: seq<Option<Object>>, session: Id, stamp: Time -> string, key: string, g: seq<nat>)
  {
    && (forall k :: 0 <= k < |g| ==> g[k] < |ordered| && Grouped(ordered[g[k]], session, stamp, key))
    && (forall k, l :: 0 <= k < l < |g| ==> g[k] < g[l])
    && (forall i :: 0 <= i < |ordered| && Grouped(ordered[i], session, stamp, key) ==> i in g)
  }

  lemma ConflictDecided(ordered: seq<Option<Object>>, session: Id, stamp: Time -> string, key: string, i: nat, g: seq<nat>)
    requires i < |ordered| && Grouped(ordered[i], session, stamp, key) && IsGroup(ordered, session, stamp, key, g) && i in g
    ensures Conflicted(ordered, session, stamp, i) <==> Disagrees(ordered, g)
  {
    hide GroupKey;
    var m :| 0 <= m < |g| && g[m] == i;
    if Conflicted(ordered, session, stamp, i) {
      var j :| 0 <= j < |ordered| && Peers(ordered, session, stamp, i, j) && ordered[j].value.digest != ordered[i].value.digest;
      assert j in g;
      var l :| 0 <= l < |g| && g[l] == j;
      assert ordered[g[m]].value.digest != ordered[g[0]].value.digest || ordered[g[l]].value.digest != ordered[g[0]].value.digest;
    }
    if Disagrees(ordered, g) {
      var k :| 1 <= k < |g| && ordered[g[k]].value.digest != ordered[g[0]].value.digest;
      assert Peers(ordered, session, stamp, i, g[k]) && Peers(ordered, session, stamp, i, g[0]);
    }
  }

  lemma RepeatDecided(ordered: seq<Option<Object>>, session: Id, stamp: Time -> string, key: string, i: nat, g: seq<nat>)
    requires i < |ordered| && Grouped(ordered[i], session, stamp, key) && IsGroup(ordered, session, stamp, key, g) && i in g
    ensures Repeated(ordered, session, stamp, i) <==> i != g[0]
  {
    hide GroupKey;
    var m :| 0 <= m < |g| && g[m] == i;
    if i != g[0] {
      assert g[0] < g[m];
      assert Peers(ordered, session, stamp, i, g[0]);
    }
    if Repeated(ordered, session, stamp, i) {
      var j :| 0 <= j < i && Peers(ordered, session, stamp, i, j);
      assert j in g;
      var l :| 0 <= l < |g| && g[l] == j;
      assert g[0] <= g[l];
    }
  }

  // The loops --------------------------------------------------------------------------------------------

  function Noted(e: Entry, r: Reason): Entry
  {
    e.(reasons := e.reasons + [r])
  }

  /** Appends one reason to each of the listed entries. */
  method Note(evidence: seq<Entry>, places: seq<nat>, r: Reason) returns (out: seq<Entry>)
    requires forall k :: 0 <= k < |places| ==> places[k] < |evidence|
    requires forall k, l :: 0 <= k < l < |places| ==> places[k] < places[l]
    ensures |out| == |evidence|
    ensures forall i :: 0 <= i < |evidence| ==> out[i] == if i in places then Noted(evidence[i], r) else evidence[i]
  {
    hide Noted;
    out := evidence;
    for k := 0 to |places|
      invariant |out| == |evidence|
      invariant forall i :: 0 <= i < |evidence| ==> out[i] == if i in places[..k] then Noted(evidence[i], r) else evidence[i]
    {
      assert places[k] !in places[..k];
      out := out[places[k] := Noted(out[places[k]], r)];
    }
    assert places[..|places|] == places;
  }

  /** The reason a group gives to the entry at `i`, if it gives one. */
  function GroupReason(ordered: seq<Option<Object>>, g: seq<nat>, i: nat): Option<Reason>
    requires forall k :: 0 <= k < |g| ==> g[k] < |ordered| && ordered[g[k]].Some?
  {
    if i !in g then None
    else if Disagrees(ordered, g) then Some(Reason(ConflictingObservation, "payload"))
    else if i != g[0] then Some(Reason(DuplicateObservation, "evidence_id"))
    else None
  }

  function Judging(ordered: seq<Option<Object>>, g: seq<nat>, e: Entry, i: nat): Entry
    requires forall k :: 0 <= k < |g| ==> g[k] < |ordered| && ordered[g[k]].Some?
  {
    var r := GroupReason(ordered, g, i);
    if r.Some? then Noted(e, r.value) else e
  }

  method JudgeGroup(ordered: seq<Option<Object>>, g: seq<nat>, evidence: seq<Entry>) returns (out: seq<Entry>)
    requires |evidence| == |ordered|
    requires forall k :: 0 <= k < |g| ==> g[k] < |ordered| && ordered[g[k]].Some?
    requires forall k, l :: 0 <= k < l < |g| ==> g[k] < g[l]
    ensures |out| == |evidence|
    ensures forall i :: 0 <= i < |evidence| ==> out[i] == Judging(ordered, g, evidence[i], i)
  {
    hide Noted;
    if |g| < 2 {
      return evidence;
    }
    var conflicting := false;
    var k := 1;
    while k < |g|
      invariant 1 <= k <= |g|
      invariant !conflicting && forall l :: 1 <= l < k ==> ordered[g[l]].value.digest == ordered[g[0]].value.digest
    {
      if ordered[g[k]].value.digest != ordered[g[0]].value.digest {
        conflicting := true;
        break;
      }
      k := k + 1;
    }
    assert conflicting <==> Disagrees(ordered, g);
    if conflicting {
      out := Note(evidence, g, Reason(ConflictingObservation, "payload"));
      return;
    }
    out := Note(evidence, g[1..], Reason(DuplicateObservation, "evidence_id"));
    forall i | 0 <= i < |evidence| ensures i in g[1..] <==> i in g && i != g[0] {
      AfterFirst(g, i);
    }
  }

  lemma AfterFirst(g: seq<nat>, i: nat)
    requires g != [] && forall k, l :: 0 <= k < l < |g| ==> g[k] < g[l]
    ensures i in g[1..] <==> i in g && i != g[0]
  {
    if i in g && i != g[0] {
      var k :| 0 <= k < |g| && g[k] == i;
      assert g[1..][k - 1] == i;
    }
    if i in g[1..] {
      var k :| 0 <= k < |g| - 1 && g[1..][k] == i;
      assert g[0] < g[k + 1];
    }
  }

  /** The groups of the first `n` objects, as the map holds them. */
  ghost predicate GroupsOf(groups: map<string, seq<nat>>, ordered: seq<Option<Object>>, session: Id, stamp: Time -> string, n: nat)
    requires n <= |ordered|
  {
    && (forall key :: key in groups ==> groups[key] == Members(ordered, session, stamp, key, n))
    && (forall key :: key !in groups ==> Members(ordered, session, stamp, key, n) == [])
  }

  lemma GroupsGrow(groups: map<string, seq<nat>>, ordered: seq<Option<Object>>, session: Id, stamp: Time -> string, n: nat)
    requires n < |ordered| && GroupsOf(groups, ordered, session, stamp, n)
    ensures !InSession(ordered[n], session) ==> GroupsOf(groups, ordered, session, stamp, n + 1)
    ensures InSession(ordered[n], session) ==>
      var key := GroupKey(ordered[n].value, stamp);
      GroupsOf(groups[key := (if key in groups then groups[key] else []) + [n]], ordered, session, stamp, n + 1)
  {
    hide GroupKey;
  }

  method CollectGroups(p: Policy, ordered: seq<Option<Object>>, session: Id, at: Time, stamp: Time -> string)
    returns (evidence: seq<Entry>, groups: map<string, seq<nat>>)
    requires at != 0
    ensures |evidence| == |ordered| && forall i :: 0 <= i < |ordered| ==> evidence[i] == Alone(p, ordered[i], session, at)
    ensures GroupsOf(groups, ordered, session, stamp, |ordered|)
  {
    hide Judged, GroupKey, Members;
    evidence, groups := [], map[];
    NoGroups(ordered, session, stamp);
    for n := 0 to |ordered|
      invariant |evidence| == n && forall i :: 0 <= i < n ==> evidence[i] == Alone(p, ordered[i], session, at)
      invariant GroupsOf(groups, ordered, session, stamp, n)
    {
      var qualified := Qualify(p, ordered[n], at);
      var entry := qualified.value;
      GroupsGrow(groups, ordered, session, stamp, n);
      if ordered[n].Some? {
        var o := ordered[n].value;
        if o.sessionID != session {
          entry := entry.(reasons := entry.reasons + [Reason(SessionMismatch, "session_id")]);
        } else {
          var key := GroupKey(o, stamp);
          groups := groups[key := (if key in groups then groups[key] else []) + [n]];
        }
      }
      evidence := evidence + [entry];
    }
  }

  lemma NoGroups(ordered: seq<Option<Object>>, session: Id, stamp: Time -> string)
    ensures GroupsOf(map[], ordered, session, stamp, 0)
  {
  }

  predicate Handled(ordered: seq<Option<Object>>, session: Id, stamp: Time -> string, left: set<string>, i: nat)
    requires i < |ordered|
  {
    InSession(ordered[i], session) && GroupKey(ordered[i].value, stamp) !in left
  }

  /** Entry `i` once the groups outside `left` have been judged. */
  function Partly(ordered: seq<Option<Object>>, session: Id, stamp: Time -> string, left: set<string>, e: Entry, i: nat): Entry
    requires i < |ordered|
  {
    if Handled(ordered, session, stamp, left, i) then e.(reasons := e.reasons + Compared(ordered, session, stamp, i)) else e
  }

  lemma OneGroup(ordered: seq<Option<Object>>, session: Id, stamp: Time -> string, key: string, left: set<string>, e: Entry, i: nat)
    requires key in left && i < |ordered|
    ensures var g := Members(ordered, session, stamp, key, |ordered|);
      && (forall k :: 0 <= k < |g| ==> g[k] < |ordered| && ordered[g[k]].Some?)
      && Judging(ordered, g, Partly(ordered, session, stamp, left, e, i), i) == Partly(ordered, session, stamp, left - {key}, e, i)
  {
    hide GroupKey, Conflicted, Repeated;
    MembersAre(ordered, session, stamp, key, |ordered|);
    if Grouped(ordered[i], session, stamp, key) {
      GroupDecides(ordered, session, stamp, key, i);
      assert e.reasons + [] == e.reasons;
    }
  }

  method JudgeGroups(ordered: seq<Option<Object>>, session: Id, stamp: Time -> string, groups: map<string, seq<nat>>, alone: seq<Entry>)
    returns (evidence: seq<Entry>)
    requires |alone| == |ordered| && GroupsOf(groups, ordered, session, stamp, |ordered|)
    ensures |evidence| == |ordered|
    ensures forall i :: 0 <= i < |ordered| ==>
      evidence[i] == alone[i].(reasons := alone[i].reasons + Compared(ordered, session, stamp, i))
  {
    hide Compared, Handled, Disagrees, GroupReason, Judging;
    evidence := alone;
    var left := groups.Keys;
    AllUnhandled(ordered, session, stamp, groups);
    while left != {}
      invariant left <= groups.Keys && |evidence| == |ordered|
      invariant forall i :: 0 <= i < |ordered| ==> evidence[i] == Partly(ordered, session, stamp, left, alone[i], i)
      decreases |left|
    {
      var key :| key in left;
      MembersAre(ordered, session, stamp, key, |ordered|);
      MembersPresent(ordered, session, stamp, key);
      var group := groups[key];
      assert group == Members(ordered, session, stamp, key, |ordered|);
      var next := JudgeGroup(ordered, group, evidence);
      forall i | 0 <= i < |ordered| ensures next[i] == Partly(ordered, session, stamp, left - {key}, alone[i], i) {
        OneGroup(ordered, session, stamp, key, left, alone[i], i);
      }
      evidence, left := next, left - {key};
    }
    forall i | 0 <= i < |ordered| ensures evidence[i] == alone[i].(reasons := alone[i].reasons + Compared(ordered, session, stamp, i)) {
      AllHandled(ordered, session, stamp, alone[i], i);
    }
  }

  lemma AllUnhandled(ordered: seq<Option<Object>>, session: Id, stamp: Time -> string, groups: map<string, seq<nat>>)
    requires GroupsOf(groups, ordered, session, stamp, |ordered|)
    ensures forall i :: 0 <= i < |ordered| ==> !Handled(ordered, session, stamp, groups.Keys, i)
  {
    hide GroupKey, Members;
    forall i | 0 <= i < |ordered| && InSession(ordered[i], session) ensures GroupKey(ordered[i].value, stamp) in groups {
      MembersAre(ordered, session, stamp, GroupKey(ordered[i].value, stamp), |ordered|);
    }
  }

  lemma AllHandled(ordered: seq<Option<Object>>, session: Id, stamp: Time -> string, e: Entry, i: nat)
    requires i < |ordered|
    ensures Partly(ordered, session, stamp, {}, e, i) == e.(reasons := e.reasons + Compared(ordered, session, stamp, i))
  {
    hide GroupKey, Conflicted, Repeated;
    assert e.reasons + [] == e.reasons;
  }

  method Settle(evidence: seq<Entry>) returns (out: seq<Entry>, all: bool)
    ensures |out| == |evidence| && forall i :: 0 <= i < |evidence| ==> out[i] == Settled(evidence[i])
    ensures all <==> AllQualified(out)
  {
    out, all := [], true;
    for i := 0 to |evidence|
      invariant |out| == i && forall j :: 0 <= j < i ==> out[j] == Settled(evidence[j])
      invariant all <==> AllQualified(out)
    {
      var e := evidence[i];
      if |e.reasons| > 0 && e.status == E.Qualified {
        e := e.(status := E.EvidenceRejected);
      }
      out := out + [e];
      if e.status != E.Qualified {
        assert !AllQualified(out) by { assert out[i] == e; }
        all := false;
      }
    }
  }

  method QualifySet(p: Policy, session: Id, objects: seq<Option<Object>>, at: Time, stamp: Time -> string)
    returns (r: Result<SetResult, QualificationError>)
    ensures r == Expected(p, session, objects, at, stamp)
  {
    hide Ordered, Alone, Compared, Settled;
    if session == 0 {
      return Err(SessionIDRequired);
    }
    if at == 0 {
      return Err(QualificationTimeRequired);
    }
    var ordered := Ordered(objects);
    if ordered == [] {
      return Ok(SetResult(session, E.Unavailable, at, p.version, [Reason(EvidenceUnavailable, "")], []));
    }
    var alone, groups := CollectGroups(p, ordered, session, at, stamp);
    var judged := JudgeGroups(ordered, session, stamp, groups, alone);
    var evidence, all := Settle(judged);
    assert evidence == Verdicts(p, ordered, session, at, stamp);
    return Ok(SetResult(session, if all then E.Qualified else E.EvidenceRejected, at, p.version, [], evidence));
  }

  // The theorems ------------------------------------------------------------------------------------------

  /** The last separator: what follows holds none, so both parts can be read back. */
  lemma {:induction false} LastNul(a: string, t: string, b: string, u: string)
    requires NUL !in t && NUL !in u && a + [NUL] + t == b + [NUL] + u
    ensures a == b && t == u
  {
    var x, y := a + [NUL] + t, b + [NUL] + u;
    assert x[|x| - 1] == if t == "" then NUL else t[|t| - 1];
    assert y[|y| - 1] == if u == "" then NUL else u[|u| - 1];
    assert t == "" <==> u == "";
    if t == "" {
      assert a == x[..|x| - 1] && b == y[..|y| - 1];
    } else {
      assert x[..|x| - 1] == a + [NUL] + t[..|t| - 1] && y[..|y| - 1] == b + [NUL] + u[..|u| - 1];
      LastNul(a, t[..|t| - 1], b, u[..|u| - 1]);
      assert t == t[..|t| - 1] + [t[|t| - 1]] && u == u[..|u| - 1] + [u[|u| - 1]];
    }
  }

  /** The text key tells groups apart exactly by source, type and instant, since types and stamps hold no NUL. */
  lemma KeyIsIdentity(a: Object, b: Object, stamp: Time -> string)
    requires NUL !in a.evidenceType && NUL !in b.evidenceType && NUL !in stamp(a.observedAt) && NUL !in stamp(b.observedAt)
    requires stamp(a.observedAt) == stamp(b.observedAt) ==> a.observedAt == b.observedAt
    ensures GroupKey(a, stamp) == GroupKey(b, stamp) <==>
      a.sourceID == b.sourceID && a.evidenceType == b.evidenceType && a.observedAt == b.observedAt
  {
    if GroupKey(a, stamp) == GroupKey(b, stamp) {
      LastNul(a.sourceID + [NUL] + a.evidenceType, stamp(a.observedAt), b.sourceID + [NUL] + b.evidenceType, stamp(b.observedAt));
      LastNul(a.sourceID, a.evidenceType, b.sourceID, b.evidenceType);
    }
  }

  /** Two observations of the same thing: one source, one type, one instant. */
  predicate SameThing(a: Object, b: Object)
  {
    a.sourceID == b.sourceID && a.evidenceType == b.evidenceType && a.observedAt == b.observedAt
  }

  /** Types and time stamps hold no NUL, and stamps tell the instants of the set apart. */
  ghost predicate Told(objects: seq<Option<Object>>, stamp: Time -> string)
  {
    && (forall x :: Some(x) in objects ==> NUL !in x.evidenceType && NUL !in stamp(x.observedAt))
    && (forall x, y :: Some(x) in objects && Some(y) in objects && stamp(x.observedAt) == stamp(y.observedAt) ==> x.observedAt == y.observedAt)
  }

  lemma PeersAreTheSame(ordered: seq<Option<Object>>, session: Id, stamp: Time -> string, i: nat, j: nat)
    requires i < |ordered| && j < |ordered| && Told(ordered, stamp)
    ensures Peers(ordered, session, stamp, i, j) <==>
      InSession(ordered[i], session) && InSession(ordered[j], session) && SameThing(ordered[i].value, ordered[j].value)
  {
    hide GroupKey;
    if InSession(ordered[i], session) && InSession(ordered[j], session) {
      assert ordered[i] == Some(ordered[i].value) && ordered[j] == Some(ordered[j].value);
      KeyIsIdentity(ordered[i].value, ordered[j].value, stamp);
    }
  }

  lemma VerdictQualifies(p: Policy, ordered: seq<Option<Object>>, session: Id, at: Time, stamp: Time -> string, i: nat)
    requires i < |ordered|
    ensures Verdict(p, ordered, session, at, stamp, i).status == E.Qualified <==>
      && InSession(ordered[i], session) && ReasonsAgainst(p, ordered[i].value, at) == []
      && !Conflicted(ordered, session, stamp, i) && !Repeated(ordered, session, stamp, i)
  {
    hide ReasonsAgainst, Conflicted, Repeated;
  }

  /** Nothing of the set contradicts the object at `i`, and nothing before it observed the same. */
  ghost predicate FirstAndUndisputed(ordered: seq<Option<Object>>, session: Id, i: nat)
    requires i < |ordered| && InSession(ordered[i], session)
  {
    && (forall j :: 0 <= j < |ordered| && InSession(ordered[j], session) && SameThing(ordered[i].value, ordered[j].value) ==>
          ordered[j].value.digest == ordered[i].value.digest)
    && (forall j :: 0 <= j < i && InSession(ordered[j], session) ==> !SameThing(ordered[i].value, ordered[j].value))
  }

  lemma UndisputedExactly(ordered: seq<Option<Object>>, session: Id, stamp: Time -> string, i: nat)
    requires i < |ordered| && InSession(ordered[i], session) && Told(ordered, stamp)
    ensures !Conflicted(ordered, session, stamp, i) && !Repeated(ordered, session, stamp, i) <==> FirstAndUndisputed(ordered, session, i)
  {
    hide Peers, Told, SameThing;
    forall j | 0 <= j < |ordered|
      ensures Peers(ordered, session, stamp, i, j) <==> InSession(ordered[j], session) && SameThing(ordered[i].value, ordered[j].value)
    {
      PeersAreTheSame(ordered, session, stamp, i, j);
    }
  }

  lemma ToldWhenSorted(objects: seq<Option<Object>>, stamp: Time -> string)
    requires Told(objects, stamp)
    ensures Told(Ordered(objects), stamp)
  {
    hide Ordered;
    InMultiset(Ordered(objects), objects);
  }

  /** In the result of qualifying a set, the entry of the object at `i` of the sorted set is QUALIFIED exactly when the
      object is there, meets every demand of the policy, it is of the session, no observation of the same source, type
      and instant contradicts it, and none comes before it. */
  lemma QualifiedExactly(p: Policy, session: Id, objects: seq<Option<Object>>, at: Time, stamp: Time -> string, i: nat)
    requires session != 0 && at != 0 && Told(objects, stamp) && i < |objects|
    ensures var ordered := Ordered(objects); var evidence := Expected(p, session, objects, at, stamp).value.evidence;
      && |evidence| == |ordered| == |objects|
      && evidence[i].id == (if ordered[i].Some? then ordered[i].value.id else 0)
      && (evidence[i].status == E.Qualified <==>
            InSession(ordered[i], session) && Fit(p, ordered[i].value, at) && FirstAndUndisputed(ordered, session, i))
  {
    hide Ordered, ReasonsAgainst, Fit, Told, FirstAndUndisputed, Conflicted, Repeated, Compared;
    var ordered := Ordered(objects);
    InMultiset(ordered, objects);
    ToldWhenSorted(objects, stamp);
    VerdictQualifies(p, ordered, session, at, stamp, i);
    if InSession(ordered[i], session) {
      FitExactly(p, ordered[i].value, at);
      UndisputedExactly(ordered, session, stamp, i);
    }
  }

  /** Some observation of the same thing in the session has another digest. */
  ghost predicate Disputed(ordered: seq<Option<Object>>, session: Id, o: Object)
  {
    exists j :: 0 <= j < |ordered| && InSession(ordered[j], session) && SameThing(o, ordered[j].value) && ordered[j].value.digest != o.digest
  }

  ghost predicate Preceded(ordered: seq<Option<Object>>, session: Id, i: nat)
    requires i < |ordered| && ordered[i].Some?
  {
    exists j :: 0 <= j < i && InSession(ordered[j], session) && SameThing(ordered[i].value, ordered[j].value)
  }

  lemma ComparedExactly(ordered: seq<Option<Object>>, session: Id, stamp: Time -> string, i: nat)
    requires i < |ordered| && InSession(ordered[i], session) && Told(ordered, stamp)
    ensures Conflicted(ordered, session, stamp, i) <==> Disputed(ordered, session, ordered[i].value)
    ensures Repeated(ordered, session, stamp, i) <==> Preceded(ordered, session, i)
  {
    hide Peers, Told, SameThing;
    forall j | 0 <= j < |ordered|
      ensures Peers(ordered, session, stamp, i, j) <==> InSession(ordered[j], session) && SameThing(ordered[i].value, ordered[j].value)
    {
      PeersAreTheSame(ordered, session, stamp, i, j);
    }
  }

  /** All that is said about an object of the set: what speaks against it alone, that it is of another session, that it
      is disputed, or else that the same was observed before. */
  ghost predicate CauseInSet(p: Policy, ordered: seq<Option<Object>>, session: Id, at: Time, i: nat, r: Reason)
    requires i < |ordered|
  {
    match ordered[i]
    case None => r == Reason(EvidenceUnavailable, "")
    case Some(o) =>
      || Cause(p, o, at, r)
      || (r == Reason(SessionMismatch, "session_id") && o.sessionID != session)
      || (r == Reason(ConflictingObservation, "payload") && o.sessionID == session && Disputed(ordered, session, o))
      || (&& r == Reason(DuplicateObservation, "evidence_id") && o.sessionID == session
          && !Disputed(ordered, session, o) && Preceded(ordered, session, i))
  }

  /** Each reason stands in the result exactly for its cause. */
  lemma SetReasonsExactly(p: Policy, session: Id, objects: seq<Option<Object>>, at: Time, stamp: Time -> string, i: nat, r: Reason)
    requires session != 0 && at != 0 && Told(objects, stamp) && i < |objects|
    ensures var ordered := Ordered(objects); var evidence := Expected(p, session, objects, at, stamp).value.evidence;
      |evidence| == |ordered| == |objects| && (r in evidence[i].reasons <==> CauseInSet(p, ordered, session, at, i, r))
  {
    hide Ordered, ReasonsAgainst, Cause, Told, Conflicted, Repeated, Disputed, Preceded;
    var ordered := Ordered(objects);
    InMultiset(ordered, objects);
    ToldWhenSorted(objects, stamp);
    if ordered[i].Some? {
      ReasonsExactly(p, ordered[i].value, at, r);
      if InSession(ordered[i], session) {
        ComparedExactly(ordered, session, stamp, i);
      }
    }
  }

  /** The whole answer: a session and a time are asked for; the result repeats them and the policy's version, has one entry
      per object, UNAVAILABLE exactly for those that are missing, and is QUALIFIED exactly if there are entries and all of
      them are. With no objects at all it says so. */
  lemma SetAnswersExactly(p: Policy, session: Id, objects: seq<Option<Object>>, at: Time, stamp: Time -> string)
    ensures var r := Expected(p, session, objects, at, stamp); var ordered := Ordered(objects);
      && (r == Err(SessionIDRequired) <==> session == 0)
      && (r == Err(QualificationTimeRequired) <==> session != 0 && at == 0)
      && (r.Ok? ==>
            && r.value.sessionID == session && r.value.at == at && r.value.policyVersion == p.version
            && |r.value.evidence| == |ordered|
            && (forall i :: 0 <= i < |ordered| ==> (r.value.evidence[i].status == E.Unavailable <==> ordered[i].None?))
            && (r.value.status == E.Qualified <==> ordered != [] && forall i :: 0 <= i < |ordered| ==> r.value.evidence[i].status == E.Qualified)
            && (r.value.status == E.Unavailable <==> ordered == [])
            && r.value.reasons == (if ordered == [] then [Reason(EvidenceUnavailable, "")] else []))
  {
    hide Ordered, ReasonsAgainst, Compared;
  }

  /** The object of the session that none contradicts and none of the same thing undercuts in identity. */
  ghost predicate Chosen(objects: seq<Option<Object>>, session: Id, o: Object)
  {
    o.sessionID == session
    && forall x :: Some(x) in objects && x.sessionID == session && SameThing(o, x) ==> x.digest == o.digest && o.id <= x.id
  }

  lemma SortedByTimeAndIdentity(objects: seq<Option<Object>>)
    requires forall i :: 0 <= i < |objects| ==> objects[i].Some?
    requires forall i, j :: 0 <= i < j < |objects| ==> objects[i].value.id != objects[j].value.id
    ensures var ordered := Ordered(objects);
      && |ordered| == |objects| && (forall i :: 0 <= i < |ordered| ==> ordered[i].Some?)
      && (forall x :: x in ordered <==> x in objects)
      && (forall i, j :: 0 <= i < j < |ordered| ==> Precedes(ordered[i], ordered[j]))
  {
    hide StableSort;
    PrecedesIsAnOrder();
    SortAscends(objects, Precedes);
    InMultiset(Ordered(objects), objects);
    InMultiset(objects, Ordered(objects));
  }

  lemma FirstIsChosen(objects: seq<Option<Object>>, session: Id, i: nat)
    requires forall k :: 0 <= k < |objects| ==> objects[k].Some?
    requires forall k, l :: 0 <= k < l < |objects| ==> objects[k].value.id != objects[l].value.id
    requires i < |Ordered(objects)| && InSession(Ordered(objects)[i], session)
    ensures FirstAndUndisputed(Ordered(objects), session, i) <==> Chosen(objects, session, Ordered(objects)[i].value)
  {
    hide Ordered;
    var ordered := Ordered(objects);
    SortedByTimeAndIdentity(objects);
    var o := ordered[i].value;
    if FirstAndUndisputed(ordered, session, i) {
      forall x | Some(x) in objects && x.sessionID == session && SameThing(o, x) ensures x.digest == o.digest && o.id <= x.id {
        assert Some(x) in ordered;
        var j :| 0 <= j < |ordered| && ordered[j] == Some(x);
        assert i < j ==> Precedes(ordered[i], ordered[j]);
      }
    }
    if Chosen(objects, session, o) {
      forall j | 0 <= j < |ordered| && InSession(ordered[j], session) && SameThing(o, ordered[j].value)
        ensures ordered[j].value.digest == o.digest && i <= j
      {
        assert ordered[j] in objects && ordered[j] == Some(ordered[j].value);
        assert j < i ==> Precedes(ordered[j], ordered[i]);
      }
    }
  }

  /** Without mention of any order: of present objects with distinct identities, an object is QUALIFIED in the result
      exactly when it meets every demand of the policy and is the one of least identity among undisputed observations of the
      same source, type and instant in the session. */
  lemma QualifiedByIdentity(p: Policy, session: Id, objects: seq<Option<Object>>, at: Time, stamp: Time -> string, o: Object)
    requires session != 0 && at != 0 && Told(objects, stamp) && Some(o) in objects
    requires forall k :: 0 <= k < |objects| ==> objects[k].Some?
    requires forall k, l :: 0 <= k < l < |objects| ==> objects[k].value.id != objects[l].value.id
    ensures var evidence := Expected(p, session, objects, at, stamp).value.evidence;
      exists i :: 0 <= i < |evidence| && evidence[i].id == o.id &&
        (evidence[i].status == E.Qualified <==> Fit(p, o, at) && Chosen(objects, session, o))
  {
    hide Ordered, Fit, Told, FirstAndUndisputed, Expected;
    var ordered := Ordered(objects);
    SortedByTimeAndIdentity(objects);
    assert Some(o) in ordered;
    var i :| 0 <= i < |ordered| && ordered[i] == Some(o);
    QualifiedExactly(p, session, objects, at, stamp, i);
    if InSession(ordered[i], session) {
      FirstIsChosen(objects, session, i);
    }
  }

  lemma PrecedesIsAnOrder()
    ensures Transitive(Precedes) && Asymmetric(Precedes)
  {
  }

  /** The order in which present objects with distinct identities are handed in does not matter. */
  lemma SetIgnoresOrder(p: Policy, session: Id, a: seq<Option<Object>>, b: seq<Option<Object>>, at: Time, stamp: Time -> string)
    requires multiset(a) == multiset(b)
    requires forall i :: 0 <= i < |a| ==> a[i].Some?
    requires forall i, j :: 0 <= i < j < |a| ==> a[i].value.id != a[j].value.id
    ensures Expected(p, session, a, at, stamp) == Expected(p, session, b, at, stamp)
  {
    hide Verdicts, Overall, StableSort;
    PrecedesIsAnOrder();
    SortIgnoresInputOrder(a, b, Precedes);
  }
}
