/**
  The evaluation aggregate as a value: its fields, its errors, its domain events, and
  for each operation the function from a state to the next state, the events appended
  and the error returned. The class in EvaluationObject.dfy holds one such value and
  carries these operations out on it; everything proved about runs is proved about
  these functions.
 */
module Evaluation {
  import opened Prelude
  import opened Text
  import opened Sorting

  // Values -------------------------------------------------------------------

  datatype Phase = Created | Running | Completed | Cancelled | Expired
  {
    predicate Terminal() { Completed? || Cancelled? || Expired? }

    predicate CanTransitionTo(target: Phase)
    {
      match this
      case Created => target.Running? || target.Cancelled? || target.Expired?
      case Running => target.Completed? || target.Cancelled? || target.Expired?
      case _ => false
    }
  }

  datatype Verdict =
    | Unknown | Verified | VerifiedWithException | Rejected | ManualReview | SystemException
    | OtherVerdict(text: string)

  datatype Status = Pass | Warning | Fail | Inconclusive | OtherStatus(text: string)

  const TIMEOUT_REASON := "EVALUATION_TIMEOUT"

  datatype RuleOutcome = RuleOutcome(ruleID: string, status: Status, reasons: seq<string>, evaluatedAt: Time)

  datatype Replacement = Replacement(outcome: RuleOutcome, replacedAt: Time)

  datatype Checkpoint = Checkpoint(name: string, outcomes: seq<RuleOutcome>, version: nat, createdAt: Time)

  datatype HistoryEntry = HistoryEntry(
    evaluationID: Id, sessionID: Id, version: nat, phase: Phase, verdict: Verdict, reasons: seq<string>,
    required: seq<string>, outcomes: seq<RuleOutcome>, recordedAt: Time)

  datatype EvidenceStatus = Qualified | EvidenceRejected | Unavailable | OtherEvidenceStatus(text: string)

  datatype EvidenceReference = EvidenceReference(evidenceID: Id, status: EvidenceStatus, reasons: seq<string>)

  datatype EvidenceBinding = EvidenceBinding(
    sessionID: Id, status: EvidenceStatus, policyVersion: string, qualifiedAt: Time,
    reasons: seq<string>, evidence: seq<EvidenceReference>)

  datatype PolicyBinding = PolicyBinding(policyID: string, version: string, hash: string, boundAt: Time)

  datatype Aggregate = Aggregate(
    id: Id, sessionID: Id, phase: Phase, verdict: Verdict, reasons: seq<string>, createdAt: Time,
    startedAt: Option<Time>, completedAt: Option<Time>, cancelledAt: Option<Time>, expiredAt: Option<Time>,
    cancellationReason: string, version: nat, outcomes: seq<RuleOutcome>, required: seq<string>,
    checkpoints: map<string, Checkpoint>, history: seq<HistoryEntry>,
    evidence: Option<EvidenceBinding>, policy: Option<PolicyBinding>)

  datatype EventBody =
    | EvaluationCreated(at: Time)
    | EvaluationStarted(at: Time)
    | EvaluationCompleted(verdict: Verdict, at: Time)
    | EvaluationRejected(reasons: seq<string>, at: Time)
    | EvaluationManualReviewRequired(reasons: seq<string>, at: Time)
    | EvaluationSystemException(reasons: seq<string>, at: Time)
    | EvaluationCancelled(reason: string, at: Time)
    | EvaluationExpired(reasons: seq<string>, at: Time)
    | RequiredRuleRegistered(ruleID: string, at: Time)
    | RuleOutcomeRecorded(outcome: RuleOutcome)
    | RuleOutcomeBatchRecorded(outcomes: seq<RuleOutcome>, at: Time)
    | RuleOutcomeReplaced(previous: RuleOutcome, replacement: RuleOutcome, at: Time)
    | RuleOutcomeBatchReplaced(previouses: seq<RuleOutcome>, replacements: seq<RuleOutcome>, at: Time)
    | RuleOutcomeRemoved(outcome: RuleOutcome, at: Time)
    | RuleOutcomeBatchRemoved(outcomes: seq<RuleOutcome>, at: Time)
    | RuleOutcomesReset(outcomes: seq<RuleOutcome>, at: Time)
    | CheckpointCreated(name: string, at: Time)
    | RolledBack(checkpoint: string, at: Time)
    | HistoryRecorded(at: Time)
    | EvidenceSetBound(evidenceBinding: EvidenceBinding)
    | VerificationPolicyBound(policyBinding: PolicyBinding)

  datatype Event = Event(evaluationID: Id, sessionID: Id, version: nat, body: EventBody)

  datatype Error =
    | InvalidStateTransition | EvaluationIDRequired | SessionIDRequired | InvalidSnapshot | SnapshotVersionRequired
    | InvalidStartTime | InvalidCompletionTime | InvalidCompletionResult | RequiredRulesIncomplete
    | InvalidReasonCode | CancellationReasonRequired | InvalidExpirationTime
    | RuleIDRequired | InvalidRuleOutcome | InvalidTimestamp | InvalidTimestampOf(rule: string)
    | TimestampRequired | UnknownRule(rule: string) | OutcomeConflict(rule: string) | OutcomeNotFound(rule: string)
    | StaleReplacement(rule: string) | RemovalTimeRequired | ResetTimeRequired | VersionConflict
    | CheckpointNotFound | CheckpointExists | HistoryTimeRequired | InvalidHistoryEntry | HistoryVersionExists(version: nat)
    | EvidenceBindingRequired | EvidenceSessionMismatch | EvidenceAlreadyBound | EvidenceBoundAfterRules
    | PolicyBindingRequired | PolicyAlreadyBound | PolicyBoundAfterRules

  predicate ValidStatus(s: Status) { !s.OtherStatus? }
  predicate ValidVerdict(v: Verdict) { !v.OtherVerdict? }
  predicate ValidEvidenceStatus(s: EvidenceStatus) { !s.OtherEvidenceStatus? }

  // Replies ------------------------------------------------------------------

  /** What one call does: the state it leaves, the events it appends, the error it returns. */
  datatype Reply = Reply(next: Aggregate, emitted: seq<Event>, error: Option<Error>)

  function Refuse(s: Aggregate, e: Error): Reply { Reply(s, [], Some(e)) }

  function Keep(s: Aggregate): Reply { Reply(s, [], None) }

  /** One change: the version rises by one and one event carries the new version. */
  function Change(next: Aggregate, body: EventBody): Reply
  {
    var v := next.version + 1;
    Reply(next.(version := v), [Event(next.id, next.sessionID, v, body)], None)
  }

  // Normalisation ------------------------------------------------------------

  /** Canonical codes, each kept at its first occurrence. */
  function NormalizeReasons(codes: seq<string>): Result<seq<string>, Error>
  {
    if codes == [] then Ok([])
    else
      var n := |codes| - 1;
      match NormalizeReasons(codes[..n])
      case Err(e) => Err(e)
      case Ok(front) =>
        var code := Canonical(codes[n]);
        if !IsCode(code) then Err(InvalidReasonCode)
        else if code in front then Ok(front)
        else Ok(front + [code])
  }

  function NormalizeOutcome(o: RuleOutcome): Result<RuleOutcome, Error>
  {
    var id := TrimSpace(o.ruleID);
    if id == "" then Err(RuleIDRequired)
    else if !ValidStatus(o.status) || o.evaluatedAt == 0 then Err(InvalidRuleOutcome)
    else
      match NormalizeReasons(o.reasons)
      case Err(e) => Err(e)
      case Ok(reasons) =>
        if (o.status == Pass) != (reasons == []) then Err(InvalidRuleOutcome)
        else Ok(o.(ruleID := id, reasons := reasons))
  }

  /** An outcome in the form the aggregate stores it. */
  predicate Normal(o: RuleOutcome)
  {
    NormalizeOutcome(o) == Ok(o)
  }

  predicate NormalReasons(codes: seq<string>)
  {
    && (forall i :: 0 <= i < |codes| ==> IsCode(codes[i]))
    && (forall i, j :: 0 <= i < j < |codes| ==> codes[i] != codes[j])
  }

  lemma {:induction false} NormalizedReasonsAreNormal(codes: seq<string>)
    ensures NormalizeReasons(codes).Ok? ==> NormalReasons(NormalizeReasons(codes).value)
    ensures NormalReasons(codes) ==> NormalizeReasons(codes) == Ok(codes)
  {
    hide NormalReasons, IsCode, Canonical;
    if codes == [] {
      NothingIsNormal();
    } else {
      var n := |codes| - 1;
      NormalizedReasonsAreNormal(codes[..n]);
      if NormalizeReasons(codes[..n]).Ok? {
        OneMoreNormal(NormalizeReasons(codes[..n]).value, Canonical(codes[n]));
      }
      if NormalReasons(codes) {
        OneLessNormal(codes);
      }
    }
  }

  lemma NothingIsNormal()
    ensures NormalReasons([])
  {
  }

  lemma OneMoreNormal(front: seq<string>, code: string)
    requires NormalReasons(front)
    ensures IsCode(code) && code !in front ==> NormalReasons(front + [code])
  {
    hide IsCode;
  }

  lemma OneLessNormal(codes: seq<string>)
    requires NormalReasons(codes) && codes != []
    ensures var n := |codes| - 1; var code := codes[n];
      && NormalReasons(codes[..n]) && IsCode(code) && Canonical(code) == code
      && code !in codes[..n] && codes == codes[..n] + [code]
  {
    hide IsCode, Canonical;
    CodesAreCanonical(codes[|codes| - 1]);
  }

  /** Normalising twice is normalising once. */
  lemma NormalizeOutcomeIsIdempotent(o: RuleOutcome)
    requires NormalizeOutcome(o).Ok?
    ensures Normal(NormalizeOutcome(o).value)
  {
    var v := NormalizeOutcome(o).value;
    assert NormalizeReasons(v.reasons) == Ok(v.reasons) by {
      NormalizedReasonsAreNormal(o.reasons);
      NormalizedReasonsAreNormal(v.reasons);
    }
    assert TrimSpace(v.ruleID) == v.ruleID;
  }

  // The outcome list -----------------------------------------------------------

  function IndexOf(os: seq<RuleOutcome>, id: string): (k: int)
    ensures -1 <= k < |os|
    ensures k >= 0 ==> os[k].ruleID == id && forall j :: 0 <= j < k ==> os[j].ruleID != id
    ensures k < 0 ==> forall j :: 0 <= j < |os| ==> os[j].ruleID != id
  {
    if os == [] then -1
    else if os[0].ruleID == id then 0
    else
      var k := IndexOf(os[1..], id);
      assert forall j :: 1 <= j < |os| ==> os[j] == os[1..][j - 1];
      if k < 0 then -1 else k + 1
  }

  predicate Recorded(os: seq<RuleOutcome>, id: string) { IndexOf(os, id) >= 0 }

  function OutcomeOf(os: seq<RuleOutcome>, id: string): (o: RuleOutcome)
    requires Recorded(os, id)
    ensures o.ruleID == id && o in os
  {
    os[IndexOf(os, id)]
  }

  ghost predicate DistinctRules(os: seq<RuleOutcome>)
  {
    forall i, j :: 0 <= i < j < |os| ==> os[i].ruleID != os[j].ruleID
  }

  /** The outcomes of the list whose rule is not in `ids`, in order. */
  function Without(os: seq<RuleOutcome>, ids: set<string>): (r: seq<RuleOutcome>)
    ensures forall o :: o in r <==> o in os && o.ruleID !in ids
    ensures |r| <= |os|
  {
    if os == [] then []
    else
      var n := |os| - 1;
      var front := Without(os[..n], ids);
      assert os == os[..n] + [os[n]];
      if os[n].ruleID in ids then front else front + [os[n]]
  }

  /** Each outcome whose rule has an entry in `m` replaced by that entry, in place. */
  function Overlay(os: seq<RuleOutcome>, m: map<string, RuleOutcome>): (r: seq<RuleOutcome>)
    ensures |r| == |os|
    ensures forall i :: 0 <= i < |os| ==> r[i] == if os[i].ruleID in m then m[os[i].ruleID] else os[i]
  {
    seq(|os|, i requires 0 <= i < |os| => if os[i].ruleID in m then m[os[i].ruleID] else os[i])
  }

  /** The recorded outcomes of the rules in `ids`, keyed by rule. */
  ghost function Lookup(os: seq<RuleOutcome>, ids: set<string>): map<string, RuleOutcome>
  {
    map id | id in ids && Recorded(os, id) :: OutcomeOf(os, id)
  }

  // Lifecycle ------------------------------------------------------------------

  function New(id: Id, sessionID: Id, createdAt: Time): Result<(Aggregate, Event), Error>
  {
    if id == 0 then Err(EvaluationIDRequired)
    else if sessionID == 0 then Err(SessionIDRequired)
    else if createdAt == 0 then Err(InvalidSnapshot)
    else Ok((Fresh(id, sessionID, createdAt), Event(id, sessionID, 1, EvaluationCreated(createdAt))))
  }

  function Fresh(id: Id, sessionID: Id, createdAt: Time): Aggregate
  {
    Aggregate(id, sessionID, Created, Unknown, [], createdAt, None, None, None, None, "", 1, [], [], map[], [], None, None)
  }

  function Start(s: Aggregate, at: Time): Reply
  {
    if !s.phase.CanTransitionTo(Running) then Refuse(s, InvalidStateTransition)
    else if at == 0 || at < s.createdAt then Refuse(s, InvalidStartTime)
    else Change(s.(phase := Running, startedAt := Some(at)), EvaluationStarted(at))
  }

  predicate RequiredComplete(s: Aggregate)
  {
    forall i :: 0 <= i < |s.required| ==> Recorded(s.outcomes, s.required[i])
  }

  function CompletionBody(verdict: Verdict, reasons: seq<string>, at: Time): EventBody
  {
    match verdict
    case Rejected => EvaluationRejected(reasons, at)
    case ManualReview => EvaluationManualReviewRequired(reasons, at)
    case SystemException => EvaluationSystemException(reasons, at)
    case _ => EvaluationCompleted(verdict, at)
  }

  function CompleteAt(s: Aggregate, verdict: Verdict, reasons: seq<string>, at: Time): Reply
  {
    if !s.phase.CanTransitionTo(Completed) then Refuse(s, InvalidStateTransition)
    else if at == 0 || Earlier(at, s.startedAt) then Refuse(s, InvalidCompletionTime)
    else if !ValidVerdict(verdict) || verdict == Unknown then Refuse(s, InvalidCompletionResult)
    else if !RequiredComplete(s) then Refuse(s, RequiredRulesIncomplete)
    else
      match NormalizeReasons(reasons)
      case Err(e) => Refuse(s, e)
      case Ok(codes) =>
        if (verdict == Verified) != (codes == []) then Refuse(s, InvalidCompletionResult)
        else
          Change(s.(phase := Completed, verdict := verdict, reasons := codes, completedAt := Some(at)),
                 CompletionBody(verdict, codes, at))
  }

  function Cancel(s: Aggregate, reason: string, now: Time): Reply
  {
    var text := TrimSpace(reason);
    if s.phase.Terminal() then Refuse(s, InvalidStateTransition)
    else if text == "" then Refuse(s, CancellationReasonRequired)
    else Change(s.(phase := Cancelled, cancelledAt := Some(now), cancellationReason := text), EvaluationCancelled(text, now))
  }

  function Expire(s: Aggregate, at: Time): Reply
  {
    if s.phase.Terminal() then Refuse(s, InvalidStateTransition)
    else if at == 0 || at < s.createdAt then Refuse(s, InvalidExpirationTime)
    else
      Change(s.(phase := Expired, verdict := SystemException, reasons := [TIMEOUT_REASON], expiredAt := Some(at)),
             EvaluationExpired([TIMEOUT_REASON], at))
  }

  // Rules ------------------------------------------------------------------------

  function RegisterRule(s: Aggregate, ruleID: string, at: Time): Reply
  {
    var id := TrimSpace(ruleID);
    if s.phase.Terminal() then Refuse(s, InvalidStateTransition)
    else if at == 0 || at < s.createdAt then Refuse(s, InvalidTimestamp)
    else if id == "" then Refuse(s, RuleIDRequired)
    else if id in s.required then Keep(s)
    else Change(s.(required := s.required + [id]), RequiredRuleRegistered(id, at))
  }

  /** A plan, when there is one, closes the set of rules that may be recorded. */
  predicate Unplanned(s: Aggregate, id: string)
  {
    s.required != [] && TrimSpace(id) !in s.required
  }

  function Record(s: Aggregate, o: RuleOutcome): Reply
  {
    if s.phase != Running then Refuse(s, InvalidStateTransition)
    else
      match NormalizeOutcome(o)
      case Err(e) => Refuse(s, e)
      case Ok(v) =>
        if Earlier(v.evaluatedAt, s.startedAt) then Refuse(s, InvalidTimestamp)
        else if Unplanned(s, v.ruleID) then Refuse(s, UnknownRule(v.ruleID))
        else if Recorded(s.outcomes, v.ruleID) then
          if OutcomeOf(s.outcomes, v.ruleID) == v then Keep(s) else Refuse(s, OutcomeConflict(v.ruleID))
        else Change(s.(outcomes := s.outcomes + [v]), RuleOutcomeRecorded(v))
  }

  /** One after the other, stopping at the first error and keeping what came before it. */
  function RecordEach(s: Aggregate, os: seq<RuleOutcome>): Reply
  {
    if os == [] then Keep(s)
    else
      var n := |os| - 1;
      var before := RecordEach(s, os[..n]);
      if before.error.Some? then before
      else
        var last := Record(before.next, os[n]);
        Reply(last.next, before.emitted + last.emitted, last.error)
  }

  // Batches of outcomes -------------------------------------------------------------

  /** The loop body of the batch check: `m` holds the outcomes accepted so far, by rule. */
  function BatchAdd(s: Aggregate, m: map<string, RuleOutcome>, o: RuleOutcome): Result<map<string, RuleOutcome>, Error>
  {
    match NormalizeOutcome(o)
    case Err(e) => Err(e)
    case Ok(v) =>
      if Earlier(v.evaluatedAt, s.startedAt) then Err(InvalidTimestampOf(v.ruleID))
      else if Unplanned(s, v.ruleID) then Err(UnknownRule(v.ruleID))
      else if v.ruleID in m then
        if m[v.ruleID] == v then Ok(m) else Err(OutcomeConflict(v.ruleID))
      else if Recorded(s.outcomes, v.ruleID) && OutcomeOf(s.outcomes, v.ruleID) != v then Err(OutcomeConflict(v.ruleID))
      else Ok(m[v.ruleID := v])
  }

  function Batch(s: Aggregate, os: seq<RuleOutcome>): Result<map<string, RuleOutcome>, Error>
  {
    if os == [] then Ok(map[])
    else
      var n := |os| - 1;
      match Batch(s, os[..n])
      case Err(e) => Err(e)
      case Ok(m) => BatchAdd(s, m, os[n])
  }

  /** The accepted outcomes that are not recorded yet, in ascending order of rule. */
  ghost function Pending(s: Aggregate, m: map<string, RuleOutcome>): seq<RuleOutcome>
  {
    Listing(map id | id in m && !Recorded(s.outcomes, id) :: m[id])
  }

  ghost function RecordBatch(s: Aggregate, os: seq<RuleOutcome>, at: Time): Reply
  {
    if s.phase != Running then Refuse(s, InvalidStateTransition)
    else if os == [] then Keep(s)
    else if at == 0 then Refuse(s, TimestampRequired)
    else if Earlier(at, s.startedAt) then Refuse(s, InvalidTimestamp)
    else AppendTogether(s, Batch(s, os), at)
  }

  ghost function AppendTogether(s: Aggregate, batch: Result<map<string, RuleOutcome>, Error>, at: Time): Reply
  {
    match batch
    case Err(e) => Refuse(s, e)
    case Ok(m) =>
      var pending := Pending(s, m);
      if pending == [] then Keep(s)
      else Change(s.(outcomes := s.outcomes + pending), RuleOutcomeBatchRecorded(pending, at))
  }

  /** Appends each outcome with a version and an event of its own. */
  function AppendEach(s: Aggregate, os: seq<RuleOutcome>): Reply
  {
    if os == [] then Keep(s)
    else
      var n := |os| - 1;
      var before := AppendEach(s, os[..n]);
      var last := Change(before.next.(outcomes := before.next.outcomes + [os[n]]), RuleOutcomeRecorded(os[n]));
      Reply(last.next, before.emitted + last.emitted, None)
  }

  ghost function RecordAtomic(s: Aggregate, os: seq<RuleOutcome>): Reply
  {
    if s.phase != Running then Refuse(s, InvalidStateTransition) else AppendOneByOne(s, Batch(s, os))
  }

  ghost function AppendOneByOne(s: Aggregate, batch: Result<map<string, RuleOutcome>, Error>): Reply
  {
    match batch
    case Err(e) => Refuse(s, e)
    case Ok(m) => AppendEach(s, Pending(s, m))
  }

  // Replacement ------------------------------------------------------------------

  function Replace(s: Aggregate, o: RuleOutcome, at: Time): Reply
  {
    if s.phase != Running then Refuse(s, InvalidStateTransition)
    else if at == 0 then Refuse(s, TimestampRequired)
    else
      match NormalizeOutcome(o)
      case Err(e) => Refuse(s, e)
      case Ok(v) =>
        if Earlier(at, s.startedAt) || Earlier(v.evaluatedAt, s.startedAt) || v.evaluatedAt > at then Refuse(s, InvalidTimestamp)
        else if Unplanned(s, v.ruleID) then Refuse(s, UnknownRule(v.ruleID))
        else if !Recorded(s.outcomes, v.ruleID) then Refuse(s, OutcomeNotFound(v.ruleID))
        else
          var previous := OutcomeOf(s.outcomes, v.ruleID);
          if previous == v then Keep(s)
          else if v.evaluatedAt < previous.evaluatedAt then Refuse(s, StaleReplacement(v.ruleID))
          else
            Change(s.(outcomes := s.outcomes[IndexOf(s.outcomes, v.ruleID) := v]), RuleOutcomeReplaced(previous, v, at))
  }

  function ReplaceAdd(s: Aggregate, at: Time, m: map<string, RuleOutcome>, item: Replacement)
    : Result<map<string, RuleOutcome>, Error>
  {
    if item.replacedAt != 0 && item.replacedAt > at then Err(InvalidTimestamp)
    else
      match NormalizeOutcome(item.outcome)
      case Err(e) => Err(e)
      case Ok(v) =>
        if v.evaluatedAt > at || Earlier(v.evaluatedAt, s.startedAt) then Err(InvalidTimestamp)
        else if Unplanned(s, v.ruleID) then Err(UnknownRule(v.ruleID))
        else if !Recorded(s.outcomes, v.ruleID) then Err(OutcomeNotFound(v.ruleID))
        else if v.evaluatedAt < OutcomeOf(s.outcomes, v.ruleID).evaluatedAt then Err(StaleReplacement(v.ruleID))
        else if v.ruleID in m && m[v.ruleID] != v then Err(OutcomeConflict(v.ruleID))
        else Ok(m[v.ruleID := v])
  }

  function Replacements(s: Aggregate, at: Time, items: seq<Replacement>): Result<map<string, RuleOutcome>, Error>
  {
    if items == [] then Ok(map[])
    else
      var n := |items| - 1;
      match Replacements(s, at, items[..n])
      case Err(e) => Err(e)
      case Ok(m) => ReplaceAdd(s, at, m, items[n])
  }

  /** The replacements that differ from what is recorded. */
  ghost function Differing(s: Aggregate, m: map<string, RuleOutcome>): map<string, RuleOutcome>
  {
    map id | id in m && Recorded(s.outcomes, id) && OutcomeOf(s.outcomes, id) != m[id] :: m[id]
  }

  ghost function ReplaceAtomic(s: Aggregate, items: seq<Replacement>, at: Time): Reply
  {
    if s.phase != Running then Refuse(s, InvalidStateTransition)
    else if items == [] then Keep(s)
    else if at == 0 then Refuse(s, TimestampRequired)
    else if Earlier(at, s.startedAt) then Refuse(s, InvalidTimestamp)
    else ReplaceTogether(s, Replacements(s, at, items), at)
  }

  ghost function ReplaceTogether(s: Aggregate, batch: Result<map<string, RuleOutcome>, Error>, at: Time): Reply
  {
    match batch
    case Err(e) => Refuse(s, e)
    case Ok(m) =>
      var changes := Differing(s, m);
      if changes == map[] then Keep(s)
      else
        Change(s.(outcomes := Overlay(s.outcomes, changes)),
               RuleOutcomeBatchReplaced(Listing(Lookup(s.outcomes, changes.Keys)), Listing(changes), at))
  }

  // Removal ------------------------------------------------------------------------

  /** The list with the outcome at one place taken out. */
  function Cut(os: seq<RuleOutcome>, k: nat): seq<RuleOutcome>
    requires k < |os|
  {
    os[..k] + os[k + 1..]
  }

  function Remove(s: Aggregate, ruleID: string, at: Time): Reply
  {
    var id := TrimSpace(ruleID);
    if s.phase != Running then Refuse(s, InvalidStateTransition)
    else if id == "" then Refuse(s, RuleIDRequired)
    else if at == 0 then Refuse(s, RemovalTimeRequired)
    else if Earlier(at, s.startedAt) then Refuse(s, InvalidTimestamp)
    else if !Recorded(s.outcomes, id) then Refuse(s, OutcomeNotFound(id))
    else
      var k := IndexOf(s.outcomes, id);
      Change(s.(outcomes := Cut(s.outcomes, k)), RuleOutcomeRemoved(s.outcomes[k], at))
  }

  function RemoveIfPresent(s: Aggregate, ruleID: string, at: Time): Reply
  {
    var id := TrimSpace(ruleID);
    if id == "" then Refuse(s, RuleIDRequired)
    else if !Recorded(s.outcomes, id) then Keep(s)
    else Remove(s, id, at)
  }

  /** The rules named by a removal request, or none if a name is blank. */
  function RuleSet(ids: seq<string>): Option<set<string>>
  {
    if exists i :: 0 <= i < |ids| && Blank(ids[i]) then None else Some(set i | 0 <= i < |ids| :: TrimSpace(ids[i]))
  }

  function Missing(os: seq<RuleOutcome>, ids: set<string>): set<string>
  {
    set id | id in ids && !Recorded(os, id)
  }

  ghost function RemoveSet(s: Aggregate, ids: set<string>, at: Time): Reply
  {
    if Missing(s.outcomes, ids) != {} then Refuse(s, OutcomeNotFound(Least(Missing(s.outcomes, ids))))
    else
      Change(s.(outcomes := Without(s.outcomes, ids)),
             RuleOutcomeBatchRemoved(Listing(Lookup(s.outcomes, ids)), at))
  }

  ghost function RemoveAtomic(s: Aggregate, ids: seq<string>, at: Time): Reply
  {
    if s.phase != Running then Refuse(s, InvalidStateTransition)
    else if ids == [] then Keep(s)
    else if at == 0 then Refuse(s, RemovalTimeRequired)
    else if Earlier(at, s.startedAt) then Refuse(s, InvalidTimestamp)
    else
      match RuleSet(ids)
      case None => Refuse(s, RuleIDRequired)
      case Some(rules) => RemoveSet(s, rules, at)
  }

  ghost function RemoveEachIfPresent(s: Aggregate, ids: seq<string>, at: Time): Reply
  {
    if s.phase != Running then Refuse(s, InvalidStateTransition)
    else
      match RuleSet(ids)
      case None => Refuse(s, RuleIDRequired)
      case Some(rules) =>
        var present := set id | id in rules && Recorded(s.outcomes, id);
        if present == {} then Keep(s) else RemoveAtomic(s, Keys(present), at)
  }

  function Reset(s: Aggregate, at: Time): Reply
  {
    if s.phase != Running then Refuse(s, InvalidStateTransition)
    else if at == 0 then Refuse(s, ResetTimeRequired)
    else if Earlier(at, s.startedAt) then Refuse(s, InvalidTimestamp)
    else if s.outcomes == [] then Keep(s)
    else Change(s.(outcomes := []), RuleOutcomesReset(s.outcomes, at))
  }

  function ResetAtVersion(s: Aggregate, expected: nat, at: Time): Reply
  {
    if s.version != expected then Refuse(s, VersionConflict) else Reset(s, at)
  }

  // Checkpoints and history ----------------------------------------------------------

  function CreateCheckpoint(s: Aggregate, name: string, at: Time): Reply
  {
    var key := TrimSpace(name);
    if s.phase != Running then Refuse(s, InvalidStateTransition)
    else if key == "" then Refuse(s, RuleIDRequired)
    else if at == 0 then Refuse(s, HistoryTimeRequired)
    else if Earlier(at, s.startedAt) then Refuse(s, InvalidHistoryEntry)
    else if key in s.checkpoints then Refuse(s, CheckpointExists)
    else
      Change(s.(checkpoints := s.checkpoints[key := Checkpoint(key, s.outcomes, s.version, at)]), CheckpointCreated(key, at))
  }

  function Rollback(s: Aggregate, name: string, at: Time): Reply
  {
    var key := TrimSpace(name);
    if s.phase != Running then Refuse(s, InvalidStateTransition)
    else if key !in s.checkpoints then Refuse(s, CheckpointNotFound)
    else if at == 0 then Refuse(s, HistoryTimeRequired)
    else if Earlier(at, s.startedAt) || at < s.checkpoints[key].createdAt then Refuse(s, InvalidHistoryEntry)
    else Change(s.(outcomes := s.checkpoints[key].outcomes), RolledBack(key, at))
  }

  function EntryOf(s: Aggregate, at: Time): HistoryEntry
  {
    HistoryEntry(s.id, s.sessionID, s.version, s.phase, s.verdict, s.reasons, s.required, s.outcomes, at)
  }

  predicate ValidEntry(h: HistoryEntry)
  {
    h.evaluationID != 0 && h.sessionID != 0 && h.version != 0 && h.recordedAt != 0 && ValidVerdict(h.verdict)
  }

  /** History is the one change that leaves the version alone. */
  function RecordHistory(s: Aggregate, at: Time): Reply
  {
    if at == 0 then Refuse(s, HistoryTimeRequired)
    else if at < s.createdAt then Refuse(s, InvalidHistoryEntry)
    else if exists i :: 0 <= i < |s.history| && s.history[i].version == s.version then Refuse(s, HistoryVersionExists(s.version))
    else if !ValidEntry(EntryOf(s, at)) then Refuse(s, InvalidHistoryEntry)
    else
      Reply(s.(history := s.history + [EntryOf(s, at)]), [Event(s.id, s.sessionID, s.version, HistoryRecorded(at))], None)
  }

  // Bindings ----------------------------------------------------------------------------

  /** Blank reasons are dropped, the others must be codes. */
  function NormalizeEvidenceReasons(reasons: seq<string>): Result<seq<string>, Error>
  {
    if reasons == [] then Ok([])
    else
      var n := |reasons| - 1;
      match NormalizeEvidenceReasons(reasons[..n])
      case Err(e) => Err(e)
      case Ok(front) =>
        var code := Canonical(reasons[n]);
        if code == "" then Ok(front)
        else if !IsCode(code) then Err(EvidenceBindingRequired)
        else if code in front then Ok(front)
        else Ok(front + [code])
  }

  function NormalizeReference(r: EvidenceReference): Result<EvidenceReference, Error>
  {
    if r.evidenceID == 0 || !ValidEvidenceStatus(r.status) then Err(EvidenceBindingRequired)
    else
      match NormalizeEvidenceReasons(r.reasons)
      case Err(e) => Err(e)
      case Ok(reasons) =>
        if (r.status == Qualified) != (reasons == []) then Err(EvidenceBindingRequired)
        else Ok(r.(reasons := reasons))
  }

  /** Every reference in normal form, provided no object is referenced twice. */
  function NormalizeReferences(rs: seq<EvidenceReference>): (r: Result<seq<EvidenceReference>, Error>)
  {
    if && (forall i :: 0 <= i < |rs| ==> NormalizeReference(rs[i]).Ok?)
       && (forall i, j :: 0 <= i < j < |rs| ==> rs[i].evidenceID != rs[j].evidenceID)
    then Ok(seq(|rs|, i requires 0 <= i < |rs| => NormalizeReference(rs[i]).value))
    else Err(EvidenceBindingRequired)
  }

  predicate CoherentEvidence(b: EvidenceBinding)
  {
    match b.status
    case Qualified => b.evidence != [] && b.reasons == [] && forall i :: 0 <= i < |b.evidence| ==> b.evidence[i].status == Qualified
    case Unavailable => b.evidence == [] && b.reasons != []
    case EvidenceRejected => b.reasons != [] || exists i :: 0 <= i < |b.evidence| && b.evidence[i].status != Qualified
    case OtherEvidenceStatus(_) => false
  }

  function NormalizeEvidence(b: EvidenceBinding): Result<EvidenceBinding, Error>
  {
    var version := TrimSpace(b.policyVersion);
    if b.sessionID == 0 || !ValidEvidenceStatus(b.status) || version == "" || b.qualifiedAt == 0 then Err(EvidenceBindingRequired)
    else
      match NormalizeEvidenceReasons(b.reasons)
      case Err(e) => Err(e)
      case Ok(reasons) =>
        match NormalizeReferences(b.evidence)
        case Err(e) => Err(e)
        case Ok(references) =>
          var r := b.(policyVersion := version, reasons := reasons, evidence := references);
          if CoherentEvidence(r) then Ok(r) else Err(EvidenceBindingRequired)
  }

  function BindEvidence(s: Aggregate, b: EvidenceBinding): Reply
  {
    if s.phase.Terminal() then Refuse(s, InvalidStateTransition)
    else if s.outcomes != [] then Refuse(s, EvidenceBoundAfterRules)
    else
      match NormalizeEvidence(b)
      case Err(e) => Refuse(s, e)
      case Ok(v) =>
        if v.sessionID != s.sessionID then Refuse(s, EvidenceSessionMismatch)
        else if s.evidence == Some(v) then Keep(s)
        else if s.evidence.Some? then Refuse(s, EvidenceAlreadyBound)
        else Change(s.(evidence := Some(v)), EvidenceSetBound(v))
  }

  const HASH_PREFIX := "sha256:"

  predicate HexChar(c: char) { '0' <= c <= '9' || 'a' <= c <= 'f' }

  /** The pattern `^sha256:[0-9a-f]{64}$`. */
  predicate IsPolicyHash(s: string)
  {
    |s| == 71 && s[..7] == HASH_PREFIX && forall i :: 7 <= i < 71 ==> HexChar(s[i])
  }

  function NormalizePolicy(b: PolicyBinding): Result<PolicyBinding, Error>
  {
    var r := PolicyBinding(TrimSpace(b.policyID), TrimSpace(b.version), TrimSpace(b.hash), b.boundAt);
    if r.policyID == "" || r.version == "" || !IsPolicyHash(r.hash) || r.boundAt == 0 then Err(PolicyBindingRequired) else Ok(r)
  }

  function BindPolicy(s: Aggregate, b: PolicyBinding): Reply
  {
    if s.phase.Terminal() then Refuse(s, InvalidStateTransition)
    else if s.outcomes != [] then Refuse(s, PolicyBoundAfterRules)
    else
      match NormalizePolicy(b)
      case Err(_) => Refuse(s, PolicyBindingRequired)
      case Ok(v) =>
        if v.boundAt < s.createdAt then Refuse(s, PolicyBindingRequired)
        else if s.policy == Some(v) then Keep(s)
        else if s.policy.Some? then Refuse(s, PolicyAlreadyBound)
        else Change(s.(policy := Some(v)), VerificationPolicyBound(v))
  }

  // Runs ------------------------------------------------------------------------------

  datatype Op =
    | OpStart(at: Time)
    | OpComplete(verdict: Verdict, reasons: seq<string>, at: Time)
    | OpCancel(reason: string, at: Time)
    | OpExpire(at: Time)
    | OpRegisterRule(rule: string, at: Time)
    | OpRecord(outcome: RuleOutcome)
    | OpRecordEach(outcomes: seq<RuleOutcome>)
    | OpRecordAtomic(outcomes: seq<RuleOutcome>)
    | OpRecordBatch(outcomes: seq<RuleOutcome>, at: Time)
    | OpReplace(outcome: RuleOutcome, at: Time)
    | OpReplaceAtomic(items: seq<Replacement>, at: Time)
    | OpRemove(rule: string, at: Time)
    | OpRemoveIfPresent(rule: string, at: Time)
    | OpRemoveAtomic(rules: seq<string>, at: Time)
    | OpRemoveEachIfPresent(rules: seq<string>, at: Time)
    | OpReset(at: Time)
    | OpResetAtVersion(expected: nat, at: Time)
    | OpCreateCheckpoint(name: string, at: Time)
    | OpRollback(name: string, at: Time)
    | OpRecordHistory(at: Time)
    | OpBindEvidence(evidence: EvidenceBinding)
    | OpBindPolicy(policy: PolicyBinding)

  ghost function Apply(s: Aggregate, op: Op): Reply
  {
    match op
    case OpStart(at) => Start(s, at)
    case OpComplete(verdict, reasons, at) => CompleteAt(s, verdict, reasons, at)
    case OpCancel(reason, at) => Cancel(s, reason, at)
    case OpExpire(at) => Expire(s, at)
    case OpRegisterRule(rule, at) => RegisterRule(s, rule, at)
    case OpRecord(o) => Record(s, o)
    case OpRecordEach(os) => RecordEach(s, os)
    case OpRecordAtomic(os) => RecordAtomic(s, os)
    case OpRecordBatch(os, at) => RecordBatch(s, os, at)
    case OpReplace(o, at) => Replace(s, o, at)
    case OpReplaceAtomic(items, at) => ReplaceAtomic(s, items, at)
    case OpRemove(rule, at) => Remove(s, rule, at)
    case OpRemoveIfPresent(rule, at) => RemoveIfPresent(s, rule, at)
    case OpRemoveAtomic(rules, at) => RemoveAtomic(s, rules, at)
    case OpRemoveEachIfPresent(rules, at) => RemoveEachIfPresent(s, rules, at)
    case OpReset(at) => Reset(s, at)
    case OpResetAtVersion(expected, at) => ResetAtVersion(s, expected, at)
    case OpCreateCheckpoint(name, at) => CreateCheckpoint(s, name, at)
    case OpRollback(name, at) => Rollback(s, name, at)
    case OpRecordHistory(at) => RecordHistory(s, at)
    case OpBindEvidence(b) => BindEvidence(s, b)
    case OpBindPolicy(b) => BindPolicy(s, b)
  }

  /** An aggregate together with the events it has not yet handed over. */
  datatype Tracked = Tracked(body: Aggregate, events: seq<Event>)

  /** Runs the operations one after the other, whatever they return. */
  ghost function Run(t: Tracked, ops: seq<Op>): Tracked
  {
    if ops == [] then t
    else
      var n := |ops| - 1;
      var before := Run(t, ops[..n]);
      var reply := Apply(before.body, ops[n]);
      Tracked(reply.next, before.events + reply.emitted)
  }
}
