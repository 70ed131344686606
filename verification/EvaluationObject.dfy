/**
  The aggregate as the object it is. It holds its fields as one record, `body`, which the
  methods update a field at a time, and its event log; the loops of the source do the
  work. Each method is proved to do what the function of the same meaning in
  Evaluation.dfy says, field by field, events and errors included.
 */
module EvaluationObject {
  import opened Prelude
  import opened Text
  import opened Sorting
  import opened Evaluation
  import opened EvaluationRules
  import opened EvaluationInvariant
  import opened EvaluationReplay
  import opened EvaluationDecision
  import opened EvaluationAtomic
  import A = EvaluationAccepts
  import E = Evaluation

  predicate RuleBefore(a: RuleOutcome, b: RuleOutcome)
  {
    Before(a.ruleID, b.ruleID)
  }

  /** Sorting outcomes with distinct rules lists the map from rule to outcome. */
  lemma SortListsOutcomes(os: seq<RuleOutcome>, m: map<string, RuleOutcome>)
    requires DistinctRules(os)
    requires forall id :: id in m ==> m[id].ruleID == id
    requires forall o :: o in os <==> o.ruleID in m && m[o.ruleID] == o
    ensures StableSort(os, RuleBefore) == Listing(m)
  {
    forall a, b, c | RuleBefore(a, b) && RuleBefore(b, c) ensures RuleBefore(a, c) {
      BeforeIsTransitive(a.ruleID, b.ruleID, c.ruleID);
    }
    forall i, j | 0 <= i < j < |os| ensures RuleBefore(os[i], os[j]) || RuleBefore(os[j], os[i]) {
      BeforeIsTotal(os[i].ruleID, os[j].ruleID);
    }
    SortAscends(os, RuleBefore);
    var r := StableSort(os, RuleBefore);
    InMultiset(r, os);
    InMultiset(os, r);
    assert forall i, j :: 0 <= i < j < |r| ==> RuleBefore(r[i], r[j]);
    ListingIsUnique(r, m);
  }

  method NormalizeReasonCodes(codes: seq<string>) returns (r: Result<seq<string>, Error>)
    ensures r == NormalizeReasons(codes)
  {
    var out: seq<string> := [];
    var seen: set<string> := {};
    for i := 0 to |codes|
      invariant NormalizeReasons(codes[..i]) == Ok(out)
      invariant forall c :: c in seen <==> c in out
    {
      assert codes[..i + 1][..i] == codes[..i];
      var c := Canonical(codes[i]);
      if !IsCode(c) {
        FirstErrorStands(codes, i + 1);
        return Err(InvalidReasonCode);
      }
      if c !in seen {
        seen := seen + {c};
        out := out + [c];
      }
    }
    assert codes[..|codes|] == codes;
    return Ok(out);
  }

  lemma {:induction false} FirstErrorStands(codes: seq<string>, n: nat)
    requires n <= |codes| && NormalizeReasons(codes[..n]).Err?
    ensures NormalizeReasons(codes) == NormalizeReasons(codes[..n])
    decreases |codes|
  {
    if n == |codes| {
      assert codes[..n] == codes;
    } else {
      var front := codes[..|codes| - 1];
      assert front[..n] == codes[..n];
      FirstErrorStands(front, n);
    }
  }

  method NormalizeRuleOutcome(o: RuleOutcome) returns (r: Result<RuleOutcome, Error>)
    ensures r == NormalizeOutcome(o)
  {
    var id := TrimSpace(o.ruleID);
    if id == "" {
      return Err(RuleIDRequired);
    }
    if !ValidStatus(o.status) || o.evaluatedAt == 0 {
      return Err(InvalidRuleOutcome);
    }
    var reasons := NormalizeReasonCodes(o.reasons);
    if reasons.Err? {
      return Err(reasons.error);
    }
    if o.status == Pass && |reasons.value| != 0 {
      return Err(InvalidRuleOutcome);
    }
    if o.status != Pass && |reasons.value| == 0 {
      return Err(InvalidRuleOutcome);
    }
    return Ok(o.(ruleID := id, reasons := reasons.value));
  }

  lemma {:induction false} BatchErrorStands(s: Aggregate, os: seq<RuleOutcome>, n: nat)
    requires n <= |os| && Batch(s, os[..n]).Err?
    ensures Batch(s, os) == Batch(s, os[..n])
    decreases |os|
  {
    hide BatchAdd;
    if n == |os| {
      assert os[..n] == os;
    } else {
      var front := os[..|os| - 1];
      assert front[..n] == os[..n];
      BatchErrorStands(s, front, n);
    }
  }

  lemma {:induction false} ReplacementsErrorStands(s: Aggregate, at: Time, items: seq<Replacement>, n: nat)
    requires n <= |items| && Replacements(s, at, items[..n]).Err?
    ensures Replacements(s, at, items) == Replacements(s, at, items[..n])
    decreases |items|
  {
    hide ReplaceAdd;
    if n == |items| {
      assert items[..n] == items;
    } else {
      var front := items[..|items| - 1];
      assert front[..n] == items[..n];
      ReplacementsErrorStands(s, at, front, n);
    }
  }

  class EvaluationAggregate {
    var body: Aggregate
    var events: seq<Event>

    /** The object did what `r` says, starting from the log `log`. */
    ghost predicate Did(log: seq<Event>, r: Reply, err: Option<Error>)
      reads this
    {
      body == r.next && events == log + r.emitted && err == r.error
    }

    constructor (id: Id, sessionID: Id, createdAt: Time)
      ensures body == Fresh(id, sessionID, createdAt)
      ensures events == [Event(id, sessionID, 1, EvaluationCreated(createdAt))]
    {
      body := Fresh(id, sessionID, createdAt);
      events := [Event(id, sessionID, 1, EvaluationCreated(createdAt))];
    }

    static method NewEvaluation(id: Id, sessionID: Id, createdAt: Time) returns (r: Result<EvaluationAggregate, Error>)
      ensures r.Err? <==> New(id, sessionID, createdAt).Err?
      ensures r.Err? ==> r.error == New(id, sessionID, createdAt).error
      ensures r.Ok? ==> fresh(r.value) && Valid(r.value.body)
      ensures r.Ok? ==> r.value.body == New(id, sessionID, createdAt).value.0 && r.value.events == [New(id, sessionID, createdAt).value.1]
    {
      if id == 0 {
        return Err(EvaluationIDRequired);
      }
      if sessionID == 0 {
        return Err(SessionIDRequired);
      }
      if createdAt == 0 {
        return Err(InvalidSnapshot);
      }
      var e := new EvaluationAggregate(id, sessionID, createdAt);
      NewIsValid(id, sessionID, createdAt);
      return Ok(e);
    }

    // Lifecycle ---------------------------------------------------------------------

    method Start(at: Time) returns (err: Option<Error>)
      modifies this
      ensures Did(old(events), E.Start(old(body), at), err)
    {
      if !body.phase.CanTransitionTo(Running) {
        return Some(InvalidStateTransition);
      }
      if at == 0 || at < body.createdAt {
        return Some(InvalidStartTime);
      }
      body := body.(phase := Running);
      body := body.(startedAt := Some(at));
      body := body.(version := body.version + 1);
      events := events + [Event(body.id, body.sessionID, body.version, EvaluationStarted(at))];
      return None;
    }

    method CompleteAt(verdict: Verdict, reasons: seq<string>, at: Time) returns (err: Option<Error>)
      modifies this
      ensures Did(old(events), E.CompleteAt(old(body), verdict, reasons, at), err)
      ensures err.None? <==>
        && old(body).phase == Running && at != 0 && A.Since(old(body), at) && !verdict.OtherVerdict? && verdict != Unknown
        && A.Covered(old(body)) && A.Codes(reasons) && (verdict == Verified <==> reasons == [])
    {
      hide NormalizeReasons, RequiredComplete, Recorded, A.Covered, A.Codes;
      A.CompletesExactly(body, verdict, reasons, at);
      if !body.phase.CanTransitionTo(Completed) {
        return Some(InvalidStateTransition);
      }
      if at == 0 || body.startedAt.None? || at < body.startedAt.value {
        return Some(InvalidCompletionTime);
      }
      if !ValidVerdict(verdict) || verdict == Unknown {
        return Some(InvalidCompletionResult);
      }
      var missing := MissingRequiredRuleIDs();
      if |missing| != 0 {
        return Some(RequiredRulesIncomplete);
      }
      var codes := NormalizeReasonCodes(reasons);
      if codes.Err? {
        return Some(codes.error);
      }
      if (verdict == Rejected || verdict == ManualReview || verdict == SystemException || verdict == VerifiedWithException) && |codes.value| == 0 {
        return Some(InvalidCompletionResult);
      }
      if verdict == Verified && |codes.value| > 0 {
        return Some(InvalidCompletionResult);
      }
      body := body.(phase := Completed);
      body := body.(verdict := verdict);
      body := body.(reasons := codes.value);
      body := body.(completedAt := Some(at));
      body := body.(version := body.version + 1);
      var completion := if verdict == Rejected then EvaluationRejected(codes.value, at)
                        else if verdict == ManualReview then EvaluationManualReviewRequired(codes.value, at)
                        else if verdict == SystemException then EvaluationSystemException(codes.value, at)
                        else EvaluationCompleted(verdict, at);
      events := events + [Event(body.id, body.sessionID, body.version, completion)];
      return None;
    }

    method Cancel(reason: string, now: Time) returns (err: Option<Error>)
      modifies this
      ensures Did(old(events), E.Cancel(old(body), reason, now), err)
    {
      if body.phase.Terminal() {
        return Some(InvalidStateTransition);
      }
      var text := TrimSpace(reason);
      if text == "" {
        return Some(CancellationReasonRequired);
      }
      body := body.(phase := Cancelled);
      body := body.(cancelledAt := Some(now));
      body := body.(cancellationReason := text);
      body := body.(version := body.version + 1);
      events := events + [Event(body.id, body.sessionID, body.version, EvaluationCancelled(text, now))];
      return None;
    }

    method Expire(at: Time) returns (err: Option<Error>)
      modifies this
      ensures Did(old(events), E.Expire(old(body), at), err)
    {
      if body.phase.Terminal() {
        return Some(InvalidStateTransition);
      }
      if at == 0 {
        return Some(InvalidExpirationTime);
      }
      if at < body.createdAt {
        return Some(InvalidExpirationTime);
      }
      body := body.(phase := Expired);
      body := body.(verdict := SystemException);
      body := body.(reasons := [TIMEOUT_REASON]);
      body := body.(expiredAt := Some(at));
      body := body.(version := body.version + 1);
      events := events + [Event(body.id, body.sessionID, body.version, EvaluationExpired(body.reasons, at))];
      return None;
    }

    // Rules ---------------------------------------------------------------------------

    method IsRuleRequired(ruleID: string) returns (found: bool)
      ensures found <==> TrimSpace(ruleID) in body.required
    {
      var id := TrimSpace(ruleID);
      for i := 0 to |body.required|
        invariant id !in body.required[..i]
      {
        if body.required[i] == id {
          return true;
        }
      }
      return false;
    }

    method RuleOutcomeIndex(ruleID: string) returns (k: int)
      ensures k == IndexOf(body.outcomes, ruleID)
    {
      for i := 0 to |body.outcomes|
        invariant forall j :: 0 <= j < i ==> body.outcomes[j].ruleID != ruleID
      {
        if body.outcomes[i].ruleID == ruleID {
          return i;
        }
      }
      return -1;
    }

    method RegisterRequiredRuleAt(ruleID: string, at: Time) returns (err: Option<Error>)
      modifies this
      ensures Did(old(events), RegisterRule(old(body), ruleID, at), err)
    {
      if body.phase.Terminal() {
        return Some(InvalidStateTransition);
      }
      if at == 0 || at < body.createdAt {
        return Some(InvalidTimestamp);
      }
      var id := TrimSpace(ruleID);
      if id == "" {
        return Some(RuleIDRequired);
      }
      for i := 0 to |body.required|
        invariant id !in body.required[..i]
        invariant body == old(body) && events == old(events)
      {
        if body.required[i] == id {
          return None;
        }
      }
      body := body.(required := body.required + [id]);
      body := body.(version := body.version + 1);
      events := events + [Event(body.id, body.sessionID, body.version, RequiredRuleRegistered(id, at))];
      return None;
    }

    /** The plan minus what is recorded, in plan order. */
    method MissingRequiredRuleIDs() returns (missing: seq<string>)
      ensures forall id :: id in missing <==> id in body.required && !Recorded(body.outcomes, id)
      ensures missing == [] <==> RequiredComplete(body)
    {
      var seen: set<string> := {};
      for i := 0 to |body.outcomes|
        invariant forall id :: id in seen <==> exists j :: 0 <= j < i && body.outcomes[j].ruleID == id
      {
        seen := seen + {body.outcomes[i].ruleID};
      }
      assert forall id :: id in seen <==> Recorded(body.outcomes, id);
      missing := [];
      for i := 0 to |body.required|
        invariant forall id :: id in missing <==> id in body.required[..i] && id !in seen
      {
        if body.required[i] !in seen {
          missing := missing + [body.required[i]];
        }
        assert body.required[..i + 1] == body.required[..i] + [body.required[i]];
      }
      assert body.required[..|body.required|] == body.required;
      if missing != [] {
        assert missing[0] in missing;
      }
    }

    method DeriveResult() returns (r: Result<(Verdict, seq<string>), Error>)
      ensures r == EvaluationDecision.DeriveResult(body)
    {
      var missing := MissingRequiredRuleIDs();
      if |missing| != 0 {
        return Err(RequiredRulesIncomplete);
      }
      if |body.outcomes| == 0 {
        return Err(InvalidRuleOutcome);
      }
      var codes: seq<string> := [];
      var result := Verified;
      for i := 0 to |body.outcomes|
        invariant result == VerdictOf(body.outcomes[..i]) && codes == ReasonsOf(body.outcomes[..i])
      {
        assert body.outcomes[..i + 1][..i] == body.outcomes[..i];
        var o := body.outcomes[i];
        match o.status {
          case Fail =>
            result := Rejected;
            codes := codes + o.reasons;
          case Inconclusive =>
            if result != Rejected {
              result := ManualReview;
            }
            codes := codes + o.reasons;
          case Warning =>
            if result == Verified {
              result := VerifiedWithException;
            }
            codes := codes + o.reasons;
          case _ =>
        }
      }
      assert body.outcomes[..|body.outcomes|] == body.outcomes;
      var normal := NormalizeReasonCodes(codes);
      if normal.Err? {
        return Err(normal.error);
      }
      return Ok((result, normal.value));
    }

    method RecordRuleOutcome(o: RuleOutcome) returns (err: Option<Error>)
      modifies this
      ensures Did(old(events), Record(old(body), o), err)
    {
      if body.phase != Running {
        return Some(InvalidStateTransition);
      }
      var normal := NormalizeRuleOutcome(o);
      if normal.Err? {
        return Some(normal.error);
      }
      var v := normal.value;
      if body.startedAt.None? || v.evaluatedAt < body.startedAt.value {
        return Some(InvalidTimestamp);
      }
      var planned := IsRuleRequired(v.ruleID);
      if |body.required| > 0 && !planned {
        return Some(UnknownRule(v.ruleID));
      }
      var k := RuleOutcomeIndex(v.ruleID);
      if k >= 0 {
        if body.outcomes[k] == v {
          return None;
        }
        return Some(OutcomeConflict(v.ruleID));
      }
      body := body.(outcomes := body.outcomes + [v]);
      body := body.(version := body.version + 1);
      events := events + [Event(body.id, body.sessionID, body.version, RuleOutcomeRecorded(v))];
      return None;
    }

    method RecordRuleOutcomes(os: seq<RuleOutcome>) returns (err: Option<Error>)
      modifies this
      ensures Did(old(events), RecordEach(old(body), os), err)
    {
      hide Record, RecordEach;
      ghost var s := body;
      RecordNone(s);
      for i := 0 to |os|
        invariant body == RecordEach(s, os[..i]).next && events == old(events) + RecordEach(s, os[..i]).emitted
        invariant RecordEach(s, os[..i]).error.None?
      {
        RecordStep(s, os, i);
        err := RecordRuleOutcome(os[i]);
        if err.Some? {
          RecordErrorStands(s, os, i + 1);
          return;
        }
      }
      assert os[..|os|] == os;
      err := None;
    }

    // Batches -----------------------------------------------------------------------------

    /** One outcome of a batch, against what is recorded and what the batch holds so far. */
    method CheckOutcome(byID: map<string, RuleOutcome>, o: RuleOutcome) returns (r: Result<map<string, RuleOutcome>, Error>, v: RuleOutcome)
      requires forall id :: id in byID ==> byID[id].ruleID == id
      ensures r == BatchAdd(body, byID, o)
      ensures r.Ok? ==> r.value == if v.ruleID in byID then byID else byID[v.ruleID := v]
    {
      hide NormalizeOutcome;
      var normal := NormalizeRuleOutcome(o);
      v := o;
      if normal.Err? {
        return Err(normal.error), v;
      }
      v := normal.value;
      if body.startedAt.None? || v.evaluatedAt < body.startedAt.value {
        return Err(InvalidTimestampOf(v.ruleID)), v;
      }
      var planned := IsRuleRequired(v.ruleID);
      if |body.required| > 0 && !planned {
        return Err(UnknownRule(v.ruleID)), v;
      }
      if v.ruleID in byID {
        if byID[v.ruleID] == v {
          return Ok(byID), v;
        }
        return Err(OutcomeConflict(v.ruleID)), v;
      }
      var k := RuleOutcomeIndex(v.ruleID);
      if k >= 0 && body.outcomes[k] != v {
        return Err(OutcomeConflict(v.ruleID)), v;
      }
      return Ok(byID[v.ruleID := v]), v;
    }

    method ValidateRuleOutcomeBatch(os: seq<RuleOutcome>) returns (r: Result<seq<RuleOutcome>, Error>)
      ensures r.Err? <==> Batch(body, os).Err?
      ensures r.Err? ==> r.error == Batch(body, os).error
      ensures r.Ok? ==> r.value == Listing(Batch(body, os).value)
    {
      hide BatchAdd, Listing;
      var normalized: seq<RuleOutcome> := [];
      var byID: map<string, RuleOutcome> := map[];
      ghost var s := body;
      for i := 0 to |os|
        invariant Batch(s, os[..i]) == Ok(byID)
        invariant DistinctRules(normalized)
        invariant forall id :: id in byID ==> byID[id].ruleID == id
        invariant forall o :: o in normalized <==> o.ruleID in byID && byID[o.ruleID] == o
      {
        assert os[..i + 1][..i] == os[..i];
        var next, v := CheckOutcome(byID, os[i]);
        if next.Err? {
          BatchErrorStands(s, os, i + 1);
          return Err(next.error);
        }
        if v.ruleID !in byID {
          normalized := normalized + [v];
        }
        byID := next.value;
      }
      assert os[..|os|] == os;
      SortListsOutcomes(normalized, byID);
      return Ok(StableSort(normalized, RuleBefore));
    }

    method RecordRuleOutcomesAtomic(os: seq<RuleOutcome>) returns (err: Option<Error>)
      modifies this
      ensures Did(old(events), RecordAtomic(old(body), os), err)
    {
      hide Batch, Pending, Listing;
      if body.phase != Running {
        return Some(InvalidStateTransition);
      }
      var normal := ValidateRuleOutcomeBatch(os);
      if normal.Err? {
        return Some(normal.error);
      }
      PendingIsAcceptable(body, os);
      AppendUnrecorded(normal.value);
      return None;
    }

    /** Appends what is not recorded yet, one version and one event at a time. */
    method AppendUnrecorded(l: seq<RuleOutcome>)
      requires DistinctRules(l) && forall i :: 0 <= i < |l| ==> Admissible(body, l[i])
      modifies this
      ensures Did(old(events), AppendEach(old(body), Unrecorded(old(body).outcomes, l)), None)
    {
      hide Admissible, Unrecorded, AppendEach, DistinctRules;
      ghost var s := body;
      AppendNone(s);
      for i := 0 to |l|
        invariant body == AppendEach(s, Unrecorded(s.outcomes, l[..i])).next
        invariant events == old(events) + AppendEach(s, Unrecorded(s.outcomes, l[..i])).emitted
      {
        var o := l[i];
        AppendStep(s, l, i);
        var k := RuleOutcomeIndex(o.ruleID);
        if k >= 0 && body.outcomes[k] == o {
          continue;
        }
        body := body.(outcomes := body.outcomes + [o]);
        body := body.(version := body.version + 1);
        events := events + [Event(body.id, body.sessionID, body.version, RuleOutcomeRecorded(o))];
      }
      assert l[..|l|] == l;
      AppendEachAppends(s, Unrecorded(s.outcomes, l));
    }

    method RecordRuleOutcomeBatch(os: seq<RuleOutcome>, recordedAt: Time) returns (err: Option<Error>)
      modifies this
      ensures Did(old(events), RecordBatch(old(body), os, recordedAt), err)
    {
      hide Batch, Pending, Listing, Admissible;
      if body.phase != Running {
        return Some(InvalidStateTransition);
      }
      if |os| == 0 {
        return None;
      }
      if recordedAt == 0 {
        return Some(TimestampRequired);
      }
      if body.startedAt.None? || recordedAt < body.startedAt.value {
        return Some(InvalidTimestamp);
      }
      var normal := ValidateRuleOutcomeBatch(os);
      if normal.Err? {
        return Some(normal.error);
      }
      PendingIsAcceptable(body, os);
      var pending := SelectUnrecorded(normal.value);
      if |pending| == 0 {
        return None;
      }
      body := body.(outcomes := body.outcomes + pending);
      body := body.(version := body.version + 1);
      events := events + [Event(body.id, body.sessionID, body.version, RuleOutcomeBatchRecorded(pending, recordedAt))];
      return None;
    }

    method SelectUnrecorded(l: seq<RuleOutcome>) returns (pending: seq<RuleOutcome>)
      requires forall i :: 0 <= i < |l| ==> Admissible(body, l[i])
      ensures pending == Unrecorded(body.outcomes, l)
    {
      pending := [];
      for i := 0 to |l|
        invariant pending == Unrecorded(body.outcomes, l[..i])
      {
        assert l[..i + 1][..i] == l[..i];
        var k := RuleOutcomeIndex(l[i].ruleID);
        if k >= 0 && body.outcomes[k] == l[i] {
          continue;
        }
        assert Admissible(body, l[i]);
        pending := pending + [l[i]];
      }
      assert l[..|l|] == l;
    }

    // Replacement ------------------------------------------------------------------------

    method ReplaceRuleOutcome(o: RuleOutcome, replacedAt: Time) returns (err: Option<Error>)
      modifies this
      ensures Did(old(events), Replace(old(body), o, replacedAt), err)
    {
      hide NormalizeOutcome;
      if body.phase != Running {
        return Some(InvalidStateTransition);
      }
      if replacedAt == 0 {
        return Some(TimestampRequired);
      }
      var normal := NormalizeRuleOutcome(o);
      if normal.Err? {
        return Some(normal.error);
      }
      var v := normal.value;
      if body.startedAt.None? || replacedAt < body.startedAt.value || v.evaluatedAt < body.startedAt.value || v.evaluatedAt > replacedAt {
        return Some(InvalidTimestamp);
      }
      var planned := IsRuleRequired(v.ruleID);
      if |body.required| > 0 && !planned {
        return Some(UnknownRule(v.ruleID));
      }
      var k := RuleOutcomeIndex(v.ruleID);
      if k < 0 {
        return Some(OutcomeNotFound(v.ruleID));
      }
      var previous := body.outcomes[k];
      if previous == v {
        return None;
      }
      if v.evaluatedAt < previous.evaluatedAt {
        return Some(StaleReplacement(v.ruleID));
      }
      body := body.(outcomes := body.outcomes[k := v]);
      body := body.(version := body.version + 1);
      events := events + [Event(body.id, body.sessionID, body.version, RuleOutcomeReplaced(previous, v, replacedAt))];
      return None;
    }

    /** One item of a batch replacement. */
    method CheckReplacement(byID: map<string, RuleOutcome>, item: Replacement, replacedAt: Time)
      returns (r: Result<map<string, RuleOutcome>, Error>, rule: string)
      requires body.startedAt.Some?
      ensures r == ReplaceAdd(body, replacedAt, byID, item)
      ensures r.Ok? ==> r.value.Keys == byID.Keys + {rule}
    {
      hide NormalizeOutcome;
      rule := "";
      var at := item.replacedAt;
      if at == 0 {
        at := replacedAt;
      }
      if at > replacedAt {
        return Err(InvalidTimestamp), rule;
      }
      var normal := NormalizeRuleOutcome(item.outcome);
      if normal.Err? {
        return Err(normal.error), rule;
      }
      var v := normal.value;
      rule := v.ruleID;
      if v.evaluatedAt > replacedAt || v.evaluatedAt < body.startedAt.value {
        return Err(InvalidTimestamp), rule;
      }
      var planned := IsRuleRequired(v.ruleID);
      if |body.required| > 0 && !planned {
        return Err(UnknownRule(v.ruleID)), rule;
      }
      var k := RuleOutcomeIndex(v.ruleID);
      if k < 0 {
        return Err(OutcomeNotFound(v.ruleID)), rule;
      }
      if v.evaluatedAt < body.outcomes[k].evaluatedAt {
        return Err(StaleReplacement(v.ruleID)), rule;
      }
      if v.ruleID in byID && byID[v.ruleID] != v {
        return Err(OutcomeConflict(v.ruleID)), rule;
      }
      return Ok(byID[v.ruleID := v]), rule;
    }

    /** The checking half of the batch replacement: the outcomes by rule, and their rules in ascending order. */
    method CollectReplacements(items: seq<Replacement>, replacedAt: Time)
      returns (r: Result<map<string, RuleOutcome>, Error>, ids: seq<string>)
      requires body.startedAt.Some?
      ensures r == Replacements(body, replacedAt, items)
      ensures r.Ok? ==> ids == Keys(r.value.Keys)
    {
      hide ReplaceAdd, Keys;
      var byID: map<string, RuleOutcome> := map[];
      ids := [];
      ghost var s := body;
      for i := 0 to |items|
        invariant Replacements(s, replacedAt, items[..i]) == Ok(byID)
        invariant forall a, b :: 0 <= a < b < |ids| ==> ids[a] != ids[b]
        invariant forall id :: id in ids <==> id in byID
      {
        assert items[..i + 1][..i] == items[..i];
        var next, rule := CheckReplacement(byID, items[i], replacedAt);
        if next.Err? {
          ReplacementsErrorStands(s, replacedAt, items, i + 1);
          return Err(next.error), [];
        }
        if rule !in byID {
          ids := ids + [rule];
        }
        byID := next.value;
      }
      assert items[..|items|] == items;
      SortListsKeys(ids);
      assert (set x | x in ids) == byID.Keys;
      return Ok(byID), StableSort(ids, Before);
    }

    method ReplaceRuleOutcomesAtomic(items: seq<Replacement>, replacedAt: Time) returns (err: Option<Error>)
      requires DistinctRules(body.outcomes)
      modifies this
      ensures Did(old(events), ReplaceAtomic(old(body), items, replacedAt), err)
    {
      hide Replacements, ReplaceTogether, DistinctRules;
      if body.phase != Running {
        return Some(InvalidStateTransition);
      }
      if |items| == 0 {
        return None;
      }
      if replacedAt == 0 {
        return Some(TimestampRequired);
      }
      if body.startedAt.None? || replacedAt < body.startedAt.value {
        return Some(InvalidTimestamp);
      }
      var collected, ids := CollectReplacements(items, replacedAt);
      if collected.Err? {
        RefusedReplacement(body, collected.error, replacedAt);
        return Some(collected.error);
      }
      CollectedAreRecorded(body, replacedAt, items);
      err := ReplaceCollected(collected.value, ids, replacedAt);
    }

    /** The writing half of the batch replacement. */
    method ReplaceCollected(byID: map<string, RuleOutcome>, ids: seq<string>, replacedAt: Time) returns (err: Option<Error>)
      requires DistinctRules(body.outcomes) && ids == Keys(byID.Keys)
      requires forall id :: id in byID ==> byID[id].ruleID == id && Recorded(body.outcomes, id)
      modifies this
      ensures Did(old(events), ReplaceTogether(old(body), Ok(byID), replacedAt), err)
    {
      hide Listing, Lookup, Differing, Overlay, Recorded, DistinctRules, Keys, ReplaceTogether;
      var previous, pending := SplitReplacements(body.outcomes, byID, ids, body);
      ghost var changes := Differing(body, byID);
      DifferingIsKeyed(body, byID);
      TogetherIs(body, byID, replacedAt);
      if |pending| == 0 {
        return None;
      }
      var replaced := ReplaceInPlace(body.outcomes, pending, changes);
      body := body.(outcomes := replaced);
      body := body.(version := body.version + 1);
      events := events + [Event(body.id, body.sessionID, body.version, RuleOutcomeBatchReplaced(previous, pending, replacedAt))];
      return None;
    }

    // Removal ----------------------------------------------------------------------------

    method RemoveRuleOutcome(ruleID: string, removedAt: Time) returns (err: Option<Error>)
      modifies this
      ensures Did(old(events), Remove(old(body), ruleID, removedAt), err)
    {
      hide Cut, TrimSpace;
      if body.phase != Running {
        return Some(InvalidStateTransition);
      }
      var id := TrimSpace(ruleID);
      if id == "" {
        return Some(RuleIDRequired);
      }
      if removedAt == 0 {
        return Some(RemovalTimeRequired);
      }
      if body.startedAt.None? || removedAt < body.startedAt.value {
        return Some(InvalidTimestamp);
      }
      var k := RuleOutcomeIndex(id);
      if k < 0 {
        return Some(OutcomeNotFound(id));
      }
      var outcome := body.outcomes[k];
      body := body.(outcomes := Cut(body.outcomes, k));
      body := body.(version := body.version + 1);
      events := events + [Event(body.id, body.sessionID, body.version, RuleOutcomeRemoved(outcome, removedAt))];
      return None;
    }

    method RemoveRuleOutcomeIfPresent(ruleID: string, removedAt: Time) returns (err: Option<Error>)
      modifies this
      ensures Did(old(events), RemoveIfPresent(old(body), ruleID, removedAt), err)
    {
      var id := TrimSpace(ruleID);
      if id == "" {
        return Some(RuleIDRequired);
      }
      var k := RuleOutcomeIndex(id);
      if k < 0 {
        return None;
      }
      err := RemoveRuleOutcome(id, removedAt);
    }

    static method NormalizeRuleIDsForRemoval(ruleIDs: seq<string>) returns (r: Result<seq<string>, Error>)
      ensures RuleSet(ruleIDs).None? ==> r == Err(RuleIDRequired)
      ensures RuleSet(ruleIDs).Some? ==> r == Ok(Keys(RuleSet(ruleIDs).value))
    {
      hide TrimSpace, Keys;
      var seen: set<string> := {};
      var out: seq<string> := [];
      for i := 0 to |ruleIDs|
        invariant forall j :: 0 <= j < i ==> !Blank(ruleIDs[j])
        invariant seen == set j | 0 <= j < i :: TrimSpace(ruleIDs[j])
        invariant forall id :: id in out <==> id in seen
        invariant forall a, b :: 0 <= a < b < |out| ==> out[a] != out[b]
      {
        var id := TrimSpace(ruleIDs[i]);
        if id == "" {
          assert Blank(ruleIDs[i]);
          return Err(RuleIDRequired);
        }
        if id in seen {
          continue;
        }
        seen := seen + {id};
        out := out + [id];
      }
      SortListsKeys(out);
      assert (set x | x in out) == seen;
      return Ok(StableSort(out, Before));
    }

    method RemoveRuleOutcomesAtomic(ruleIDs: seq<string>, removedAt: Time) returns (err: Option<Error>)
      modifies this
      ensures Did(old(events), RemoveAtomic(old(body), ruleIDs, removedAt), err)
    {
      hide RuleSet;
      if body.phase != Running {
        return Some(InvalidStateTransition);
      }
      if |ruleIDs| == 0 {
        return None;
      }
      if removedAt == 0 {
        return Some(RemovalTimeRequired);
      }
      if body.startedAt.None? || removedAt < body.startedAt.value {
        return Some(InvalidTimestamp);
      }
      var normal := NormalizeRuleIDsForRemoval(ruleIDs);
      if normal.Err? {
        return Some(normal.error);
      }
      err := RemoveListed(normal.value, RuleSet(ruleIDs).value, removedAt);
    }

    /** The removing half of the batch removal, for rules in ascending order. */
    method RemoveListed(ids: seq<string>, ghost rules: set<string>, removedAt: Time) returns (err: Option<Error>)
      requires ids == Keys(rules)
      modifies this
      ensures Did(old(events), RemoveSet(old(body), rules, removedAt), err)
    {
      hide Keys, Missing, Listing, Lookup, Without, Least;
      var removed := CollectRemoved(body.outcomes, ids, rules);
      if removed.Err? {
        return Some(removed.error);
      }
      var remaining := FilterOut(body.outcomes, ids, rules);
      body := body.(outcomes := remaining);
      body := body.(version := body.version + 1);
      events := events + [Event(body.id, body.sessionID, body.version, RuleOutcomeBatchRemoved(removed.value, removedAt))];
      return None;
    }

    method RemoveRuleOutcomesIfPresent(ruleIDs: seq<string>, removedAt: Time) returns (err: Option<Error>)
      modifies this
      ensures Did(old(events), RemoveEachIfPresent(old(body), ruleIDs, removedAt), err)
    {
      hide RuleSet, RemoveAtomic, Recorded;
      if body.phase != Running {
        return Some(InvalidStateTransition);
      }
      var normal := NormalizeRuleIDsForRemoval(ruleIDs);
      if normal.Err? {
        return Some(normal.error);
      }
      ghost var present := set id | id in RuleSet(ruleIDs).value && Recorded(body.outcomes, id);
      var existing := SelectRecorded(body.outcomes, normal.value, RuleSet(ruleIDs).value);
      if |existing| == 0 {
        assert present == {};
        return None;
      }
      assert existing[0] in present;
      err := RemoveRuleOutcomesAtomic(existing, removedAt);
    }

    method ResetRuleOutcomes(resetAt: Time) returns (err: Option<Error>)
      modifies this
      ensures Did(old(events), Reset(old(body), resetAt), err)
    {
      if body.phase != Running {
        return Some(InvalidStateTransition);
      }
      if resetAt == 0 {
        return Some(ResetTimeRequired);
      }
      if body.startedAt.None? || resetAt < body.startedAt.value {
        return Some(InvalidTimestamp);
      }
      if |body.outcomes| == 0 {
        return None;
      }
      var removed := body.outcomes;
      body := body.(outcomes := []);
      body := body.(version := body.version + 1);
      events := events + [Event(body.id, body.sessionID, body.version, RuleOutcomesReset(removed, resetAt))];
      return None;
    }

    method ResetRuleOutcomesAtVersion(expected: nat, resetAt: Time) returns (err: Option<Error>)
      modifies this
      ensures Did(old(events), ResetAtVersion(old(body), expected, resetAt), err)
    {
      if body.version != expected {
        return Some(VersionConflict);
      }
      err := ResetRuleOutcomes(resetAt);
    }

    // Checkpoints and history -----------------------------------------------------------------

    method CreateCheckpoint(name: string, at: Time) returns (err: Option<Error>)
      modifies this
      ensures Did(old(events), E.CreateCheckpoint(old(body), name, at), err)
    {
      if body.phase != Running {
        return Some(InvalidStateTransition);
      }
      var key := TrimSpace(name);
      if key == "" {
        return Some(RuleIDRequired);
      }
      if at == 0 {
        return Some(HistoryTimeRequired);
      }
      if body.startedAt.None? || at < body.startedAt.value {
        return Some(InvalidHistoryEntry);
      }
      if key in body.checkpoints {
        return Some(CheckpointExists);
      }
      body := body.(checkpoints := body.checkpoints[key := Checkpoint(key, body.outcomes, body.version, at)]);
      body := body.(version := body.version + 1);
      events := events + [Event(body.id, body.sessionID, body.version, CheckpointCreated(key, at))];
      return None;
    }

    method RollbackToCheckpoint(name: string, at: Time) returns (err: Option<Error>)
      modifies this
      ensures Did(old(events), Rollback(old(body), name, at), err)
    {
      if body.phase != Running {
        return Some(InvalidStateTransition);
      }
      var key := TrimSpace(name);
      if key !in body.checkpoints {
        return Some(CheckpointNotFound);
      }
      if at == 0 {
        return Some(HistoryTimeRequired);
      }
      if body.startedAt.None? || at < body.startedAt.value || at < body.checkpoints[key].createdAt {
        return Some(InvalidHistoryEntry);
      }
      body := body.(outcomes := body.checkpoints[key].outcomes);
      body := body.(version := body.version + 1);
      events := events + [Event(body.id, body.sessionID, body.version, RolledBack(key, at))];
      return None;
    }

    method RecordHistory(at: Time) returns (err: Option<Error>)
      modifies this
      ensures Did(old(events), E.RecordHistory(old(body), at), err)
    {
      if at == 0 {
        return Some(HistoryTimeRequired);
      }
      if at < body.createdAt {
        return Some(InvalidHistoryEntry);
      }
      for i := 0 to |body.history|
        invariant forall j :: 0 <= j < i ==> body.history[j].version != body.version
        invariant body == old(body) && events == old(events)
      {
        if body.history[i].version == body.version {
          return Some(HistoryVersionExists(body.version));
        }
      }
      var entry := HistoryEntry(body.id, body.sessionID, body.version, body.phase, body.verdict, body.reasons, body.required, body.outcomes, at);
      if !ValidEntry(entry) {
        return Some(InvalidHistoryEntry);
      }
      body := body.(history := body.history + [entry]);
      events := events + [Event(body.id, body.sessionID, body.version, HistoryRecorded(at))];
      return None;
    }

    // Bindings ---------------------------------------------------------------------------------

    method BindEvidenceSet(binding: EvidenceBinding) returns (err: Option<Error>)
      modifies this
      ensures Did(old(events), BindEvidence(old(body), binding), err)
    {
      hide NormalizeEvidence;
      if body.phase.Terminal() {
        return Some(InvalidStateTransition);
      }
      if |body.outcomes| > 0 {
        return Some(EvidenceBoundAfterRules);
      }
      var normal := NormalizeEvidenceBinding(binding);
      if normal.Err? {
        return Some(normal.error);
      }
      if normal.value.sessionID != body.sessionID {
        return Some(EvidenceSessionMismatch);
      }
      if body.evidence.Some? {
        if body.evidence.value == normal.value {
          return None;
        }
        return Some(EvidenceAlreadyBound);
      }
      body := body.(evidence := Some(normal.value));
      body := body.(version := body.version + 1);
      events := events + [Event(body.id, body.sessionID, body.version, EvidenceSetBound(normal.value))];
      return None;
    }

    method BindVerificationPolicy(binding: PolicyBinding) returns (err: Option<Error>)
      modifies this
      ensures Did(old(events), BindPolicy(old(body), binding), err)
    {
      var normal := NormalizePolicy(binding);
      if body.phase.Terminal() {
        return Some(InvalidStateTransition);
      }
      if |body.outcomes| > 0 {
        return Some(PolicyBoundAfterRules);
      }
      if normal.Err? || normal.value.boundAt < body.createdAt {
        return Some(PolicyBindingRequired);
      }
      if body.policy.Some? {
        if body.policy.value == normal.value {
          return None;
        }
        return Some(PolicyAlreadyBound);
      }
      body := body.(policy := Some(normal.value));
      body := body.(version := body.version + 1);
      events := events + [Event(body.id, body.sessionID, body.version, VerificationPolicyBound(normal.value))];
      return None;
    }

    // Atomic mutation -------------------------------------------------------------------------

    /** One call of a public operation. */
    method Call(op: Op) returns (err: Option<Error>)
      requires DistinctRules(body.outcomes)
      modifies this
      ensures Did(old(events), Apply(old(body), op), err)
    {
      hide Did, E.Start, E.CompleteAt, E.Cancel, E.Expire, E.RegisterRule, E.Record, E.RecordEach, E.RecordAtomic, E.RecordBatch,
        E.Replace, E.ReplaceAtomic, E.Remove, E.RemoveIfPresent, E.RemoveAtomic, E.RemoveEachIfPresent, E.Reset, E.ResetAtVersion,
        E.CreateCheckpoint, E.Rollback, E.RecordHistory, E.BindEvidence, E.BindPolicy, DistinctRules;
      match op {
        case OpStart(at) => err := Start(at);
        case OpComplete(v, rs, at) => err := CompleteAt(v, rs, at);
        case OpCancel(reason, at) => err := Cancel(reason, at);
        case OpExpire(at) => err := Expire(at);
        case OpRegisterRule(rule, at) => err := RegisterRequiredRuleAt(rule, at);
        case OpRecord(o) => err := RecordRuleOutcome(o);
        case OpRecordEach(os) => err := RecordRuleOutcomes(os);
        case OpRecordAtomic(os) => err := RecordRuleOutcomesAtomic(os);
        case OpRecordBatch(os, at) => err := RecordRuleOutcomeBatch(os, at);
        case OpReplace(o, at) => err := ReplaceRuleOutcome(o, at);
        case OpReplaceAtomic(items, at) => err := ReplaceRuleOutcomesAtomic(items, at);
        case OpRemove(rule, at) => err := RemoveRuleOutcome(rule, at);
        case OpRemoveIfPresent(rule, at) => err := RemoveRuleOutcomeIfPresent(rule, at);
        case OpRemoveAtomic(rules, at) => err := RemoveRuleOutcomesAtomic(rules, at);
        case OpRemoveEachIfPresent(rules, at) => err := RemoveRuleOutcomesIfPresent(rules, at);
        case OpReset(at) => err := ResetRuleOutcomes(at);
        case OpResetAtVersion(expected, at) => err := ResetRuleOutcomesAtVersion(expected, at);
        case OpCreateCheckpoint(name, at) => err := CreateCheckpoint(name, at);
        case OpRollback(name, at) => err := RollbackToCheckpoint(name, at);
        case OpRecordHistory(at) => err := RecordHistory(at);
        case OpBindEvidence(b) => err := BindEvidenceSet(b);
        case OpBindPolicy(b) => err := BindVerificationPolicy(b);
      }
    }

    method Mutate(ops: seq<Op>)
      requires Valid(body)
      modifies this
      ensures Tracked(body, events) == Run(Tracked(old(body), old(events)), ops)
      ensures Valid(body)
    {
      ghost var t := Tracked(body, events);
      for i := 0 to |ops|
        invariant Tracked(body, events) == Run(t, ops[..i])
        invariant Valid(body)
      {
        assert ops[..i + 1][..i] == ops[..i];
        ApplyKeepsValid(body, ops[i]);
        GoodParts(body);
        var err := Call(ops[i]);
      }
      assert ops[..|ops|] == ops;
    }

    /** Captures, mutates, records history; on an error puts the captured fields and the log back. */
    method ApplyAtomicMutation(occurredAt: Time, mutation: Mutation) returns (err: Option<AtomicError>)
      requires Valid(body)
      modifies this
      ensures (Tracked(body, events), err) == ApplyAtomic(Tracked(old(body), old(events)), occurredAt, mutation)
      ensures Valid(body)
    {
      hide Valid, Run;
      var before, log := body, events;
      AtomicKeepsValid(Tracked(body, events), occurredAt, mutation);
      Mutate(mutation.ops);
      if mutation.fails {
        err := Some(MutationFailed);
      } else {
        var refused := RecordHistory(occurredAt);
        err := if refused.Some? then Some(HistoryRefused(refused.value)) else None;
      }
      if err.Some? {
        body := body.(phase := before.phase, verdict := before.verdict, reasons := before.reasons, required := before.required,
                      outcomes := before.outcomes, startedAt := before.startedAt, completedAt := before.completedAt,
                      cancelledAt := before.cancelledAt, expiredAt := before.expiredAt, version := before.version,
                      checkpoints := before.checkpoints, history := before.history);
        events := log;
      }
    }
  }

  // What the loops rely on ------------------------------------------------------------------------

  lemma RecordNone(s: Aggregate)
    ensures RecordEach(s, []) == Keep(s)
  {
  }

  lemma RecordStep(s: Aggregate, os: seq<RuleOutcome>, i: nat)
    requires i < |os| && RecordEach(s, os[..i]).error.None?
    ensures var before := RecordEach(s, os[..i]); var last := Record(before.next, os[i]);
      RecordEach(s, os[..i + 1]) == Reply(last.next, before.emitted + last.emitted, last.error)
  {
    assert os[..i + 1][..i] == os[..i];
  }

  lemma {:induction false} RecordErrorStands(s: Aggregate, os: seq<RuleOutcome>, n: nat)
    requires n <= |os| && RecordEach(s, os[..n]).error.Some?
    ensures RecordEach(s, os) == RecordEach(s, os[..n])
    decreases |os|
  {
    hide Record;
    if n == |os| {
      assert os[..n] == os;
    } else {
      var front := os[..|os| - 1];
      assert front[..n] == os[..n];
      RecordErrorStands(s, front, n);
    }
  }

  lemma AppendNone(s: Aggregate)
    ensures AppendEach(s, Unrecorded(s.outcomes, [])) == Keep(s)
  {
  }

  lemma PendingIsAcceptable(s: Aggregate, os: seq<RuleOutcome>)
    requires Batch(s, os).Ok?
    ensures var l := Listing(Batch(s, os).value);
      && DistinctRules(l)
      && (forall i :: 0 <= i < |l| ==> Admissible(s, l[i]))
      && Pending(s, Batch(s, os).value) == Unrecorded(s.outcomes, l)
  {
    hide NormalizeOutcome, Recorded, OutcomeOf, Unplanned, Batch, Pending;
    var m := Batch(s, os).value;
    BatchCollects(s, os);
    ListingOfRules(m);
    PendingIsUnrecorded(s, m);
    assert forall i :: 0 <= i < |Listing(m)| ==> Listing(m)[i] in Listing(m);
  }

  /** What the next outcome of a sorted batch finds recorded is what was recorded at the start. */
  lemma AppendStep(s: Aggregate, l: seq<RuleOutcome>, i: nat)
    requires DistinctRules(l) && i < |l| && Admissible(s, l[i])
    ensures var before := AppendEach(s, Unrecorded(s.outcomes, l[..i])); var after := AppendEach(s, Unrecorded(s.outcomes, l[..i + 1]));
      if Recorded(before.next.outcomes, l[i].ruleID) then
        OutcomeOf(before.next.outcomes, l[i].ruleID) == l[i] && after == before
      else
        var last := Change(before.next.(outcomes := before.next.outcomes + [l[i]]), RuleOutcomeRecorded(l[i]));
        after == Reply(last.next, before.emitted + last.emitted, None)
  {
    var added := Unrecorded(s.outcomes, l[..i]);
    AppendEachAppends(s, added);
    IndexAfterAppend(s.outcomes, added, l[i].ruleID);
    assert forall j :: 0 <= j < |added| ==> added[j] in l[..i];
    assert l[..i + 1][..i] == l[..i];
    assert (added + [l[i]])[..|added|] == added;
  }

  lemma RefusedReplacement(s: Aggregate, e: Error, at: Time)
    ensures ReplaceTogether(s, Err(e), at) == Refuse(s, e)
  {
  }

  lemma CollectedAreRecorded(s: Aggregate, at: Time, items: seq<Replacement>)
    requires Replacements(s, at, items).Ok?
    ensures forall id :: id in Replacements(s, at, items).value ==>
      Replacements(s, at, items).value[id].ruleID == id && Recorded(s.outcomes, id)
  {
    hide Replacements, NormalizeOutcome;
    ReplacementsCollect(s, at, items);
  }

  lemma DifferingIsKeyed(s: Aggregate, m: map<string, RuleOutcome>)
    requires forall id :: id in m ==> m[id].ruleID == id
    ensures forall id :: id in Differing(s, m) ==> Differing(s, m)[id].ruleID == id && Recorded(s.outcomes, id)
    ensures Listing(Differing(s, m)) == [] <==> Differing(s, m) == map[]
  {
    hide Recorded;
    assert |Listing(Differing(s, m))| == |Differing(s, m)|;
  }

  ghost predicate Changed(os: seq<RuleOutcome>, byID: map<string, RuleOutcome>, id: string)
  {
    id in byID && Recorded(os, id) && OutcomeOf(os, id) != byID[id]
  }

  /** The replacements that change something, beside what they replace, in ascending order of rule. */
  method SplitReplacements(os: seq<RuleOutcome>, byID: map<string, RuleOutcome>, ids: seq<string>, ghost s: Aggregate)
    returns (previous: seq<RuleOutcome>, pending: seq<RuleOutcome>)
    requires ids == Keys(byID.Keys) && s.outcomes == os
    requires forall id :: id in byID ==> byID[id].ruleID == id && Recorded(os, id)
    ensures pending == Listing(Differing(s, byID)) && previous == Listing(Lookup(os, Differing(s, byID).Keys))
  {
    hide Listing, Keys, Recorded, OutcomeOf, Lookup, Differing, Before, Changed;
    previous, pending := [], [];
    var chosen: seq<string> := [];
    for i := 0 to |ids|
      invariant |previous| == |pending| == |chosen|
      invariant Ascending(chosen, Before)
      invariant forall id :: id in chosen <==> id in ids[..i] && Changed(os, byID, id)
      invariant forall j :: 0 <= j < |chosen| ==>
        chosen[j] in byID && Recorded(os, chosen[j]) && pending[j] == byID[chosen[j]] && previous[j] == OutcomeOf(os, chosen[j])
    {
      assert ids[i] in ids;
      assert ids[..i + 1] == ids[..i] + [ids[i]];
      var current := OutcomeOf(os, ids[i]);
      ChangedIs(os, byID, ids[i]);
      if current == byID[ids[i]] {
        continue;
      }
      BeforeNext(ids, chosen, i);
      previous := previous + [current];
      pending := pending + [byID[ids[i]]];
      chosen := chosen + [ids[i]];
    }
    assert ids[..|ids|] == ids;
    ChangedIsKeyed(os, byID);
    SplitIsListed(s, byID, chosen, previous, pending);
  }

  /** A batch of replacements is one change, unless none differs from what is recorded. */
  lemma TogetherIs(s: Aggregate, byID: map<string, RuleOutcome>, at: Time)
    ensures var changes := Differing(s, byID);
      ReplaceTogether(s, Ok(byID), at) ==
        if |Listing(changes)| == 0 then Keep(s)
        else Change(s.(outcomes := Overlay(s.outcomes, changes)),
                    RuleOutcomeBatchReplaced(Listing(Lookup(s.outcomes, changes.Keys)), Listing(changes), at))
  {
    hide Listing, Lookup, Overlay, Differing, Keys;
    assert |Differing(s, byID)| == 0 <==> Differing(s, byID) == map[];
  }

  lemma ChangedIs(os: seq<RuleOutcome>, byID: map<string, RuleOutcome>, id: string)
    requires id in byID && Recorded(os, id)
    ensures Changed(os, byID, id) <==> OutcomeOf(os, id) != byID[id]
  {
  }

  lemma ChangedIsKeyed(os: seq<RuleOutcome>, byID: map<string, RuleOutcome>)
    ensures forall id :: Changed(os, byID, id) ==> id in byID
  {
  }

  lemma BeforeNext(ids: seq<string>, chosen: seq<string>, i: nat)
    requires i < |ids| && Ascending(ids, Before) && Ascending(chosen, Before) && forall id :: id in chosen ==> id in ids[..i]
    ensures Ascending(chosen + [ids[i]], Before)
  {
    hide Before;
    forall j | 0 <= j < |chosen| ensures Before(chosen[j], ids[i]) {
      assert chosen[j] in ids[..i];
    }
  }

  lemma SplitIsListed(s: Aggregate, byID: map<string, RuleOutcome>, chosen: seq<string>, previous: seq<RuleOutcome>, pending: seq<RuleOutcome>)
    requires Ascending(chosen, Before) && |previous| == |pending| == |chosen|
    requires forall id :: id in chosen <==> Changed(s.outcomes, byID, id)
    requires forall j :: 0 <= j < |chosen| ==>
      chosen[j] in byID && Recorded(s.outcomes, chosen[j]) && pending[j] == byID[chosen[j]] && previous[j] == OutcomeOf(s.outcomes, chosen[j])
    ensures pending == Listing(Differing(s, byID)) && previous == Listing(Lookup(s.outcomes, Differing(s, byID).Keys))
  {
    hide Recorded, OutcomeOf;
    var changes := Differing(s, byID);
    assert forall id :: id in changes <==> id in chosen;
    KeysAreUnique(chosen, changes.Keys);
    assert Lookup(s.outcomes, changes.Keys).Keys == changes.Keys;
  }

  /** Writes each replacement over the outcome of its rule. */
  method ReplaceInPlace(os: seq<RuleOutcome>, pending: seq<RuleOutcome>, ghost changes: map<string, RuleOutcome>) returns (r: seq<RuleOutcome>)
    requires DistinctRules(os) && pending == Listing(changes)
    requires forall id :: id in changes ==> changes[id].ruleID == id && Recorded(os, id)
    ensures r == Overlay(os, changes)
  {
    hide Listing, Overlay, ByRule, Recorded, Keys, IndexOf, Rules;
    ListingOfRules(changes);
    ByRuleOfListing(changes);
    r := os;
    OverlayNothing(os);
    for i := 0 to |pending|
      invariant r == Overlay(os, ByRule(pending[..i]))
    {
      assert pending[i] in pending;
      OverlayStep(os, pending, i);
      r := r[IndexOf(r, pending[i].ruleID) := pending[i]];
    }
    assert pending[..|pending|] == pending;
  }

  lemma OverlayNothing(os: seq<RuleOutcome>)
    ensures Overlay(os, ByRule([])) == os
  {
  }

  lemma OverlayStep(os: seq<RuleOutcome>, pending: seq<RuleOutcome>, i: nat)
    requires DistinctRules(os) && DistinctRules(pending) && i < |pending| && Recorded(os, pending[i].ruleID)
    ensures var r := Overlay(os, ByRule(pending[..i])); var k := IndexOf(r, pending[i].ruleID);
      0 <= k < |r| && r[k := pending[i]] == Overlay(os, ByRule(pending[..i + 1]))
  {
    var m := ByRule(pending[..i]);
    ByRuleOfDistinct(pending[..i]);
    assert pending[..i + 1][..i] == pending[..i];
    assert ByRule(pending[..i + 1]) == m[pending[i].ruleID := pending[i]];
    var r, l := Overlay(os, m), IndexOf(os, pending[i].ruleID);
    forall j | 0 <= j < |os| ensures r[j].ruleID == os[j].ruleID {
      KeyedByRule(pending[..i], os[j].ruleID);
    }
    assert r[l].ruleID == pending[i].ruleID;
  }

  lemma {:induction false} KeyedByRule(os: seq<RuleOutcome>, id: string)
    ensures id in ByRule(os) ==> ByRule(os)[id].ruleID == id
  {
    if os != [] {
      KeyedByRule(os[..|os| - 1], id);
    }
  }

  /** What a removal takes away, in ascending order of rule, or the first rule that is not there. */
  method CollectRemoved(os: seq<RuleOutcome>, ids: seq<string>, ghost rules: set<string>) returns (r: Result<seq<RuleOutcome>, Error>)
    requires ids == Keys(rules)
    ensures r.Ok? <==> Missing(os, rules) == {}
    ensures r.Ok? ==> r.value == Listing(Lookup(os, rules))
    ensures r.Err? ==> r.error == OutcomeNotFound(Least(Missing(os, rules)))
  {
    hide Listing, Lookup, Least;
    var removed: seq<RuleOutcome> := [];
    for i := 0 to |ids|
      invariant |removed| == i && forall j :: 0 <= j < i ==> Recorded(os, ids[j]) && removed[j] == OutcomeOf(os, ids[j])
    {
      var k := IndexOf(os, ids[i]);
      if k < 0 {
        FirstMissingIsLeast(os, rules, i);
        return Err(OutcomeNotFound(ids[i]));
      }
      removed := removed + [os[k]];
    }
    RemovedIsListed(os, rules, removed);
    return Ok(removed);
  }

  method FilterOut(os: seq<RuleOutcome>, ids: seq<string>, ghost rules: set<string>) returns (r: seq<RuleOutcome>)
    requires ids == Keys(rules)
    ensures r == Without(os, rules)
  {
    hide Keys, Without;
    var removeSet := set id | id in ids;
    assert removeSet == rules;
    WithoutNothing(rules);
    r := [];
    for i := 0 to |os|
      invariant r == Without(os[..i], removeSet)
    {
      WithoutLast(os[..i + 1], removeSet);
      assert os[..i + 1][..i] == os[..i];
      if os[i].ruleID !in removeSet {
        r := r + [os[i]];
      }
    }
    assert os[..|os|] == os;
  }

  lemma WithoutNothing(ids: set<string>)
    ensures Without([], ids) == []
  {
  }

  method SelectRecorded(os: seq<RuleOutcome>, ids: seq<string>, ghost rules: set<string>) returns (r: seq<string>)
    requires ids == Keys(rules)
    ensures r == Keys(set id | id in rules && Recorded(os, id))
  {
    hide Recorded, Keys;
    r := [];
    for i := 0 to |ids|
      invariant Ascending(r, Before)
      invariant forall id :: id in r <==> id in ids[..i] && Recorded(os, id)
    {
      assert ids[..i + 1] == ids[..i] + [ids[i]];
      forall j | 0 <= j < |r| ensures Before(r[j], ids[i]) {
        assert r[j] in ids[..i];
      }
      if Recorded(os, ids[i]) {
        r := r + [ids[i]];
      }
    }
    assert ids[..|ids|] == ids;
    KeysAreUnique(r, set id | id in rules && Recorded(os, id));
  }

  lemma FirstMissingIsLeast(os: seq<RuleOutcome>, rules: set<string>, i: nat)
    requires i < |Keys(rules)| && !Recorded(os, Keys(rules)[i])
    requires forall j :: 0 <= j < i ==> Recorded(os, Keys(rules)[j])
    ensures Missing(os, rules) != {} && Least(Missing(os, rules)) == Keys(rules)[i]
  {
    hide Recorded, Keys, Least;
    var ids := Keys(rules);
    assert ids[i] in ids && ids[i] in Missing(os, rules);
    var k := Least(Missing(os, rules));
    assert k in ids;
    var j :| 0 <= j < |ids| && ids[j] == k;
    assert i < j ==> Before(ids[i], ids[j]);
    BeforeIsAsymmetric(ids[i], k);
  }

  lemma RemovedIsListed(os: seq<RuleOutcome>, rules: set<string>, removed: seq<RuleOutcome>)
    requires |removed| == |Keys(rules)|
    requires forall j :: 0 <= j < |removed| ==> Recorded(os, Keys(rules)[j]) && removed[j] == OutcomeOf(os, Keys(rules)[j])
    ensures removed == Listing(Lookup(os, rules)) && Missing(os, rules) == {}
  {
    hide Recorded, OutcomeOf;
    var found := Lookup(os, rules);
    forall id | id in rules ensures Recorded(os, id) {
      assert id in Keys(rules);
    }
    assert found.Keys == rules;
  }

  method NormalizeEvidenceReasonCodes(reasons: seq<string>) returns (r: Result<seq<string>, Error>)
    ensures r == NormalizeEvidenceReasons(reasons)
  {
    var out: seq<string> := [];
    var seen: set<string> := {};
    for i := 0 to |reasons|
      invariant NormalizeEvidenceReasons(reasons[..i]) == Ok(out)
      invariant forall c :: c in seen <==> c in out
    {
      assert reasons[..i + 1][..i] == reasons[..i];
      var c := Canonical(reasons[i]);
      if c == "" {
        continue;
      }
      if !IsCode(c) {
        EvidenceErrorStands(reasons, i + 1);
        return Err(EvidenceBindingRequired);
      }
      if c in seen {
        continue;
      }
      seen := seen + {c};
      out := out + [c];
    }
    assert reasons[..|reasons|] == reasons;
    return Ok(out);
  }

  lemma {:induction false} EvidenceErrorStands(reasons: seq<string>, n: nat)
    requires n <= |reasons| && NormalizeEvidenceReasons(reasons[..n]).Err?
    ensures NormalizeEvidenceReasons(reasons) == NormalizeEvidenceReasons(reasons[..n])
    decreases |reasons|
  {
    if n == |reasons| {
      assert reasons[..n] == reasons;
    } else {
      var front := reasons[..|reasons| - 1];
      assert front[..n] == reasons[..n];
      EvidenceErrorStands(front, n);
    }
  }

  method NormalizeEvidenceBinding(b: EvidenceBinding) returns (r: Result<EvidenceBinding, Error>)
    ensures r == NormalizeEvidence(b)
  {
    hide NormalizeEvidenceReasons, TrimSpace;
    var version := TrimSpace(b.policyVersion);
    if b.sessionID == 0 || !ValidEvidenceStatus(b.status) || version == "" || b.qualifiedAt == 0 {
      return Err(EvidenceBindingRequired);
    }
    var reasons := NormalizeEvidenceReasonCodes(b.reasons);
    if reasons.Err? {
      return Err(reasons.error);
    }
    var references: seq<EvidenceReference> := [];
    var seen: set<Id> := {};
    for i := 0 to |b.evidence|
      invariant |references| == i && forall j :: 0 <= j < i ==> NormalizeReference(b.evidence[j]) == Ok(references[j])
      invariant forall j, k :: 0 <= j < k < i ==> b.evidence[j].evidenceID != b.evidence[k].evidenceID
      invariant forall id :: id in seen <==> exists j :: 0 <= j < i && b.evidence[j].evidenceID == id
    {
      var reference := b.evidence[i];
      if reference.evidenceID == 0 || !ValidEvidenceStatus(reference.status) || reference.evidenceID in seen {
        return Err(EvidenceBindingRequired);
      }
      seen := seen + {reference.evidenceID};
      var codes := NormalizeEvidenceReasonCodes(reference.reasons);
      if codes.Err? {
        assert NormalizeReference(reference).Err?;
        return Err(EvidenceBindingRequired);
      }
      if (reference.status == Qualified && |codes.value| > 0) || (reference.status != Qualified && |codes.value| == 0) {
        return Err(EvidenceBindingRequired);
      }
      references := references + [reference.(reasons := codes.value)];
    }
    assert NormalizeReferences(b.evidence).value == references;
    var normal := b.(policyVersion := version, reasons := reasons.value, evidence := references);
    if !CoherentEvidence(normal) {
      return Err(EvidenceBindingRequired);
    }
    return Ok(normal);
  }
}
