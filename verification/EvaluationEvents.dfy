/**
  How operations number their events: every operation except history capture emits one
  event per version it consumes, in order, and the events that end an evaluation come last.
 */
module EvaluationEvents {
  import opened Prelude
  import opened Text
  import opened Sorting
  import opened Evaluation
  import opened EvaluationRules
  import opened EvaluationInvariant

  predicate Ends(body: EventBody)
  {
    || body.EvaluationCompleted? || body.EvaluationRejected? || body.EvaluationManualReviewRequired?
    || body.EvaluationSystemException? || body.EvaluationCancelled? || body.EvaluationExpired?
  }

  /** The occurrence time in the metadata of an event. */
  function OccurredAt(body: EventBody): Time
  {
    match body
    case RuleOutcomeRecorded(o) => o.evaluatedAt
    case EvidenceSetBound(b) => b.qualifiedAt
    case VerificationPolicyBound(b) => b.boundAt
    case EvaluationCreated(at) => at
    case EvaluationStarted(at) => at
    case EvaluationCompleted(_, at) => at
    case EvaluationRejected(_, at) => at
    case EvaluationManualReviewRequired(_, at) => at
    case EvaluationSystemException(_, at) => at
    case EvaluationCancelled(_, at) => at
    case EvaluationExpired(_, at) => at
    case RequiredRuleRegistered(_, at) => at
    case RuleOutcomeBatchRecorded(_, at) => at
    case RuleOutcomeReplaced(_, _, at) => at
    case RuleOutcomeBatchReplaced(_, _, at) => at
    case RuleOutcomeRemoved(_, at) => at
    case RuleOutcomeBatchRemoved(_, at) => at
    case RuleOutcomesReset(_, at) => at
    case CheckpointCreated(_, at) => at
    case RolledBack(_, at) => at
    case HistoryRecorded(at) => at
  }

  ghost predicate Stamped(e: Event, s: Aggregate)
  {
    e.evaluationID == s.id && e.sessionID == s.sessionID && OccurredAt(e.body) != 0
  }

  /** The events continue the numbering of `s`, belong to it, and none but the last can end it. */
  ghost predicate Numbered(s: Aggregate, events: seq<Event>, next: Aggregate)
  {
    && next.id == s.id && next.sessionID == s.sessionID
    && next.version == s.version + |events|
    && (events == [] ==> next == s)
    && (forall k :: 0 <= k < |events| ==> events[k].version == s.version + 1 + k && Stamped(events[k], s))
    && (forall k :: 0 <= k < |events| && Ends(events[k].body) ==> k == |events| - 1)
    && (!s.phase.Terminal() ==> (next.phase.Terminal() <==> events != [] && Ends(events[|events| - 1].body)))
  }

  lemma NumberedChange(s: Aggregate, next: Aggregate, body: EventBody)
    requires next.version == s.version && next.id == s.id && next.sessionID == s.sessionID && OccurredAt(body) != 0
    requires !s.phase.Terminal() ==> (next.phase.Terminal() <==> Ends(body))
    ensures Numbered(s, Change(next, body).emitted, Change(next, body).next)
  {
  }

  lemma NumberedConcat(s: Aggregate, xs: seq<Event>, t: Aggregate, ys: seq<Event>, u: Aggregate)
    requires Numbered(s, xs, t) && Numbered(t, ys, u) && !s.phase.Terminal()
    requires t.phase.Terminal() ==> ys == []
    ensures Numbered(s, xs + ys, u)
  {
    hide OccurredAt, Ends;
  }

  /** What an operation demands of the clock: `Cancel` takes the time of the call, which is never zero. */
  predicate Clocked(op: Op)
  {
    op.OpCancel? ==> op.at != 0
  }

  lemma {:induction false} RecordEachNumbered(s: Aggregate, os: seq<RuleOutcome>)
    requires !s.phase.Terminal()
    ensures Numbered(s, RecordEach(s, os).emitted, RecordEach(s, os).next)
    ensures RecordEach(s, os).next.phase == s.phase
  {
    hide Record, Numbered;
    if os == [] {
      NumberedIdle(s);
    } else {
      var n := |os| - 1;
      RecordEachNumbered(s, os[..n]);
      var before := RecordEach(s, os[..n]);
      var last := Record(before.next, os[n]);
      RecordNumbered(before.next, os[n]);
      NumberedConcat(s, before.emitted, before.next, last.emitted, last.next);
    }
  }

  lemma NumberedIdle(s: Aggregate)
    ensures Numbered(s, [], s)
  {
  }

  lemma RecordNumbered(s: Aggregate, o: RuleOutcome)
    ensures Numbered(s, Record(s, o).emitted, Record(s, o).next)
    ensures Record(s, o).next.phase == s.phase
  {
    hide NormalizeReasons, Recorded, OutcomeOf, Unplanned, Earlier, TrimSpace, Numbered;
    NumberedIdle(s);
    if Record(s, o).emitted != [] {
      var v := NormalizeOutcome(o).value;
      NumberedChange(s, s.(outcomes := s.outcomes + [v]), RuleOutcomeRecorded(v));
    }
  }

  lemma {:induction false} AppendEachNumbered(s: Aggregate, os: seq<RuleOutcome>)
    requires !s.phase.Terminal() && forall i :: 0 <= i < |os| ==> os[i].evaluatedAt != 0
    ensures Numbered(s, AppendEach(s, os).emitted, AppendEach(s, os).next)
  {
    hide Numbered;
    AppendEachAppends(s, os);
    if os == [] {
      NumberedIdle(s);
    } else {
      var n := |os| - 1;
      AppendEachNumbered(s, os[..n]);
      AppendEachAppends(s, os[..n]);
      var before := AppendEach(s, os[..n]);
      var next := before.next.(outcomes := before.next.outcomes + [os[n]]);
      NumberedChange(before.next, next, RuleOutcomeRecorded(os[n]));
      var last := Change(next, RuleOutcomeRecorded(os[n]));
      NumberedConcat(s, before.emitted, before.next, last.emitted, last.next);
    }
  }

  lemma RecordManyNumbered(s: Aggregate, os: seq<RuleOutcome>, at: Time)
    requires !s.phase.Terminal()
    ensures Numbered(s, RecordAtomic(s, os).emitted, RecordAtomic(s, os).next)
    ensures Numbered(s, RecordBatch(s, os, at).emitted, RecordBatch(s, os, at).next)
  {
    hide Batch, Pending, Earlier, Numbered, GoodOutcome;
    NumberedIdle(s);
    if Batch(s, os).Ok? {
      var pending := Pending(s, Batch(s, os).value);
      PendingIsGood(s, os);
      forall i | 0 <= i < |pending| ensures pending[i].evaluatedAt != 0 {
        GoodIsTimed(pending[i], s.startedAt);
      }
      AppendEachNumbered(s, pending);
      if at != 0 {
        NumberedChange(s, s.(outcomes := s.outcomes + pending), RuleOutcomeBatchRecorded(pending, at));
      }
    }
  }

  lemma GoodIsTimed(o: RuleOutcome, startedAt: Option<Time>)
    requires GoodOutcome(o, startedAt)
    ensures o.evaluatedAt != 0
  {
    hide NormalizeReasons;
  }

  lemma ReplaceNumbered(s: Aggregate, o: RuleOutcome, items: seq<Replacement>, at: Time)
    ensures Numbered(s, Replace(s, o, at).emitted, Replace(s, o, at).next)
    ensures Numbered(s, ReplaceAtomic(s, items, at).emitted, ReplaceAtomic(s, items, at).next)
  {
    hide NormalizeOutcome, Recorded, OutcomeOf, Unplanned, Earlier, Replacements, Differing, Listing, Lookup, Overlay, Numbered;
    NumberedIdle(s);
    var r := Replace(s, o, at);
    if r.emitted != [] {
      NumberedChange(s, r.next.(version := s.version), r.emitted[0].body);
    }
    var q := ReplaceAtomic(s, items, at);
    if q.emitted != [] {
      NumberedChange(s, q.next.(version := s.version), q.emitted[0].body);
    }
  }

  lemma RemoveNumbered(s: Aggregate, rule: string, at: Time)
    ensures Numbered(s, Remove(s, rule, at).emitted, Remove(s, rule, at).next)
  {
    hide Earlier, IndexOf, Numbered, TrimSpace, Cut;
    NumberedIdle(s);
    var id := TrimSpace(rule);
    if Remove(s, rule, at).emitted != [] {
      var k := IndexOf(s.outcomes, id);
      NumberedChange(s, s.(outcomes := Cut(s.outcomes, k)), RuleOutcomeRemoved(s.outcomes[k], at));
    }
  }

  lemma RemoveIfPresentNumbered(s: Aggregate, rule: string, at: Time)
    ensures Numbered(s, RemoveIfPresent(s, rule, at).emitted, RemoveIfPresent(s, rule, at).next)
  {
    hide Remove, Recorded, Numbered, TrimSpace;
    NumberedIdle(s);
    RemoveNumbered(s, TrimSpace(rule), at);
  }

  lemma RemoveAtomicNumbered(s: Aggregate, rules: seq<string>, at: Time)
    ensures Numbered(s, RemoveAtomic(s, rules, at).emitted, RemoveAtomic(s, rules, at).next)
  {
    hide Earlier, RuleSet, Missing, Listing, Lookup, Without, Least, Numbered;
    NumberedIdle(s);
    var q := RemoveAtomic(s, rules, at);
    if q.emitted != [] {
      NumberedChange(s, q.next.(version := s.version), q.emitted[0].body);
    }
  }

  lemma RemoveEachIfPresentNumbered(s: Aggregate, rules: seq<string>, at: Time)
    ensures Numbered(s, RemoveEachIfPresent(s, rules, at).emitted, RemoveEachIfPresent(s, rules, at).next)
  {
    hide Recorded, RuleSet, Keys, RemoveAtomic, Numbered;
    NumberedIdle(s);
    if RuleSet(rules).Some? {
      RemoveAtomicNumbered(s, Keys(set id | id in RuleSet(rules).value && Recorded(s.outcomes, id)), at);
    }
  }

  lemma EndingNumbered(s: Aggregate, op: Op)
    requires !s.phase.Terminal() && Clocked(op) && (op.OpStart? || op.OpComplete? || op.OpCancel? || op.OpExpire? || op.OpRegisterRule?)
    ensures Numbered(s, Apply(s, op).emitted, Apply(s, op).next)
  {
    hide Earlier, TrimSpace, NormalizeReasons, RequiredComplete, Numbered;
    NumberedIdle(s);
    var r := Apply(s, op);
    if r.emitted != [] {
      NumberedChange(s, r.next.(version := s.version), r.emitted[0].body);
    }
  }

  lemma RewindNumbered(s: Aggregate, op: Op)
    requires !s.phase.Terminal() && (op.OpReset? || op.OpResetAtVersion? || op.OpCreateCheckpoint? || op.OpRollback?)
    ensures Numbered(s, Apply(s, op).emitted, Apply(s, op).next)
  {
    hide Earlier, TrimSpace, Numbered;
    NumberedIdle(s);
    var r := Apply(s, op);
    if r.emitted != [] {
      NumberedChange(s, r.next.(version := s.version), r.emitted[0].body);
    }
  }

  lemma EvidenceNumbered(s: Aggregate, b: EvidenceBinding)
    requires !s.phase.Terminal()
    ensures Numbered(s, BindEvidence(s, b).emitted, BindEvidence(s, b).next)
  {
    hide NormalizeEvidence, Numbered, TrimSpace;
    NumberedIdle(s);
    if BindEvidence(s, b).emitted != [] {
      NormalizedEvidenceIsTimed(b);
      var binding := NormalizeEvidence(b).value;
      NumberedChange(s, s.(evidence := Some(binding)), EvidenceSetBound(binding));
    }
  }

  lemma NormalizedEvidenceIsTimed(b: EvidenceBinding)
    requires NormalizeEvidence(b).Ok?
    ensures NormalizeEvidence(b).value.qualifiedAt != 0
  {
    hide NormalizeReferences, NormalizeEvidenceReasons, CoherentEvidence, TrimSpace;
  }

  lemma PolicyNumbered(s: Aggregate, b: PolicyBinding)
    requires !s.phase.Terminal()
    ensures Numbered(s, BindPolicy(s, b).emitted, BindPolicy(s, b).next)
  {
    hide IsPolicyHash, Numbered, TrimSpace;
    NumberedIdle(s);
    var r := BindPolicy(s, b);
    if r.emitted != [] {
      NumberedChange(s, r.next.(version := s.version), r.emitted[0].body);
    }
  }

  /** Every operation but history capture numbers its events one by one. */
  lemma ApplyNumbered(s: Aggregate, op: Op)
    requires !s.phase.Terminal() && Clocked(op) && !op.OpRecordHistory?
    ensures Numbered(s, Apply(s, op).emitted, Apply(s, op).next)
  {
    hide Record, RecordEach, RecordAtomic, RecordBatch, Replace, ReplaceAtomic, Remove, RemoveIfPresent,
      RemoveAtomic, RemoveEachIfPresent, Numbered;
    match op
    case OpRecord(o) => RecordNumbered(s, o);
    case OpRecordEach(os) => RecordEachNumbered(s, os);
    case OpRecordAtomic(os) => RecordManyNumbered(s, os, 0);
    case OpRecordBatch(os, at) => RecordManyNumbered(s, os, at);
    case OpReplace(o, at) => ReplaceNumbered(s, o, [], at);
    case OpReplaceAtomic(items, at) => ReplaceNumbered(s, RuleOutcome("", Pass, [], 0), items, at);
    case OpRemove(rule, at) => RemoveNumbered(s, rule, at);
    case OpRemoveIfPresent(rule, at) => RemoveIfPresentNumbered(s, rule, at);
    case OpRemoveAtomic(rules, at) => RemoveAtomicNumbered(s, rules, at);
    case OpRemoveEachIfPresent(rules, at) => RemoveEachIfPresentNumbered(s, rules, at);
    case OpStart(_) => EndingNumbered(s, op);
    case OpComplete(_, _, _) => EndingNumbered(s, op);
    case OpCancel(_, _) => EndingNumbered(s, op);
    case OpExpire(_) => EndingNumbered(s, op);
    case OpRegisterRule(_, _) => EndingNumbered(s, op);
    case OpBindEvidence(b) => EvidenceNumbered(s, b);
    case OpBindPolicy(b) => PolicyNumbered(s, b);
    case _ => RewindNumbered(s, op);
  }
}
