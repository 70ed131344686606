/**
  The event log is enough to rebuild the aggregate. Folding the events of any run from
  `NewEvaluation` gives back every field, checkpoints and history included, with one
  exception: the completion event of a VERIFIED_WITH_EXCEPTION decision does not carry
  the reason codes. Rebuilding is exact if and only if the verdict is another one.
 */
module EvaluationReplay {
  import opened Prelude
  import opened Text
  import opened Sorting
  import opened Evaluation
  import opened EvaluationRules
  import opened EvaluationInvariant

  // Folding events --------------------------------------------------------------

  function ByRule(os: seq<RuleOutcome>): map<string, RuleOutcome>
  {
    if os == [] then map[] else ByRule(os[..|os| - 1])[os[|os| - 1].ruleID := os[|os| - 1]]
  }

  function Rules(os: seq<RuleOutcome>): set<string>
  {
    set i | 0 <= i < |os| :: os[i].ruleID
  }

  /** What a reader of the log does with one event, knowing only the event and what came before. */
  function Fold(v: Aggregate, body: EventBody): Aggregate
  {
    match body
    case EvaluationCreated(_) => v
    case EvaluationStarted(at) => v.(phase := Running, startedAt := Some(at))
    case EvaluationCompleted(verdict, at) => v.(phase := Completed, verdict := verdict, reasons := [], completedAt := Some(at))
    case EvaluationRejected(reasons, at) => v.(phase := Completed, verdict := Rejected, reasons := reasons, completedAt := Some(at))
    case EvaluationManualReviewRequired(reasons, at) =>
      v.(phase := Completed, verdict := ManualReview, reasons := reasons, completedAt := Some(at))
    case EvaluationSystemException(reasons, at) =>
      v.(phase := Completed, verdict := SystemException, reasons := reasons, completedAt := Some(at))
    case EvaluationCancelled(reason, at) => v.(phase := Cancelled, cancelledAt := Some(at), cancellationReason := reason)
    case EvaluationExpired(reasons, at) => v.(phase := Expired, verdict := SystemException, reasons := reasons, expiredAt := Some(at))
    case RequiredRuleRegistered(rule, _) => v.(required := v.required + [rule])
    case RuleOutcomeRecorded(o) => v.(outcomes := v.outcomes + [o])
    case RuleOutcomeBatchRecorded(os, _) => v.(outcomes := v.outcomes + os)
    case RuleOutcomeReplaced(_, o, _) => v.(outcomes := Overlay(v.outcomes, map[o.ruleID := o]))
    case RuleOutcomeBatchReplaced(_, os, _) => v.(outcomes := Overlay(v.outcomes, ByRule(os)))
    case RuleOutcomeRemoved(o, _) => v.(outcomes := Without(v.outcomes, {o.ruleID}))
    case RuleOutcomeBatchRemoved(os, _) => v.(outcomes := Without(v.outcomes, Rules(os)))
    case RuleOutcomesReset(_, _) => v.(outcomes := [])
    case CheckpointCreated(name, at) => v.(checkpoints := v.checkpoints[name := Checkpoint(name, v.outcomes, v.version, at)])
    case RolledBack(name, _) => if name in v.checkpoints then v.(outcomes := v.checkpoints[name].outcomes) else v
    case HistoryRecorded(at) => v.(history := v.history + [EntryOf(v, at)])
    case EvidenceSetBound(b) => v.(evidence := Some(b))
    case VerificationPolicyBound(b) => v.(policy := Some(b))
  }

  function ReplayEvent(v: Option<Aggregate>, e: Event): Option<Aggregate>
  {
    match v
    case None => if e.body.EvaluationCreated? then Some(Fresh(e.evaluationID, e.sessionID, e.body.at)) else None
    case Some(a) => Some(Fold(a, e.body).(version := e.version))
  }

  function Replay(v: Option<Aggregate>, events: seq<Event>): Option<Aggregate>
  {
    if events == [] then v else ReplayEvent(Replay(v, events[..|events| - 1]), events[|events| - 1])
  }

  lemma {:induction false} ReplayConcat(v: Option<Aggregate>, xs: seq<Event>, ys: seq<Event>)
    ensures Replay(v, xs + ys) == Replay(Replay(v, xs), ys)
  {
    if ys == [] {
      assert xs + ys == xs;
    } else {
      var n := |ys| - 1;
      ReplayConcat(v, xs, ys[..n]);
      assert (xs + ys)[..|xs| + n] == xs + ys[..n];
    }
  }

  lemma ReplayOne(v: Aggregate, e: Event)
    ensures Replay(Some(v), []) == Some(v)
    ensures Replay(Some(v), [e]) == Some(Fold(v, e.body).(version := e.version))
  {
    assert [e][..0] == [];
  }

  // What the log leaves out ---------------------------------------------------------

  function Visible(verdict: Verdict, reasons: seq<string>): seq<string>
  {
    if verdict == VerifiedWithException then [] else reasons
  }

  function RedactedEntry(h: HistoryEntry): HistoryEntry
  {
    h.(reasons := Visible(h.verdict, h.reasons))
  }

  function RedactedHistory(hs: seq<HistoryEntry>): (r: seq<HistoryEntry>)
    ensures |r| == |hs| && forall i :: 0 <= i < |hs| ==> r[i] == RedactedEntry(hs[i])
  {
    seq(|hs|, i requires 0 <= i < |hs| => RedactedEntry(hs[i]))
  }

  /** The aggregate without the reasons behind a VERIFIED_WITH_EXCEPTION verdict. */
  function Redacted(s: Aggregate): Aggregate
  {
    s.(reasons := Visible(s.verdict, s.reasons), history := RedactedHistory(s.history))
  }

  // One operation ------------------------------------------------------------------------

  ghost predicate Replays(s: Aggregate, r: Reply)
  {
    Replay(Some(Redacted(s)), r.emitted) == Some(Redacted(r.next))
  }

  lemma IdleReplays(s: Aggregate, r: Reply)
    requires r.next == s && r.emitted == []
    ensures Replays(s, r)
  {
  }

  lemma ChangeReplays(s: Aggregate, next: Aggregate, body: EventBody)
    requires Fold(Redacted(s), body) == Redacted(next)
    ensures Replays(s, Change(next, body))
  {
    hide Fold, RedactedHistory;
    ReplayOne(Redacted(s), Event(next.id, next.sessionID, next.version + 1, body));
  }

  lemma LifecycleReplays(s: Aggregate, op: Op)
    requires Valid(s) && (op.OpStart? || op.OpComplete? || op.OpCancel? || op.OpExpire? || op.OpRegisterRule?)
    ensures Replays(s, Apply(s, op))
  {
    hide Valid, Replays, NormalizeReasons, RequiredComplete, RedactedHistory, TrimSpace;
    var r := Apply(s, op);
    if r.emitted == [] {
      IdleReplays(s, r);
    } else {
      ValidIsOpenOrDecided(s);
      ChangeReplays(s, r.next.(version := s.version), r.emitted[0].body);
    }
  }

  lemma ValidIsOpenOrDecided(s: Aggregate)
    requires Valid(s)
    ensures s.phase.Created? || s.phase.Running? ==> s.verdict == Unknown && s.reasons == []
  {
  }

  lemma EvidenceReplays(s: Aggregate, b: EvidenceBinding)
    ensures Replays(s, BindEvidence(s, b))
  {
    hide Replays, NormalizeEvidence, RedactedHistory;
    if BindEvidence(s, b).emitted == [] {
      IdleReplays(s, BindEvidence(s, b));
    } else {
      var binding := NormalizeEvidence(b).value;
      ChangeReplays(s, s.(evidence := Some(binding)), EvidenceSetBound(binding));
    }
  }

  lemma PolicyReplays(s: Aggregate, b: PolicyBinding)
    ensures Replays(s, BindPolicy(s, b))
  {
    hide Replays, NormalizePolicy, RedactedHistory;
    if BindPolicy(s, b).emitted == [] {
      IdleReplays(s, BindPolicy(s, b));
    } else {
      var binding := NormalizePolicy(b).value;
      ChangeReplays(s, s.(policy := Some(binding)), VerificationPolicyBound(binding));
    }
  }

  lemma RewindReplays(s: Aggregate, op: Op)
    requires op.OpCreateCheckpoint? || op.OpRollback? || op.OpReset? || op.OpResetAtVersion?
    ensures Replays(s, Apply(s, op))
  {
    hide Replays, RedactedHistory, TrimSpace, Earlier;
    var r := Apply(s, op);
    if r.emitted == [] {
      IdleReplays(s, r);
    } else {
      ChangeReplays(s, r.next.(version := s.version), r.emitted[0].body);
    }
  }

  lemma HistoryReplays(s: Aggregate, at: Time)
    ensures Replays(s, RecordHistory(s, at))
  {
    hide ValidEntry;
    var r := RecordHistory(s, at);
    if r.emitted == [] {
      IdleReplays(s, r);
    } else {
      ReplayOne(Redacted(s), r.emitted[0]);
      assert RedactedHistory(s.history + [EntryOf(s, at)]) == RedactedHistory(s.history) + [RedactedEntry(EntryOf(s, at))];
    }
  }

  lemma RecordReplays(s: Aggregate, o: RuleOutcome)
    ensures Replays(s, Record(s, o))
  {
    hide Replays, NormalizeOutcome, Recorded, OutcomeOf, Unplanned, RedactedHistory, Earlier;
    var r := Record(s, o);
    if r.emitted == [] {
      IdleReplays(s, r);
    } else {
      ChangeReplays(s, r.next.(version := s.version), r.emitted[0].body);
    }
  }

  lemma ReplaysCompose(s: Aggregate, r1: Reply, r2: Reply)
    requires Replays(s, r1) && Replays(r1.next, r2)
    ensures Replays(s, Reply(r2.next, r1.emitted + r2.emitted, r2.error))
  {
    hide Replay, Redacted;
    ReplayConcat(Some(Redacted(s)), r1.emitted, r2.emitted);
  }

  lemma {:induction false} RecordEachReplays(s: Aggregate, os: seq<RuleOutcome>)
    ensures Replays(s, RecordEach(s, os))
  {
    hide Replays, Record;
    if os == [] {
      IdleReplays(s, Keep(s));
    } else {
      var n := |os| - 1;
      RecordEachReplays(s, os[..n]);
      var before := RecordEach(s, os[..n]);
      RecordReplays(before.next, os[n]);
      ReplaysCompose(s, before, Record(before.next, os[n]));
    }
  }

  lemma {:induction false} AppendEachReplays(s: Aggregate, os: seq<RuleOutcome>)
    ensures Replays(s, AppendEach(s, os))
  {
    hide Replays, RedactedHistory;
    if os == [] {
      IdleReplays(s, Keep(s));
    } else {
      var n := |os| - 1;
      AppendEachReplays(s, os[..n]);
      var before := AppendEach(s, os[..n]);
      var next := before.next.(outcomes := before.next.outcomes + [os[n]]);
      ChangeReplays(before.next, next, RuleOutcomeRecorded(os[n]));
      ReplaysCompose(s, before, Change(next, RuleOutcomeRecorded(os[n])));
    }
  }

  lemma RecordManyReplays(s: Aggregate, os: seq<RuleOutcome>, at: Time)
    ensures Replays(s, RecordAtomic(s, os))
    ensures Replays(s, RecordBatch(s, os, at))
  {
    hide Replays, Batch, Pending, RedactedHistory, Earlier;
    if Batch(s, os).Ok? {
      var pending := Pending(s, Batch(s, os).value);
      AppendEachReplays(s, pending);
      ChangeReplays(s, s.(outcomes := s.outcomes + pending), RuleOutcomeBatchRecorded(pending, at));
    }
    if RecordAtomic(s, os).emitted == [] && RecordAtomic(s, os).next == s {
      IdleReplays(s, RecordAtomic(s, os));
    }
    if RecordBatch(s, os, at).emitted == [] && RecordBatch(s, os, at).next == s {
      IdleReplays(s, RecordBatch(s, os, at));
    }
  }

  lemma ReplaceReplays(s: Aggregate, o: RuleOutcome, at: Time)
    requires DistinctRules(s.outcomes)
    ensures Replays(s, Replace(s, o, at))
  {
    hide Replays, NormalizeOutcome, Unplanned, RedactedHistory, Earlier;
    var r := Replace(s, o, at);
    if r.emitted == [] {
      IdleReplays(s, r);
    } else {
      var v := NormalizeOutcome(o).value;
      var k := IndexOf(s.outcomes, v.ruleID);
      assert s.outcomes[k := v] == Overlay(s.outcomes, map[v.ruleID := v]);
      ChangeReplays(s, r.next.(version := s.version), r.emitted[0].body);
    }
  }

  lemma {:induction false} ByRuleOfDistinct(os: seq<RuleOutcome>)
    requires DistinctRules(os)
    ensures ByRule(os).Keys == Rules(os)
    ensures forall i :: 0 <= i < |os| ==> ByRule(os)[os[i].ruleID] == os[i]
  {
    hide Rules;
    if os == [] {
      RulesOfNothing();
    } else {
      var n := |os| - 1;
      ByRuleOfDistinct(os[..n]);
      RulesLast(os);
      assert ByRule(os).Keys == ByRule(os[..n]).Keys + {os[n].ruleID};
    }
  }

  lemma RulesOfNothing()
    ensures Rules([]) == {}
  {
  }

  lemma RulesLast(os: seq<RuleOutcome>)
    requires os != []
    ensures Rules(os) == Rules(os[..|os| - 1]) + {os[|os| - 1].ruleID}
    ensures forall i :: 0 <= i < |os| ==> os[i].ruleID in Rules(os)
  {
    var n := |os| - 1;
    forall id | id in Rules(os) ensures id in Rules(os[..n]) + {os[n].ruleID} {
      var i :| 0 <= i < |os| && os[i].ruleID == id;
      assert i < n ==> os[..n][i].ruleID == id;
    }
    forall id | id in Rules(os[..n]) ensures id in Rules(os) {
      var i :| 0 <= i < n && os[..n][i].ruleID == id;
      assert os[i].ruleID == id;
    }
  }

  lemma ByRuleOfListing(m: map<string, RuleOutcome>)
    requires forall id :: id in m ==> m[id].ruleID == id
    ensures ByRule(Listing(m)) == m
    ensures Rules(Listing(m)) == m.Keys
  {
    hide ByRule, Listing, Keys, Rules;
    RulesOfListing(m);
    ByRuleKeys(m);
    forall id | id in m ensures ByRule(Listing(m))[id] == m[id] {
      ByRuleEntry(m, id);
    }
  }

  lemma ByRuleKeys(m: map<string, RuleOutcome>)
    requires forall id :: id in m ==> m[id].ruleID == id
    ensures ByRule(Listing(m)).Keys == Rules(Listing(m))
  {
    hide ByRule, Listing, Keys, Rules;
    ListingOfRules(m);
    ByRuleOfDistinct(Listing(m));
  }

  lemma ByRuleEntry(m: map<string, RuleOutcome>, id: string)
    requires (forall id :: id in m ==> m[id].ruleID == id) && id in m && id in ByRule(Listing(m))
    ensures ByRule(Listing(m))[id] == m[id]
  {
    hide ByRule, Listing, Keys, Rules;
    var l := Listing(m);
    ListingOfRules(m);
    ByRuleOfDistinct(l);
    assert m[id] in l;
    var i :| 0 <= i < |l| && l[i] == m[id];
  }

  lemma RulesOfListing(m: map<string, RuleOutcome>)
    requires forall id :: id in m ==> m[id].ruleID == id
    ensures Rules(Listing(m)) == m.Keys
  {
    hide Listing, Keys;
    ListingOfRules(m);
    var l := Listing(m);
    forall id | id in m ensures id in Rules(l) {
      assert m[id] in l;
      var i :| 0 <= i < |l| && l[i] == m[id];
      assert l[i].ruleID == id;
    }
    forall id | id in Rules(l) ensures id in m {
      var i :| 0 <= i < |l| && l[i].ruleID == id;
      assert l[i] in l;
    }
  }

  lemma BatchReplacedReplays(s: Aggregate, changes: map<string, RuleOutcome>, previous: seq<RuleOutcome>, at: Time)
    requires forall id :: id in changes ==> changes[id].ruleID == id
    ensures Replays(s, Change(s.(outcomes := Overlay(s.outcomes, changes)), RuleOutcomeBatchReplaced(previous, Listing(changes), at)))
  {
    hide Replays, Listing, RedactedHistory, ByRule, Overlay, Visible;
    ByRuleOfListing(changes);
    ChangeReplays(s, s.(outcomes := Overlay(s.outcomes, changes)), RuleOutcomeBatchReplaced(previous, Listing(changes), at));
  }

  lemma ReplaceTogetherReplays(s: Aggregate, m: map<string, RuleOutcome>, at: Time)
    requires forall id :: id in Differing(s, m) ==> Differing(s, m)[id].ruleID == id
    ensures Replays(s, ReplaceTogether(s, Ok(m), at))
  {
    hide Replays, Listing, Lookup, Differing, Overlay, Change;
    var changes := Differing(s, m);
    if changes == map[] {
      IdleReplays(s, Keep(s));
    } else {
      BatchReplacedReplays(s, changes, Listing(Lookup(s.outcomes, changes.Keys)), at);
    }
  }

  lemma ReplaceAtomicReplays(s: Aggregate, items: seq<Replacement>, at: Time)
    ensures Replays(s, ReplaceAtomic(s, items, at))
  {
    hide Replays, Replacements, Differing, Listing, Lookup, Overlay, GoodOutcome, Earlier;
    var batch := Replacements(s, at, items);
    if batch.Ok? {
      DifferingIsGood(s, at, items);
      ReplaceTogetherReplays(s, batch.value, at);
    } else {
      IdleReplays(s, Refuse(s, batch.error));
    }
    if ReplaceAtomic(s, items, at) != ReplaceTogether(s, batch, at) {
      IdleReplays(s, ReplaceAtomic(s, items, at));
    }
  }

  lemma RemoveReplays(s: Aggregate, rule: string, at: Time)
    requires DistinctRules(s.outcomes)
    ensures Replays(s, Remove(s, rule, at))
  {
    hide Replays, RedactedHistory, Earlier, Without, DistinctRules, Cut, TrimSpace;
    var id := TrimSpace(rule);
    var r := Remove(s, rule, at);
    if r.emitted == [] {
      IdleReplays(s, r);
    } else {
      var k := IndexOf(s.outcomes, id);
      RemoveIsAFilter(s.outcomes, k, id);
      ChangeReplays(s, s.(outcomes := Cut(s.outcomes, k)), RuleOutcomeRemoved(s.outcomes[k], at));
    }
  }

  lemma RemoveIfPresentReplays(s: Aggregate, rule: string, at: Time)
    requires DistinctRules(s.outcomes)
    ensures Replays(s, RemoveIfPresent(s, rule, at))
  {
    hide Replays, Remove, Recorded, TrimSpace, DistinctRules;
    var r := RemoveIfPresent(s, rule, at);
    RemoveReplays(s, TrimSpace(rule), at);
    if r != Remove(s, TrimSpace(rule), at) {
      IdleReplays(s, r);
    }
  }

  lemma RemoveSetReplays(s: Aggregate, ids: set<string>, at: Time)
    ensures Replays(s, RemoveSet(s, ids, at))
  {
    hide Replays, Listing, Without, Least, RedactedHistory, Rules;
    var r := RemoveSet(s, ids, at);
    if r.emitted == [] {
      IdleReplays(s, r);
    } else {
      var found := Lookup(s.outcomes, ids);
      assert forall id :: id in ids ==> id !in Missing(s.outcomes, ids);
      assert found.Keys == ids;
      ByRuleOfListing(found);
      ChangeReplays(s, r.next.(version := s.version), r.emitted[0].body);
    }
  }

  lemma RemoveManyReplays(s: Aggregate, rules: seq<string>, at: Time)
    ensures Replays(s, RemoveAtomic(s, rules, at))
  {
    hide Replays, RemoveSet, RuleSet, Earlier;
    var r := RemoveAtomic(s, rules, at);
    if RuleSet(rules).Some? {
      RemoveSetReplays(s, RuleSet(rules).value, at);
    }
    if r.next == s && r.emitted == [] {
      IdleReplays(s, r);
    }
  }

  lemma RemoveEachIfPresentReplays(s: Aggregate, rules: seq<string>, at: Time)
    ensures Replays(s, RemoveEachIfPresent(s, rules, at))
  {
    hide Replays, RemoveAtomic, RuleSet, Keys, Recorded;
    var r := RemoveEachIfPresent(s, rules, at);
    if RuleSet(rules).Some? {
      RemoveManyReplays(s, Keys(set id | id in RuleSet(rules).value && Recorded(s.outcomes, id)), at);
    }
    if r.next == s && r.emitted == [] {
      IdleReplays(s, r);
    }
  }

  /** The events an operation emits take the (redacted) state before it to the state after it. */
  lemma ApplyReplays(s: Aggregate, op: Op)
    requires Valid(s)
    ensures Replays(s, Apply(s, op))
  {
    hide Valid, Replays, Start, RegisterRule, Record, RecordEach, RecordAtomic, RecordBatch, Replace, ReplaceAtomic, Remove, RemoveIfPresent,
      RemoveAtomic, RemoveEachIfPresent, Reset, ResetAtVersion, CreateCheckpoint, Rollback, RecordHistory, CompleteAt, Cancel, Expire,
      BindEvidence, BindPolicy;
    GoodParts(s);
    match op
    case OpRecord(o) => RecordReplays(s, o);
    case OpRecordEach(os) => RecordEachReplays(s, os);
    case OpRecordAtomic(os) => RecordManyReplays(s, os, 0);
    case OpRecordBatch(os, at) => RecordManyReplays(s, os, at);
    case OpReplace(o, at) => ReplaceReplays(s, o, at);
    case OpReplaceAtomic(items, at) => ReplaceAtomicReplays(s, items, at);
    case OpRemove(rule, at) => RemoveReplays(s, rule, at);
    case OpRemoveIfPresent(rule, at) => RemoveIfPresentReplays(s, rule, at);
    case OpRemoveAtomic(rules, at) => RemoveManyReplays(s, rules, at);
    case OpRemoveEachIfPresent(rules, at) => RemoveEachIfPresentReplays(s, rules, at);
    case OpRecordHistory(at) => HistoryReplays(s, at);
    case OpReset(_) => RewindReplays(s, op);
    case OpResetAtVersion(_, _) => RewindReplays(s, op);
    case OpCreateCheckpoint(_, _) => RewindReplays(s, op);
    case OpRollback(_, _) => RewindReplays(s, op);
    case OpBindEvidence(b) => EvidenceReplays(s, b);
    case OpBindPolicy(b) => PolicyReplays(s, b);
    case _ => LifecycleReplays(s, op);
  }

  // Every run ------------------------------------------------------------------------------

  /** From any valid state on, the events a run adds account for everything it changed. */
  lemma {:induction false} RunReplays(t: Tracked, ops: seq<Op>)
    requires Valid(t.body)
    ensures t.events <= Run(t, ops).events
    ensures Replay(Some(Redacted(t.body)), Run(t, ops).events[|t.events|..]) == Some(Redacted(Run(t, ops).body))
  {
    hide Valid, Apply, Redacted, Fold, ReplayEvent;
    if ops == [] {
      assert t.events[|t.events|..] == [];
    } else {
      var n := |ops| - 1;
      RunReplays(t, ops[..n]);
      var before := Run(t, ops[..n]);
      RunKeepsValid(t, ops[..n]);
      ApplyReplays(before.body, ops[n]);
      var r := Apply(before.body, ops[n]);
      assert (before.events + r.emitted)[|t.events|..] == before.events[|t.events|..] + r.emitted;
      ReplayConcat(Some(Redacted(t.body)), before.events[|t.events|..], r.emitted);
    }
  }

  ghost predicate Begun(id: Id, sessionID: Id, createdAt: Time, t: Tracked)
  {
    && New(id, sessionID, createdAt).Ok?
    && t == Tracked(New(id, sessionID, createdAt).value.0, [New(id, sessionID, createdAt).value.1])
  }

  /** For every run from `NewEvaluation`, the log alone rebuilds the aggregate up to the hidden reasons. */
  lemma LogRebuildsAggregate(id: Id, sessionID: Id, createdAt: Time, t: Tracked, ops: seq<Op>)
    requires Begun(id, sessionID, createdAt, t)
    ensures Replay(None, Run(t, ops).events) == Some(Redacted(Run(t, ops).body))
  {
    hide Run, Redacted, Replay;
    NewIsValid(id, sessionID, createdAt);
    RunReplays(t, ops);
    var events := Run(t, ops).events;
    assert events == t.events + events[1..];
    ReplayConcat(None, t.events, events[1..]);
    BeginningReplays(id, sessionID, createdAt, t);
  }

  lemma BeginningReplays(id: Id, sessionID: Id, createdAt: Time, t: Tracked)
    requires Begun(id, sessionID, createdAt, t)
    ensures Replay(None, t.events) == Some(Redacted(t.body))
  {
    assert t.events[..0] == [];
    assert Redacted(t.body) == t.body;
  }

  /** Rebuilding is exact if and only if the verdict is not VERIFIED_WITH_EXCEPTION. */
  lemma LogIsExactUnlessExcepted(id: Id, sessionID: Id, createdAt: Time, t: Tracked, ops: seq<Op>)
    requires Begun(id, sessionID, createdAt, t)
    ensures Replay(None, Run(t, ops).events) == Some(Run(t, ops).body) <==> Run(t, ops).body.verdict != VerifiedWithException
  {
    LogRebuildsAggregate(id, sessionID, createdAt, t, ops);
    NewIsValid(id, sessionID, createdAt);
    RunKeepsValid(t, ops);
    RedactionIsExact(Run(t, ops).body);
  }

  lemma RedactionIsExact(s: Aggregate)
    requires Valid(s)
    ensures Redacted(s) == s <==> s.verdict != VerifiedWithException
  {
    hide GoodOutcomes, GoodCheckpoints, Bound, GoodPlan, Timed, ValidEntry;
    if s.verdict != VerifiedWithException {
      forall i | 0 <= i < |s.history| ensures RedactedEntry(s.history[i]) == s.history[i] {
        assert GoodEntry(s.history[i], s);
      }
      assert RedactedHistory(s.history) == s.history;
    }
  }

  /** The reasons really are lost: two runs with the same log and different reasons. */
  lemma ExceptedReasonsAreLost()
    ensures exists t, xs, ys ::
      && Begun(1, 2, 3, t)
      && Run(t, xs).events == Run(t, ys).events
      && Run(t, xs).body.reasons != Run(t, ys).body.reasons
  {
    var t := Tracked(Fresh(1, 2, 3), [Event(1, 2, 1, EvaluationCreated(3))]);
    ExceptedRun(t, "AA");
    ExceptedRun(t, "BB");
    var xs := [OpStart(4), OpComplete(VerifiedWithException, ["AA"], 5)];
    var ys := [OpStart(4), OpComplete(VerifiedWithException, ["BB"], 5)];
    assert Run(t, xs).body.reasons[0] != Run(t, ys).body.reasons[0];
    assert Begun(1, 2, 3, t);
  }

  lemma ExceptedRun(t: Tracked, code: string)
    requires t.body == Fresh(1, 2, 3) && IsCode(code)
    ensures Run(t, [OpStart(4), OpComplete(VerifiedWithException, [code], 5)]).body.reasons == [code]
    ensures Run(t, [OpStart(4), OpComplete(VerifiedWithException, [code], 5)]).events ==
      t.events + [Event(1, 2, 2, EvaluationStarted(4)), Event(1, 2, 3, EvaluationCompleted(VerifiedWithException, 5))]
  {
    hide Apply, Run;
    RunTwo(t, OpStart(4), OpComplete(VerifiedWithException, [code], 5));
    ExceptedSteps(code);
  }

  lemma RunTwo(t: Tracked, a: Op, b: Op)
    ensures var first := Apply(t.body, a); var second := Apply(first.next, b);
      Run(t, [a, b]) == Tracked(second.next, t.events + (first.emitted + second.emitted))
  {
    hide Apply, Run;
    RunNothing(t);
    RunOneMore(t, [], a);
    RunOneMore(t, [a], b);
    assert [] + [a] == [a] && [a] + [b] == [a, b];
    var first, second := Apply(t.body, a), Apply(Apply(t.body, a).next, b);
    assert t.events + first.emitted + second.emitted == t.events + (first.emitted + second.emitted);
  }

  lemma RunNothing(t: Tracked)
    ensures Run(t, []) == t
  {
  }

  lemma RunOneMore(t: Tracked, ops: seq<Op>, op: Op)
    ensures var before := Run(t, ops); var r := Apply(before.body, op);
      Run(t, ops + [op]) == Tracked(r.next, before.events + r.emitted)
  {
    hide Apply;
    assert (ops + [op])[..|ops|] == ops;
  }

  lemma ExceptedSteps(code: string)
    requires IsCode(code)
    ensures var first := Apply(Fresh(1, 2, 3), OpStart(4));
      var second := Apply(first.next, OpComplete(VerifiedWithException, [code], 5));
      && second.next.reasons == [code]
      && first.emitted + second.emitted == [Event(1, 2, 2, EvaluationStarted(4)), Event(1, 2, 3, EvaluationCompleted(VerifiedWithException, 5))]
  {
    hide IsCode, Canonical, NormalizeReasons;
    NormalizedReasonsAreNormal([code]);
    assert NormalReasons([code]);
  }
}
