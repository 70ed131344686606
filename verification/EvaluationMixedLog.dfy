/**
  What the event log tells of a run with atomic mutations in it. A failed mutation takes
  its events back but not everything it wrote, so the log can fall short of the aggregate
  in the evidence binding, the policy binding and the cancellation reason, and in nothing
  else.
 */
module EvaluationMixedLog {
  import opened Prelude
  import opened Text
  import opened Sorting
  import opened Evaluation
  import opened EvaluationRules
  import opened EvaluationInvariant
  import opened EvaluationReplay
  import opened EvaluationAtomic
  import opened EvaluationMixed

  /** What a log says of the fields a failed mutation does not restore. */
  datatype Told = Told(evidence: Option<EvidenceBinding>, policy: Option<PolicyBinding>, reason: string)

  const UNTOLD := Told(None, None, "")

  function TellOne(m: Told, body: EventBody): Told
  {
    match body
    case EvidenceSetBound(b) => m.(evidence := Some(b))
    case VerificationPolicyBound(b) => m.(policy := Some(b))
    case EvaluationCancelled(reason, _) => m.(reason := reason)
    case _ => m
  }

  function Tell(m: Told, events: seq<Event>): Told
  {
    if events == [] then m else TellOne(Tell(m, events[..|events| - 1]), events[|events| - 1].body)
  }

  /** The aggregate as far as it is told. */
  function AsTold(s: Aggregate, m: Told): Aggregate
  {
    s.(evidence := m.evidence, policy := m.policy, cancellationReason := m.reason)
  }

  lemma {:induction false} TellConcat(m: Told, xs: seq<Event>, ys: seq<Event>)
    ensures Tell(m, xs + ys) == Tell(Tell(m, xs), ys)
  {
    hide TellOne;
    if ys == [] {
      assert xs + ys == xs;
    } else {
      var n := |ys| - 1;
      TellConcat(m, xs, ys[..n]);
      assert (xs + ys)[..|xs| + n] == xs + ys[..n];
    }
  }

  lemma FoldAsTold(v: Aggregate, m: Told, body: EventBody)
    ensures Fold(AsTold(v, m), body) == AsTold(Fold(v, body), TellOne(m, body))
  {
    hide Overlay, Without, ByRule, Rules;
  }

  /** Replaying is blind to these three fields, except for what the events say of them. */
  lemma {:induction false} ReplayAsTold(v: Aggregate, m: Told, events: seq<Event>)
    ensures Replay(Some(v), events).Some?
    ensures Replay(Some(AsTold(v, m)), events) == Some(AsTold(Replay(Some(v), events).value, Tell(m, events)))
  {
    hide Fold, TellOne;
    if events != [] {
      var n := |events| - 1;
      ReplayAsTold(v, m, events[..n]);
      FoldAsTold(Replay(Some(v), events[..n]).value, Tell(m, events[..n]), events[n].body);
    }
  }

  // The events of one operation -------------------------------------------------------------------

  /** The event says nothing of these fields. */
  predicate Plain(body: EventBody)
  {
    !body.EvidenceSetBound? && !body.VerificationPolicyBound? && !body.EvaluationCancelled?
  }

  ghost predicate AllPlain(events: seq<Event>)
  {
    forall i :: 0 <= i < |events| ==> Plain(events[i].body)
  }

  lemma {:induction false} PlainTellsNothing(m: Told, events: seq<Event>)
    requires AllPlain(events)
    ensures Tell(m, events) == m
  {
    if events != [] {
      PlainTellsNothing(m, events[..|events| - 1]);
      assert Plain(events[|events| - 1].body);
    }
  }

  lemma RecordIsPlain(s: Aggregate, o: RuleOutcome)
    ensures AllPlain(Record(s, o).emitted)
  {
    hide NormalizeOutcome, Recorded, OutcomeOf, Unplanned, Earlier;
  }

  lemma {:induction false} RecordEachIsPlain(s: Aggregate, os: seq<RuleOutcome>)
    ensures AllPlain(RecordEach(s, os).emitted)
  {
    hide Record;
    if os != [] {
      RecordEachIsPlain(s, os[..|os| - 1]);
      RecordIsPlain(RecordEach(s, os[..|os| - 1]).next, os[|os| - 1]);
    }
  }

  lemma {:induction false} AppendEachIsPlain(s: Aggregate, os: seq<RuleOutcome>)
    ensures AllPlain(AppendEach(s, os).emitted)
  {
    if os != [] {
      AppendEachIsPlain(s, os[..|os| - 1]);
    }
  }

  lemma RecordManyIsPlain(s: Aggregate, os: seq<RuleOutcome>, at: Time)
    ensures AllPlain(RecordAtomic(s, os).emitted) && AllPlain(RecordBatch(s, os, at).emitted)
  {
    hide Batch, Pending, Earlier, AppendEach;
    if Batch(s, os).Ok? {
      AppendEachIsPlain(s, Pending(s, Batch(s, os).value));
    }
  }

  lemma ReplaceIsPlain(s: Aggregate, o: RuleOutcome, items: seq<Replacement>, at: Time)
    ensures AllPlain(Replace(s, o, at).emitted) && AllPlain(ReplaceAtomic(s, items, at).emitted)
  {
    hide NormalizeOutcome, Recorded, OutcomeOf, Unplanned, Earlier, Replacements, Differing, Listing, Lookup, Overlay;
  }

  lemma RemoveIsPlain(s: Aggregate, rule: string, at: Time)
    ensures AllPlain(Remove(s, rule, at).emitted)
  {
    hide Earlier, Recorded, TrimSpace, Cut, IndexOf;
  }

  lemma RemoveAtomicIsPlain(s: Aggregate, rules: seq<string>, at: Time)
    ensures AllPlain(RemoveAtomic(s, rules, at).emitted)
  {
    hide RuleSet, Earlier, Missing, Listing, Lookup, Without, Least;
  }

  lemma RemoveEachIsPlain(s: Aggregate, rules: seq<string>, at: Time)
    ensures AllPlain(RemoveEachIfPresent(s, rules, at).emitted)
  {
    hide RemoveAtomic, RuleSet, Recorded, Keys;
    if RuleSet(rules).Some? {
      RemoveAtomicIsPlain(s, Keys(set id | id in RuleSet(rules).value && Recorded(s.outcomes, id)), at);
    }
  }

  lemma OtherIsPlain(s: Aggregate, op: Op)
    requires !Escapes(op) && (!WritesOutcomes(op) || op.OpReset? || op.OpResetAtVersion? || op.OpRollback? || op.OpRemoveIfPresent?)
    ensures AllPlain(Apply(s, op).emitted)
  {
    hide Earlier, TrimSpace, NormalizeReasons, RequiredComplete, ValidEntry, EntryOf, Remove, Recorded;
    if op.OpRemoveIfPresent? {
      RemoveIsPlain(s, TrimSpace(op.rule), op.at);
    }
  }

  /** Only binding and cancelling write events that say something of these fields. */
  lemma ApplyIsPlain(s: Aggregate, op: Op)
    requires !Escapes(op)
    ensures AllPlain(Apply(s, op).emitted)
  {
    hide Record, RecordEach, RecordAtomic, RecordBatch, Replace, ReplaceAtomic, Remove, RemoveIfPresent, RemoveAtomic, RemoveEachIfPresent, AllPlain;
    match op
    case OpRecord(o) => RecordIsPlain(s, o);
    case OpRecordEach(os) => RecordEachIsPlain(s, os);
    case OpRecordAtomic(os) => RecordManyIsPlain(s, os, 0);
    case OpRecordBatch(os, at) => RecordManyIsPlain(s, os, at);
    case OpReplace(o, at) => ReplaceIsPlain(s, o, [], at);
    case OpReplaceAtomic(items, at) => ReplaceIsPlain(s, RuleOutcome("", Pass, [], 0), items, at);
    case OpRemove(rule, at) => RemoveIsPlain(s, rule, at);
    case OpRemoveAtomic(rules, at) => RemoveAtomicIsPlain(s, rules, at);
    case OpRemoveEachIfPresent(rules, at) => RemoveEachIsPlain(s, rules, at);
    case _ => OtherIsPlain(s, op);
  }

  /** What is told of a field after an operation: what was told before, or the new value if the operation wrote it. */
  lemma ApplyTells(s: Aggregate, op: Op, m: Told)
    ensures var r := Apply(s, op); var n := Tell(m, r.emitted);
      && n.evidence == (if r.next.evidence == s.evidence then m.evidence else r.next.evidence)
      && n.policy == (if r.next.policy == s.policy then m.policy else r.next.policy)
      && n.reason == (if r.next.phase == s.phase || r.next.phase != Cancelled then m.reason else r.next.cancellationReason)
      && (r.next.phase == s.phase || r.next.phase != Cancelled ==> r.next.cancellationReason == s.cancellationReason)
  {
    hide Apply, Tell;
    if Escapes(op) {
      EscapingTells(s, op, m);
    } else {
      ApplyIsPlain(s, op);
      PlainTellsNothing(m, Apply(s, op).emitted);
      ApplyKeepsIdentity(s, op);
      OnlyCancellingCancels(s, op);
    }
  }

  lemma OneTold(m: Told, e: Event)
    ensures Tell(m, []) == m && Tell(m, [e]) == TellOne(m, e.body)
  {
    assert [e][..0] == [];
  }

  lemma EscapingTells(s: Aggregate, op: Op, m: Told)
    requires Escapes(op)
    ensures var r := Apply(s, op); var n := Tell(m, r.emitted);
      && n.evidence == (if r.next.evidence == s.evidence then m.evidence else r.next.evidence)
      && n.policy == (if r.next.policy == s.policy then m.policy else r.next.policy)
      && n.reason == (if r.next.phase == s.phase || r.next.phase != Cancelled then m.reason else r.next.cancellationReason)
      && (r.next.phase == s.phase || r.next.phase != Cancelled ==> r.next.cancellationReason == s.cancellationReason)
  {
    hide TrimSpace, NormalizeEvidence, NormalizePolicy, Tell;
    var r := Apply(s, op);
    if r.emitted == [] {
      OneTold(m, Event(0, 0, 0, EvaluationStarted(0)));
    } else {
      OneTold(m, r.emitted[0]);
      assert r.emitted == [r.emitted[0]];
    }
  }

  lemma OnlyCancellingCancels(s: Aggregate, op: Op)
    requires !Escapes(op)
    ensures Apply(s, op).next.phase == Cancelled ==> s.phase == Cancelled
  {
    hide Earlier, NormalizeReasons, RequiredComplete, ValidEntry, TrimSpace, IndexOf;
    if WritesOutcomes(op) {
      OutcomeFrame(s, op);
    }
  }

  // The invariant of mixed runs ----------------------------------------------------------------------

  /** The log rebuilds everything but these fields; of a binding it tells the truth or nothing; of the reason it tells
      the truth once the evaluation is cancelled, and nothing before. */
  ghost predicate Kept(t: Tracked, boundLeft: bool, reasonLeft: bool)
  {
    var s, m := t.body, Tell(UNTOLD, t.events);
    && Replay(None, t.events) == Some(AsTold(Redacted(s), m))
    && (m.evidence == s.evidence || (m.evidence.None? && s.evidence.Some?))
    && (m.policy == s.policy || (m.policy.None? && s.policy.Some?))
    && ((m.evidence, m.policy) == Bindings(s) <==> !boundLeft)
    && (if s.phase == Cancelled then m.reason == s.cancellationReason else m.reason == "" && (s.cancellationReason != "" <==> reasonLeft))
  }

  lemma DoKeeps(t: Tracked, op: Op, boundLeft: bool, reasonLeft: bool)
    requires Valid(t.body) && Kept(t, boundLeft, reasonLeft)
    ensures Kept(Perform(t, Do(op)), boundLeft, reasonLeft)
  {
    hide Valid, Apply, Replay, Tell, Redacted, Leaks, TrimSpace;
    var r, m := Apply(t.body, op), Tell(UNTOLD, t.events);
    ApplyReplays(t.body, op);
    ReplayConcat(None, t.events, r.emitted);
    ReplayAsTold(Redacted(t.body), m, r.emitted);
    TellConcat(UNTOLD, t.events, r.emitted);
    ApplyTells(t.body, op, m);
    LeakEffect(t.body, op);
    if t.body.phase == Cancelled {
      TerminalStays(t.body, op);
    }
  }

  lemma {:induction false} RunKeeps(t: Tracked, ops: seq<Op>, boundLeft: bool, reasonLeft: bool)
    requires Valid(t.body) && Kept(t, boundLeft, reasonLeft)
    ensures Kept(Run(t, ops), boundLeft, reasonLeft)
  {
    hide Valid, Apply, Kept;
    if ops != [] {
      var n := |ops| - 1;
      RunKeeps(t, ops[..n], boundLeft, reasonLeft);
      RunKeepsValid(t, ops[..n]);
      DoKeeps(Run(t, ops[..n]), ops[n], boundLeft, reasonLeft);
    }
  }

  /** A mutation that succeeds is its operations and a history capture, one after the other. */
  lemma SuccessKeeps(t: Tracked, c: Command, boundLeft: bool, reasonLeft: bool)
    requires Valid(t.body) && Kept(t, boundLeft, reasonLeft) && c.Atomically? && !Failed(t, c)
    ensures Kept(Perform(t, c), boundLeft, reasonLeft)
  {
    hide Valid, Kept, RecordHistory, Run;
    RunKeeps(t, c.mutation.ops, boundLeft, reasonLeft);
    RunKeepsValid(t, c.mutation.ops);
    DoKeeps(Run(t, c.mutation.ops), OpRecordHistory(c.at), boundLeft, reasonLeft);
  }

  lemma FailureKeeps(t: Tracked, c: Command, boundLeft: bool, reasonLeft: bool)
    requires Kept(t, boundLeft, reasonLeft) && Failed(t, c)
    ensures Kept(Perform(t, c), boundLeft || LeavesBinding(t, c), reasonLeft || LeavesReason(t, c))
  {
    hide ApplyAtomic, Run, Replay, Tell, RedactedHistory, AnyBinds, AnyCancels, AnyRaises;
    FailureRestores(t, c.at, c.mutation);
    RunLeaks(t, c.mutation.ops);
    if t.body.phase == Cancelled {
      TerminalRunStays(t, c.mutation.ops);
    }
  }

  lemma {:induction false} WorkKeeps(t: Tracked, cs: seq<Command>)
    requires Valid(t.body) && Kept(t, false, false)
    ensures Kept(PerformAll(t, cs), EverLeavesBinding(t, cs), EverLeavesReason(t, cs))
  {
    hide Valid, Kept, Perform, LeavesBinding, LeavesReason, Failed;
    if cs != [] {
      var n := |cs| - 1;
      var before := PerformAll(t, cs[..n]);
      var boundLeft, reasonLeft := EverLeavesBinding(t, cs[..n]), EverLeavesReason(t, cs[..n]);
      WorkKeeps(t, cs[..n]);
      WorkKeepsValid(t, cs[..n]);
      LeavesOnlyByFailing(before, cs[n]);
      if Failed(before, cs[n]) {
        FailureKeeps(before, cs[n], boundLeft, reasonLeft);
      } else if cs[n].Do? {
        DoKeeps(before, cs[n].op, boundLeft, reasonLeft);
      } else {
        SuccessKeeps(before, cs[n], boundLeft, reasonLeft);
      }
    }
  }

  lemma LeavesOnlyByFailing(t: Tracked, c: Command)
    ensures LeavesBinding(t, c) || LeavesReason(t, c) ==> Failed(t, c)
    ensures Failed(t, c) ==> c.Atomically?
  {
    hide ApplyAtomic, AnyBinds, AnyCancels;
  }

  lemma BegunIsKept(id: Id, sessionID: Id, createdAt: Time, t: Tracked)
    requires Begun(id, sessionID, createdAt, t)
    ensures Kept(t, false, false)
  {
    hide Replay, Redacted;
    BeginningReplays(id, sessionID, createdAt, t);
    OneTold(UNTOLD, t.events[0]);
    FreshIsUntold(id, sessionID, createdAt);
  }

  lemma FreshIsUntold(id: Id, sessionID: Id, createdAt: Time)
    ensures AsTold(Redacted(Fresh(id, sessionID, createdAt)), UNTOLD) == Redacted(Fresh(id, sessionID, createdAt))
  {
  }

  // The theorems ----------------------------------------------------------------------------------------

  /** For every run of operations and atomic mutations from creation on, the log rebuilds everything but the reasons of
      an exceptional decision and what failed mutations left in these three fields. */
  lemma MixedLogRebuilds(id: Id, sessionID: Id, createdAt: Time, t: Tracked, cs: seq<Command>)
    requires Begun(id, sessionID, createdAt, t)
    ensures var u := PerformAll(t, cs); Replay(None, u.events) == Some(AsTold(Redacted(u.body), Tell(UNTOLD, u.events)))
  {
    hide PerformAll, Replay, Redacted, AsTold, Tell;
    NewIsValid(id, sessionID, createdAt);
    BegunIsKept(id, sessionID, createdAt, t);
    WorkKeeps(t, cs);
  }

  /** Rebuilding is exact if and only if the verdict is not VERIFIED_WITH_EXCEPTION, no failed mutation left a binding,
      and none left a cancellation reason that no later cancellation has replaced. */
  lemma MixedLogIsExactExactly(id: Id, sessionID: Id, createdAt: Time, t: Tracked, cs: seq<Command>)
    requires Begun(id, sessionID, createdAt, t)
    ensures var u := PerformAll(t, cs);
      Replay(None, u.events) == Some(u.body) <==>
        && u.body.verdict != VerifiedWithException && !EverLeavesBinding(t, cs)
        && (u.body.phase == Cancelled || !EverLeavesReason(t, cs))
  {
    hide PerformAll, Replay, RedactedHistory, Tell, Valid, EverLeavesBinding, EverLeavesReason;
    NewIsValid(id, sessionID, createdAt);
    BegunIsKept(id, sessionID, createdAt, t);
    WorkKeeps(t, cs);
    WorkKeepsValid(t, cs);
    RedactionIsExact(PerformAll(t, cs).body);
  }
}
