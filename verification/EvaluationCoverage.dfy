/**
  A completed evaluation has an outcome for every planned rule, over every run of operations
  and atomic mutations.
 */
module EvaluationCoverage {
  import opened Prelude
  import opened Text
  import opened Evaluation
  import opened EvaluationRules
  import opened EvaluationInvariant
  import opened EvaluationAtomic
  import opened EvaluationAccepts

  ghost predicate Complete(s: Aggregate)
  {
    s.phase == Completed ==> Covered(s)
  }

  /** Only completing completes. */
  lemma OthersDoNotComplete(s: Aggregate, op: Op)
    requires !s.phase.Terminal() && !op.OpComplete?
    ensures Apply(s, op).next.phase != Completed
  {
    if WritesOutcomes(op) {
      hide *;
      OutcomeFrame(s, op);
      FrameKeepsPhase(s, Apply(s, op).next);
    } else {
      hide TrimSpace, IsPolicyHash, NormalizeEvidence, NormalizePolicy, ValidEntry;
    }
  }

  lemma FrameKeepsPhase(s: Aggregate, next: Aggregate)
    requires OnlyOutcomes(s, next)
    ensures next.phase == s.phase
  {
  }

  /** Phases change along the transition table only. */
  lemma PhasesFollowTheTable(s: Aggregate, op: Op)
    ensures var next := Apply(s, op).next; next.phase == s.phase || s.phase.CanTransitionTo(next.phase)
  {
    if WritesOutcomes(op) {
      hide *;
      OutcomeFrame(s, op);
      FrameKeepsPhase(s, Apply(s, op).next);
    } else {
      hide TrimSpace, IsPolicyHash, NormalizeEvidence, NormalizePolicy, ValidEntry, NormalizeReasons, RequiredComplete;
    }
  }

  lemma ApplyKeepsComplete(s: Aggregate, op: Op)
    requires Complete(s)
    ensures Complete(Apply(s, op).next)
  {
    hide Covered;
    if s.phase.Terminal() {
      TerminalStays(s, op);
      HistoryKeepsComplete(s, Apply(s, op).next.history);
    } else if op.OpComplete? {
      CompletesExactly(s, op.verdict, op.reasons, op.at);
      SameRules(s, Apply(s, op).next);
    } else {
      OthersDoNotComplete(s, op);
    }
  }

  lemma SameRules(s: Aggregate, next: Aggregate)
    ensures s.required == next.required && s.outcomes == next.outcomes ==> (Covered(s) <==> Covered(next))
  {
  }

  lemma HistoryKeepsComplete(s: Aggregate, history: seq<HistoryEntry>)
    requires Complete(s)
    ensures Complete(s.(history := history))
  {
    SameRules(s, s.(history := history));
  }

  lemma {:induction false} RunKeepsComplete(t: Tracked, ops: seq<Op>)
    requires Complete(t.body)
    ensures Complete(Run(t, ops).body)
  {
    hide Complete, Apply;
    if ops != [] {
      RunKeepsComplete(t, ops[..|ops| - 1]);
      ApplyKeepsComplete(Run(t, ops[..|ops| - 1]).body, ops[|ops| - 1]);
    }
  }

  lemma AtomicKeepsComplete(t: Tracked, at: Time, mutation: Mutation)
    requires Complete(t.body)
    ensures Complete(ApplyAtomic(t, at, mutation).0.body)
  {
    hide Run, Covered, Restore, RecordHistory;
    RunKeepsComplete(t, mutation.ops);
    var after := Run(t, mutation.ops);
    if ApplyAtomic(t, at, mutation).1.Some? {
      FailureRestores(t, at, mutation);
      SameRules(t.body, ApplyAtomic(t, at, mutation).0.body);
    } else {
      CapturesExactly(after.body, at);
      SameRules(after.body, RecordHistory(after.body, at).next);
    }
  }

  lemma {:induction false} WorkKeepsComplete(t: Tracked, cs: seq<Command>)
    requires Complete(t.body)
    ensures Complete(PerformAll(t, cs).body)
  {
    hide Complete, Apply, ApplyAtomic;
    if cs != [] {
      var before := PerformAll(t, cs[..|cs| - 1]);
      WorkKeepsComplete(t, cs[..|cs| - 1]);
      match cs[|cs| - 1] {
        case Do(op) => ApplyKeepsComplete(before.body, op);
        case Atomically(at, mutation) => AtomicKeepsComplete(before, at, mutation);
      }
    }
  }

  /** Whatever was done to it since its creation, a completed evaluation has an outcome for every rule of its plan. */
  lemma CompletedIsCovered(id: Id, sessionID: Id, createdAt: Time, events: seq<Event>, cs: seq<Command>, i: nat)
    requires var s := PerformAll(Tracked(Fresh(id, sessionID, createdAt), events), cs).body; s.phase == Completed && i < |s.required|
    ensures var s := PerformAll(Tracked(Fresh(id, sessionID, createdAt), events), cs).body;
      exists k :: 0 <= k < |s.outcomes| && s.outcomes[k].ruleID == s.required[i]
  {
    hide PerformAll;
    WorkKeepsComplete(Tracked(Fresh(id, sessionID, createdAt), events), cs);
    var s := PerformAll(Tracked(Fresh(id, sessionID, createdAt), events), cs).body;
    assert HasRule(s.outcomes, s.required[i]);
  }
}
