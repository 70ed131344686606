/**
  `ApplyAtomicMutation`: run a caller's mutation, record history, and on any failure put
  the captured state back. Three fields are not captured: the evidence binding, the policy
  binding and the cancellation reason. The model states exactly what that means.
 */
module EvaluationAtomic {
  import opened Prelude
  import opened Text
  import opened Evaluation
  import opened EvaluationRules
  import opened EvaluationInvariant
  import opened EvaluationReplay
  import opened EvaluationSnapshot

  /** A mutation is the operations it calls, whatever they return, and whether it reports an error. A mutation
      that gives up at its first error is one whose operations end there. */
  datatype Mutation = Mutation(ops: seq<Op>, fails: bool)

  datatype AtomicError = MutationFailed | HistoryRefused(error: Error)

  /** The captured fields and the log come back from `before`; the rest stays as the mutation left it. */
  function Restore(before: Tracked, after: Tracked): Tracked
  {
    Tracked(
      before.body.(id := after.body.id, sessionID := after.body.sessionID, createdAt := after.body.createdAt,
                   evidence := after.body.evidence, policy := after.body.policy,
                   cancellationReason := after.body.cancellationReason),
      before.events)
  }

  ghost function ApplyAtomic(t: Tracked, at: Time, mutation: Mutation): (r: (Tracked, Option<AtomicError>))
  {
    var after := Run(t, mutation.ops);
    var reply := RecordHistory(after.body, at);
    if mutation.fails then (Restore(t, after), Some(MutationFailed))
    else if reply.error.Some? then (Restore(t, after), Some(HistoryRefused(reply.error.value)))
    else (Tracked(reply.next, after.events + reply.emitted), None)
  }

  // Identity never changes --------------------------------------------------------------

  ghost predicate SameIdentity(s: Aggregate, t: Aggregate)
  {
    s.id == t.id && s.sessionID == t.sessionID && s.createdAt == t.createdAt
  }

  lemma ApplyKeepsIdentity(s: Aggregate, op: Op)
    ensures SameIdentity(Apply(s, op).next, s)
    ensures !Escapes(op) ==> Uncaptured(Apply(s, op).next) == Uncaptured(s)
  {
    hide Earlier, NormalizeEvidence, NormalizePolicy, NormalizeReasons, RequiredComplete, ValidEntry, TrimSpace, IndexOf;
    if WritesOutcomes(op) {
      OutcomeFrame(s, op);
    }
  }

  lemma {:induction false} RunKeepsIdentity(t: Tracked, ops: seq<Op>)
    ensures SameIdentity(Run(t, ops).body, t.body)
    ensures (forall i :: 0 <= i < |ops| ==> !Escapes(ops[i])) ==> Uncaptured(Run(t, ops).body) == Uncaptured(t.body)
  {
    hide Apply;
    if ops != [] {
      var n := |ops| - 1;
      RunKeepsIdentity(t, ops[..n]);
      ApplyKeepsIdentity(Run(t, ops[..n]).body, ops[n]);
    }
  }

  // Failure ------------------------------------------------------------------------------

  /** The part of the state the capture does not cover. */
  function Uncaptured(s: Aggregate): (Option<EvidenceBinding>, Option<PolicyBinding>, string)
  {
    (s.evidence, s.policy, s.cancellationReason)
  }

  /** The operations that write uncaptured fields. */
  predicate Escapes(op: Op)
  {
    op.OpBindEvidence? || op.OpBindPolicy? || op.OpCancel?
  }

  /** On failure the log and every captured field, nested contents included, equal their values before. */
  lemma FailureRestores(t: Tracked, at: Time, mutation: Mutation)
    requires ApplyAtomic(t, at, mutation).1.Some?
    ensures ApplyAtomic(t, at, mutation).0.events == t.events
    ensures ApplyAtomic(t, at, mutation).0.body ==
      t.body.(evidence := Run(t, mutation.ops).body.evidence, policy := Run(t, mutation.ops).body.policy,
              cancellationReason := Run(t, mutation.ops).body.cancellationReason)
  {
    hide Run, RecordHistory, Uncaptured;
    RunKeepsIdentity(t, mutation.ops);
  }

  /** The call gets through and writes an uncaptured field: a binding where there was none, or a cancellation with
      a reason other than the one already there. */
  ghost predicate Leaks(s: Aggregate, op: Op)
  {
    Escapes(op) && Apply(s, op).emitted != [] && (op.OpCancel? ==> TrimSpace(op.reason) != s.cancellationReason)
  }

  lemma LeaksExactly(s: Aggregate, op: Op)
    ensures Uncaptured(Apply(s, op).next) == Uncaptured(s) <==> !Leaks(s, op)
  {
    hide TrimSpace, NormalizeEvidence, NormalizePolicy;
    ApplyKeepsIdentity(s, op);
  }

  /** Bindings are written once, and a cancellation ends the evaluation. */
  ghost predicate Grown(from: Aggregate, s: Aggregate)
  {
    && (from.evidence.Some? ==> s.evidence == from.evidence)
    && (from.policy.Some? ==> s.policy == from.policy)
    && (s.cancellationReason != from.cancellationReason ==> s.phase.Terminal())
  }

  lemma ApplyKeepsGrown(from: Aggregate, s: Aggregate, op: Op)
    requires Grown(from, s)
    ensures Grown(from, Apply(s, op).next)
    ensures Uncaptured(s) != Uncaptured(from) ==> Uncaptured(Apply(s, op).next) != Uncaptured(from)
  {
    hide TrimSpace, NormalizeEvidence, NormalizePolicy, Apply, Leaks;
    if s.phase.Terminal() {
      TerminalStays(s, op);
    } else {
      if Escapes(op) {
        EscapingGrows(s, op);
      } else {
        ApplyKeepsIdentity(s, op);
      }
    }
  }

  lemma EscapingGrows(s: Aggregate, op: Op)
    requires Escapes(op) && !s.phase.Terminal()
    ensures Grown(s, Apply(s, op).next)
  {
    hide TrimSpace, NormalizeEvidence, NormalizePolicy;
  }

  /** The `i`th call of a run leaks. */
  ghost predicate LeaksAt(t: Tracked, ops: seq<Op>, i: nat)
    requires i < |ops|
  {
    Leaks(Run(t, ops[..i]).body, ops[i])
  }

  lemma LeaksAtPrefix(t: Tracked, ops: seq<Op>, n: nat, i: nat)
    requires i < n <= |ops|
    ensures LeaksAt(t, ops[..n], i) <==> LeaksAt(t, ops, i)
  {
    hide Run, Leaks;
    assert ops[..n][..i] == ops[..i];
  }

  /** A run changes the uncaptured fields exactly if one of its calls leaks; what leaked is never taken back. */
  lemma {:induction false} RunLeaksExactly(t: Tracked, ops: seq<Op>)
    ensures Grown(t.body, Run(t, ops).body)
    ensures Uncaptured(Run(t, ops).body) == Uncaptured(t.body) <==> forall i :: 0 <= i < |ops| ==> !LeaksAt(t, ops, i)
  {
    hide Apply, Leaks, LeaksAt, Run, Uncaptured, Grown;
    if ops == [] {
      RunNothing(t);
      NothingGrown(t.body);
    } else {
      var n := |ops| - 1;
      var s := Run(t, ops[..n]).body;
      RunLeaksExactly(t, ops[..n]);
      RunOneMore(t, ops[..n], ops[n]);
      assert ops == ops[..n] + [ops[n]];
      forall i | 0 <= i < n ensures LeaksAt(t, ops[..n], i) <==> LeaksAt(t, ops, i) {
        LeaksAtPrefix(t, ops, n, i);
      }
      LastLeaks(t, ops);
      ApplyKeepsGrown(t.body, s, ops[n]);
      LeaksExactly(s, ops[n]);
    }
  }

  lemma LastLeaks(t: Tracked, ops: seq<Op>)
    requires ops != []
    ensures var n := |ops| - 1; LeaksAt(t, ops, n) <==> Leaks(Run(t, ops[..n]).body, ops[n])
  {
  }

  lemma NothingGrown(s: Aggregate)
    ensures Grown(s, s)
  {
  }

  /** Restoration is complete if and only if no call of the mutation leaks. */
  lemma FailureIsCompleteExactlyWhen(t: Tracked, at: Time, mutation: Mutation)
    requires ApplyAtomic(t, at, mutation).1.Some?
    ensures ApplyAtomic(t, at, mutation).0 == t <==> forall i :: 0 <= i < |mutation.ops| ==> !LeaksAt(t, mutation.ops, i)
  {
    hide ApplyAtomic, Run, LeaksAt;
    FailureRestores(t, at, mutation);
    RunLeaksExactly(t, mutation.ops);
  }

  /** A failed mutation can leave a binding behind that no event and no version accounts for. */
  lemma FailureCanLeaveABinding(t: Tracked, b: PolicyBinding)
    requires Begun(1, 2, 3, t) && NormalizePolicy(b) == Ok(b) && b.boundAt >= 3
    ensures var r := ApplyAtomic(t, 4, Mutation([OpBindPolicy(b)], true));
      && r.0.body.policy == Some(b) && r.0.body.version == t.body.version && r.0.events == t.events
      && Replay(None, r.0.events) != Some(Redacted(r.0.body))
  {
    hide NormalizePolicy;
    var ops := [OpBindPolicy(b)];
    assert ops[..0] == [];
    assert Run(t, ops).body == BindPolicy(t.body, b).next;
    assert t.events[..0] == [];
    assert Replay(None, t.events) == Some(Fresh(1, 2, 3));
  }

  // Success -------------------------------------------------------------------------------

  /** On success the mutation took effect and history ends in one entry for the final version, the only one for it. */
  lemma SuccessRecordsHistory(t: Tracked, at: Time, mutation: Mutation)
    requires ApplyAtomic(t, at, mutation).1.None?
    ensures var after := Run(t, mutation.ops).body; var r := ApplyAtomic(t, at, mutation).0.body;
      && r == after.(history := after.history + [EntryOf(after, at)])
      && r.history[|r.history| - 1].version == r.version
      && forall i :: 0 <= i < |r.history| - 1 ==> r.history[i].version != r.version
  {
  }

  lemma {:induction false} HistoryOnlyByRecording(t: Tracked, ops: seq<Op>)
    requires forall i :: 0 <= i < |ops| ==> !ops[i].OpRecordHistory?
    ensures Run(t, ops).body.history == t.body.history
  {
    hide Apply;
    if ops != [] {
      var n := |ops| - 1;
      HistoryOnlyByRecording(t, ops[..n]);
      OnlyRecordingWritesHistory(Run(t, ops[..n]).body, ops[n]);
    }
  }

  lemma OnlyRecordingWritesHistory(s: Aggregate, op: Op)
    requires !op.OpRecordHistory?
    ensures Apply(s, op).next.history == s.history
  {
    hide Earlier, NormalizeEvidence, NormalizePolicy, NormalizeReasons, RequiredComplete, TrimSpace, IndexOf;
    if WritesOutcomes(op) {
      OutcomeFrame(s, op);
    }
  }

  /** Exactly one new history entry, unless the mutation records history itself. */
  lemma SuccessAddsOneEntry(t: Tracked, at: Time, mutation: Mutation)
    requires ApplyAtomic(t, at, mutation).1.None?
    requires forall i :: 0 <= i < |mutation.ops| ==> !mutation.ops[i].OpRecordHistory?
    ensures ApplyAtomic(t, at, mutation).0.body.history == t.body.history + [EntryOf(Run(t, mutation.ops).body, at)]
  {
    hide ApplyAtomic;
    SuccessRecordsHistory(t, at, mutation);
    HistoryOnlyByRecording(t, mutation.ops);
  }

  // Runs that mix both --------------------------------------------------------------------

  datatype Command = Do(op: Op) | Atomically(at: Time, mutation: Mutation)

  ghost function Perform(t: Tracked, c: Command): Tracked
  {
    match c
    case Do(op) => Tracked(Apply(t.body, op).next, t.events + Apply(t.body, op).emitted)
    case Atomically(at, mutation) => ApplyAtomic(t, at, mutation).0
  }

  ghost function PerformAll(t: Tracked, cs: seq<Command>): Tracked
  {
    if cs == [] then t else Perform(PerformAll(t, cs[..|cs| - 1]), cs[|cs| - 1])
  }

  lemma AtomicKeepsValid(t: Tracked, at: Time, mutation: Mutation)
    requires Valid(t.body)
    ensures Valid(ApplyAtomic(t, at, mutation).0.body)
  {
    hide Valid, RecordHistory;
    RunKeepsValid(t, mutation.ops);
    RunKeepsIdentity(t, mutation.ops);
    var after := Run(t, mutation.ops);
    if ApplyAtomic(t, at, mutation).1.Some? {
      FailureRestores(t, at, mutation);
      if t.body.phase.Terminal() {
        TerminalRunStays(t, mutation.ops);
      }
      CancelledHasReason(after.body);
      LeakKeepsValid(t.body, after.body);
    } else {
      HistoryKeepsValid(after.body, at);
    }
  }

  lemma CancelledHasReason(s: Aggregate)
    requires Valid(s)
    ensures s.phase == Cancelled ==> s.cancellationReason != ""
  {
  }

  lemma LeakKeepsValid(s: Aggregate, after: Aggregate)
    requires Valid(s) && Valid(after) && SameIdentity(s, after)
    requires s.phase == Cancelled ==> after.cancellationReason != ""
    ensures Valid(s.(evidence := after.evidence, policy := after.policy, cancellationReason := after.cancellationReason))
  {
    hide GoodOutcomes, GoodCheckpoints, NormalizeEvidence, NormalizePolicy, GoodPlan, ValidEntry, NormalReasons;
    assert forall i :: 0 <= i < |s.history| ==> GoodEntry(s.history[i], s);
  }

  /** Every state of every run, atomic mutations included, is valid and survives saving and rebuilding. */
  lemma {:induction false} EveryRunRoundTrips(id: Id, sessionID: Id, createdAt: Time, t: Tracked, cs: seq<Command>)
    requires Begun(id, sessionID, createdAt, t)
    ensures Valid(PerformAll(t, cs).body)
    ensures Rehydrate(TakeSnapshot(PerformAll(t, cs).body)) == Ok(PerformAll(t, cs).body)
  {
    hide Valid, Apply, ApplyAtomic, TakeSnapshot, Rehydrate;
    if cs == [] {
      NewIsValid(id, sessionID, createdAt);
    } else {
      var n := |cs| - 1;
      EveryRunRoundTrips(id, sessionID, createdAt, t, cs[..n]);
      var before := PerformAll(t, cs[..n]);
      match cs[n] {
        case Do(op) => ApplyKeepsValid(before.body, op);
        case Atomically(at, mutation) => AtomicKeepsValid(before, at, mutation);
      }
    }
    SnapshotRoundTrip(PerformAll(t, cs).body);
  }
}
