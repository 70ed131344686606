/**
  Runs that mix single operations with atomic mutations: what raises the version, what
  changes without raising it, and what a failed mutation leaves behind.
 */
module EvaluationMixed {
  import opened Prelude
  import opened Text
  import opened Evaluation
  import opened EvaluationRules
  import opened EvaluationInvariant
  import opened EvaluationReplay
  import opened EvaluationEvents
  import opened EvaluationAtomic

  // One call ---------------------------------------------------------------------------------

  /** The call gets through and is not a history capture. */
  ghost predicate Raises(s: Aggregate, op: Op)
  {
    !op.OpRecordHistory? && Apply(s, op).emitted != []
  }

  ghost predicate Captures(s: Aggregate, op: Op)
  {
    op.OpRecordHistory? && Apply(s, op).error.None?
  }

  lemma CancelNumbers(s: Aggregate, reason: string, at: Time)
    ensures var r := Apply(s, OpCancel(reason, at)); r.next.version == s.version + |r.emitted| && (r.emitted == [] ==> r.next == s)
  {
    hide TrimSpace;
  }

  /** Every call but a history capture consumes one version per event, and changes nothing without one. */
  lemma CallNumbers(s: Aggregate, op: Op)
    requires !op.OpRecordHistory?
    ensures var r := Apply(s, op); r.next.version == s.version + |r.emitted| && (r.emitted == [] ==> r.next == s)
  {
    hide Apply;
    if s.phase.Terminal() {
      TerminalStays(s, op);
    } else if op.OpCancel? {
      CancelNumbers(s, op.reason, op.at);
    } else {
      ApplyNumbered(s, op);
    }
  }

  lemma CaptureAppends(s: Aggregate, at: Time)
    ensures var r := Apply(s, OpRecordHistory(at));
      if r.error.None? then r.next == s.(history := r.next.history) && |r.next.history| == |s.history| + 1 else r.next == s
  {
    hide ValidEntry, EntryOf;
  }

  lemma CallExactly(s: Aggregate, op: Op)
    ensures var next := Apply(s, op).next;
      && (next.version > s.version <==> Raises(s, op)) && next.version >= s.version
      && |next.history| >= |s.history| && (|next.history| > |s.history| <==> Captures(s, op))
      && (!Raises(s, op) ==> next == s.(history := next.history))
      && (!Raises(s, op) && !Captures(s, op) ==> next == s)
  {
    hide Apply;
    if op.OpRecordHistory? {
      CaptureAppends(s, op.at);
    } else {
      CallNumbers(s, op);
      OnlyRecordingWritesHistory(s, op);
    }
  }

  // The uncaptured fields, one by one ----------------------------------------------------------

  function Bindings(s: Aggregate): (Option<EvidenceBinding>, Option<PolicyBinding>)
  {
    (s.evidence, s.policy)
  }

  /** Bindings are written once. */
  predicate Extends(from: Aggregate, s: Aggregate)
  {
    (from.evidence.Some? ==> s.evidence == from.evidence) && (from.policy.Some? ==> s.policy == from.policy)
  }

  lemma LeakEffect(s: Aggregate, op: Op)
    ensures var next := Apply(s, op).next;
      && Extends(s, next)
      && (Bindings(next) == Bindings(s) <==> !(Leaks(s, op) && !op.OpCancel?))
      && next.cancellationReason == (if Leaks(s, op) && op.OpCancel? then TrimSpace(op.reason) else s.cancellationReason)
      && (Leaks(s, op) && op.OpCancel? ==> next.phase.Terminal() && TrimSpace(op.reason) != "")
      && (Leaks(s, op) ==> Raises(s, op))
  {
    hide TrimSpace, NormalizeEvidence, NormalizePolicy;
    if !Escapes(op) {
      ApplyKeepsIdentity(s, op);
    }
  }

  lemma ExtendsAgain(from: Aggregate, s: Aggregate, next: Aggregate)
    requires Extends(from, s) && Extends(s, next)
    ensures Extends(from, next)
    ensures Bindings(next) == Bindings(from) <==> Bindings(s) == Bindings(from) && Bindings(next) == Bindings(s)
  {
  }

  // A run of operations ------------------------------------------------------------------------

  ghost predicate RaisesAt(t: Tracked, ops: seq<Op>, i: nat)
    requires i < |ops|
  {
    Raises(Run(t, ops[..i]).body, ops[i])
  }

  ghost predicate CapturesAt(t: Tracked, ops: seq<Op>, i: nat)
    requires i < |ops|
  {
    Captures(Run(t, ops[..i]).body, ops[i])
  }

  ghost predicate BindsAt(t: Tracked, ops: seq<Op>, i: nat)
    requires i < |ops|
  {
    LeaksAt(t, ops, i) && !ops[i].OpCancel?
  }

  ghost predicate CancelsAt(t: Tracked, ops: seq<Op>, i: nat)
    requires i < |ops|
  {
    LeaksAt(t, ops, i) && ops[i].OpCancel?
  }

  lemma PrefixCalls(t: Tracked, ops: seq<Op>, n: nat, i: nat)
    requires i < n <= |ops|
    ensures RaisesAt(t, ops[..n], i) <==> RaisesAt(t, ops, i)
    ensures CapturesAt(t, ops[..n], i) <==> CapturesAt(t, ops, i)
    ensures BindsAt(t, ops[..n], i) <==> BindsAt(t, ops, i)
    ensures CancelsAt(t, ops[..n], i) <==> CancelsAt(t, ops, i)
  {
    hide Run, Raises, Captures, Leaks;
    assert ops[..n][..i] == ops[..i];
  }

  lemma LastCall(t: Tracked, ops: seq<Op>)
    requires ops != []
    ensures var n := |ops| - 1; var s := Run(t, ops[..n]).body;
      && Run(t, ops).body == Apply(s, ops[n]).next
      && (RaisesAt(t, ops, n) <==> Raises(s, ops[n])) && (CapturesAt(t, ops, n) <==> Captures(s, ops[n]))
      && (BindsAt(t, ops, n) <==> Leaks(s, ops[n]) && !ops[n].OpCancel?) && (CancelsAt(t, ops, n) <==> Leaks(s, ops[n]) && ops[n].OpCancel?)
  {
    hide Apply, Raises, Captures, Leaks;
  }

  lemma PrefixAll(t: Tracked, ops: seq<Op>)
    requires ops != []
    ensures var n := |ops| - 1; forall i :: 0 <= i < n ==>
      && (RaisesAt(t, ops[..n], i) <==> RaisesAt(t, ops, i)) && (CapturesAt(t, ops[..n], i) <==> CapturesAt(t, ops, i))
      && (BindsAt(t, ops[..n], i) <==> BindsAt(t, ops, i)) && (CancelsAt(t, ops[..n], i) <==> CancelsAt(t, ops, i))
  {
    hide RaisesAt, CapturesAt, BindsAt, CancelsAt;
    var n := |ops| - 1;
    forall i | 0 <= i < n
      ensures (RaisesAt(t, ops[..n], i) <==> RaisesAt(t, ops, i)) && (CapturesAt(t, ops[..n], i) <==> CapturesAt(t, ops, i))
      ensures (BindsAt(t, ops[..n], i) <==> BindsAt(t, ops, i)) && (CancelsAt(t, ops[..n], i) <==> CancelsAt(t, ops, i))
    {
      PrefixCalls(t, ops, n, i);
    }
  }

  ghost predicate AnyRaises(t: Tracked, ops: seq<Op>)
  {
    exists i :: 0 <= i < |ops| && RaisesAt(t, ops, i)
  }

  ghost predicate AnyCaptures(t: Tracked, ops: seq<Op>)
  {
    exists i :: 0 <= i < |ops| && CapturesAt(t, ops, i)
  }

  ghost predicate AnyBinds(t: Tracked, ops: seq<Op>)
  {
    exists i :: 0 <= i < |ops| && BindsAt(t, ops, i)
  }

  ghost predicate AnyCancels(t: Tracked, ops: seq<Op>)
  {
    exists i :: 0 <= i < |ops| && CancelsAt(t, ops, i)
  }

  /** The last call and those before it. */
  lemma AnyUnfolds(t: Tracked, ops: seq<Op>)
    requires ops != []
    ensures var n := |ops| - 1; var front := ops[..n]; var s := Run(t, front).body;
      && (AnyRaises(t, ops) <==> AnyRaises(t, front) || Raises(s, ops[n]))
      && (AnyCaptures(t, ops) <==> AnyCaptures(t, front) || Captures(s, ops[n]))
      && (AnyBinds(t, ops) <==> AnyBinds(t, front) || (Leaks(s, ops[n]) && !ops[n].OpCancel?))
      && (AnyCancels(t, ops) <==> AnyCancels(t, front) || (Leaks(s, ops[n]) && ops[n].OpCancel?))
  {
    hide RaisesAt, CapturesAt, BindsAt, CancelsAt, Run, Raises, Captures, Leaks;
    PrefixAll(t, ops);
    LastCall(t, ops);
  }

  lemma NoCalls(t: Tracked)
    ensures Run(t, []) == t && !AnyRaises(t, []) && !AnyCaptures(t, []) && !AnyBinds(t, []) && !AnyCancels(t, [])
  {
  }

  /** Over a run the version rises exactly if some call raises it, the history grows exactly if some call captures it,
      and without a raised version nothing but the history changes. */
  lemma {:induction false} RunExactly(t: Tracked, ops: seq<Op>)
    ensures var s := Run(t, ops).body;
      && (s.version > t.body.version <==> AnyRaises(t, ops)) && s.version >= t.body.version
      && |s.history| >= |t.body.history| && (|s.history| > |t.body.history| <==> AnyCaptures(t, ops))
      && (!AnyRaises(t, ops) ==> s == t.body.(history := s.history))
      && (!AnyRaises(t, ops) && !AnyCaptures(t, ops) ==> s == t.body)
  {
    hide Apply, Run, Raises, Captures, Leaks, AnyRaises, AnyCaptures, AnyBinds, AnyCancels;
    if ops == [] {
      NoCalls(t);
    } else {
      var n := |ops| - 1;
      RunExactly(t, ops[..n]);
      AnyUnfolds(t, ops);
      LastCall(t, ops);
      CallExactly(Run(t, ops[..n]).body, ops[n]);
    }
  }

  /** Over a run bindings change exactly if some call writes one; a cancellation is the last word on its reason. */
  lemma {:induction false} RunLeaks(t: Tracked, ops: seq<Op>)
    ensures var s := Run(t, ops).body;
      && Extends(t.body, s)
      && (Bindings(s) == Bindings(t.body) <==> !AnyBinds(t, ops))
      && (AnyCancels(t, ops) ==> s.phase.Terminal() && s.cancellationReason != "")
      && (!AnyCancels(t, ops) ==> s.cancellationReason == t.body.cancellationReason)
      && (AnyBinds(t, ops) || AnyCancels(t, ops) ==> AnyRaises(t, ops))
  {
    hide Apply, Run, Raises, Captures, Leaks, AnyRaises, AnyCaptures, AnyBinds, AnyCancels, TrimSpace;
    if ops == [] {
      NoCalls(t);
    } else {
      var n := |ops| - 1;
      var s := Run(t, ops[..n]).body;
      RunLeaks(t, ops[..n]);
      AnyUnfolds(t, ops);
      LastCall(t, ops);
      LeakEffect(s, ops[n]);
      ExtendsAgain(t.body, s, Apply(s, ops[n]).next);
      if s.phase.Terminal() {
        TerminalStays(s, ops[n]);
      }
    }
  }

  lemma {:induction false} CancelledBy(t: Tracked, ops: seq<Op>, i: nat)
    requires i < |ops| && CancelsAt(t, ops, i)
    ensures Run(t, ops).body.cancellationReason == TrimSpace(ops[i].reason)
  {
    hide Apply, Run, Raises, Captures, Leaks, TrimSpace, CancelsAt;
    var n := |ops| - 1;
    var s := Run(t, ops[..n]).body;
    LastCall(t, ops);
    LeakEffect(s, ops[n]);
    if i < n {
      PrefixCalls(t, ops, n, i);
      CancelledBy(t, ops[..n], i);
      CancelledEnds(t, ops[..n], i);
      TerminalStays(s, ops[n]);
    }
  }

  lemma CancelledEnds(t: Tracked, ops: seq<Op>, i: nat)
    requires i < |ops| && CancelsAt(t, ops, i)
    ensures Run(t, ops).body.phase.Terminal()
  {
    hide Run, CancelsAt;
    RunLeaks(t, ops);
  }

  // One command --------------------------------------------------------------------------------

  ghost predicate Failed(t: Tracked, c: Command)
  {
    c.Atomically? && ApplyAtomic(t, c.at, c.mutation).1.Some?
  }

  ghost predicate RaisesBy(t: Tracked, c: Command)
  {
    match c
    case Do(op) => Raises(t.body, op)
    case Atomically(_, mutation) => !Failed(t, c) && AnyRaises(t, mutation.ops)
  }

  ghost predicate CapturesBy(t: Tracked, c: Command)
  {
    match c
    case Do(op) => Captures(t.body, op)
    case Atomically(_, _) => !Failed(t, c)
  }

  /** A failed mutation leaves a binding behind. */
  ghost predicate LeavesBinding(t: Tracked, c: Command)
  {
    Failed(t, c) && AnyBinds(t, c.mutation.ops)
  }

  /** A failed mutation leaves a cancellation reason behind. */
  ghost predicate LeavesReason(t: Tracked, c: Command)
  {
    Failed(t, c) && AnyCancels(t, c.mutation.ops)
  }

  /** The reason given in the call that cancelled. */
  ghost function ReasonLeft(t: Tracked, c: Command): string
    requires LeavesReason(t, c)
  {
    var i :| 0 <= i < |c.mutation.ops| && CancelsAt(t, c.mutation.ops, i);
    TrimSpace(c.mutation.ops[i].reason)
  }

  ghost predicate StepOf(t: Tracked, c: Command, s: Aggregate)
  {
    && (s.version > t.body.version <==> RaisesBy(t, c)) && s.version >= t.body.version
    && |s.history| >= |t.body.history| && (|s.history| > |t.body.history| <==> CapturesBy(t, c))
    && Extends(t.body, s)
    && (!RaisesBy(t, c) ==>
          && s == t.body.(history := s.history, evidence := s.evidence, policy := s.policy, cancellationReason := s.cancellationReason)
          && (!CapturesBy(t, c) ==> s.history == t.body.history)
          && (Bindings(s) == Bindings(t.body) <==> !LeavesBinding(t, c))
          && s.cancellationReason == (if LeavesReason(t, c) then ReasonLeft(t, c) else t.body.cancellationReason))
  }

  lemma DoExactly(t: Tracked, op: Op)
    ensures StepOf(t, Do(op), Perform(t, Do(op)).body)
  {
    hide Apply, Raises, Captures, Leaks, TrimSpace;
    CallExactly(t.body, op);
    LeakEffect(t.body, op);
  }

  lemma SuccessExactly(t: Tracked, c: Command)
    requires c.Atomically? && !Failed(t, c)
    ensures StepOf(t, c, Perform(t, c).body)
  {
    hide Run, AnyRaises, AnyCaptures, AnyBinds, AnyCancels, EntryOf, ValidEntry, TrimSpace;
    RunExactly(t, c.mutation.ops);
    RunLeaks(t, c.mutation.ops);
    SuccessRecordsHistory(t, c.at, c.mutation);
  }

  lemma FailureExactly(t: Tracked, c: Command)
    requires Failed(t, c)
    ensures StepOf(t, c, Perform(t, c).body)
  {
    hide ApplyAtomic, Run, AnyRaises, AnyCaptures, AnyBinds, AnyCancels, CancelsAt, TrimSpace;
    FailureRestores(t, c.at, c.mutation);
    RunLeaks(t, c.mutation.ops);
    if LeavesReason(t, c) {
      LeftReasonStands(t, c);
    }
  }

  lemma LeftReasonStands(t: Tracked, c: Command)
    requires LeavesReason(t, c)
    ensures ReasonLeft(t, c) == Run(t, c.mutation.ops).body.cancellationReason
  {
    hide ApplyAtomic, Run, LeaksAt, TrimSpace;
    var i :| 0 <= i < |c.mutation.ops| && CancelsAt(t, c.mutation.ops, i) && ReasonLeft(t, c) == TrimSpace(c.mutation.ops[i].reason);
    CancelledBy(t, c.mutation.ops, i);
  }

  lemma CommandExactly(t: Tracked, c: Command)
    ensures StepOf(t, c, Perform(t, c).body)
  {
    hide StepOf, Perform, Failed;
    if c.Do? {
      DoExactly(t, c.op);
    } else if Failed(t, c) {
      FailureExactly(t, c);
    } else {
      SuccessExactly(t, c);
    }
  }

  // Any work -----------------------------------------------------------------------------------

  ghost predicate EverRaises(t: Tracked, cs: seq<Command>)
  {
    cs != [] && (EverRaises(t, cs[..|cs| - 1]) || RaisesBy(PerformAll(t, cs[..|cs| - 1]), cs[|cs| - 1]))
  }

  ghost predicate EverCaptures(t: Tracked, cs: seq<Command>)
  {
    cs != [] && (EverCaptures(t, cs[..|cs| - 1]) || CapturesBy(PerformAll(t, cs[..|cs| - 1]), cs[|cs| - 1]))
  }

  ghost predicate EverLeavesBinding(t: Tracked, cs: seq<Command>)
  {
    cs != [] && (EverLeavesBinding(t, cs[..|cs| - 1]) || LeavesBinding(PerformAll(t, cs[..|cs| - 1]), cs[|cs| - 1]))
  }

  ghost predicate EverLeavesReason(t: Tracked, cs: seq<Command>)
  {
    cs != [] && (EverLeavesReason(t, cs[..|cs| - 1]) || LeavesReason(PerformAll(t, cs[..|cs| - 1]), cs[|cs| - 1]))
  }

  /** The reason the last failed cancellation left, or the one there was. A later failure can put an earlier reason back. */
  ghost function LastReason(t: Tracked, cs: seq<Command>): string
  {
    if cs == [] then t.body.cancellationReason
    else
      var before := PerformAll(t, cs[..|cs| - 1]);
      if LeavesReason(before, cs[|cs| - 1]) then ReasonLeft(before, cs[|cs| - 1]) else LastReason(t, cs[..|cs| - 1])
  }

  /** Something changed that no version tells of: history was captured, or a failed mutation left a binding, or left
      a cancellation reason other than the first. */
  ghost predicate ChangesSilently(t: Tracked, cs: seq<Command>)
  {
    !EverRaises(t, cs) && (EverCaptures(t, cs) || EverLeavesBinding(t, cs) || LastReason(t, cs) != t.body.cancellationReason)
  }

  lemma {:induction false} WorkExactly(t: Tracked, cs: seq<Command>)
    ensures var s := PerformAll(t, cs).body;
      && (s.version > t.body.version <==> EverRaises(t, cs)) && s.version >= t.body.version
      && |s.history| >= |t.body.history| && (|s.history| > |t.body.history| <==> EverCaptures(t, cs))
      && Extends(t.body, s)
      && (!EverRaises(t, cs) ==>
            && s == t.body.(history := s.history, evidence := s.evidence, policy := s.policy, cancellationReason := s.cancellationReason)
            && (!EverCaptures(t, cs) ==> s.history == t.body.history)
            && (Bindings(s) == Bindings(t.body) <==> !EverLeavesBinding(t, cs))
            && s.cancellationReason == LastReason(t, cs))
  {
    hide Perform, RaisesBy, CapturesBy, LeavesBinding, LeavesReason, ReasonLeft;
    if cs != [] {
      var n := |cs| - 1;
      var before := PerformAll(t, cs[..n]);
      WorkExactly(t, cs[..n]);
      CommandExactly(before, cs[n]);
      ExtendsAgain(t.body, before.body, Perform(before, cs[n]).body);
    }
  }

  /** Work changes an evaluation under an unchanged version exactly if it changes it silently. */
  lemma SilentExactly(t: Tracked, cs: seq<Command>)
    ensures var s := PerformAll(t, cs).body; s != t.body && s.version == t.body.version <==> ChangesSilently(t, cs)
  {
    hide PerformAll, EverRaises, EverCaptures, EverLeavesBinding, LastReason;
    WorkExactly(t, cs);
  }

  lemma {:induction false} WorkKeepsValid(t: Tracked, cs: seq<Command>)
    requires Valid(t.body)
    ensures Valid(PerformAll(t, cs).body) && PerformAll(t, cs).body.id == t.body.id
  {
    hide Valid, Apply, ApplyAtomic;
    if cs != [] {
      var n := |cs| - 1;
      WorkKeepsValid(t, cs[..n]);
      var before := PerformAll(t, cs[..n]);
      match cs[n] {
        case Do(op) =>
          ApplyKeepsValid(before.body, op);
          ApplyKeepsIdentity(before.body, op);
        case Atomically(at, mutation) =>
          AtomicKeepsValid(before, at, mutation);
          AtomicKeepsIdentity(before, at, mutation);
      }
    }
  }

  lemma AtomicKeepsIdentity(t: Tracked, at: Time, mutation: Mutation)
    ensures ApplyAtomic(t, at, mutation).0.body.id == t.body.id
  {
    hide Run, EntryOf, ValidEntry;
    RunKeepsIdentity(t, mutation.ops);
  }
}
