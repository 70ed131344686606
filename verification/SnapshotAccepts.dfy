/**
  Which snapshots an aggregate can be rebuilt from, on the fields they consist of.
 */
module SnapshotAccepts {
  import opened Prelude
  import opened Text
  import opened Evaluation
  import opened EvaluationAccepts
  import opened EvaluationSnapshot

  /** The instants that go with the phase; an ended evaluation says how it ended. */
  predicate TimedForPhase(s: Aggregate)
  {
    && (s.phase == Created ==> s.startedAt.None?)
    && (s.phase == Running || s.phase == Completed ==> s.startedAt.Some?)
    && (s.phase == Created || s.phase == Running ==> s.completedAt.None? && s.cancelledAt.None? && s.expiredAt.None?)
    && (s.phase == Completed ==> s.completedAt.Some? && s.verdict != Unknown)
    && (s.phase == Cancelled ==> s.cancelledAt.Some? && s.cancellationReason != "")
    && (s.phase == Expired ==> s.expiredAt.Some?)
  }

  ghost predicate BoundProperly(s: Aggregate)
  {
    && (s.evidence.Some? ==> WellFormedEvidence(s.evidence.value) && s.evidence.value.sessionID == s.sessionID)
    && (s.policy.Some? ==>
          var b := s.policy.value;
          && TrimSpace(b.policyID) != "" && TrimSpace(b.version) != "" && IsPolicyHash(TrimSpace(b.hash))
          && b.boundAt != 0 && s.createdAt <= b.boundAt)
  }

  ghost predicate Named(cs: seq<Checkpoint>)
  {
    && (forall i :: 0 <= i < |cs| ==> cs[i].name != "" && cs[i].createdAt != 0)
    && (forall i, j :: 0 <= i < j < |cs| ==> cs[i].name != cs[j].name)
  }

  ghost predicate Loadable(snapshot: Snapshot)
  {
    var s := snapshot.state;
    && s.id != 0 && s.sessionID != 0 && s.version != 0 && s.createdAt != 0 && !s.verdict.OtherVerdict? && TimedForPhase(s)
    && (forall i :: 0 <= i < |s.outcomes| ==> WellFormed(s.outcomes[i]))
    && (forall i :: 0 <= i < |s.history| ==>
          var h := s.history[i];
          h.evaluationID != 0 && h.sessionID != 0 && h.version != 0 && h.recordedAt != 0 && !h.verdict.OtherVerdict?)
    && BoundProperly(s) && Named(snapshot.checkpoints)
  }

  lemma PhaseExactly(s: Aggregate)
    ensures PhaseCoherent(s) <==> TimedForPhase(s)
  {
  }

  lemma BindingsExactly(s: Aggregate)
    ensures BindingsCoherent(s) <==> BoundProperly(s)
  {
    hide TrimSpace, IsPolicyHash, NormalizeEvidence, WellFormedEvidence;
    if s.evidence.Some? {
      EvidenceExactly(s.evidence.value);
    }
  }

  lemma StateExactly(s: Aggregate)
    ensures ValidateSnapshot(s) == None <==> Loadable(Snapshot(s, []))
  {
    hide NormalizeOutcome, WellFormed, PhaseCoherent, TimedForPhase, BindingsCoherent, BoundProperly;
    PhaseExactly(s);
    BindingsExactly(s);
    forall i | 0 <= i < |s.outcomes| ensures NormalizeOutcome(s.outcomes[i]).Ok? <==> WellFormed(s.outcomes[i]) {
      OutcomeExactly(s.outcomes[i]);
    }
  }

  lemma {:induction false} CheckpointsRestoredExactly(cs: seq<Checkpoint>)
    ensures RestoreCheckpoints(cs).Ok? <==> Named(cs)
    ensures RestoreCheckpoints(cs).Ok? ==> Restored(RestoreCheckpoints(cs).value, cs)
  {
    hide Restored;
    if cs == [] {
      NothingRestored();
    } else {
      var n := |cs| - 1;
      CheckpointsRestoredExactly(cs[..n]);
      assert forall i :: 0 <= i < n ==> cs[i] == cs[..n][i];
      if Named(cs) {
        RestoreDistinct(cs);
      } else if RestoreCheckpoints(cs).Ok? {
        RestoredNames(RestoreCheckpoints(cs[..n]).value, cs[..n], cs[n].name);
      }
    }
  }

  lemma RestoredNames(m: map<string, Checkpoint>, cs: seq<Checkpoint>, name: string)
    requires Restored(m, cs) && name !in m
    ensures forall i :: 0 <= i < |cs| ==> cs[i].name != name
  {
  }

  /** An aggregate is rebuilt exactly from a snapshot in order, and is then the snapshot's state with the listed
      checkpoints under their names. */
  lemma RehydratesExactly(snapshot: Snapshot)
    ensures Rehydrate(snapshot).Ok? <==> Loadable(snapshot)
    ensures Loadable(snapshot) ==>
      var s := Rehydrate(snapshot).value; s == snapshot.state.(checkpoints := s.checkpoints) && Restored(s.checkpoints, snapshot.checkpoints)
  {
    hide ValidateSnapshot, RestoreCheckpoints, Restored, Named, WellFormed, TimedForPhase, BoundProperly;
    StateExactly(snapshot.state);
    NothingNamed();
    CheckpointsRestoredExactly(snapshot.checkpoints);
  }

  lemma NothingNamed()
    ensures Named([])
  {
  }
}
