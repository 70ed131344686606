/**
  The persistence boundary: an aggregate is saved as a snapshot and rebuilt from it.
  Every reachable aggregate survives the round trip unchanged.
 */
module EvaluationSnapshot {
  import opened Prelude
  import opened Text
  import opened Sorting
  import opened Evaluation
  import opened EvaluationInvariant

  /** `state` carries every field but the checkpoints, which are listed in order of name. */
  datatype Snapshot = Snapshot(state: Aggregate, checkpoints: seq<Checkpoint>)

  ghost function TakeSnapshot(s: Aggregate): (r: Snapshot)
    ensures r.state.id == s.id && r.state.version == s.version
  {
    Snapshot(s.(checkpoints := map[]), Listing(s.checkpoints))
  }

  predicate PhaseCoherent(s: Aggregate)
  {
    match s.phase
    case Created => s.startedAt.None? && s.completedAt.None? && s.cancelledAt.None? && s.expiredAt.None?
    case Running => s.startedAt.Some? && s.completedAt.None? && s.cancelledAt.None? && s.expiredAt.None?
    case Completed => s.startedAt.Some? && s.completedAt.Some? && s.verdict != Unknown
    case Cancelled => s.cancelledAt.Some? && s.cancellationReason != ""
    case Expired => s.expiredAt.Some?
  }

  predicate BindingsCoherent(s: Aggregate)
  {
    && (s.evidence.Some? ==>
          NormalizeEvidence(s.evidence.value).Ok? && NormalizeEvidence(s.evidence.value).value.sessionID == s.sessionID)
    && (s.policy.Some? ==>
          NormalizePolicy(s.policy.value).Ok? && s.createdAt <= NormalizePolicy(s.policy.value).value.boundAt)
  }

  function ValidateSnapshot(s: Aggregate): Option<Error>
  {
    if s.id == 0 || s.sessionID == 0 then Some(InvalidSnapshot)
    else if s.version == 0 then Some(SnapshotVersionRequired)
    else if s.createdAt == 0 || !ValidVerdict(s.verdict) || !PhaseCoherent(s) then Some(InvalidSnapshot)
    else if exists i :: 0 <= i < |s.outcomes| && NormalizeOutcome(s.outcomes[i]).Err? then Some(InvalidSnapshot)
    else if exists i :: 0 <= i < |s.history| && !ValidEntry(s.history[i]) then Some(InvalidSnapshot)
    else if !BindingsCoherent(s) then Some(InvalidSnapshot)
    else None
  }

  /** Checkpoints go back into a map; a blank name, an unset time or a repeated name is refused. */
  function RestoreCheckpoints(cs: seq<Checkpoint>): Result<map<string, Checkpoint>, Error>
  {
    if cs == [] then Ok(map[])
    else
      var n := |cs| - 1;
      match RestoreCheckpoints(cs[..n])
      case Err(e) => Err(e)
      case Ok(m) =>
        if cs[n].name == "" || cs[n].createdAt == 0 || cs[n].name in m then Err(InvalidSnapshot) else Ok(m[cs[n].name := cs[n]])
  }

  function Rehydrate(snapshot: Snapshot): Result<Aggregate, Error>
  {
    match ValidateSnapshot(snapshot.state)
    case Some(e) => Err(e)
    case None =>
      match RestoreCheckpoints(snapshot.checkpoints)
      case Err(e) => Err(e)
      case Ok(m) => Ok(snapshot.state.(checkpoints := m))
  }

  // Round trip ---------------------------------------------------------------------

  /** The map holds the listed checkpoints under their names, and nothing else. */
  ghost predicate Restored(m: map<string, Checkpoint>, cs: seq<Checkpoint>)
  {
    && (forall name :: name in m ==> m[name].name == name && m[name] in cs)
    && (forall i :: 0 <= i < |cs| ==> cs[i].name in m && m[cs[i].name] == cs[i])
  }

  lemma RestoreOneMore(m: map<string, Checkpoint>, front: seq<Checkpoint>, c: Checkpoint)
    requires Restored(m, front) && forall i :: 0 <= i < |front| ==> front[i].name != c.name
    ensures c.name !in m && Restored(m[c.name := c], front + [c])
  {
    forall name | name in m ensures name != c.name && m[name] in front + [c] {
      var i :| 0 <= i < |front| && front[i] == m[name];
      assert (front + [c])[i] == m[name];
    }
    assert (front + [c])[|front|] == c;
  }

  lemma {:induction false} RestoreDistinct(cs: seq<Checkpoint>)
    requires forall i :: 0 <= i < |cs| ==> cs[i].name != "" && cs[i].createdAt != 0
    requires forall i, j :: 0 <= i < j < |cs| ==> cs[i].name != cs[j].name
    ensures RestoreCheckpoints(cs).Ok? && Restored(RestoreCheckpoints(cs).value, cs)
  {
    hide Restored;
    if cs == [] {
      NothingRestored();
    } else {
      var n := |cs| - 1;
      RestoreDistinct(cs[..n]);
      RestoreOneMore(RestoreCheckpoints(cs[..n]).value, cs[..n], cs[n]);
      assert cs == cs[..n] + [cs[n]];
    }
  }

  lemma NothingRestored()
    ensures Restored(map[], [])
  {
  }

  lemma ListedNamesDiffer(m: map<string, Checkpoint>)
    requires forall name :: name in m ==> m[name].name == name
    ensures forall i, j :: 0 <= i < j < |Listing(m)| ==> Listing(m)[i].name != Listing(m)[j].name
  {
    hide Keys, Listing, Before;
    var l, keys := Listing(m), Keys(m.Keys);
    BeforeIsAnOrder();
    forall i, j | 0 <= i < j < |l| ensures l[i].name != l[j].name {
      assert Before(keys[i], keys[j]);
    }
  }

  lemma RestoreListed(m: map<string, Checkpoint>)
    requires forall name :: name in m ==> m[name].name == name && name != "" && m[name].createdAt != 0
    ensures RestoreCheckpoints(Listing(m)) == Ok(m)
  {
    hide RestoreCheckpoints, Listing, Keys;
    var l := Listing(m);
    ListedNamesDiffer(m);
    RestoreDistinct(l);
    RestoredIsListed(m, RestoreCheckpoints(l).value);
  }

  lemma RestoredIsListed(m: map<string, Checkpoint>, r: map<string, Checkpoint>)
    requires (forall name :: name in m ==> m[name].name == name) && Restored(r, Listing(m))
    ensures r == m
  {
    hide Listing, Keys;
    var l := Listing(m);
    forall name | name in m ensures name in r && r[name] == m[name] {
      ListingMembers(m, name);
      var i :| 0 <= i < |l| && l[i] == m[name];
    }
    forall name | name in r ensures name in m {
      var i :| 0 <= i < |l| && l[i] == r[name];
    }
  }

  lemma ValidSnapshotsPass(s: Aggregate)
    requires Valid(s)
    ensures ValidateSnapshot(s.(checkpoints := map[])) == None
  {
    hide NormalizeEvidence, NormalizePolicy, NormalizeOutcome, NormalReasons, GoodPlan, GoodCheckpoints, ValidEntry;
    forall i | 0 <= i < |s.outcomes| ensures NormalizeOutcome(s.outcomes[i]).Ok? {
      assert GoodOutcome(s.outcomes[i], s.startedAt);
    }
    forall i | 0 <= i < |s.history| ensures ValidEntry(s.history[i]) {
      assert GoodEntry(s.history[i], s);
    }
  }

  /** Saving and rebuilding gives the aggregate back, and never fails. */
  lemma SnapshotRoundTrip(s: Aggregate)
    requires Valid(s)
    ensures Rehydrate(TakeSnapshot(s)) == Ok(s)
  {
    hide ValidateSnapshot, GoodOutcomes, RestoreCheckpoints, Listing;
    ValidSnapshotsPass(s);
    var m := s.checkpoints;
    forall name | name in m ensures m[name].name == name && name != "" && m[name].createdAt != 0 {
      assert GoodCheckpoint(m[name], name, s.startedAt);
    }
    RestoreListed(m);
  }
}
