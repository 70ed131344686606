/**
  The assignment, the repository, the transfer service and the safety machine as the
  objects they are. Each method is proved to do what the functions of Responsibility.dfy
  and Safety.dfy say, on every path.
 */
module HandoverObjects {
  import opened Prelude
  import opened Text
  import opened Responsibility
  import opened Safety
  import R = Responsibility
  import S = Safety

  class Assignment {
    var objectID: string
    var participantID: string
    var version: Version
    var assignedAt: Time
    var pending: Option<Transferred>

    ghost predicate Is(s: Snapshot)
      reads this
    {
      objectID == s.objectID && participantID == s.participantID && version == s.version && assignedAt == s.assignedAt
    }

    constructor (s: Snapshot)
      ensures Is(s) && pending.None?
    {
      objectID, participantID, version, assignedAt, pending := s.objectID, s.participantID, s.version, s.assignedAt, None;
    }

    static method New(objectID: string, participantID: string, at: Time) returns (r: Result<Assignment, Error>)
      ensures r.Err? ==> Validate(Snapshot(objectID, participantID, 1, at)) == Some(r.error)
      ensures r.Ok? ==> Validate(Snapshot(objectID, participantID, 1, at)) == None
      ensures r.Ok? ==> fresh(r.value) && r.value.Is(Snapshot(objectID, participantID, 1, at)) && r.value.pending.None?
    {
      r := Rehydrate(Snapshot(objectID, participantID, 1, at));
    }

    static method Rehydrate(s: Snapshot) returns (r: Result<Assignment, Error>)
      ensures r.Err? ==> Validate(s) == Some(r.error)
      ensures r.Ok? ==> Validate(s) == None && fresh(r.value) && r.value.Is(s) && r.value.pending.None?
    {
      var refused := Validate(s);
      if refused.Some? {
        return Err(refused.value);
      }
      var a := new Assignment(s);
      return Ok(a);
    }

    function Current(): (s: Snapshot)
      reads this
      ensures Is(s)
    {
      Snapshot(objectID, participantID, version, assignedAt)
    }

    /** On failure the assignment and its pending event stay as they were. */
    method Transfer(to: string, at: Time) returns (err: Option<Error>)
      modifies this
      ensures match R.Transfer(old(Current()), to, at)
        case Err(e) => err == Some(e) && Current() == old(Current()) && pending == old(pending)
        case Ok(pair) => err == None && Current() == pair.0 && pending == Some(pair.1)
    {
      if !ValidName(to) {
        return Some(ParticipantIDRequired);
      }
      if to == participantID {
        return Some(SameParticipant);
      }
      if at == 0 || at <= assignedAt {
        return Some(TransferTime);
      }
      var next := Successor(version);
      var event := Transferred(objectID, participantID, to, at, next);
      participantID, assignedAt, version, pending := to, at, next, Some(event);
      return None;
    }

    method ClearPendingEvents()
      modifies this
      ensures pending.None? && Current() == old(Current())
    {
      pending := None;
    }
  }

  class MemoryRepository {
    var snapshots: map<string, Snapshot>
    var transfers: map<(string, Version), Transferred>

    function View(): Repository
      reads this
    {
      Repository(snapshots, transfers)
    }

    constructor ()
      ensures View() == R.EMPTY
    {
      snapshots, transfers := map[], map[];
    }

    method CommitTransfer(s: Snapshot, expected: Version, event: Transferred) returns (err: Option<Error>)
      modifies this
      ensures (View(), err) == Commit(old(View()), s, expected, event)
    {
      err := CheckCommit(s, expected, event);
      if err.Some? {
        return;
      }
      if s.objectID !in snapshots {
        return Some(ConcurrentModification);
      }
      var current := snapshots[s.objectID];
      if current.version != expected || current.participantID != event.from || s.assignedAt <= current.assignedAt {
        return Some(ConcurrentModification);
      }
      var key := (s.objectID, s.version);
      if key in transfers {
        return Some(ConcurrentModification);
      }
      snapshots := snapshots[s.objectID := s];
      transfers := transfers[key := event.(at := s.assignedAt)];
    }

    method SaveResponsibility(s: Snapshot, expected: Version) returns (err: Option<Error>)
      modifies this
      ensures (View(), err) == Save(old(View()), s, expected)
    {
      err := CheckVersion(s, expected);
      if err.Some? {
        return;
      }
      if expected == 0 {
        if s.objectID in snapshots {
          return Some(ConcurrentModification);
        }
      } else {
        if s.objectID !in snapshots {
          return Some(ConcurrentModification);
        }
        var current := snapshots[s.objectID];
        if current.version != expected || current.participantID == s.participantID || s.assignedAt <= current.assignedAt {
          return Some(ConcurrentModification);
        }
      }
      snapshots := snapshots[s.objectID := s];
    }

    method FindResponsibility(id: string) returns (r: Result<Assignment, Error>)
      ensures r.Ok? <==> Find(View(), id).Ok?
      ensures r.Ok? ==> fresh(r.value) && r.value.Current() == Find(View(), id).value && r.value.pending.None?
      ensures r.Err? ==> r.error == Find(View(), id).error
    {
      if !ValidName(id) {
        return Err(ObjectIDRequired);
      }
      if id !in snapshots {
        return Err(NotFound);
      }
      r := Assignment.Rehydrate(snapshots[id]);
    }

    method FindTransfer(id: string, version: Version) returns (r: Result<Transferred, Error>)
      ensures r == R.FindTransfer(View(), id, version)
    {
      if !ValidName(id) {
        return Err(ObjectIDRequired);
      }
      if (id, version) !in transfers {
        return Err(TransferNotFound);
      }
      return Ok(transfers[(id, version)]);
    }
  }

  class Service {
    const repository: MemoryRepository

    constructor (r: MemoryRepository)
      ensures repository == r
    {
      repository := r;
    }

    /** The transfer is refused unless the stored assignment is the expected one. */
    method TransferExpected(expected: Snapshot, to: string, at: Time) returns (r: Result<Snapshot, Error>)
      modifies repository
      ensures match PrepareExpected(old(repository.View()), expected, to, at)
        case Err(e) => r == Err(e) && repository.View() == old(repository.View())
        case Ok(p) =>
          var (next, err) := Commit(old(repository.View()), p.next, p.expected, p.event);
          repository.View() == next && r == if err.Some? then Err(err.value) else Ok(p.next)
    {
      hide Commit, Validate, ValidName;
      var refused := Validate(expected);
      if refused.Some? {
        return Err(refused.value);
      }
      var found := repository.FindResponsibility(expected.objectID);
      if found.Err? {
        return Err(found.error);
      }
      var assignment := found.value;
      if assignment.Current() != expected {
        return Err(ConcurrentModification);
      }
      var version := assignment.version;
      var err := assignment.Transfer(to, at);
      if err.Some? {
        return Err(err.value);
      }
      err := repository.CommitTransfer(assignment.Current(), version, assignment.pending.value);
      if err.Some? {
        return Err(err.value);
      }
      r := Ok(assignment.Current());
      assignment.ClearPendingEvents();
    }
  }

  class SafetyMachine {
    var state: State
    var reason: Reason
    var responsibility: Snapshot
    var proposed: string
    var verifiedPermit: Option<Permit>

    function View(): Machine
      reads this
    {
      Machine(state, reason, responsibility, proposed, verifiedPermit)
    }

    constructor (s: Snapshot)
      requires Validate(s).None?
      ensures S.NewMachine(s) == Ok(View()) && Coherent(View())
    {
      state, reason, responsibility, proposed, verifiedPermit := Idle, NoReason, s, "", None;
    }

    static method NewMachine(s: Snapshot) returns (r: Result<SafetyMachine, Error>)
      ensures r.Err? ==> S.NewMachine(s) == Err(r.error)
      ensures r.Ok? ==> fresh(r.value) && S.NewMachine(s) == Ok(r.value.View()) && Coherent(r.value.View())
    {
      var refused := Validate(s);
      if refused.Some? {
        return Err(refused.value);
      }
      var m := new SafetyMachine(s);
      return Ok(m);
    }

    method EnterHalt(why: Reason)
      modifies this
      ensures View() == S.EnterHalt(old(View()), why)
    {
      proposed, verifiedPermit, state, reason := "", None, Halted, why;
    }

    method Propose(to: string) returns (err: Option<SafetyError>)
      modifies this
      ensures (View(), err) == S.Propose(old(View()), to)
      ensures old(Coherent(View())) ==> Coherent(View())
    {
      ghost var before := View();
      if Coherent(before) { ActKeepsCoherent(before, ActPropose(to)); }
      if state != Idle && state != Committed {
        return Some(BadTransition);
      }
      if !ValidName(to) || to == responsibility.participantID {
        state, reason := Rejected, InvalidTransition;
        return Some(BadTransition);
      }
      verifiedPermit := None;
      proposed, state, reason := to, Proposed, NoReason;
      return None;
    }

    method Verify(p: Permit, now: Time) returns (err: Option<SafetyError>)
      modifies this
      ensures (View(), err) == S.Verify(old(View()), p, now)
      ensures err.None? <==> old(state) == Proposed && Permits(p, old(responsibility), old(proposed), now)
      ensures old(Coherent(View())) ==> Coherent(View())
    {
      hide CheckPermit, Permits, ValidName, Validate;
      ghost var before := View();
      VerifyExactly(before, p, now);
      if Coherent(before) { ActKeepsCoherent(before, ActVerify(p, now)); }
      if state != Proposed {
        return Some(BadTransition);
      }
      var why := CheckPermit(View(), p, now, proposed);
      if why != NoReason {
        EnterHalt(why);
        return Some(InvalidPermit);
      }
      verifiedPermit, state, reason := Some(p), Verified, NoReason;
      return None;
    }

    method Commit(service: Service?, at: Time) returns (r: Result<Snapshot, SafetyError>)
      modifies this, if service == null then {} else {service.repository}
      ensures service == null ==>
        if old(state) != Verified then View() == old(View()) && r == Err(BadTransition)
        else View() == S.EnterHalt(old(View()), CommitFailed) && r == Err(ServiceRequired)
      ensures service != null ==>
        (service.repository.View(), View(), r) == CommitNow(old(service.repository.View()), old(View()), at)
    {
      hide R.Commit, Prepare, Validate, ValidName;
      if state != Verified {
        return Err(BadTransition);
      }
      if service == null {
        EnterHalt(CommitFailed);
        return Err(ServiceRequired);
      }
      var updated := service.TransferExpected(responsibility, proposed, at);
      if updated.Err? {
        EnterHalt(if updated.error == ConcurrentModification then ConcurrentChange else CommitFailed);
        return Err(Handover(updated.error));
      }
      responsibility, proposed, verifiedPermit, state, reason := updated.value, "", None, Committed, NoReason;
      return Ok(updated.value);
    }

    method Halt(why: Reason)
      modifies this
      ensures View() == S.Halt(old(View()), why)
    {
      EnterHalt(if why == NoReason then ManualHalt else why);
    }

    method Recover(p: Permit, now: Time) returns (err: Option<SafetyError>)
      modifies this
      ensures (View(), err) == S.Recover(old(View()), p, now)
      ensures err.None? <==> old(state) == Halted && Permits(p, old(responsibility), old(responsibility).participantID, now)
      ensures old(Coherent(View())) ==> Coherent(View())
    {
      hide CheckPermit, Permits, ValidName, Validate;
      ghost var before := View();
      RecoverExactly(before, p, now);
      if Coherent(before) { ActKeepsCoherent(before, ActRecover(p, now)); }
      if state != Halted {
        return Some(BadTransition);
      }
      var why := CheckPermit(View(), p, now, responsibility.participantID);
      if why != NoReason {
        reason := why;
        return Some(InvalidPermit);
      }
      proposed, verifiedPermit, state, reason := "", None, Idle, NoReason;
      return None;
    }

    method AuthorizeMotion(q: Motion, now: Time) returns (d: Decision)
      modifies this
      ensures (View(), d) == S.AuthorizeMotion(old(View()), q, now)
      ensures old(Coherent(View())) ==>
        (d.allowed <==>
           && old(state) == Verified && q.commandID != "" && Trimmed(q.commandID) && q.sequence != 0
           && q.objectID == old(responsibility).objectID && q.responsible == old(responsibility).participantID && q.target == old(proposed)
           && now != 0 && old(verifiedPermit).value.evaluatedAt <= now <= old(verifiedPermit).value.validUntil)
    {
      hide CheckPermit, Permits, ValidName, Validate, Bound;
      ghost var before := View();
      MotionExactly(before, q, now);
      if Coherent(before) && before.permit.Some? { CoherentPermits(before, now); }
      d := Blocked(View(), state, MotionStateBlocked);
      if state != Verified || verifiedPermit.None? {
        return;
      }
      if !Bound(View(), q) {
        EnterHalt(AuthorizationBinding);
        d := d.(state := Halted, reason := AuthorizationBinding);
        return;
      }
      var p := verifiedPermit.value;
      var why := CheckPermit(View(), p, now, proposed);
      if why != NoReason {
        EnterHalt(why);
        d := d.(state := Halted, reason := why);
        return;
      }
      d := Decision(true, NoReason, Verified, q.commandID, q.sequence, q.objectID, q.responsible, q.target,
                    p.policyID, p.policyVersion, p.evidenceVersion, p.validUntil);
    }
  }
}
