/**
  The safety machine that stands between a permit and a handover. It keeps its own copy
  of the assignment it was built for; leaving the protocol in any way ends in HALT.
 */
module Safety {
  import opened Prelude
  import opened Text
  import opened Responsibility

  datatype State = Idle | Proposed | Verified | Committed | Rejected | Halted

  datatype Reason =
    | NoReason | InvalidTransition | InvalidEvidence | EvidenceExpired | AuthorizationBinding | ConcurrentChange
    | CommitFailed | ManualHalt | MotionStateBlocked | Given(text: string)

  datatype SafetyError = BadTransition | InvalidPermit | ServiceRequired | Handover(error: Error)

  datatype Permit = Permit(
    objectID: string, from: string, to: string,
    policyID: string, policyVersion: string, evidenceVersion: string,
    evaluatedAt: Time, validUntil: Time, admissible: bool)

  /** `held` is the assignment the machine believes current; a permit is kept only while VERIFIED. */
  datatype Machine = Machine(state: State, reason: Reason, held: Snapshot, proposed: string, permit: Option<Permit>)

  function NewMachine(s: Snapshot): Result<Machine, Error>
  {
    if Validate(s).Some? then Err(Validate(s).value) else Ok(Machine(Idle, NoReason, s, "", None))
  }

  function CheckPermit(m: Machine, p: Permit, now: Time, to: string): Reason
  {
    if || now == 0 || !p.admissible || TrimSpace(p.policyID) == "" || TrimSpace(p.policyVersion) == ""
       || TrimSpace(p.evidenceVersion) == "" || p.evaluatedAt == 0 || p.validUntil == 0 then InvalidEvidence
    else if p.objectID != m.held.objectID || p.from != m.held.participantID || p.to != to then AuthorizationBinding
    else if p.evaluatedAt > now || now > p.validUntil || p.validUntil < p.evaluatedAt then EvidenceExpired
    else NoReason
  }

  function EnterHalt(m: Machine, reason: Reason): Machine
  {
    Machine(Halted, reason, m.held, "", None)
  }

  function Propose(m: Machine, to: string): (Machine, Option<SafetyError>)
  {
    if m.state != Idle && m.state != Committed then (m, Some(BadTransition))
    else if !ValidName(to) || to == m.held.participantID then
      (m.(state := Rejected, reason := InvalidTransition), Some(BadTransition))
    else (Machine(Proposed, NoReason, m.held, to, None), None)
  }

  function Verify(m: Machine, p: Permit, now: Time): (Machine, Option<SafetyError>)
  {
    if m.state != Proposed then (m, Some(BadTransition))
    else if CheckPermit(m, p, now, m.proposed) != NoReason then
      (EnterHalt(m, CheckPermit(m, p, now, m.proposed)), Some(InvalidPermit))
    else (m.(state := Verified, reason := NoReason, permit := Some(p)), None)
  }

  function Halt(m: Machine, reason: Reason): Machine
  {
    EnterHalt(m, if reason == NoReason then ManualHalt else reason)
  }

  function Recover(m: Machine, p: Permit, now: Time): (Machine, Option<SafetyError>)
  {
    if m.state != Halted then (m, Some(BadTransition))
    else
      var reason := CheckPermit(m, p, now, m.held.participantID);
      if reason != NoReason then (m.(reason := reason), Some(InvalidPermit))
      else (Machine(Idle, NoReason, m.held, "", None), None)
  }

  // Motion ---------------------------------------------------------------------------------

  datatype Motion = Motion(commandID: string, sequence: nat, objectID: string, responsible: string, target: string)

  datatype Decision = Decision(
    allowed: bool, reason: Reason, state: State, commandID: string, sequence: nat,
    objectID: string, responsible: string, target: string,
    policyID: string, policyVersion: string, evidenceVersion: string, validUntil: Time)

  predicate Bound(m: Machine, q: Motion)
  {
    && TrimSpace(q.commandID) != "" && q.commandID == TrimSpace(q.commandID) && q.sequence != 0
    && q.objectID == m.held.objectID && q.responsible == m.held.participantID && q.target == m.proposed
  }

  function Blocked(m: Machine, state: State, reason: Reason): Decision
  {
    Decision(false, reason, state, "", 0, m.held.objectID, m.held.participantID, m.proposed, "", "", "", 0)
  }

  function AuthorizeMotion(m: Machine, q: Motion, now: Time): (Machine, Decision)
  {
    if m.state != Verified || m.permit.None? then (m, Blocked(m, m.state, MotionStateBlocked))
    else if !Bound(m, q) then (EnterHalt(m, AuthorizationBinding), Blocked(m, Halted, AuthorizationBinding))
    else
      var p := m.permit.value;
      var reason := CheckPermit(m, p, now, m.proposed);
      if reason != NoReason then (EnterHalt(m, reason), Blocked(m, Halted, reason))
      else
        (m, Decision(true, NoReason, Verified, q.commandID, q.sequence, q.objectID, q.responsible, q.target,
                     p.policyID, p.policyVersion, p.evidenceVersion, p.validUntil))
  }

  // Committing --------------------------------------------------------------------------------

  /** A handover prepared on what was loaded, about to be committed. */
  datatype Pending = Pending(next: Snapshot, expected: Version, event: Transferred)

  function Prepare(loaded: Snapshot, to: string, at: Time): Result<Pending, Error>
  {
    match Transfer(loaded, to, at)
    case Err(e) => Err(e)
    case Ok(pair) => Ok(Pending(pair.0, loaded.version, pair.1))
  }

  /** Load, compare with what the machine holds, and prepare the handover. */
  function PrepareExpected(repo: Repository, held: Snapshot, to: string, at: Time): Result<Pending, Error>
  {
    if Validate(held).Some? then Err(Validate(held).value)
    else
      match Find(repo, held.objectID)
      case Err(e) => Err(e)
      case Ok(loaded) => if loaded != held then Err(ConcurrentModification) else Prepare(loaded, to, at)
  }

  function Failed(m: Machine, e: Error): Machine
  {
    EnterHalt(m, if e == ConcurrentModification then ConcurrentChange else CommitFailed)
  }

  function Succeeded(next: Snapshot): Machine
  {
    Machine(Committed, NoReason, next, "", None)
  }

  /** The whole commit as one call: nothing happens between loading and storing. */
  function CommitNow(repo: Repository, m: Machine, at: Time): (Repository, Machine, Result<Snapshot, SafetyError>)
  {
    if m.state != Verified then (repo, m, Err(BadTransition))
    else
      match PrepareExpected(repo, m.held, m.proposed, at)
      case Err(e) => (repo, Failed(m, e), Err(Handover(e)))
      case Ok(p) =>
        var (next, err) := Commit(repo, p.next, p.expected, p.event);
        if err.Some? then (next, Failed(m, err.value), Err(Handover(err.value)))
        else (next, Succeeded(p.next), Ok(p.next))
  }

  // What every machine keeps ------------------------------------------------------------------------

  /** The permit was accepted for exactly this object, these participants, and some moment of its validity. */
  predicate Authorizes(p: Permit, m: Machine)
  {
    && p.admissible && TrimSpace(p.policyID) != "" && TrimSpace(p.policyVersion) != "" && TrimSpace(p.evidenceVersion) != ""
    && p.evaluatedAt != 0 && p.validUntil != 0 && p.evaluatedAt <= p.validUntil
    && p.objectID == m.held.objectID && p.from == m.held.participantID && p.to == m.proposed
  }

  predicate Coherent(m: Machine)
  {
    && Validate(m.held) == None
    && (m.state == Verified <==> m.permit.Some?)
    && (m.permit.Some? ==> Authorizes(m.permit.value, m))
    && (if m.state == Proposed || m.state == Verified then ValidName(m.proposed) && m.proposed != m.held.participantID else m.proposed == "")
  }

  datatype Action =
    | ActPropose(to: string) | ActVerify(p: Permit, now: Time) | ActHalt(reason: Reason)
    | ActRecover(p: Permit, now: Time) | ActMotion(q: Motion, now: Time)

  function Act(m: Machine, a: Action): Machine
  {
    match a
    case ActPropose(to) => Propose(m, to).0
    case ActVerify(p, now) => Verify(m, p, now).0
    case ActHalt(reason) => Halt(m, reason)
    case ActRecover(p, now) => Recover(m, p, now).0
    case ActMotion(q, now) => AuthorizeMotion(m, q, now).0
  }

  /** Every action keeps the machine coherent and none replaces the assignment it holds. */
  lemma ActKeepsCoherent(m: Machine, a: Action)
    requires Coherent(m)
    ensures Coherent(Act(m, a)) && Act(m, a).held == m.held
  {
    hide ValidName, Validate, TrimSpace;
  }

  lemma TrimsNothing(s: string)
    ensures s == TrimSpace(s) <==> Trimmed(s)
  {
    hide TrimLeft, TrimRight;
  }

  /** Halting always ends in HALT, holding what was held, with the given reason or the manual one. */
  lemma HaltExactly(m: Machine, reason: Reason)
    ensures var next := Halt(m, reason);
      && next.state == Halted && next.held == m.held && next.proposed == "" && next.permit.None?
      && next.reason != NoReason && (reason != NoReason ==> next.reason == reason) && (reason == NoReason ==> next.reason == ManualHalt)
  {
  }

  // When a permit is accepted ------------------------------------------------------------------------

  /** The permit speaks for handing the held object from its holder to `to`, at this moment. */
  predicate Permits(p: Permit, held: Snapshot, to: string, now: Time)
  {
    && p.admissible && p.objectID == held.objectID && p.from == held.participantID && p.to == to
    && TrimSpace(p.policyID) != "" && TrimSpace(p.policyVersion) != "" && TrimSpace(p.evidenceVersion) != ""
    && p.evaluatedAt != 0 && p.validUntil != 0 && now != 0 && p.evaluatedAt <= now <= p.validUntil
  }

  lemma CheckedExactly(m: Machine, p: Permit, now: Time, to: string)
    ensures CheckPermit(m, p, now, to) == NoReason <==> Permits(p, m.held, to, now)
  {
    hide TrimSpace;
  }

  /** Motion is allowed exactly when the machine is VERIFIED, the request is numbered, cleanly named, names the
      machine's object and both participants, and the permit is in force. What is allowed repeats the request and the
      permit. A refusal allows nothing: it leaves a VERIFIED machine halted without a permit, and any other machine as it
      was. */
  lemma MotionExactly(m: Machine, q: Motion, now: Time)
    ensures var (next, d) := AuthorizeMotion(m, q, now);
      && (d.allowed <==>
            && m.state == Verified && m.permit.Some? && q.commandID != "" && Trimmed(q.commandID) && q.sequence != 0
            && q.objectID == m.held.objectID && q.responsible == m.held.participantID && q.target == m.proposed
            && Permits(m.permit.value, m.held, m.proposed, now))
      && (d.allowed ==>
            && next == m
            && var p := m.permit.value;
               d == Decision(true, NoReason, Verified, q.commandID, q.sequence, p.objectID, p.from, p.to,
                             p.policyID, p.policyVersion, p.evidenceVersion, p.validUntil))
      && (!d.allowed ==> d == Decision(false, d.reason, next.state, "", 0, m.held.objectID, m.held.participantID, m.proposed, "", "", "", 0))
      && (!d.allowed && m.state == Verified && m.permit.Some? ==> next == Machine(Halted, d.reason, m.held, "", None) && d.reason != NoReason)
      && (!d.allowed && !(m.state == Verified && m.permit.Some?) ==> next == m && d.reason == MotionStateBlocked)
  {
    hide CheckPermit, TrimLeft, TrimRight;
    TrimsNothing(q.commandID);
    if m.permit.Some? {
      CheckedExactly(m, m.permit.value, now, m.proposed);
    }
  }

  /** Of a coherent machine all but the moment is settled at verification. */
  lemma CoherentPermits(m: Machine, now: Time)
    requires Coherent(m) && m.permit.Some?
    ensures Permits(m.permit.value, m.held, m.proposed, now) <==> now != 0 && m.permit.value.evaluatedAt <= now <= m.permit.value.validUntil
  {
    hide TrimSpace;
  }

  /** A handover is prepared exactly from the stored assignment, if it is the held one, to another well-named
      participant at a later time. */
  lemma PreparesExactly(repo: Repository, held: Snapshot, to: string, at: Time)
    ensures var r := PrepareExpected(repo, held, to, at);
      && (r.Ok? <==>
            && Validate(held) == None && held.objectID in repo.snapshots && repo.snapshots[held.objectID] == held
            && ValidName(to) && to != held.participantID && at != 0 && held.assignedAt < at)
      && (Validate(held).Some? ==> r == Err(Validate(held).value))
      && (Validate(held) == None && held.objectID in repo.snapshots && Validate(repo.snapshots[held.objectID]) == None ==>
            (r == Err(ConcurrentModification) <==> repo.snapshots[held.objectID] != held))
      && (r.Ok? ==> r.value.expected == held.version && r.value.next.participantID == to && r.value.next.assignedAt == at
                    && r.value.next.objectID == held.objectID && r.value.event.from == held.participantID)
  {
    hide ValidName;
  }

  /** A PROPOSED machine is verified exactly by a permit in force for the held object, its holder and the proposed
      participant, and keeps that permit; any other permit halts it, and what is held and proposed is not touched by
      verification in any other state. */
  lemma VerifyExactly(m: Machine, p: Permit, now: Time)
    ensures var (next, err) := Verify(m, p, now);
      && (err.None? <==> m.state == Proposed && Permits(p, m.held, m.proposed, now))
      && (err.None? ==> next == Machine(Verified, NoReason, m.held, m.proposed, Some(p)))
      && (err.Some? && m.state == Proposed ==>
            err == Some(InvalidPermit) && next.state == Halted && next.held == m.held && next.proposed == "" && next.permit.None?)
      && (m.state != Proposed ==> err == Some(BadTransition) && next == m)
  {
    hide CheckPermit, Permits;
    CheckedExactly(m, p, now, m.proposed);
  }

  /** A machine in HALT recovers exactly by a permit in force that leaves the held object with its holder; otherwise
      nothing changes but, in HALT, the reason given. */
  lemma RecoverExactly(m: Machine, p: Permit, now: Time)
    ensures var (next, err) := Recover(m, p, now);
      && (err.None? <==> m.state == Halted && Permits(p, m.held, m.held.participantID, now))
      && (err.None? ==> next == Machine(Idle, NoReason, m.held, "", None))
      && (err.Some? ==> next == m.(reason := next.reason) && (err == Some(InvalidPermit) <==> m.state == Halted))
      && (m.state != Halted ==> err == Some(BadTransition) && next == m)
  {
    hide CheckPermit, Permits;
    CheckedExactly(m, p, now, m.held.participantID);
  }

  /** Which of the three reasons a refused permit is given, by what is wrong with it. */
  lemma ReasonsExactly(m: Machine, p: Permit, now: Time, to: string)
    ensures var reason := CheckPermit(m, p, now, to);
      var evident := now != 0 && p.admissible && TrimSpace(p.policyID) != "" && TrimSpace(p.policyVersion) != ""
        && TrimSpace(p.evidenceVersion) != "" && p.evaluatedAt != 0 && p.validUntil != 0;
      var meant := p.objectID == m.held.objectID && p.from == m.held.participantID && p.to == to;
      && (reason == InvalidEvidence <==> !evident)
      && (reason == AuthorizationBinding <==> evident && !meant)
      && (reason == EvidenceExpired <==> evident && meant && !(p.evaluatedAt <= now <= p.validUntil))
  {
    hide TrimSpace;
  }

  /** A proposal is taken exactly from IDLE or COMMITTED, for another, well-named participant. */
  lemma ProposeExactly(m: Machine, to: string)
    ensures var (next, err) := Propose(m, to);
      && (err.None? <==> (m.state == Idle || m.state == Committed) && ValidName(to) && to != m.held.participantID)
      && (err.None? ==> next == Machine(Proposed, NoReason, m.held, to, None))
      && (err.Some? ==>
            && err == Some(BadTransition) && next.held == m.held && next.proposed == m.proposed && next.permit == m.permit
            && next.state == (if m.state == Idle || m.state == Committed then Rejected else m.state))
  {
    hide ValidName;
  }

  /** Of all actions, only recovery leads out of HALT, only verification into VERIFIED, and only a proposal into
      PROPOSED; each with what it takes. */
  lemma EnteredExactly(m: Machine, a: Action)
    ensures m.state == Halted ==>
      (Act(m, a).state != Halted <==> a.ActRecover? && Permits(a.p, m.held, m.held.participantID, a.now))
    ensures m.state != Verified ==>
      (Act(m, a).state == Verified <==> a.ActVerify? && m.state == Proposed && Permits(a.p, m.held, m.proposed, a.now))
    ensures m.state != Proposed ==>
      (Act(m, a).state == Proposed <==>
         a.ActPropose? && (m.state == Idle || m.state == Committed) && ValidName(a.to) && a.to != m.held.participantID)
  {
    hide ValidName, Permits, Bound, CheckPermit, Propose, Verify, Recover;
    match a
    case ActPropose(to) => ProposeExactly(m, to);
    case ActVerify(p, now) => VerifyExactly(m, p, now);
    case ActRecover(p, now) => RecoverExactly(m, p, now);
    case _ =>
  }
}
