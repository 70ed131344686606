/**
  What the service does with a request, by the state it finds, and what its answers mean: over
  every interleaving a stored decision is the worst outcome of a plan carried out in full.
 */
module PdsDecisions {
  import opened Prelude
  import opened Text
  import opened Evaluation
  import opened EvaluationInvariant
  import opened EvaluationEvents
  import opened EvaluationReplay
  import opened EvaluationSnapshot
  import opened EvaluationDecision
  import opened EvaluationAccepts
  import opened EvaluationCoverage
  import opened Pds

  // Requests -------------------------------------------------------------------------------------------

  /** The time limit of the phase the evaluation is in has passed. */
  predicate Overdue(l: Limits, s: Aggregate, now: Time)
  {
    || (s.phase == Created && l.created > 0 && s.createdAt + l.created <= now)
    || (s.phase == Running && l.running > 0 && s.startedAt.Some? && s.startedAt.value + l.running <= now)
  }

  /** An evaluation is expired exactly if its limits make sense and the one of its phase has passed; one already expired
      is answered as it is, and before the deadline the request is refused as early. */
  lemma ExpiryExactly(id: Id, l: Limits, s: Aggregate, now: Time)
    ensures var served := Serve(ReqExpire(id, l), s, now); var sensible := l.created >= 0 && l.running >= 0;
      && (served == Perform(OpExpire(now)) <==> sensible && Overdue(l, s, now))
      && (served.Answer? <==> s.phase == Expired) && (served.Answer? ==> served.value == s) && (served.Perform? ==> served.op == OpExpire(now))
      && (served == GiveUp(NotTimedOut) <==>
            && sensible && !Overdue(l, s, now)
            && ((s.phase == Created && l.created > 0) || (s.phase == Running && l.running > 0 && s.startedAt.Some?)))
      && (s.phase == Completed || s.phase == Cancelled ==>
            served == GiveUp(if sensible && (l.created > 0 || l.running > 0) then Domain(InvalidStateTransition) else TimeoutPolicyInvalid))
  {
  }

  /** Outcomes are recorded exactly over qualified evidence and a bound policy, and only while there are none; a plan
      carried out in full is answered as it is, one carried out in part is refused. */
  lemma ExecutionExactly(id: Id, outcomes: seq<RuleOutcome>, s: Aggregate, now: Time)
    ensures var served := Serve(ReqExecute(id, outcomes), s, now);
      var ready := s.evidence.Some? && s.evidence.value.status == Qualified && s.policy.Some?;
      && (served == Perform(OpRecordBatch(outcomes, now)) <==> ready && s.outcomes == [])
      && (served.Perform? ==> served.op == OpRecordBatch(outcomes, now))
      && (served == Answer(s) <==> ready && s.outcomes != [] && Covered(s))
      && (served == GiveUp(PartialRuleOutcomes) <==> ready && s.outcomes != [] && !Covered(s))
      && (served == GiveUp(EvidenceBindingMissing) <==> s.evidence.None?)
      && (served == GiveUp(EvidenceNotQualified) <==> s.evidence.Some? && s.evidence.value.status != Qualified)
  {
    hide RequiredComplete, Covered;
    CoveredExactly(s);
  }

  /** A started evaluation is answered as it is, a completed one likewise; otherwise the request is the operation, with
      the verdict and reasons that the outcomes give. */
  lemma OthersExactly(q: Request, s: Aggregate, now: Time)
    requires !q.ReqCreate? && !q.ReqExpire? && !q.ReqExecute?
    ensures var served := Serve(q, s, now);
      && (served.Answer? <==> (q.ReqStart? && s.phase == Running) || (q.ReqComplete? && s.phase == Completed))
      && (served.Answer? ==> served.value == s)
      && (served.Perform? ==>
            match q
            case ReqStart(_) => served.op == OpStart(now)
            case ReqRecord(_, o) => served.op == OpRecord(o.(evaluatedAt := if o.evaluatedAt == 0 then now else o.evaluatedAt))
            case ReqBindEvidence(_, b) => served.op == OpBindEvidence(b)
            case ReqBindPolicy(_, b) => served.op == OpBindPolicy(b)
            case ReqComplete(_) =>
              && Covered(s) && s.outcomes != [] && NormalizeReasons(ReasonsOf(s.outcomes)).Ok?
              && served.op == OpComplete(Worst(s.outcomes), NormalizeReasons(ReasonsOf(s.outcomes)).value, now)
            case _ => false)
      && (served.GiveUp? ==> q.ReqComplete? && s.phase != Completed && served.error == Domain(DeriveResult(s).error))
  {
    hide RequiredComplete, Covered, NormalizeReasons, ReasonsOf, VerdictOf, Worst;
    CoveredExactly(s);
    VerdictIsWorst(s.outcomes);
  }

  // Decisions ------------------------------------------------------------------------------------------

  /** A completed evaluation carries the decision its outcomes give, over all of its plan. */
  ghost predicate Decided(s: Aggregate)
  {
    s.phase == Completed ==>
      Covered(s) && s.outcomes != [] && s.verdict == Worst(s.outcomes) && NormalizeReasons(ReasonsOf(s.outcomes)) == Ok(s.reasons)
  }

  ghost predicate AllDecided(sys: System)
  {
    && (forall id :: id in sys.store.evaluations ==> Decided(sys.store.evaluations[id]))
    && (forall c :: c in sys.clients && sys.clients[c].Saving? && sys.clients[c].base.None? ==> sys.clients[c].work.body.phase == Created)
  }

  lemma GrownIsCreated(t: Tracked, op: Op)
    requires t.body.phase == Created && (op.OpRegisterRule? || op.OpBindPolicy?) && Grown(t, Apply(t.body, op)).Ok?
    ensures Grown(t, Apply(t.body, op)).value.body.phase == Created
  {
    hide RegisterRule, BindPolicy;
    if op.OpRegisterRule? {
      RegistersExactly(t.body, op.rule, op.at);
    } else {
      BindsPolicyExactly(t.body, op.policy);
    }
  }

  lemma {:induction false} PlannedIsCreated(t: Tracked, rules: seq<string>, at: Time)
    requires t.body.phase == Created && Planned(t, rules, at).Ok?
    ensures Planned(t, rules, at).value.body.phase == Created
  {
    hide RegisterRule, Grown;
    if rules != [] {
      var n := |rules| - 1;
      PlannedIsCreated(t, rules[..n], at);
      GrownIsCreated(Planned(t, rules[..n], at).value, OpRegisterRule(rules[n], at));
    }
  }

  lemma CreateIsCreated(q: Request, now: Time)
    requires q.ReqCreate? && CreateWork(q, now).Ok?
    ensures CreateWork(q, now).value.body.phase == Created
  {
    hide Planned, Grown, BindPolicy;
    var pair := New(q.id, q.sessionID, now).value;
    var t := Tracked(pair.0, [pair.1]);
    PlannedIsCreated(t, q.rules, now);
    if q.policyBinding.Some? {
      GrownIsCreated(Planned(t, q.rules, now).value, OpBindPolicy(q.policyBinding.value));
    }
  }

  lemma ServedIsDecided(q: Request, s: Aggregate, now: Time)
    requires !q.ReqCreate? && Serve(q, s, now).Perform? && !s.phase.Terminal() && Apply(s, Serve(q, s, now).op).error.None?
    ensures Decided(Apply(s, Serve(q, s, now).op).next)
  {
    hide Serve, Covered, NormalizeReasons, ReasonsOf, Worst, CompleteAt;
    var op := Serve(q, s, now).op;
    if op.OpComplete? {
      CompletionIsServed(q, s, now);
      CompletesExactly(s, op.verdict, op.reasons, op.at);
      ReasonsStay(s);
      SameRules(s, Apply(s, op).next);
    } else {
      OthersDoNotComplete(s, op);
    }
  }

  lemma CompletionIsServed(q: Request, s: Aggregate, now: Time)
    requires !q.ReqCreate? && Serve(q, s, now).Perform? && Serve(q, s, now).op.OpComplete?
    ensures Covered(s) && s.outcomes != [] && NormalizeReasons(ReasonsOf(s.outcomes)).Ok?
    ensures Serve(q, s, now).op == OpComplete(Worst(s.outcomes), NormalizeReasons(ReasonsOf(s.outcomes)).value, now)
  {
    hide Covered, NormalizeReasons, ReasonsOf, Worst, DeriveResult, RequiredComplete, Deadline;
    if q.ReqComplete? {
      OthersExactly(q, s, now);
    }
  }

  /** Normalising the derived reasons again changes nothing. */
  lemma ReasonsStay(s: Aggregate)
    requires NormalizeReasons(ReasonsOf(s.outcomes)).Ok?
    ensures var reasons := NormalizeReasons(ReasonsOf(s.outcomes)).value; NormalizeReasons(reasons) == Ok(reasons)
  {
    hide NormalizeReasons, ReasonsOf;
    NormalizedReasonsAreNormal(ReasonsOf(s.outcomes));
    NormalizedReasonsAreNormal(NormalizeReasons(ReasonsOf(s.outcomes)).value);
  }

  lemma FinishIsDecided(sys: System, c: nat, now: Time)
    requires Inv(sys) && AllDecided(sys) && ClientOf(sys, c).Saving?
    ensures AllDecided(FinishStep(sys, c, now))
  {
    hide Inv, Decided, BuildRecords, Save;
    var k := ClientOf(sys, c);
    if BuildRecords(k.work.events, now).Ok? {
      var records := BuildRecords(k.work.events, now).value;
      if Save(sys.store, k.work.body, Expected(k.base), records).1.None? {
        AcceptedSave(sys, c, records);
        SavedIsDecided(sys, c);
      }
    }
  }

  lemma SavedIsDecided(sys: System, c: nat)
    requires Inv(sys) && AllDecided(sys) && ClientOf(sys, c).Saving?
    ensures Decided(ClientOf(sys, c).work.body)
  {
    hide Valid, Logged, Apply, Serve, StoreInv, AnswerInv, Covered, Worst;
    var k := ClientOf(sys, c);
    assert ClientInv(sys.store, k);
    if k.base.Some? {
      ServedIsDecided(k.q, k.base.value, k.now);
    }
  }

  lemma NextIsDecided(sys: System, step: Step)
    requires Inv(sys) && AllDecided(sys)
    ensures AllDecided(Next(sys, step))
  {
    hide Inv, Decided, FinishStep, CreateWork, Apply, Serve;
    match step
    case Begin(c, q, now) =>
      if q.ReqCreate? && CreateWork(q, now).Ok? {
        CreateIsCreated(q, now);
      }
    case Finish(c, now) =>
      if ClientOf(sys, c).Saving? {
        FinishIsDecided(sys, c, now);
      }
    case Reread(c) =>
  }

  lemma {:induction false} ExecutionIsDecided(steps: seq<Step>)
    ensures AllDecided(Execution(steps))
  {
    hide AllDecided, Inv, Next;
    if steps == [] {
      NothingToDecide();
    } else {
      var n := |steps| - 1;
      ExecutionIsDecided(steps[..n]);
      ExecutionKeepsInv(steps[..n]);
      NextIsDecided(Execution(steps[..n]), steps[n]);
    }
  }

  lemma NothingToDecide()
    ensures AllDecided(EMPTY)
  {
  }

  /** However clients interleave, a stored evaluation that is completed has an outcome for every rule of its plan, and
      its verdict and reasons are those the outcomes give. */
  lemma DecisionsAreDerived(steps: seq<Step>, id: Id)
    requires id in Execution(steps).store.evaluations && Execution(steps).store.evaluations[id].phase == Completed
    ensures var s := Execution(steps).store.evaluations[id];
      && (forall i :: 0 <= i < |s.required| ==> HasRule(s.outcomes, s.required[i]))
      && s.outcomes != [] && s.verdict == Worst(s.outcomes) && NormalizeReasons(ReasonsOf(s.outcomes)) == Ok(s.reasons)
  {
    hide Execution, Worst, NormalizeReasons, ReasonsOf, HasRule;
    ExecutionIsDecided(steps);
  }

  /** A reason of such a decision is one that some outcome gives, and every such reason is there. */
  lemma DecisionReasonsExactly(steps: seq<Step>, id: Id, code: string)
    requires id in Execution(steps).store.evaluations && Execution(steps).store.evaluations[id].phase == Completed
    ensures var s := Execution(steps).store.evaluations[id];
      code in s.reasons <==> exists i :: 0 <= i < |s.outcomes| && s.outcomes[i].status != Pass && code in s.outcomes[i].reasons
  {
    hide Execution, Worst, NormalizeReasons, ReasonsOf, Inv, Valid, HasRule;
    DecisionsAreDerived(steps, id);
    ExecutionKeepsInv(steps);
    StoredIsSound(Execution(steps), id);
    var s := Execution(steps).store.evaluations[id];
    StoredReasons(s, code);
  }

  lemma StoredReasons(s: Aggregate, code: string)
    requires Valid(s) && NormalizeReasons(ReasonsOf(s.outcomes)) == Ok(s.reasons)
    ensures code in s.reasons <==> exists i :: 0 <= i < |s.outcomes| && s.outcomes[i].status != Pass && code in s.outcomes[i].reasons
  {
    hide NormalizeReasons, ReasonsOf, GoodOutcome, IsCode, Canonical;
    ReasonsOfGood(s.outcomes, s.startedAt);
    CodesExactly(ReasonsOf(s.outcomes));
    AlreadyCanonical(ReasonsOf(s.outcomes), code);
    ReasonsAreCollected(s.outcomes, code);
    forall i | 0 <= i < |s.outcomes| ensures Counts(s.outcomes[i]) <==> s.outcomes[i].status != Pass {
      NormalOutcomeReasons(s.outcomes[i], s.startedAt);
    }
  }

  lemma AlreadyCanonical(codes: seq<string>, code: string)
    requires AllCodes(codes)
    ensures (exists i :: 0 <= i < |codes| && Canonical(codes[i]) == code) <==> code in codes
  {
    hide IsCode, Canonical;
    forall i | 0 <= i < |codes| ensures Canonical(codes[i]) == codes[i] {
      CodesAreCanonical(codes[i]);
    }
  }

  // Calls ----------------------------------------------------------------------------------------------

  /** An event can be put on record: it says whose it is, which one, and when. */
  predicate OnRecord(e: Event)
  {
    e.evaluationID != 0 && e.sessionID != 0 && e.version != 0 && OccurredAt(e.body) != 0
  }

  /** The records of a save are made exactly with a running clock and of events that can be put on record; each repeats
      its event. */
  lemma {:induction false} RecordsExactly(events: seq<Event>, now: Time)
    ensures BuildRecords(events, now).Ok? <==> events == [] || (now != 0 && forall i :: 0 <= i < |events| ==> OnRecord(events[i]))
    ensures BuildRecords(events, now).Ok? ==>
      var rs := BuildRecords(events, now).value;
      && |rs| == |events|
      && forall i :: 0 <= i < |rs| ==> EventOf(rs[i]) == events[i] && rs[i].createdAt == now && rs[i].occurredAt == OccurredAt(events[i].body)
  {
    hide OccurredAt;
    if events != [] {
      var n := |events| - 1;
      RecordsExactly(events[..n], now);
      assert forall i :: 0 <= i < n ==> events[i] == events[..n][i];
    }
  }

  lemma OneMore(steps: seq<Step>, step: Step)
    ensures Execution(steps + [step]) == Next(Execution(steps), step)
  {
    hide Next;
    assert (steps + [step])[..|steps|] == steps;
  }

  /** The call is served, and there is something to save. */
  ghost predicate Works(sys: System, q: Request, now: Time)
  {
    && !q.ReqCreate? && q.id in sys.store.evaluations
    && var served := Serve(q, sys.store.evaluations[q.id], now);
       served.Perform? && Apply(sys.store.evaluations[q.id], served.op).error.None?
  }

  /** A call that nothing comes between does what it is for: in any run its result is stored, recorded and answered. */
  lemma UndisturbedCall(steps: seq<Step>, c: nat, q: Request, now: Time, later: Time)
    requires ClientOf(Execution(steps), c).Idle? && Works(Execution(steps), q, now)
    requires var s := Execution(steps).store.evaluations[q.id]; BuildRecords(Apply(s, Serve(q, s, now).op).emitted, later).Ok?
    ensures var sys, done := Execution(steps), Execution(steps + [Begin(c, q, now)] + [Finish(c, later)]);
      var s := sys.store.evaluations[q.id]; var r := Apply(s, Serve(q, s, now).op);
      && done.store == Store(sys.store.evaluations[q.id := r.next], sys.store.outbox + BuildRecords(r.emitted, later).value)
      && done.answers == sys.answers + [Reported(q, Ok(r.next))] && ClientOf(done, c).Idle?
  {
    hide Execution, Serve, Apply, Inv, BuildRecords, Save;
    var sys := Execution(steps);
    var s := sys.store.evaluations[q.id];
    var r := Apply(s, Serve(q, s, now).op);
    var begun := Next(sys, Begin(c, q, now));
    OneMore(steps, Begin(c, q, now));
    OneMore(steps + [Begin(c, q, now)], Finish(c, later));
    ExecutionKeepsInv(steps + [Begin(c, q, now)]);
    assert ClientOf(begun, c) == Saving(q, Some(s), now, Tracked(r.next, r.emitted));
    SavedAtOnce(begun, c, BuildRecords(r.emitted, later).value);
  }

  /** As long as the stored version is the loaded one, the save goes through. */
  lemma SavedAtOnce(sys: System, c: nat, records: seq<Record>)
    requires Inv(sys) && ClientOf(sys, c).Saving? && ClientOf(sys, c).base.Some?
    requires var k := ClientOf(sys, c); k.q.id in sys.store.evaluations && sys.store.evaluations[k.q.id] == k.base.value
    ensures var k := ClientOf(sys, c);
      Save(sys.store, k.work.body, k.base.value.version, records) ==
        (Store(sys.store.evaluations[k.q.id := k.work.body], sys.store.outbox + records), None)
  {
    hide Valid, Logged, Apply, Serve, StoreInv, AnswerInv, Save, Numbered, Replays;
    var k := ClientOf(sys, c);
    assert ClientInv(sys.store, k);
    ServedExtends(k.q, k.base.value, k.now);
    NumberedKeepsId(k.base.value, Reply(k.work.body, k.work.events, None));
    ValidIsVersioned(k.base.value);
    SavedUnderVersion(sys.store, k.work.body, k.base.value.version, records);
  }

  /** A new evaluation is stored, recorded and answered likewise, if its identity is not taken. */
  lemma UndisturbedCreation(steps: seq<Step>, c: nat, q: Request, now: Time, later: Time)
    requires ClientOf(Execution(steps), c).Idle? && q.ReqCreate? && CreateWork(q, now).Ok? && q.id !in Execution(steps).store.evaluations
    requires BuildRecords(CreateWork(q, now).value.events, later).Ok?
    ensures var sys, done := Execution(steps), Execution(steps + [Begin(c, q, now)] + [Finish(c, later)]); var t := CreateWork(q, now).value;
      && done.store == Store(sys.store.evaluations[q.id := t.body], sys.store.outbox + BuildRecords(t.events, later).value)
      && done.answers == sys.answers + [Reported(q, Ok(t.body))]
  {
    hide Execution, CreateWork, Inv, BuildRecords, Save;
    var sys := Execution(steps);
    var t := CreateWork(q, now).value;
    OneMore(steps, Begin(c, q, now));
    OneMore(steps + [Begin(c, q, now)], Finish(c, later));
    assert ClientOf(Next(sys, Begin(c, q, now)), c) == Saving(q, None, now, t);
    CreatedAtOnce(sys.store, q, now, BuildRecords(t.events, later).value);
  }

  lemma CreatedAtOnce(st: Store, q: Request, now: Time, records: seq<Record>)
    requires q.ReqCreate? && CreateWork(q, now).Ok? && q.id !in st.evaluations
    ensures var t := CreateWork(q, now).value;
      Save(st, t.body, 0, records) == (Store(st.evaluations[q.id := t.body], st.outbox + records), None)
  {
    hide CreateWork, Valid, Logged, Rehydrate, TakeSnapshot;
    CreateIsSound(q, now);
    SnapshotRoundTrip(CreateWork(q, now).value.body);
  }

  /** A call that is not to save anything is answered at once and stores nothing. */
  lemma AnsweredAtOnce(sys: System, c: nat, q: Request, now: Time)
    requires ClientOf(sys, c).Idle? && !q.ReqCreate? && !Works(sys, q, now)
    ensures var next := Next(sys, Begin(c, q, now));
      && next.store == sys.store && ClientOf(next, c).Idle? && |next.answers| == |sys.answers| + 1
      && var a := next.answers[|sys.answers|];
         && next.answers[..|sys.answers|] == sys.answers && a.q == q
         && (q.id !in sys.store.evaluations ==> a.result == Err(NotFound))
         && (q.id in sys.store.evaluations ==>
               match Serve(q, sys.store.evaluations[q.id], now)
               case Answer(s) => a.result == Ok(s)
               case GiveUp(e) => a.result == Err(e)
               case Perform(op) => a.result == Err(Domain(Apply(sys.store.evaluations[q.id], op).error.value)))
  {
    hide Serve, Apply;
  }

  /** A call that lost its save looks again, and is content exactly with the phase it was after. */
  lemma ConflictsAreReread(sys: System, c: nat)
    requires ClientOf(sys, c).Rereading?
    ensures var next := Next(sys, Reread(c)); var q := ClientOf(sys, c).q;
      && next.store == sys.store && ClientOf(next, c).Idle?
      && next.answers == sys.answers + [Reported(q,
           if q.id in sys.store.evaluations && Some(sys.store.evaluations[q.id].phase) == Wanted(q)
           then Ok(sys.store.evaluations[q.id]) else Err(ConcurrentModification))]
  {
  }
}
