/**
  The decision service over its store, as an interleaved system. A call loads an
  evaluation, changes its own copy and saves it under the version it loaded; the store
  accepts a save only if that version is still the stored one. Any number of clients
  interleave; loading, saving and the re-reading after a conflict are separate steps.
 */
module Pds {
  import opened Prelude
  import opened Evaluation
  import opened EvaluationInvariant
  import opened EvaluationReplay
  import opened EvaluationEvents
  import opened EvaluationDecision
  import opened EvaluationSnapshot
  import opened EvaluationAtomic
  import opened EvaluationMixed

  // The store -------------------------------------------------------------------------

  datatype Record = Record(aggregateID: Id, sessionID: Id, version: nat, body: EventBody, occurredAt: Time, createdAt: Time)

  datatype ServiceError =
    | NotFound | ConcurrentModification | OutboxEventRequired | OutboxTimestampRequired | Domain(error: Error)
    | TimeoutPolicyInvalid | NotTimedOut | EvidenceBindingMissing | EvidenceNotQualified | PolicyBindingMissing | PartialRuleOutcomes

  function EventOf(r: Record): Event
  {
    Event(r.aggregateID, r.sessionID, r.version, r.body)
  }

  function BuildRecord(e: Event, now: Time): Result<Record, ServiceError>
  {
    if now == 0 then Err(OutboxTimestampRequired)
    else if e.evaluationID == 0 || e.sessionID == 0 || e.version == 0 then Err(OutboxEventRequired)
    else if OccurredAt(e.body) == 0 then Err(OutboxTimestampRequired)
    else Ok(Record(e.evaluationID, e.sessionID, e.version, e.body, OccurredAt(e.body), now))
  }

  function BuildRecords(events: seq<Event>, now: Time): Result<seq<Record>, ServiceError>
  {
    if events == [] then Ok([])
    else
      var n := |events| - 1;
      match BuildRecords(events[..n], now)
      case Err(e) => Err(e)
      case Ok(front) =>
        match BuildRecord(events[n], now)
        case Err(e) => Err(e)
        case Ok(last) => Ok(front + [last])
  }

  datatype Store = Store(evaluations: map<Id, Aggregate>, outbox: seq<Record>)

  /** Compare-and-set on the version, then the snapshot and the outbox records together. What is kept is the
      aggregate rebuilt from the snapshot handed in. */
  function SaveSnapshot(st: Store, snapshot: Snapshot, expected: nat, records: seq<Record>): (Store, Option<ServiceError>)
  {
    var id := snapshot.state.id;
    if expected == 0 && id in st.evaluations then (st, Some(ConcurrentModification))
    else if expected > 0 && (id !in st.evaluations || st.evaluations[id].version != expected) then (st, Some(ConcurrentModification))
    else
      match Rehydrate(snapshot)
      case Err(e) => (st, Some(Domain(e)))
      case Ok(kept) => (Store(st.evaluations[id := kept], st.outbox + records), None)
  }

  ghost function Save(st: Store, s: Aggregate, expected: nat, records: seq<Record>): (Store, Option<ServiceError>)
  {
    SaveSnapshot(st, TakeSnapshot(s), expected, records)
  }

  // Requests --------------------------------------------------------------------------

  datatype Limits = Limits(created: int, running: int)

  datatype Request =
    | ReqCreate(id: Id, sessionID: Id, rules: seq<string>, policyBinding: Option<PolicyBinding>)
    | ReqStart(id: Id)
    | ReqRecord(id: Id, outcome: RuleOutcome)
    | ReqBindEvidence(id: Id, binding: EvidenceBinding)
    | ReqBindPolicy(id: Id, policy: PolicyBinding)
    | ReqExecute(id: Id, outcomes: seq<RuleOutcome>)
    | ReqComplete(id: Id)
    | ReqExpire(id: Id, limits: Limits)

  function Deadline(l: Limits, s: Aggregate): Result<Time, ServiceError>
  {
    if l.created < 0 || l.running < 0 || (l.created == 0 && l.running == 0) then Err(TimeoutPolicyInvalid)
    else if s.phase == Created then
      if l.created == 0 then Err(TimeoutPolicyInvalid) else Ok(s.createdAt + l.created)
    else if s.phase == Running then
      if l.running == 0 || s.startedAt.None? then Err(TimeoutPolicyInvalid) else Ok(s.startedAt.value + l.running)
    else Err(Domain(InvalidStateTransition))
  }

  /** What a call makes of the evaluation it loaded: answer at once, give up, or change its copy. */
  datatype Served = Answer(value: Aggregate) | GiveUp(error: ServiceError) | Perform(op: Op)

  function Serve(q: Request, s: Aggregate, now: Time): Served
    requires !q.ReqCreate?
  {
    match q
    case ReqStart(_) => if s.phase == Running then Answer(s) else Perform(OpStart(now))
    case ReqRecord(_, o) => Perform(OpRecord(if o.evaluatedAt == 0 then o.(evaluatedAt := now) else o))
    case ReqBindEvidence(_, b) => Perform(OpBindEvidence(b))
    case ReqBindPolicy(_, b) => Perform(OpBindPolicy(b))
    case ReqExecute(_, outcomes) =>
      if s.evidence.None? then GiveUp(EvidenceBindingMissing)
      else if s.evidence.value.status != Qualified then GiveUp(EvidenceNotQualified)
      else if s.policy.None? then GiveUp(PolicyBindingMissing)
      else if s.outcomes != [] then
        if RequiredComplete(s) then Answer(s) else GiveUp(PartialRuleOutcomes)
      else Perform(OpRecordBatch(outcomes, now))
    case ReqComplete(_) =>
      if s.phase == Completed then Answer(s)
      else (match DeriveResult(s)
            case Err(e) => GiveUp(Domain(e))
            case Ok(derived) => Perform(OpComplete(derived.0, derived.1, now)))
    case ReqExpire(_, limits) =>
      if s.phase == Expired then Answer(s)
      else (match Deadline(limits, s)
            case Err(e) => GiveUp(e)
            case Ok(deadline) => if now < deadline then GiveUp(NotTimedOut) else Perform(OpExpire(now)))
  }

  /** Registering the plan of a new evaluation, stopping at the first error. */
  function Planned(t: Tracked, rules: seq<string>, at: Time): Result<Tracked, Error>
  {
    if rules == [] then Ok(t)
    else
      var n := |rules| - 1;
      match Planned(t, rules[..n], at)
      case Err(e) => Err(e)
      case Ok(u) => Grown(u, RegisterRule(u.body, rules[n], at))
  }

  function Grown(t: Tracked, r: Reply): Result<Tracked, Error>
  {
    if r.error.Some? then Err(r.error.value) else Ok(Tracked(r.next, t.events + r.emitted))
  }

  function CreateWork(q: Request, now: Time): Result<Tracked, Error>
    requires q.ReqCreate?
  {
    match New(q.id, q.sessionID, now)
    case Err(e) => Err(e)
    case Ok(pair) =>
      match Planned(Tracked(pair.0, [pair.1]), q.rules, now)
      case Err(e) => Err(e)
      case Ok(t) => if q.policyBinding.None? then Ok(t) else Grown(t, BindPolicy(t.body, q.policyBinding.value))
  }

  // The system ------------------------------------------------------------------------

  /** A client between its load and its save, or between a lost save and its second look. */
  datatype Client =
    | Idle
    | Saving(q: Request, base: Option<Aggregate>, now: Time, work: Tracked)
    | Rereading(q: Request)

  datatype Reported = Reported(q: Request, result: Result<Aggregate, ServiceError>)

  datatype System = System(store: Store, clients: map<nat, Client>, answers: seq<Reported>)

  datatype Step = Begin(c: nat, q: Request, now: Time) | Finish(c: nat, now: Time) | Reread(c: nat)

  function ClientOf(sys: System, c: nat): Client
  {
    if c in sys.clients then sys.clients[c] else Idle
  }

  function Respond(sys: System, c: nat, q: Request, result: Result<Aggregate, ServiceError>): System
  {
    sys.(clients := sys.clients[c := Idle], answers := sys.answers + [Reported(q, result)])
  }

  function Expected(base: Option<Aggregate>): nat
  {
    match base case None => 0 case Some(b) => b.version
  }

  /** The phase a retried call is content to find. */
  function Wanted(q: Request): Option<Phase>
  {
    match q
    case ReqStart(_) => Some(Running)
    case ReqComplete(_) => Some(Completed)
    case ReqExpire(_, _) => Some(Expired)
    case _ => None
  }

  ghost function BeginStep(sys: System, c: nat, q: Request, now: Time): System
  {
    if q.ReqCreate? then
      match CreateWork(q, now)
      case Err(e) => Respond(sys, c, q, Err(Domain(e)))
      case Ok(t) => sys.(clients := sys.clients[c := Saving(q, None, now, t)])
    else if q.id !in sys.store.evaluations then Respond(sys, c, q, Err(NotFound))
    else
      var s := sys.store.evaluations[q.id];
      match Serve(q, s, now)
      case Answer(a) => Respond(sys, c, q, Ok(a))
      case GiveUp(e) => Respond(sys, c, q, Err(e))
      case Perform(op) =>
        var r := Apply(s, op);
        if r.error.Some? then Respond(sys, c, q, Err(Domain(r.error.value)))
        else sys.(clients := sys.clients[c := Saving(q, Some(s), now, Tracked(r.next, r.emitted))])
  }

  ghost function FinishStep(sys: System, c: nat, now: Time): System
    requires ClientOf(sys, c).Saving?
  {
    var Saving(q, base, _, work) := ClientOf(sys, c);
    match BuildRecords(work.events, now)
    case Err(e) => Respond(sys, c, q, Err(e))
    case Ok(records) =>
      var (store, err) := Save(sys.store, work.body, Expected(base), records);
      if err.None? then Respond(sys.(store := store), c, q, Ok(work.body))
      else if err.value == ConcurrentModification && Wanted(q).Some? then sys.(clients := sys.clients[c := Rereading(q)])
      else Respond(sys, c, q, Err(err.value))
  }

  function RereadStep(sys: System, c: nat): System
    requires ClientOf(sys, c).Rereading?
  {
    var q := ClientOf(sys, c).q;
    if q.id in sys.store.evaluations && Some(sys.store.evaluations[q.id].phase) == Wanted(q)
    then Respond(sys, c, q, Ok(sys.store.evaluations[q.id]))
    else Respond(sys, c, q, Err(ConcurrentModification))
  }

  /** A step of a client that is elsewhere in its call does nothing. */
  ghost function Next(sys: System, step: Step): System
  {
    match step
    case Begin(c, q, now) => if ClientOf(sys, c).Idle? then BeginStep(sys, c, q, now) else sys
    case Finish(c, now) => if ClientOf(sys, c).Saving? then FinishStep(sys, c, now) else sys
    case Reread(c) => if ClientOf(sys, c).Rereading? then RereadStep(sys, c) else sys
  }

  const EMPTY := System(Store(map[], []), map[], [])

  ghost function Execution(steps: seq<Step>): System
  {
    if steps == [] then EMPTY else Next(Execution(steps[..|steps| - 1]), steps[|steps| - 1])
  }

  // What holds in every reachable state ---------------------------------------------------

  /** The outbox records of one evaluation, in order, as events. */
  function EventsFor(outbox: seq<Record>, id: Id): seq<Event>
  {
    if outbox == [] then []
    else
      var n := |outbox| - 1;
      EventsFor(outbox[..n], id) + if outbox[n].aggregateID == id then [EventOf(outbox[n])] else []
  }

  /** `events` is the complete log of `s`: it rebuilds it, is numbered 1, 2, ... without gap or repeat, and
      holds an ending event only as its last one, exactly when `s` has ended. */
  ghost predicate Logged(s: Aggregate, events: seq<Event>)
  {
    && Replay(None, events) == Some(Redacted(s))
    && |events| == s.version
    && (forall k :: 0 <= k < |events| ==> events[k].version == k + 1 && Stamped(events[k], s))
    && (forall k :: 0 <= k < |events| && Ends(events[k].body) ==> k == |events| - 1)
    && (s.phase.Terminal() <==> events != [] && Ends(events[|events| - 1].body))
  }

  ghost predicate StoreInv(st: Store)
  {
    && (forall id :: id in st.evaluations ==>
          Valid(st.evaluations[id]) && st.evaluations[id].id == id && Logged(st.evaluations[id], EventsFor(st.outbox, id)))
    && (forall id :: id !in st.evaluations ==> EventsFor(st.outbox, id) == [])
  }

  /** A copy on its way back: either a new evaluation, or the served request applied to what was loaded. As
      long as the stored version is the loaded one, the stored evaluation is the loaded one. */
  ghost predicate ClientInv(st: Store, c: Client)
  {
    c.Saving? ==>
      match c.base
      case None => c.q.ReqCreate? && Valid(c.work.body) && c.work.body.id == c.q.id && Logged(c.work.body, c.work.events)
      case Some(b) =>
        && !c.q.ReqCreate? && Valid(b) && !b.phase.Terminal() && b.id == c.q.id
        && Serve(c.q, b, c.now).Perform?
        && Apply(b, Serve(c.q, b, c.now).op) == Reply(c.work.body, c.work.events, None)
        && c.q.id in st.evaluations && b.version <= st.evaluations[c.q.id].version
        && (b.version == st.evaluations[c.q.id].version ==> st.evaluations[c.q.id] == b)
  }

  /** Whoever was told an evaluation is completed or expired was told what is stored, for good. */
  ghost predicate AnswerInv(st: Store, a: Reported)
  {
    a.result.Ok? && (a.q.ReqComplete? || a.q.ReqExpire?) ==>
      && a.q.id in st.evaluations && st.evaluations[a.q.id] == a.result.value
      && Some(a.result.value.phase) == Wanted(a.q)
  }

  ghost predicate Inv(sys: System)
  {
    && StoreInv(sys.store)
    && (forall c :: c in sys.clients ==> ClientInv(sys.store, sys.clients[c]))
    && (forall i :: 0 <= i < |sys.answers| ==> AnswerInv(sys.store, sys.answers[i]))
  }

  // Logs grow ----------------------------------------------------------------------------------

  lemma LoggedExtends(s: Aggregate, events: seq<Event>, r: Reply)
    requires Logged(s, events) && !s.phase.Terminal() && Numbered(s, r.emitted, r.next) && Replays(s, r)
    ensures Logged(r.next, events + r.emitted)
  {
    hide Replay, Redacted, OccurredAt, Ends;
    ReplayConcat(None, events, r.emitted);
    assert forall k :: 0 <= k < |r.emitted| ==> Stamped(r.emitted[k], s);
  }

  lemma {:induction false} EventsForConcat(xs: seq<Record>, ys: seq<Record>, id: Id)
    ensures EventsFor(xs + ys, id) == EventsFor(xs, id) + EventsFor(ys, id)
  {
    if ys == [] {
      assert xs + ys == xs;
    } else {
      var n := |ys| - 1;
      EventsForConcat(xs, ys[..n], id);
      assert (xs + ys)[..|xs| + n] == xs + ys[..n];
    }
  }

  lemma {:induction false} RecordsCarryEvents(events: seq<Event>, now: Time, owner: Id, id: Id)
    requires BuildRecords(events, now).Ok?
    requires forall k :: 0 <= k < |events| ==> events[k].evaluationID == owner
    ensures EventsFor(BuildRecords(events, now).value, id) == if id == owner then events else []
  {
    hide BuildRecord;
    if events != [] {
      var n := |events| - 1;
      RecordsCarryEvents(events[..n], now, owner, id);
      var front, last := BuildRecords(events[..n], now).value, BuildRecord(events[n], now).value;
      EventsForConcat(front, [last], id);
      OneRecord(events[n], now, id);
      assert events == events[..n] + [events[n]];
    }
  }

  lemma OneRecord(e: Event, now: Time, id: Id)
    requires BuildRecord(e, now).Ok?
    ensures EventsFor([BuildRecord(e, now).value], id) == if id == e.evaluationID then [e] else []
  {
    var r := BuildRecord(e, now).value;
    assert [r][..0] == [];
  }

  /** The service never captures history nor cancels, and gets nowhere with an evaluation that has ended. */
  lemma ServiceOps(q: Request, s: Aggregate, now: Time)
    requires !q.ReqCreate? && Serve(q, s, now).Perform? && Apply(s, Serve(q, s, now).op).error.None?
    ensures !s.phase.Terminal()
    ensures !Serve(q, s, now).op.OpRecordHistory? && Clocked(Serve(q, s, now).op)
  {
    hide DeriveResult, Deadline, RequiredComplete, NormalizeOutcome, Batch, NormalizeEvidence, NormalizePolicy, NormalizeReasons;
  }

  /** What a served request adds to a complete log. */
  lemma ServedExtends(q: Request, s: Aggregate, now: Time)
    requires !q.ReqCreate? && Serve(q, s, now).Perform? && Apply(s, Serve(q, s, now).op).error.None? && Valid(s)
    ensures var r := Apply(s, Serve(q, s, now).op);
      !s.phase.Terminal() && Valid(r.next) && Numbered(s, r.emitted, r.next) && Replays(s, r)
  {
    hide Valid, Apply, Serve, Numbered, Replays;
    ServiceOps(q, s, now);
    var op := Serve(q, s, now).op;
    ApplyKeepsValid(s, op);
    ApplyNumbered(s, op);
    ApplyReplays(s, op);
  }

  ghost predicate Sound(t: Tracked)
  {
    Valid(t.body) && Logged(t.body, t.events) && !t.body.phase.Terminal()
  }

  lemma GrownIsSound(t: Tracked, op: Op)
    requires Sound(t) && (op.OpRegisterRule? || op.OpBindPolicy?)
    ensures Grown(t, Apply(t.body, op)).Ok? ==> Sound(Grown(t, Apply(t.body, op)).value) && Grown(t, Apply(t.body, op)).value.body.id == t.body.id
  {
    hide Valid, Logged, Replays, Numbered;
    ApplyKeepsValid(t.body, op);
    ApplyNumbered(t.body, op);
    ApplyReplays(t.body, op);
    LoggedExtends(t.body, t.events, Apply(t.body, op));
    NumberedKeepsId(t.body, Apply(t.body, op));
  }

  lemma NumberedKeepsId(s: Aggregate, r: Reply)
    requires Numbered(s, r.emitted, r.next)
    ensures r.next.sessionID == s.sessionID
    ensures r.next.id == s.id && r.next.version == s.version + |r.emitted| && (r.emitted == [] ==> r.next == s)
    ensures forall k :: 0 <= k < |r.emitted| ==> r.emitted[k].evaluationID == s.id
  {
    assert forall k :: 0 <= k < |r.emitted| ==> Stamped(r.emitted[k], s);
  }

  lemma {:induction false} PlannedIsSound(t: Tracked, rules: seq<string>, at: Time)
    requires Sound(t)
    ensures Planned(t, rules, at).Ok? ==> Sound(Planned(t, rules, at).value) && Planned(t, rules, at).value.body.id == t.body.id
  {
    hide Sound, RegisterRule, Grown;
    if rules != [] {
      var n := |rules| - 1;
      PlannedIsSound(t, rules[..n], at);
      if Planned(t, rules[..n], at).Ok? {
        var u := Planned(t, rules[..n], at).value;
        GrownIsSound(u, OpRegisterRule(rules[n], at));
        assert Apply(u.body, OpRegisterRule(rules[n], at)) == RegisterRule(u.body, rules[n], at);
      }
    }
  }

  lemma CreateIsSound(q: Request, now: Time)
    requires q.ReqCreate? && CreateWork(q, now).Ok?
    ensures Sound(CreateWork(q, now).value) && CreateWork(q, now).value.body.id == q.id
  {
    hide Sound, Planned, Grown, BindPolicy;
    var pair := New(q.id, q.sessionID, now).value;
    var t := Tracked(pair.0, [pair.1]);
    NewIsSound(q.id, q.sessionID, now);
    PlannedIsSound(t, q.rules, now);
    var u := Planned(t, q.rules, now).value;
    if q.policyBinding.Some? {
      GrownIsSound(u, OpBindPolicy(q.policyBinding.value));
      assert Apply(u.body, OpBindPolicy(q.policyBinding.value)) == BindPolicy(u.body, q.policyBinding.value);
    }
  }

  lemma NewIsSound(id: Id, sessionID: Id, at: Time)
    requires New(id, sessionID, at).Ok?
    ensures Sound(Tracked(New(id, sessionID, at).value.0, [New(id, sessionID, at).value.1]))
  {
    NewIsValid(id, sessionID, at);
    var events := [New(id, sessionID, at).value.1];
    assert events[..0] == [];
    assert RedactedHistory([]) == [];
  }

  // Steps keep the invariant ----------------------------------------------------------------

  lemma RespondKeepsInv(sys: System, c: nat, q: Request, result: Result<Aggregate, ServiceError>)
    requires Inv(sys) && AnswerInv(sys.store, Reported(q, result))
    ensures Inv(Respond(sys, c, q, result))
  {
    hide StoreInv, AnswerInv;
    var next := Respond(sys, c, q, result);
    forall i | 0 <= i < |next.answers| ensures AnswerInv(next.store, next.answers[i]) {
      if i < |sys.answers| {
        assert AnswerInv(sys.store, sys.answers[i]);
      }
    }
  }

  lemma SetClientKeepsInv(sys: System, c: nat, client: Client)
    requires Inv(sys) && ClientInv(sys.store, client)
    ensures Inv(sys.(clients := sys.clients[c := client]))
  {
    hide StoreInv, AnswerInv, ClientInv;
  }

  lemma BeginKeepsInv(sys: System, c: nat, q: Request, now: Time)
    requires Inv(sys) && ClientOf(sys, c).Idle?
    ensures Inv(BeginStep(sys, c, q, now))
  {
    hide Inv, Apply, Valid, Logged, CreateWork, Deadline, DeriveResult, RequiredComplete;
    if q.ReqCreate? {
      if CreateWork(q, now).Ok? {
        var t := CreateWork(q, now).value;
        CreateIsSound(q, now);
        SetClientKeepsInv(sys, c, Saving(q, None, now, t));
      } else {
        RespondKeepsInv(sys, c, q, Err(Domain(CreateWork(q, now).error)));
      }
    } else if q.id !in sys.store.evaluations {
      RespondKeepsInv(sys, c, q, Err(NotFound));
    } else {
      var s := sys.store.evaluations[q.id];
      StoredIsSound(sys, q.id);
      match Serve(q, s, now)
      case Answer(a) => RespondKeepsInv(sys, c, q, Ok(a));
      case GiveUp(e) => RespondKeepsInv(sys, c, q, Err(e));
      case Perform(op) =>
        var r := Apply(s, op);
        if r.error.Some? {
          RespondKeepsInv(sys, c, q, Err(Domain(r.error.value)));
        } else {
          ServiceOps(q, s, now);
          SetClientKeepsInv(sys, c, Saving(q, Some(s), now, Tracked(r.next, r.emitted)));
        }
    }
  }

  lemma StoredIsSound(sys: System, id: Id)
    requires Inv(sys) && id in sys.store.evaluations
    ensures Valid(sys.store.evaluations[id]) && sys.store.evaluations[id].id == id
    ensures Logged(sys.store.evaluations[id], EventsFor(sys.store.outbox, id))
  {
  }

  /** A save that is accepted writes the loaded copy's successor over exactly that copy. */
  lemma AcceptedSave(sys: System, c: nat, records: seq<Record>)
    requires Inv(sys) && ClientOf(sys, c).Saving?
    requires var k := ClientOf(sys, c); Save(sys.store, k.work.body, Expected(k.base), records).1.None?
    ensures var k := ClientOf(sys, c);
      && Save(sys.store, k.work.body, Expected(k.base), records).0 ==
           Store(sys.store.evaluations[k.q.id := k.work.body], sys.store.outbox + records)
      && (k.base.None? ==> k.q.id !in sys.store.evaluations)
      && (k.base.Some? ==> k.q.id in sys.store.evaluations && sys.store.evaluations[k.q.id] == k.base.value)
      && k.work.body.id == k.q.id && Valid(k.work.body)
  {
    hide Valid, Logged, Rehydrate, TakeSnapshot, Apply, Serve, StoreInv, AnswerInv, Numbered, Replays;
    var k := ClientOf(sys, c);
    assert ClientInv(sys.store, k);
    if k.base.Some? {
      ServedExtends(k.q, k.base.value, k.now);
      NumberedKeepsId(k.base.value, Reply(k.work.body, k.work.events, None));
      ValidIsVersioned(k.base.value);
    }
    SnapshotRoundTrip(k.work.body);
  }

  lemma ValidIsVersioned(s: Aggregate)
    requires Valid(s)
    ensures s.version > 0
  {
  }

  lemma SaveKeepsStoreInv(sys: System, c: nat, now: Time)
    requires Inv(sys) && ClientOf(sys, c).Saving? && BuildRecords(ClientOf(sys, c).work.events, now).Ok?
    requires var k := ClientOf(sys, c);
      Save(sys.store, k.work.body, Expected(k.base), BuildRecords(k.work.events, now).value).1.None?
    ensures var k := ClientOf(sys, c);
      StoreInv(Save(sys.store, k.work.body, Expected(k.base), BuildRecords(k.work.events, now).value).0)
  {
    hide Valid, Logged, Apply, Serve, AnswerInv, Save, Numbered, Replays, BuildRecords;
    var k := ClientOf(sys, c);
    var records := BuildRecords(k.work.events, now).value;
    AcceptedSave(sys, c, records);
    SavedLog(sys, c);
    var before, after := sys.store, Save(sys.store, k.work.body, Expected(k.base), records).0;
    forall id ensures EventsFor(after.outbox, id) == EventsFor(before.outbox, id) + if id == k.q.id then k.work.events else [] {
      EventsForConcat(before.outbox, records, id);
      RecordsCarryEvents(k.work.events, now, k.q.id, id);
    }
    forall id | id in after.evaluations
      ensures Valid(after.evaluations[id]) && after.evaluations[id].id == id && Logged(after.evaluations[id], EventsFor(after.outbox, id))
    {
      if id != k.q.id {
        StoredIsSound(sys, id);
        assert EventsFor(before.outbox, id) + [] == EventsFor(before.outbox, id);
      }
    }
  }

  /** The log the store will hold, before it is known to be stored. */
  lemma SavedLog(sys: System, c: nat)
    requires Inv(sys) && ClientOf(sys, c).Saving?
    requires var k := ClientOf(sys, c);
      if k.base.None? then k.q.id !in sys.store.evaluations
      else k.q.id in sys.store.evaluations && sys.store.evaluations[k.q.id] == k.base.value
    ensures var k := ClientOf(sys, c);
      && Logged(k.work.body, EventsFor(sys.store.outbox, k.q.id) + k.work.events)
      && forall j :: 0 <= j < |k.work.events| ==> k.work.events[j].evaluationID == k.q.id
  {
    hide Valid, Apply, Serve, AnswerInv, Numbered, Replays, Replay, Redacted, Ends;
    var k := ClientOf(sys, c);
    assert ClientInv(sys.store, k);
    if k.base.None? {
      assert EventsFor(sys.store.outbox, k.q.id) + k.work.events == k.work.events;
    } else {
      var r := Reply(k.work.body, k.work.events, None);
      ServedExtends(k.q, k.base.value, k.now);
      NumberedKeepsId(k.base.value, r);
      LoggedExtends(k.base.value, EventsFor(sys.store.outbox, k.q.id), r);
    }
  }

  lemma SaveKeepsClientInv(sys: System, c: nat, other: Client, records: seq<Record>)
    requires Inv(sys) && ClientOf(sys, c).Saving? && ClientInv(sys.store, other)
    requires var k := ClientOf(sys, c); Save(sys.store, k.work.body, Expected(k.base), records).1.None?
    ensures var k := ClientOf(sys, c); ClientInv(Save(sys.store, k.work.body, Expected(k.base), records).0, other)
  {
    hide Valid, Logged, Apply, Serve, AnswerInv, StoreInv, Save, Numbered, Replays;
    var k := ClientOf(sys, c);
    AcceptedSave(sys, c, records);
    assert ClientInv(sys.store, k);
    if k.base.Some? {
      ServedExtends(k.q, k.base.value, k.now);
      NumberedKeepsId(k.base.value, Reply(k.work.body, k.work.events, None));
    }
  }

  lemma SaveKeepsAnswerInv(sys: System, c: nat, a: Reported, records: seq<Record>)
    requires Inv(sys) && ClientOf(sys, c).Saving? && AnswerInv(sys.store, a)
    requires var k := ClientOf(sys, c); Save(sys.store, k.work.body, Expected(k.base), records).1.None?
    ensures var k := ClientOf(sys, c); AnswerInv(Save(sys.store, k.work.body, Expected(k.base), records).0, a)
  {
    hide Valid, Logged, Apply, Serve, StoreInv, Save;
    AcceptedSave(sys, c, records);
    assert ClientInv(sys.store, ClientOf(sys, c));
  }

  lemma FinishKeepsInv(sys: System, c: nat, now: Time)
    requires Inv(sys) && ClientOf(sys, c).Saving?
    ensures Inv(FinishStep(sys, c, now))
  {
    hide StoreInv, ClientInv, AnswerInv, Save, BuildRecords;
    var k := ClientOf(sys, c);
    match BuildRecords(k.work.events, now)
    case Err(e) =>
      ErrorsAreFine(sys.store, k.q, e);
      RespondKeepsInv(sys, c, k.q, Err(e));
    case Ok(records) =>
      var (store, err) := Save(sys.store, k.work.body, Expected(k.base), records);
      if err.None? {
        SaveKeepsStoreInv(sys, c, now);
        forall d | d in sys.clients ensures ClientInv(store, sys.clients[d]) {
          SaveKeepsClientInv(sys, c, sys.clients[d], records);
        }
        forall i | 0 <= i < |sys.answers| ensures AnswerInv(store, sys.answers[i]) {
          SaveKeepsAnswerInv(sys, c, sys.answers[i], records);
        }
        SavedAnswer(sys, c, records);
        RespondKeepsInv(sys.(store := store), c, k.q, Ok(k.work.body));
      } else if err.value == ConcurrentModification && Wanted(k.q).Some? {
        RereadingIsFine(sys.store, k.q);
        SetClientKeepsInv(sys, c, Rereading(k.q));
      } else {
        ErrorsAreFine(sys.store, k.q, err.value);
        RespondKeepsInv(sys, c, k.q, Err(err.value));
      }
  }

  lemma ErrorsAreFine(st: Store, q: Request, e: ServiceError)
    ensures AnswerInv(st, Reported(q, Err(e)))
  {
  }

  lemma RereadingIsFine(st: Store, q: Request)
    ensures ClientInv(st, Rereading(q))
  {
  }

  /** What a client is told after its own save. */
  lemma SavedAnswer(sys: System, c: nat, records: seq<Record>)
    requires Inv(sys) && ClientOf(sys, c).Saving?
    requires var k := ClientOf(sys, c); Save(sys.store, k.work.body, Expected(k.base), records).1.None?
    ensures var k := ClientOf(sys, c);
      AnswerInv(Save(sys.store, k.work.body, Expected(k.base), records).0, Reported(k.q, Ok(k.work.body)))
  {
    hide Valid, Logged, StoreInv, Save, DeriveResult, Deadline, RequiredComplete, NormalizeReasons;
    AcceptedSave(sys, c, records);
    assert ClientInv(sys.store, ClientOf(sys, c));
  }

  lemma RereadKeepsInv(sys: System, c: nat)
    requires Inv(sys) && ClientOf(sys, c).Rereading?
    ensures Inv(RereadStep(sys, c))
  {
    hide Inv;
    var q := ClientOf(sys, c).q;
    if q.id in sys.store.evaluations && Some(sys.store.evaluations[q.id].phase) == Wanted(q) {
      RespondKeepsInv(sys, c, q, Ok(sys.store.evaluations[q.id]));
    } else {
      RespondKeepsInv(sys, c, q, Err(ConcurrentModification));
    }
  }

  lemma {:induction false} ExecutionKeepsInv(steps: seq<Step>)
    ensures Inv(Execution(steps))
  {
    hide Inv, BeginStep, FinishStep, RereadStep;
    if steps == [] {
      EmptyIsFine();
    } else {
      var n := |steps| - 1;
      ExecutionKeepsInv(steps[..n]);
      var sys := Execution(steps[..n]);
      match steps[n]
      case Begin(c, q, now) => if ClientOf(sys, c).Idle? { BeginKeepsInv(sys, c, q, now); }
      case Finish(c, now) => if ClientOf(sys, c).Saving? { FinishKeepsInv(sys, c, now); }
      case Reread(c) => if ClientOf(sys, c).Rereading? { RereadKeepsInv(sys, c); }
    }
  }

  lemma EmptyIsFine()
    ensures Inv(EMPTY)
  {
  }

  // The theorems --------------------------------------------------------------------------------

  /** Under any interleaving the outbox holds, for each stored evaluation, exactly the events 1 to its version,
      folding them rebuilds the stored evaluation, and an ending event, if any, is the last and only one. */
  lemma OutboxIsCompleteLog(steps: seq<Step>, id: Id)
    ensures var st := Execution(steps).store;
      if id in st.evaluations then Logged(st.evaluations[id], EventsFor(st.outbox, id)) else EventsFor(st.outbox, id) == []
  {
    hide Logged, Valid;
    ExecutionKeepsInv(steps);
  }

  /** No update is lost: when a save goes through, the stored evaluation becomes what the request makes of the
      evaluation stored at that very moment, whatever other clients did since the load. */
  lemma SavesAreAtomic(steps: seq<Step>, c: nat, now: Time)
    requires ClientOf(Execution(steps), c).Saving? && !ClientOf(Execution(steps), c).q.ReqCreate?
    requires FinishStep(Execution(steps), c, now).store != Execution(steps).store
    ensures var sys := Execution(steps); var k := ClientOf(sys, c); var after := FinishStep(sys, c, now).store;
      && k.q.id in sys.store.evaluations && Serve(k.q, sys.store.evaluations[k.q.id], k.now).Perform?
      && after.evaluations ==
           sys.store.evaluations[k.q.id := Apply(sys.store.evaluations[k.q.id], Serve(k.q, sys.store.evaluations[k.q.id], k.now).op).next]
  {
    hide StoreInv, AnswerInv, Save, BuildRecords, Apply, Serve, Valid, Logged;
    ExecutionKeepsInv(steps);
    var sys := Execution(steps);
    var k := ClientOf(sys, c);
    assert ClientInv(sys.store, k);
    AcceptedSave(sys, c, BuildRecords(k.work.events, now).value);
  }

  /** All successful completions of one evaluation return the same decision, and so do all expirations; no
      evaluation is reported both completed and expired. */
  lemma TerminalAnswersAgree(steps: seq<Step>, i: nat, j: nat)
    requires i < |Execution(steps).answers| && j < |Execution(steps).answers|
    requires var a, b := Execution(steps).answers[i], Execution(steps).answers[j];
      && a.q.id == b.q.id && a.result.Ok? && b.result.Ok?
      && (a.q.ReqComplete? || a.q.ReqExpire?) && (b.q.ReqComplete? || b.q.ReqExpire?)
    ensures var a, b := Execution(steps).answers[i], Execution(steps).answers[j];
      a.result == b.result && a.q.ReqComplete? == b.q.ReqComplete? && Some(a.result.value.phase) == Wanted(a.q)
  {
    hide StoreInv, ClientInv, Execution;
    ExecutionKeepsInv(steps);
    assert AnswerInv(Execution(steps).store, Execution(steps).answers[i]);
    assert AnswerInv(Execution(steps).store, Execution(steps).answers[j]);
  }

  /** With a running clock a save has one way to fail: somebody else saved first. */
  lemma SavesFailOnlyOnConflict(steps: seq<Step>, c: nat, now: Time)
    requires now != 0 && ClientOf(Execution(steps), c).Saving?
    ensures var sys := Execution(steps); var k := ClientOf(sys, c); var after := FinishStep(sys, c, now);
      if Expected(k.base) == (if k.q.id in sys.store.evaluations then sys.store.evaluations[k.q.id].version else 0)
      then after.answers == sys.answers + [Reported(k.q, Ok(k.work.body))]
      else after.store == sys.store && after.answers == sys.answers + if Wanted(k.q).Some? then [] else [Reported(k.q, Err(ConcurrentModification))]
  {
    hide Valid, Logged, Rehydrate, TakeSnapshot, Apply, Serve, AnswerInv, Numbered, Replays, BuildRecords, Execution;
    ExecutionKeepsInv(steps);
    var sys := Execution(steps);
    var k := ClientOf(sys, c);
    assert ClientInv(sys.store, k);
    WorkIsStamped(sys.store, k);
    RecordsBuild(k.work.events, now);
    SnapshotRoundTrip(k.work.body);
    if k.q.id in sys.store.evaluations {
      ValidIsVersioned(sys.store.evaluations[k.q.id]);
    }
  }

  lemma {:induction false} RecordsBuild(events: seq<Event>, now: Time)
    requires now != 0
    requires forall k :: 0 <= k < |events| ==> BuildRecord(events[k], now).Ok?
    ensures BuildRecords(events, now).Ok?
  {
    if events != [] {
      RecordsBuild(events[..|events| - 1], now);
    }
  }

  lemma WorkIsStamped(st: Store, k: Client)
    requires ClientInv(st, k) && k.Saving?
    ensures k.work.body.id == k.q.id && Valid(k.work.body)
    ensures k.base.Some? ==> k.base.value.version > 0
    ensures forall j, now :: 0 <= j < |k.work.events| && now != 0 ==> BuildRecord(k.work.events[j], now).Ok?
  {
    hide Replay, Redacted, Apply, Serve, Replays, OccurredAt, Ends;
    if k.base.Some? {
      ServedExtends(k.q, k.base.value, k.now);
      NumberedKeepsId(k.base.value, Reply(k.work.body, k.work.events, None));
    }
  }

  // What the service must not do ---------------------------------------------------------------

  /** History capture leaves the version alone, so at the store two captures from one version both go through
      and the second wipes out the first, whose event stays in the outbox. The service issues no such request. */
  lemma HistoryCapturesOverwrite(st: Store, s: Aggregate, at1: Time, at2: Time, r1: seq<Record>, r2: seq<Record>)
    requires Valid(s) && s.id in st.evaluations && st.evaluations[s.id] == s
    requires RecordHistory(s, at1).error.None? && RecordHistory(s, at2).error.None?
    ensures var first := Save(st, RecordHistory(s, at1).next, s.version, r1); var second := Save(first.0, RecordHistory(s, at2).next, s.version, r2);
      && first.1.None? && second.1.None?
      && second.0.evaluations[s.id].history == s.history + [EntryOf(s, at2)]
      && second.0.outbox == st.outbox + r1 + r2
  {
    hide Valid, Rehydrate, TakeSnapshot, ValidEntry;
    ValidIsVersioned(s);
    HistoryKeepsValid(s, at1);
    HistoryKeepsValid(s, at2);
    SnapshotRoundTrip(RecordHistory(s, at1).next);
    SnapshotRoundTrip(RecordHistory(s, at2).next);
  }

  lemma SavedUnderVersion(st: Store, s: Aggregate, expected: nat, records: seq<Record>)
    requires Valid(s) && s.id in st.evaluations && expected > 0
    ensures var r := Save(st, s, expected, records);
      if st.evaluations[s.id].version == expected then r == (Store(st.evaluations[s.id := s], st.outbox + records), None)
      else r == (st, Some(ConcurrentModification))
  {
    hide Valid, Rehydrate, TakeSnapshot;
    SnapshotRoundTrip(s);
  }

  /** At the store, whatever two clients make of one stored evaluation, by any operations and atomic mutations, and save
      under its version in turn: the second save goes through over a change of the first exactly if the first changed
      the evaluation silently, by capturing history or through what a failed mutation leaves behind, and did nothing
      that raises the version. */
  lemma OverwritesExactly(st: Store, s: Aggregate, first: seq<Command>, second: seq<Command>, r1: seq<Record>, r2: seq<Record>)
    requires Valid(s) && s.id in st.evaluations && st.evaluations[s.id] == s
    ensures var t := Tracked(s, []);
      var (after, err) := Save(st, PerformAll(t, first).body, s.version, r1);
      && err.None? && s.id in after.evaluations
      && (after.evaluations[s.id] != s && Save(after, PerformAll(t, second).body, s.version, r2).1.None? <==> ChangesSilently(t, first))
  {
    hide Valid, PerformAll, Save, ChangesSilently;
    var t := Tracked(s, []);
    var work, other := PerformAll(t, first).body, PerformAll(t, second).body;
    ValidIsVersioned(s);
    WorkKeepsValid(t, first);
    WorkKeepsValid(t, second);
    SavedUnderVersion(st, work, s.version, r1);
    SavedUnderVersion(Save(st, work, s.version, r1).0, other, s.version, r2);
    SilentExactly(t, first);
  }

  /** A binding left by a failed mutation is saved under an unchanged version, and wiped out by the next save. */
  lemma LeftBindingIsOverwritten(st: Store, b: PolicyBinding, r1: seq<Record>, r2: seq<Record>)
    requires 1 in st.evaluations && st.evaluations[1] == Fresh(1, 2, 3) && NormalizePolicy(b) == Ok(b) && b.boundAt >= 3
    ensures var s := Fresh(1, 2, 3); var t := Tracked(s, [Event(1, 2, 1, EvaluationCreated(3))]);
      var work := ApplyAtomic(t, 4, Mutation([OpBindPolicy(b)], true)).0.body;
      var (after, first) := Save(st, work, 1, r1); var (final, second) := Save(after, s, 1, r2);
      && first.None? && second.None? && 1 in after.evaluations && 1 in final.evaluations
      && after.evaluations[1].policy == Some(b) && final.evaluations[1].policy == None
  {
    hide Valid, NormalizePolicy, ApplyAtomic, Save, Replay, Redacted;
    var s := Fresh(1, 2, 3);
    var t := Tracked(s, [Event(1, 2, 1, EvaluationCreated(3))]);
    var m := Mutation([OpBindPolicy(b)], true);
    NewIsValid(1, 2, 3);
    FailureCanLeaveABinding(t, b);
    AtomicKeepsValid(t, 4, m);
    AtomicKeepsIdentity(t, 4, m);
    var work := ApplyAtomic(t, 4, m).0.body;
    SavedUnderVersion(st, work, 1, r1);
    SavedUnderVersion(Save(st, work, 1, r1).0, s, 1, r2);
  }
}
