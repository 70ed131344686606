/**
  What every reachable aggregate satisfies. Each operation keeps `Valid`, so every state
  of every run from `NewEvaluation` has it.
 */
module EvaluationInvariant {
  import opened Prelude
  import opened Text
  import opened Sorting
  import opened Evaluation
  import opened EvaluationRules

  /** Rules differ, outcomes are in normal form and none is older than the start. */
  ghost predicate GoodOutcomes(os: seq<RuleOutcome>, startedAt: Option<Time>)
  {
    DistinctRules(os) && forall i :: 0 <= i < |os| ==> GoodOutcome(os[i], startedAt)
  }

  ghost predicate GoodOutcome(o: RuleOutcome, startedAt: Option<Time>)
  {
    Normal(o) && !Earlier(o.evaluatedAt, startedAt)
  }

  /** Which instants are set in which phase, and how they are ordered. */
  ghost predicate Timed(s: Aggregate)
  {
    && s.createdAt != 0
    && (s.startedAt.Some? ==> s.startedAt.value != 0 && s.createdAt <= s.startedAt.value)
    && (s.phase.Created? ==> s.startedAt.None?)
    && (s.phase.Running? || s.phase.Completed? ==> s.startedAt.Some?)
    && (s.completedAt.Some? <==> s.phase.Completed?)
    && (s.completedAt.Some? ==> s.startedAt.value <= s.completedAt.value)
    && (s.cancelledAt.Some? <==> s.phase.Cancelled?)
    && (s.expiredAt.Some? <==> s.phase.Expired?)
    && (s.expiredAt.Some? ==> s.createdAt <= s.expiredAt.value)
    && (s.phase.Cancelled? ==> s.cancellationReason != "")
  }

  /** The verdict and its reasons fit the phase. */
  ghost predicate Decided(s: Aggregate)
  {
    match s.phase
    case Completed => ValidVerdict(s.verdict) && s.verdict != Unknown && NormalReasons(s.reasons) && (s.verdict == Verified <==> s.reasons == [])
    case Expired => s.verdict == SystemException && s.reasons == [TIMEOUT_REASON]
    case _ => s.verdict == Unknown && s.reasons == []
  }

  ghost predicate GoodPlan(required: seq<string>)
  {
    && (forall i :: 0 <= i < |required| ==> required[i] != "" && Trimmed(required[i]))
    && (forall i, j :: 0 <= i < j < |required| ==> required[i] != required[j])
  }

  ghost predicate GoodCheckpoint(c: Checkpoint, name: string, startedAt: Option<Time>)
  {
    && c.name == name && name != "" && Trimmed(name) && c.createdAt != 0 && !Earlier(c.createdAt, startedAt)
    && GoodOutcomes(c.outcomes, startedAt)
  }

  ghost predicate GoodCheckpoints(cs: map<string, Checkpoint>, startedAt: Option<Time>)
  {
    forall name :: name in cs ==> GoodCheckpoint(cs[name], name, startedAt)
  }

  ghost predicate GoodEntry(h: HistoryEntry, s: Aggregate)
  {
    && ValidEntry(h) && h.evaluationID == s.id && h.sessionID == s.sessionID && h.version <= s.version
    && (h.verdict == VerifiedWithException ==> s.verdict == VerifiedWithException)
  }

  ghost predicate GoodHistory(s: Aggregate)
  {
    && (forall i :: 0 <= i < |s.history| ==> GoodEntry(s.history[i], s))
    && (forall i, j :: 0 <= i < j < |s.history| ==> s.history[i].version != s.history[j].version)
  }

  ghost predicate Bound(s: Aggregate)
  {
    && (s.evidence.Some? ==> NormalizeEvidence(s.evidence.value) == Ok(s.evidence.value) && s.evidence.value.sessionID == s.sessionID)
    && (s.policy.Some? ==> NormalizePolicy(s.policy.value) == Ok(s.policy.value) && s.createdAt <= s.policy.value.boundAt)
  }

  ghost predicate Valid(s: Aggregate)
  {
    && s.id != 0 && s.sessionID != 0 && s.version != 0
    && Timed(s) && Decided(s)
    && GoodOutcomes(s.outcomes, s.startedAt)
    && GoodPlan(s.required)
    && GoodCheckpoints(s.checkpoints, s.startedAt)
    && GoodHistory(s)
    && Bound(s)
  }

  // The outcome list --------------------------------------------------------------

  lemma AppendKeepsGood(os: seq<RuleOutcome>, ps: seq<RuleOutcome>, startedAt: Option<Time>)
    requires GoodOutcomes(os, startedAt) && GoodOutcomes(ps, startedAt)
    requires forall i :: 0 <= i < |ps| ==> !Recorded(os, ps[i].ruleID)
    ensures GoodOutcomes(os + ps, startedAt)
  {
    hide Normal;
    forall i, j | 0 <= i < j < |os + ps| ensures (os + ps)[i].ruleID != (os + ps)[j].ruleID {
      if i < |os| <= j {
        assert IndexOf(os, ps[j - |os|].ruleID) < 0;
      }
    }
  }

  lemma OverlayKeepsGood(os: seq<RuleOutcome>, m: map<string, RuleOutcome>, startedAt: Option<Time>)
    requires GoodOutcomes(os, startedAt)
    requires forall id :: id in m ==> m[id].ruleID == id && GoodOutcome(m[id], startedAt)
    ensures GoodOutcomes(Overlay(os, m), startedAt)
  {
    hide GoodOutcome;
    assert forall i :: 0 <= i < |os| ==> Overlay(os, m)[i].ruleID == os[i].ruleID;
  }

  lemma WithoutKeepsGood(os: seq<RuleOutcome>, ids: set<string>, startedAt: Option<Time>)
    requires GoodOutcomes(os, startedAt)
    ensures GoodOutcomes(Without(os, ids), startedAt)
  {
    hide GoodOutcome, Without;
    WithoutKeepsDistinct(os, ids);
    var r := Without(os, ids);
    forall i | 0 <= i < |r| ensures GoodOutcome(r[i], startedAt) {
      assert r[i] in os;
    }
  }

  lemma PendingIsGood(s: Aggregate, os: seq<RuleOutcome>)
    requires Batch(s, os).Ok?
    ensures GoodOutcomes(Pending(s, Batch(s, os).value), s.startedAt)
    ensures forall i :: 0 <= i < |Pending(s, Batch(s, os).value)| ==> !Recorded(s.outcomes, Pending(s, Batch(s, os).value)[i].ruleID)
  {
    hide NormalizeOutcome, Recorded, OutcomeOf, Unplanned, Batch, Earlier;
    BatchCollects(s, os);
    var m := Batch(s, os).value;
    var l := map id | id in m && !Recorded(s.outcomes, id) :: m[id];
    ListingOfRules(l);
    forall i | 0 <= i < |Listing(l)| ensures GoodOutcome(Listing(l)[i], s.startedAt) && !Recorded(s.outcomes, Listing(l)[i].ruleID) {
      var v := Listing(l)[i];
      assert v in Listing(l);
      var o :| o in os && NormalizeOutcome(o) == Ok(m[v.ruleID]);
      NormalizeOutcomeIsIdempotent(o);
    }
  }

  lemma DifferingIsGood(s: Aggregate, at: Time, items: seq<Replacement>)
    requires Replacements(s, at, items).Ok?
    ensures forall id :: id in Differing(s, Replacements(s, at, items).value) ==>
      && Differing(s, Replacements(s, at, items).value)[id].ruleID == id
      && GoodOutcome(Differing(s, Replacements(s, at, items).value)[id], s.startedAt)
  {
    hide NormalizeOutcome, Recorded, OutcomeOf, Unplanned, Replacements, Earlier;
    ReplacementsCollect(s, at, items);
    var m := Replacements(s, at, items).value;
    forall id | id in m ensures m[id].ruleID == id && GoodOutcome(m[id], s.startedAt) {
      var x :| x in items && NormalizeOutcome(x.outcome) == Ok(m[id]);
      NormalizeOutcomeIsIdempotent(x.outcome);
    }
  }

  // One operation at a time ------------------------------------------------------------

  /** Swapping the outcome list for another good one, and raising the version, keeps the rest. */
  lemma ChangeOutcomesKeepsValid(s: Aggregate, os: seq<RuleOutcome>, version: nat)
    requires Valid(s) && GoodOutcomes(os, s.startedAt) && s.version <= version
    ensures Valid(s.(outcomes := os, version := version))
  {
    hide GoodOutcomes, GoodCheckpoints, NormalizeEvidence, NormalizePolicy, GoodPlan, ValidEntry, NormalReasons;
    assert forall i :: 0 <= i < |s.history| ==> GoodEntry(s.history[i], s);
  }

  lemma StartKeepsValid(s: Aggregate, at: Time)
    requires Valid(s)
    ensures Valid(Start(s, at).next)
  {
    hide Normal, NormalizeEvidence, NormalizePolicy, GoodPlan, ValidEntry, NormalReasons;
    if s.phase.Created? {
      NothingBeforeStart(s.outcomes, s.checkpoints);
      assert forall i :: 0 <= i < |s.history| ==> GoodEntry(s.history[i], s);
    }
  }

  lemma NothingBeforeStart(os: seq<RuleOutcome>, cs: map<string, Checkpoint>)
    ensures GoodOutcomes(os, None) ==> os == []
    ensures GoodCheckpoints(cs, None) ==> cs == map[]
  {
    hide Normal;
    if os != [] {
      assert !GoodOutcome(os[0], None);
    }
    if cs != map[] {
      var name :| name in cs;
      assert !GoodCheckpoint(cs[name], name, None);
    }
  }

  lemma EndKeepsValid(s: Aggregate, op: Op)
    requires Valid(s) && (op.OpComplete? || op.OpCancel? || op.OpExpire?)
    ensures Valid(Apply(s, op).next)
  {
    hide GoodOutcomes, GoodCheckpoints, NormalizeEvidence, NormalizePolicy, GoodPlan, ValidEntry, NormalReasons, NormalizeReasons, RequiredComplete;
    assert forall i :: 0 <= i < |s.history| ==> GoodEntry(s.history[i], s);
    if op.OpComplete? {
      NormalizedReasonsAreNormal(op.reasons);
    }
  }

  lemma RegisterKeepsValid(s: Aggregate, rule: string, at: Time)
    requires Valid(s)
    ensures Valid(RegisterRule(s, rule, at).next)
  {
    hide GoodOutcomes, GoodCheckpoints, NormalizeEvidence, NormalizePolicy, ValidEntry, NormalReasons;
    assert forall i :: 0 <= i < |s.history| ==> GoodEntry(s.history[i], s);
  }

  lemma RecordKeepsValid(s: Aggregate, o: RuleOutcome)
    requires Valid(s)
    ensures Valid(Record(s, o).next)
  {
    hide Valid, NormalizeOutcome;
    if Record(s, o).next != s {
      var v := NormalizeOutcome(o).value;
      NormalizeOutcomeIsIdempotent(o);
      GoodParts(s);
      AppendKeepsGood(s.outcomes, [v], s.startedAt);
      ChangeOutcomesKeepsValid(s, s.outcomes + [v], s.version + 1);
    }
  }

  lemma GoodParts(s: Aggregate)
    requires Valid(s)
    ensures GoodOutcomes(s.outcomes, s.startedAt) && GoodCheckpoints(s.checkpoints, s.startedAt)
    ensures DistinctRules(s.outcomes)
  {
  }

  lemma {:induction false} RecordEachKeepsValid(s: Aggregate, os: seq<RuleOutcome>)
    requires Valid(s)
    ensures Valid(RecordEach(s, os).next)
  {
    hide Valid, Record;
    if os != [] {
      var n := |os| - 1;
      RecordEachKeepsValid(s, os[..n]);
      RecordKeepsValid(RecordEach(s, os[..n]).next, os[n]);
    }
  }

  lemma PendingKeepsValid(s: Aggregate, os: seq<RuleOutcome>, version: nat)
    requires Valid(s) && Batch(s, os).Ok? && s.version <= version
    ensures Valid(s.(outcomes := s.outcomes + Pending(s, Batch(s, os).value), version := version))
  {
    hide Valid, Batch, Pending, GoodOutcomes, Recorded;
    var pending := Pending(s, Batch(s, os).value);
    GoodParts(s);
    PendingIsGood(s, os);
    AppendKeepsGood(s.outcomes, pending, s.startedAt);
    ChangeOutcomesKeepsValid(s, s.outcomes + pending, version);
  }

  lemma RecordManyKeepsValid(s: Aggregate, os: seq<RuleOutcome>, at: Time)
    requires Valid(s)
    ensures Valid(RecordAtomic(s, os).next)
    ensures Valid(RecordBatch(s, os, at).next)
  {
    hide Valid, Batch, Pending, AppendEach, Earlier;
    if Batch(s, os).Ok? {
      var pending := Pending(s, Batch(s, os).value);
      AppendEachAppends(s, pending);
      PendingKeepsValid(s, os, s.version + |pending|);
      PendingKeepsValid(s, os, s.version + 1);
    }
  }

  lemma ReplaceKeepsValid(s: Aggregate, o: RuleOutcome, at: Time)
    requires Valid(s)
    ensures Valid(Replace(s, o, at).next)
  {
    hide Valid, NormalizeOutcome;
    if Replace(s, o, at).next != s {
      var v := NormalizeOutcome(o).value;
      NormalizeOutcomeIsIdempotent(o);
      GoodParts(s);
      ReplacedKeepsGood(s.outcomes, IndexOf(s.outcomes, v.ruleID), v, s.startedAt);
      ChangeOutcomesKeepsValid(s, s.outcomes[IndexOf(s.outcomes, v.ruleID) := v], s.version + 1);
    }
  }

  lemma ReplacedKeepsGood(os: seq<RuleOutcome>, k: nat, v: RuleOutcome, startedAt: Option<Time>)
    requires GoodOutcomes(os, startedAt) && k < |os| && os[k].ruleID == v.ruleID && GoodOutcome(v, startedAt)
    ensures GoodOutcomes(os[k := v], startedAt)
  {
    hide GoodOutcome;
  }

  lemma ReplaceAtomicKeepsValid(s: Aggregate, items: seq<Replacement>, at: Time)
    requires Valid(s)
    ensures Valid(ReplaceAtomic(s, items, at).next)
  {
    hide Valid, Replacements, Differing, Listing, Lookup, GoodOutcomes, GoodOutcome, GoodCheckpoints;
    if Replacements(s, at, items).Ok? {
      var changes := Differing(s, Replacements(s, at, items).value);
      GoodParts(s);
      DifferingIsGood(s, at, items);
      OverlayKeepsGood(s.outcomes, changes, s.startedAt);
      ChangeOutcomesKeepsValid(s, Overlay(s.outcomes, changes), s.version + 1);
    }
  }

  lemma RemoveKeepsValid(s: Aggregate, rule: string, at: Time)
    requires Valid(s)
    ensures Valid(Remove(s, rule, at).next)
    ensures Valid(RemoveIfPresent(s, rule, at).next)
  {
    hide Valid, IndexOf, GoodOutcomes, GoodCheckpoints, DistinctRules, Without, Cut, Earlier;
    var id := TrimSpace(rule);
    if Recorded(s.outcomes, id) {
      var k := IndexOf(s.outcomes, id);
      GoodParts(s);
      RemoveIsAFilter(s.outcomes, k, id);
      WithoutKeepsGood(s.outcomes, {id}, s.startedAt);
      ChangeOutcomesKeepsValid(s, Cut(s.outcomes, k), s.version + 1);
    }
  }

  lemma RemoveSetKeepsValid(s: Aggregate, ids: set<string>, at: Time)
    requires Valid(s)
    ensures Valid(RemoveSet(s, ids, at).next)
  {
    hide Valid, Listing, Lookup, Missing, Least, Without, GoodOutcomes;
    GoodParts(s);
    WithoutKeepsGood(s.outcomes, ids, s.startedAt);
    ChangeOutcomesKeepsValid(s, Without(s.outcomes, ids), s.version + 1);
  }

  lemma RemoveManyKeepsValid(s: Aggregate, rules: seq<string>, at: Time)
    requires Valid(s)
    ensures Valid(RemoveAtomic(s, rules, at).next)
  {
    hide Valid, RemoveSet, RuleSet;
    if RuleSet(rules).Some? {
      RemoveSetKeepsValid(s, RuleSet(rules).value, at);
    }
  }

  lemma RemoveEachIfPresentKeepsValid(s: Aggregate, rules: seq<string>, at: Time)
    requires Valid(s)
    ensures Valid(RemoveEachIfPresent(s, rules, at).next)
  {
    hide Valid, RemoveAtomic, RuleSet, Recorded, Keys;
    if RuleSet(rules).Some? {
      RemoveManyKeepsValid(s, Keys(set id | id in RuleSet(rules).value && Recorded(s.outcomes, id)), at);
    }
  }

  lemma ResetKeepsValid(s: Aggregate, at: Time)
    requires Valid(s)
    ensures Valid(Reset(s, at).next)
  {
    hide Valid;
    ChangeOutcomesKeepsValid(s, [], s.version + 1);
  }

  lemma CheckpointKeepsValid(s: Aggregate, name: string, at: Time)
    requires Valid(s)
    ensures Valid(CreateCheckpoint(s, name, at).next)
    ensures Valid(Rollback(s, name, at).next)
  {
    hide GoodOutcomes, NormalizeEvidence, NormalizePolicy, GoodPlan, ValidEntry, NormalReasons;
    assert forall i :: 0 <= i < |s.history| ==> GoodEntry(s.history[i], s);
    if TrimSpace(name) in s.checkpoints {
      assert GoodCheckpoint(s.checkpoints[TrimSpace(name)], TrimSpace(name), s.startedAt);
    }
  }

  lemma HistoryKeepsValid(s: Aggregate, at: Time)
    requires Valid(s)
    ensures Valid(RecordHistory(s, at).next)
  {
    hide GoodOutcomes, GoodCheckpoints, NormalizeEvidence, NormalizePolicy, GoodPlan, ValidEntry, NormalReasons;
    assert forall i :: 0 <= i < |s.history| ==> GoodEntry(s.history[i], s);
  }

  lemma BindingKeepsValid(s: Aggregate, op: Op)
    requires Valid(s) && (op.OpBindEvidence? || op.OpBindPolicy?)
    ensures Valid(Apply(s, op).next)
  {
    hide GoodOutcomes, GoodCheckpoints, NormalizeEvidence, NormalizePolicy, GoodPlan, ValidEntry, NormalReasons;
    assert forall i :: 0 <= i < |s.history| ==> GoodEntry(s.history[i], s);
    if op.OpBindEvidence? && NormalizeEvidence(op.evidence).Ok? {
      NormalizeEvidenceIsIdempotent(op.evidence);
    }
    if op.OpBindPolicy? && NormalizePolicy(op.policy).Ok? {
      NormalizePolicyIsIdempotent(op.policy);
    }
  }

  lemma NormalizePolicyIsIdempotent(b: PolicyBinding)
    requires NormalizePolicy(b).Ok?
    ensures NormalizePolicy(NormalizePolicy(b).value) == NormalizePolicy(b)
  {
    hide IsPolicyHash;
  }

  lemma {:induction false} EvidenceReasonsAreNormal(reasons: seq<string>)
    ensures NormalizeEvidenceReasons(reasons).Ok? ==> NormalReasons(NormalizeEvidenceReasons(reasons).value)
    ensures NormalReasons(reasons) ==> NormalizeEvidenceReasons(reasons) == Ok(reasons)
  {
    hide NormalReasons, IsCode, Canonical;
    if reasons == [] {
      NothingIsNormal();
    } else {
      var n := |reasons| - 1;
      EvidenceReasonsAreNormal(reasons[..n]);
      if NormalizeEvidenceReasons(reasons[..n]).Ok? {
        OneMoreNormal(NormalizeEvidenceReasons(reasons[..n]).value, Canonical(reasons[n]));
      }
      if NormalReasons(reasons) {
        OneLessNormal(reasons);
        CodesAreNotEmpty(reasons[n]);
      }
    }
  }

  lemma CodesAreNotEmpty(code: string)
    requires IsCode(code)
    ensures code != ""
  {
  }

  lemma NormalizeReferenceIsIdempotent(r: EvidenceReference)
    requires NormalizeReference(r).Ok?
    ensures NormalizeReference(NormalizeReference(r).value) == NormalizeReference(r)
    ensures NormalizeReference(r).value.evidenceID == r.evidenceID
  {
    hide NormalizeEvidenceReasons, NormalReasons;
    EvidenceReasonsAreNormal(r.reasons);
    EvidenceReasonsAreNormal(NormalizeReference(r).value.reasons);
  }

  lemma NormalizeEvidenceIsIdempotent(b: EvidenceBinding)
    requires NormalizeEvidence(b).Ok?
    ensures NormalizeEvidence(NormalizeEvidence(b).value) == NormalizeEvidence(b)
  {
    hide NormalizeEvidenceReasons, NormalReasons, NormalizeReference;
    var v := NormalizeEvidence(b).value;
    EvidenceReasonsAreNormal(b.reasons);
    EvidenceReasonsAreNormal(v.reasons);
    forall i | 0 <= i < |v.evidence| ensures NormalizeReference(v.evidence[i]) == Ok(v.evidence[i]) && v.evidence[i].evidenceID == b.evidence[i].evidenceID {
      NormalizeReferenceIsIdempotent(b.evidence[i]);
    }
    assert forall i, j :: 0 <= i < j < |v.evidence| ==> v.evidence[i].evidenceID == b.evidence[i].evidenceID != b.evidence[j].evidenceID;
    assert NormalizeReferences(v.evidence).Ok?;
    assert NormalizeReferences(v.evidence).value == v.evidence;
  }

  // Every run --------------------------------------------------------------------------

  lemma ApplyKeepsValid(s: Aggregate, op: Op)
    requires Valid(s)
    ensures Valid(Apply(s, op).next)
  {
    hide Valid, Start, RegisterRule, Record, RecordEach, RecordAtomic, RecordBatch, Replace, ReplaceAtomic, Remove, RemoveIfPresent,
      RemoveAtomic, RemoveEachIfPresent, Reset, CreateCheckpoint, Rollback, RecordHistory, CompleteAt, Cancel, Expire, BindEvidence, BindPolicy;
    match op
    case OpStart(at) => StartKeepsValid(s, at);
    case OpRegisterRule(rule, at) => RegisterKeepsValid(s, rule, at);
    case OpRecord(o) => RecordKeepsValid(s, o);
    case OpRecordEach(os) => RecordEachKeepsValid(s, os);
    case OpRecordAtomic(os) => RecordManyKeepsValid(s, os, 0);
    case OpRecordBatch(os, at) => RecordManyKeepsValid(s, os, at);
    case OpReplace(o, at) => ReplaceKeepsValid(s, o, at);
    case OpReplaceAtomic(items, at) => ReplaceAtomicKeepsValid(s, items, at);
    case OpRemove(rule, at) => RemoveKeepsValid(s, rule, at);
    case OpRemoveIfPresent(rule, at) => RemoveKeepsValid(s, rule, at);
    case OpRemoveAtomic(rules, at) => RemoveManyKeepsValid(s, rules, at);
    case OpRemoveEachIfPresent(rules, at) => RemoveEachIfPresentKeepsValid(s, rules, at);
    case OpReset(at) => ResetKeepsValid(s, at);
    case OpResetAtVersion(_, at) => ResetKeepsValid(s, at);
    case OpCreateCheckpoint(name, at) => CheckpointKeepsValid(s, name, at);
    case OpRollback(name, at) => CheckpointKeepsValid(s, name, at);
    case OpRecordHistory(at) => HistoryKeepsValid(s, at);
    case OpBindEvidence(_) => BindingKeepsValid(s, op);
    case OpBindPolicy(_) => BindingKeepsValid(s, op);
    case _ => EndKeepsValid(s, op);
  }

  lemma NewIsValid(id: Id, sessionID: Id, createdAt: Time)
    requires New(id, sessionID, createdAt).Ok?
    ensures Valid(New(id, sessionID, createdAt).value.0)
  {
  }

  lemma {:induction false} RunKeepsValid(t: Tracked, ops: seq<Op>)
    requires Valid(t.body)
    ensures Valid(Run(t, ops).body)
  {
    hide Valid, Apply;
    if ops != [] {
      var n := |ops| - 1;
      RunKeepsValid(t, ops[..n]);
      ApplyKeepsValid(Run(t, ops[..n]).body, ops[n]);
    }
  }

  // Terminal phases ----------------------------------------------------------------------

  /** Once completed, cancelled or expired, only history can still be written. */
  lemma TerminalStays(s: Aggregate, op: Op)
    requires s.phase.Terminal()
    ensures Apply(s, op).next == s.(history := Apply(s, op).next.history)
    ensures !op.OpRecordHistory? ==> Apply(s, op).next == s && Apply(s, op).emitted == []
  {
    hide Recorded, TrimSpace, RuleSet, ValidEntry, Record;
    if op.OpRecordEach? {
      RecordEachStays(s, op.outcomes);
    }
    if op.OpRecord? {
      RecordStays(s, op.outcome);
    }
  }

  lemma RecordStays(s: Aggregate, o: RuleOutcome)
    requires s.phase != Running
    ensures Record(s, o) == Refuse(s, InvalidStateTransition)
  {
  }

  lemma {:induction false} RecordEachStays(s: Aggregate, os: seq<RuleOutcome>)
    requires s.phase != Running
    ensures RecordEach(s, os).next == s && RecordEach(s, os).emitted == []
  {
    hide Record;
    if os != [] {
      RecordEachStays(s, os[..|os| - 1]);
      RecordStays(s, os[|os| - 1]);
    }
  }

  lemma {:induction false} TerminalRunStays(t: Tracked, ops: seq<Op>)
    requires t.body.phase.Terminal()
    ensures Run(t, ops).body == t.body.(history := Run(t, ops).body.history)
  {
    hide Apply;
    if ops != [] {
      TerminalRunStays(t, ops[..|ops| - 1]);
      TerminalStays(Run(t, ops[..|ops| - 1]).body, ops[|ops| - 1]);
    }
  }
}
