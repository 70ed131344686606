/**
  The live run, and when the independent re-check accepts it. Execution hands the outcomes
  of the plan to the aggregate, which stores them sorted by rule and in normal form; the
  verifier compares them place by place with the plan and with what the rules say again.
 */
module HonestRuns {
  import opened Prelude
  import opened Text
  import opened Sorting
  import opened Evaluation
  import opened EvaluationRules
  import opened EvaluationInvariant
  import opened EvaluationReplay
  import opened EvaluationDecision
  import opened Verification

  function TraceOf(s: Aggregate): Trace
  {
    Trace(s.id, s.sessionID, s.phase == Completed && s.completedAt.Some?, s.required, RequiredComplete(s), s.outcomes, s.verdict,
          if s.evidence.None? then None else Some(s.evidence.value.evidence),
          if s.policy.None? then None else Some(ReferenceTo(s.policy.value)))
  }

  function ReferenceTo(b: PolicyBinding): PolicyReference
  {
    PolicyReference(b.policyID, b.version, b.hash)
  }

  // The live run -------------------------------------------------------------------------------------

  /** The executor found what each reference of the binding names: a qualified object of the session. */
  predicate Fetched(evidence: seq<Evidence>, refs: seq<EvidenceReference>, session: Id)
  {
    && |evidence| == |refs|
    && forall i :: 0 <= i < |refs| ==> evidence[i].id == refs[i].evidenceID && refs[i].status == Qualified && evidence[i].sessionID == session
  }

  /** Every rule of the plan can be compiled and executed. */
  predicate AllDecide(plan: seq<string>, rules: Rules, evidence: seq<Evidence>)
  {
    forall i :: 0 <= i < |plan| ==> rules(plan[i], evidence).Ok?
  }

  /** The outcomes the executor makes of the rules, in the order of the plan. */
  function Executed(plan: seq<string>, rules: Rules, evidence: seq<Evidence>, at: Time): (r: seq<RuleOutcome>)
    requires AllDecide(plan, rules, evidence)
    ensures |r| == |plan|
  {
    seq(|plan|, i requires 0 <= i < |plan| =>
      RuleOutcome(plan[i], rules(plan[i], evidence).value.status, rules(plan[i], evidence).value.reasons, at))
  }

  /** What the executor demands of the evaluation before it runs a rule. */
  ghost predicate Executable(s0: Aggregate, rules: Rules, evidence: seq<Evidence>)
  {
    && Valid(s0) && s0.outcomes == [] && s0.policy.Some?
    && s0.evidence.Some? && s0.evidence.value.status == Qualified && Fetched(evidence, s0.evidence.value.evidence, s0.sessionID)
    && AllDecide(s0.required, rules, evidence)
  }

  /** A live run: the rules are executed and recorded, and the derived result completes the evaluation. */
  ghost predicate HonestRun(s0: Aggregate, rules: Rules, evidence: seq<Evidence>, at: Time, done: Time, s: Aggregate)
  {
    && Executable(s0, rules, evidence)
    && var executed := RecordBatch(s0, Executed(s0.required, rules, evidence, at), at);
       && executed.error.None? && DeriveResult(executed.next).Ok?
       && var d := DeriveResult(executed.next).value;
          CompleteAt(executed.next, d.0, d.1, done) == Reply(s, CompleteAt(executed.next, d.0, d.1, done).emitted, None)
  }

  /** A bundle of the run: its trace, its evidence and its policy, the objects in any order among any others. */
  ghost predicate HonestBundle(b: Bundle, s: Aggregate, evidence: seq<Evidence>)
  {
    && b.evaluationID == s.id && b.sessionID == s.sessionID
    && s.policy.Some? && b.policy == PolicyDocument(ReferenceTo(s.policy.value), s.required, None)
    && Readable(b.objects) && TracesIn(b.objects) == [TraceOf(s)] && multiset(EvidenceIn(b.objects)) == multiset(evidence)
  }

  /** The reasons a rule gives are already codes in normal form. */
  predicate CanonicalReasons(d: RuleDecision)
  {
    NormalizeReasons(d.reasons) == Ok(d.reasons)
  }

  lemma ExecutedIsNormalized(id: string, d: RuleDecision, at: Time)
    requires Trimmed(id) && NormalizeOutcome(RuleOutcome(id, d.status, d.reasons, at)).Ok?
    ensures var v := NormalizeOutcome(RuleOutcome(id, d.status, d.reasons, at)).value;
      v.ruleID == id && v.status == d.status && NormalizeReasons(d.reasons) == Ok(v.reasons)
  {
    hide NormalizeReasons;
  }

  lemma ExecutedOutcomes(s0: Aggregate, rules: Rules, evidence: seq<Evidence>, at: Time, m: map<string, RuleOutcome>)
    requires GoodPlan(s0.required) && AllDecide(s0.required, rules, evidence) && Batch(s0, Executed(s0.required, rules, evidence, at)) == Ok(m)
    ensures forall id :: id in m <==> id in s0.required
    ensures forall id :: id in m ==> m[id].ruleID == id
    ensures forall i :: 0 <= i < |s0.required| ==> Follows(m, s0.required[i], rules(s0.required[i], evidence).value)
  {
    hide Batch, NormalizeReasons, NormalizeOutcome, Admissible;
    var os := Executed(s0.required, rules, evidence, at);
    BatchCollects(s0, os);
    forall i | 0 <= i < |os|
      ensures Follows(m, s0.required[i], rules(s0.required[i], evidence).value) && NormalizeOutcome(os[i]) == Ok(m[s0.required[i]])
    {
      assert os[i] in os;
      ExecutedIsNormalized(s0.required[i], rules(s0.required[i], evidence).value, at);
    }
    forall id | id in m ensures id in s0.required {
      var o :| o in os && NormalizeOutcome(o) == Ok(m[id]);
      var i :| 0 <= i < |os| && os[i] == o;
      assert m[s0.required[i]] == m[id];
      ExecutedIsNormalized(s0.required[i], rules(s0.required[i], evidence).value, at);
    }
  }

  /** The stored outcome of a rule is its decision with the reasons in normal form. */
  ghost predicate Follows(m: map<string, RuleOutcome>, id: string, d: RuleDecision)
  {
    id in m && m[id].status == d.status && NormalizeReasons(d.reasons) == Ok(m[id].reasons)
  }

  lemma {:induction false} DistinctSize(xs: seq<string>, keys: set<string>)
    requires forall i, j :: 0 <= i < j < |xs| ==> xs[i] != xs[j]
    requires forall k :: k in xs <==> k in keys
    ensures |xs| == |keys|
  {
    if xs == [] {
      assert keys == {};
    } else {
      var n := |xs| - 1;
      assert xs == xs[..n] + [xs[n]];
      DistinctSize(xs[..n], keys - {xs[n]});
    }
  }

  /** The stored outcomes follow the plan place by place exactly when the plan is in ascending order. */
  lemma StoredInPlanOrder(plan: seq<string>, m: map<string, RuleOutcome>)
    requires GoodPlan(plan) && (forall id :: id in m <==> id in plan) && forall id :: id in m ==> m[id].ruleID == id
    ensures |Listing(m)| == |plan|
    ensures (forall i :: 0 <= i < |plan| ==> Listing(m)[i].ruleID == plan[i]) <==> Ascending(plan, Before)
    ensures Ascending(plan, Before) ==> forall i :: 0 <= i < |plan| ==> Listing(m)[i] == m[plan[i]]
  {
    hide Keys, Listing, Before;
    DistinctSize(plan, m.Keys);
    var keys := Keys(m.Keys);
    if Ascending(plan, Before) {
      KeysAreUnique(plan, m.Keys);
    }
    if forall i :: 0 <= i < |plan| ==> Listing(m)[i].ruleID == plan[i] {
      assert keys == plan;
    }
  }

  lemma BatchStores(s0: Aggregate, os: seq<RuleOutcome>, at: Time)
    requires s0.outcomes == [] && RecordBatch(s0, os, at).error.None? && RecordBatch(s0, os, at).next.outcomes != []
    ensures Batch(s0, os).Ok? && RecordBatch(s0, os, at).next.outcomes == Listing(Batch(s0, os).value)
    ensures RecordBatch(s0, os, at).next.required == s0.required
  {
    hide Batch, Listing, Recorded, Earlier;
    if Batch(s0, os).Ok? {
      var m := Batch(s0, os).value;
      NothingRecorded(s0);
      assert (map id | id in m && !Recorded(s0.outcomes, id) :: m[id]) == m;
      assert s0.outcomes + Listing(m) == Listing(m);
    }
  }

  /** Executing and completing leave identity and bindings alone. */
  predicate Unchanged(s0: Aggregate, s: Aggregate)
  {
    s.id == s0.id && s.sessionID == s0.sessionID && s.evidence == s0.evidence && s.policy == s0.policy && s.required == s0.required
  }

  lemma CompletionKeeps(s1: Aggregate, done: Time)
    requires DeriveResult(s1).Ok?
    requires CompleteAt(s1, DeriveResult(s1).value.0, DeriveResult(s1).value.1, done).error.None?
    ensures var s := CompleteAt(s1, DeriveResult(s1).value.0, DeriveResult(s1).value.1, done).next;
      && s1.outcomes != [] && s.outcomes == s1.outcomes && s.required == s1.required && s.verdict == VerdictOf(s1.outcomes)
      && RequiredComplete(s) && s.phase == Completed && s.completedAt.Some? && Unchanged(s1, s)
  {
    hide NormalizeReasons, ReasonsOf, VerdictOf, Recorded, Earlier;
  }

  lemma BatchKeeps(s0: Aggregate, os: seq<RuleOutcome>, at: Time)
    ensures Unchanged(s0, RecordBatch(s0, os, at).next)
  {
    hide Batch, Pending, Earlier;
  }

  lemma RunStores(s0: Aggregate, rules: Rules, evidence: seq<Evidence>, at: Time, done: Time, s: Aggregate)
    requires HonestRun(s0, rules, evidence, at, done, s)
    ensures Batch(s0, Executed(s0.required, rules, evidence, at)).Ok?
    ensures s.outcomes == Listing(Batch(s0, Executed(s0.required, rules, evidence, at)).value) && s.outcomes != []
    ensures Unchanged(s0, s) && s.verdict == VerdictOf(s.outcomes) && RequiredComplete(s) && TraceOf(s).completed
    ensures GoodPlan(s0.required)
  {
    hide Batch, Executed, Valid, RecordBatch, CompleteAt, DeriveResult, Listing, RequiredComplete, VerdictOf, GoodPlan;
    var os := Executed(s0.required, rules, evidence, at);
    CompletionKeeps(RecordBatch(s0, os, at).next, done);
    BatchStores(s0, os, at);
    BatchKeeps(s0, os, at);
    PlanIsGood(s0);
  }

  lemma PlanIsGood(s: Aggregate)
    requires Valid(s)
    ensures GoodPlan(s.required)
  {
    hide GoodPlan, GoodOutcomes, GoodCheckpoints, GoodHistory, Bound, Decided, Timed;
  }

  lemma NothingRecorded(s: Aggregate)
    requires s.outcomes == []
    ensures forall id: string :: !Recorded(s.outcomes, id)
  {
  }

  /** What the run leaves behind: the outcomes of the plan, listed by rule, and the verdict over them. */
  ghost predicate Stored(s: Aggregate, m: map<string, RuleOutcome>, rules: Rules, evidence: seq<Evidence>)
  {
    && s.outcomes == Listing(m) && s.outcomes != [] && s.verdict == VerdictOf(s.outcomes)
    && RequiredComplete(s) && TraceOf(s).completed && GoodPlan(s.required) && AllDecide(s.required, rules, evidence)
    && (forall id :: id in m <==> id in s.required)
    && (forall id :: id in m ==> m[id].ruleID == id)
    && (forall i :: 0 <= i < |s.required| ==> Follows(m, s.required[i], rules(s.required[i], evidence).value))
  }

  lemma RunIsStored(s0: Aggregate, rules: Rules, evidence: seq<Evidence>, at: Time, done: Time, s: Aggregate)
    requires HonestRun(s0, rules, evidence, at, done, s)
    ensures Batch(s0, Executed(s0.required, rules, evidence, at)).Ok? && Unchanged(s0, s)
    ensures Stored(s, Batch(s0, Executed(s0.required, rules, evidence, at)).value, rules, evidence)
  {
    hide Batch, Executed, Listing, RecordBatch, DeriveResult, CompleteAt, Valid, GoodPlan, VerdictOf, RequiredComplete, Follows;
    RunStores(s0, rules, evidence, at, done, s);
    ExecutedOutcomes(s0, rules, evidence, at, Batch(s0, Executed(s0.required, rules, evidence, at)).value);
  }

  lemma OutcomeReproduced(m: map<string, RuleOutcome>, id: string, d: RuleDecision)
    requires Follows(m, id, d)
    ensures Reproduced(m[id], d) <==> CanonicalReasons(d)
  {
    hide NormalizeReasons;
  }

  lemma MatchedInOrder(s: Aggregate, m: map<string, RuleOutcome>, rules: Rules, evidence: seq<Evidence>, i: nat)
    requires i < |s.required| == |s.outcomes| && rules(s.required[i], evidence).Ok?
    requires Follows(m, s.required[i], rules(s.required[i], evidence).value)
    requires s.required[i] in m && s.outcomes[i] == m[s.required[i]] && m[s.required[i]].ruleID == s.required[i]
    ensures Matched(TraceOf(s), rules, evidence, i) <==> CanonicalReasons(rules(s.required[i], evidence).value)
  {
    hide Follows, Reproduced, CanonicalReasons, RequiredComplete;
    OutcomeReproduced(m, s.required[i], rules(s.required[i], evidence).value);
  }

  /** The plan is in ascending order and every rule gives its reasons in normal form. */
  ghost predicate Reproducible(plan: seq<string>, rules: Rules, evidence: seq<Evidence>)
    requires AllDecide(plan, rules, evidence)
  {
    Ascending(plan, Before) && forall i :: 0 <= i < |plan| ==> CanonicalReasons(rules(plan[i], evidence).value)
  }

  lemma MatchedExactly(s: Aggregate, m: map<string, RuleOutcome>, rules: Rules, evidence: seq<Evidence>)
    requires Stored(s, m, rules, evidence)
    ensures |s.outcomes| == |s.required|
    ensures (forall i :: 0 <= i < |s.required| ==> Matched(TraceOf(s), rules, evidence, i)) <==> Reproducible(s.required, rules, evidence)
  {
    hide Listing, GoodPlan, VerdictOf, RequiredComplete, Ascending, Follows, CanonicalReasons, Keys, Reproduced;
    StoredInPlanOrder(s.required, m);
    var t := TraceOf(s);
    if Ascending(s.required, Before) {
      forall i | 0 <= i < |s.required| ensures Matched(t, rules, evidence, i) <==> CanonicalReasons(rules(s.required[i], evidence).value) {
        assert s.required[i] in s.required;
        MatchedInOrder(s, m, rules, evidence, i);
      }
    } else if forall i :: 0 <= i < |s.required| ==> Matched(t, rules, evidence, i) {
      assert forall i :: 0 <= i < |s.required| ==> Matched(t, rules, evidence, i) ==> Listing(m)[i].ruleID == s.required[i];
    }
  }

  lemma StoredAcceptedExactly(s: Aggregate, m: map<string, RuleOutcome>, b: Bundle, rules: Rules, evidence: seq<Evidence>)
    requires Stored(s, m, rules, evidence) && HonestBundle(b, s, evidence)
    ensures VerifyTrace(TraceOf(s), b, rules, evidence) == None <==> Reproducible(s.required, rules, evidence)
  {
    hide Listing, GoodPlan, VerdictOf, RequiredComplete, Reproducible, Matched, VerifyTrace, Readable, EvidenceIn, TracesIn;
    MatchedExactly(s, m, rules, evidence);
    AcceptedExactly(TraceOf(s), b, rules, evidence);
  }

  lemma BindingNames(s: Aggregate, evidence: seq<Evidence>)
    requires Valid(s) && s.evidence.Some? && Fetched(evidence, s.evidence.value.evidence, s.sessionID)
    ensures Named(evidence, s.evidence.value.evidence, s.sessionID)
  {
    hide GoodOutcomes, GoodCheckpoints, GoodHistory, GoodPlan, Decided, Timed, NormalizeEvidenceReasons, CoherentEvidence, NormalizePolicy, NormalizeReference;
  }

  /** An honest run, bundled in any order, is accepted exactly when its plan is in ascending order and every rule gives
      its reasons in normal form. */
  lemma HonestRunAcceptedExactly(s0: Aggregate, rules: Rules, evidence: seq<Evidence>, at: Time, done: Time, s: Aggregate, b: Bundle)
    requires HonestRun(s0, rules, evidence, at, done, s) && HonestBundle(b, s, evidence)
    ensures VerifyBundle(b, rules) == None <==> Reproducible(s0.required, rules, evidence)
  {
    hide Batch, Executed, RecordBatch, CompleteAt, DeriveResult, Stored, VerifyTrace, Inputs, Reproducible, Valid, Fetched, Readable,
      EvidenceIn, TracesIn, RequiredComplete, Named;
    RunIsStored(s0, rules, evidence, at, done, s);
    StoredAcceptedExactly(s, Batch(s0, Executed(s0.required, rules, evidence, at)).value, b, rules, evidence);
    BindingNames(s0, evidence);
    InputsAreTheRuns(b.objects, TraceOf(s), evidence);
  }

  /** The decision is one the aggregate can record: a known status, codes as reasons, and none exactly for PASS. */
  predicate Recordable(id: string, d: RuleDecision, at: Time)
  {
    NormalizeOutcome(RuleOutcome(id, d.status, d.reasons, at)).Ok?
  }

  lemma ExecutedIsAccepted(s0: Aggregate, rules: Rules, evidence: seq<Evidence>, at: Time)
    requires GoodPlan(s0.required) && AllDecide(s0.required, rules, evidence) && s0.outcomes == [] && !Earlier(at, s0.startedAt)
    requires forall i :: 0 <= i < |s0.required| ==> Recordable(s0.required[i], rules(s0.required[i], evidence).value, at)
    ensures Accepted(s0, Executed(s0.required, rules, evidence, at))
  {
    hide NormalizeOutcome, Earlier, Recorded;
    var os := Executed(s0.required, rules, evidence, at);
    NothingRecorded(s0);
    forall o | o in os ensures Acceptable(s0, o) && NormalizeOutcome(o).value.ruleID == o.ruleID {
      var i :| 0 <= i < |os| && os[i] == o;
      assert s0.required[i] in s0.required && Recordable(s0.required[i], rules(s0.required[i], evidence).value, at);
      ExecutedIsNormalized(s0.required[i], rules(s0.required[i], evidence).value, at);
      ExecutedIsTimed(o);
    }
    forall o, p | o in os && p in os ensures Agree(o, p) {
      var i :| 0 <= i < |os| && os[i] == o;
      var j :| 0 <= j < |os| && os[j] == p;
      assert i == j || s0.required[i] != s0.required[j];
    }
  }

  lemma ExecutedIsTimed(o: RuleOutcome)
    requires NormalizeOutcome(o).Ok?
    ensures NormalizeOutcome(o).value.evaluatedAt == o.evaluatedAt
  {
    hide NormalizeReasons, TrimSpace;
  }

  lemma ListedIsRecorded(m: map<string, RuleOutcome>, id: string)
    requires (forall k :: k in m ==> m[k].ruleID == k) && id in m
    ensures Recorded(Listing(m), id) && Listing(m) != []
  {
    hide Listing, Keys;
    var l := Listing(m);
    ListingMembers(m, id);
    var i :| 0 <= i < |l| && l[i] == m[id];
    if !Recorded(l, id) {
      UnrecordedHasNone(l, id, i);
    }
  }

  lemma UnrecordedHasNone(os: seq<RuleOutcome>, id: string, i: nat)
    requires i < |os| && os[i].ruleID == id
    ensures Recorded(os, id)
  {
  }

  lemma AllPending(s0: Aggregate, m: map<string, RuleOutcome>)
    requires s0.outcomes == []
    ensures Pending(s0, m) == Listing(m) && s0.outcomes + Listing(m) == Listing(m)
  {
    hide Listing, Recorded;
    NothingRecorded(s0);
    assert (map id | id in m && !Recorded(s0.outcomes, id) :: m[id]) == m;
  }

  lemma FirstBatch(s0: Aggregate, os: seq<RuleOutcome>, at: Time, m: map<string, RuleOutcome>)
    requires s0.phase == Running && s0.outcomes == [] && os != [] && at != 0 && !Earlier(at, s0.startedAt)
    requires Batch(s0, os) == Ok(m) && Listing(m) != []
    ensures RecordBatch(s0, os, at) == Change(s0.(outcomes := Listing(m)), RuleOutcomeBatchRecorded(Listing(m), at))
  {
    hide Listing, Keys, Earlier, Pending;
    AllPending(s0, m);
  }

  lemma BatchIsStored(s0: Aggregate, rules: Rules, evidence: seq<Evidence>, at: Time)
    requires GoodPlan(s0.required) && AllDecide(s0.required, rules, evidence) && s0.required != [] && s0.phase == Running && s0.outcomes == []
    requires at != 0 && !Earlier(at, s0.startedAt) && Batch(s0, Executed(s0.required, rules, evidence, at)).Ok?
    ensures var r := RecordBatch(s0, Executed(s0.required, rules, evidence, at), at);
      r.error.None? && r.next.outcomes != [] && RequiredComplete(r.next) && r.next.phase == Running && r.next.startedAt == s0.startedAt
  {
    hide Batch, Executed, Listing, Keys, Recorded, Earlier, RecordBatch, Follows, GoodPlan;
    var os := Executed(s0.required, rules, evidence, at);
    var m := Batch(s0, os).value;
    ExecutedOutcomes(s0, rules, evidence, at, m);
    forall i | 0 <= i < |s0.required| ensures Recorded(Listing(m), s0.required[i]) && Listing(m) != [] {
      assert s0.required[i] in s0.required;
      ListedIsRecorded(m, s0.required[i]);
    }
    assert Recorded(Listing(m), s0.required[0]);
    FirstBatch(s0, os, at, m);
  }

  /** Honest runs happen: any running evaluation the executor accepts, with a plan and with decisions that can be
      recorded, gets through execution and completion at any times from its start on. */
  lemma HonestRunsHappen(s0: Aggregate, rules: Rules, evidence: seq<Evidence>, at: Time, done: Time)
    requires Executable(s0, rules, evidence) && s0.phase == Running && s0.required != []
    requires at != 0 && !Earlier(at, s0.startedAt) && done != 0 && !Earlier(done, s0.startedAt)
    requires forall i :: 0 <= i < |s0.required| ==> Recordable(s0.required[i], rules(s0.required[i], evidence).value, at)
    ensures exists s :: HonestRun(s0, rules, evidence, at, done, s)
  {
    hide Valid, Batch, Executed, RecordBatch, CompleteAt, DeriveResult, RequiredComplete, Earlier, GoodPlan, Recordable, Accepted, Fetched;
    PlanIsGood(s0);
    var os := Executed(s0.required, rules, evidence, at);
    ExecutedIsAccepted(s0, rules, evidence, at);
    BatchAccepts(s0, os);
    BatchIsStored(s0, rules, evidence, at);
    RecordManyKeepsValid(s0, os, at);
    var s1 := RecordBatch(s0, os, at).next;
    DeriveFailsOnlyWhenIncomplete(s1);
    DerivedResultCompletes(s1, done);
    var d := DeriveResult(s1).value;
    var r := CompleteAt(s1, d.0, d.1, done);
    assert r == Reply(r.next, r.emitted, None);
    assert HonestRun(s0, rules, evidence, at, done, r.next);
  }

  // A refused run ----------------------------------------------------------------------------------

  const OBJECT := Evidence(7, 2, "")

  const EVIDENCE_BINDING := EvidenceBinding(2, Qualified, "1", 3, [], [EvidenceReference(7, Qualified, [])])

  function Zeros(n: nat): (r: string)
    ensures |r| == n && forall i :: 0 <= i < n ==> r[i] == '0'
  {
    if n == 0 then "" else "0" + Zeros(n - 1)
  }

  function ZeroPolicy(): PolicyBinding
  {
    PolicyBinding("p", "1", HASH_PREFIX + Zeros(64), 3)
  }

  const PREPARATION := [OpRegisterRule("b", 3), OpRegisterRule("a", 3), OpBindPolicy(ZeroPolicy()), OpBindEvidence(EVIDENCE_BINDING), OpStart(4)]

  /** Every rule passes. */
  function Passing(id: string, evidence: seq<Evidence>): Result<RuleDecision, RuleError>
  {
    Ok(RuleDecision(Pass, []))
  }

  /** Evaluation 1 of session 2 as created, with the plan "b", "a", bound and started. */
  ghost function Prepared(): Aggregate
  {
    Run(Tracked(Fresh(1, 2, 3), [Event(1, 2, 1, EvaluationCreated(3))]), PREPARATION).body
  }

  lemma ZeroPolicyIsNormal()
    ensures NormalizePolicy(ZeroPolicy()) == Ok(ZeroPolicy())
  {
    var hash := HASH_PREFIX + Zeros(64);
    assert hash[..7] == HASH_PREFIX;
    assert forall i :: 7 <= i < 71 ==> hash[i] == Zeros(64)[i - 7];
    assert !IsSpace(hash[0]) && !IsSpace(hash[70]);
    assert Trimmed(hash) && Trimmed("p") && Trimmed("1");
  }

  lemma EvidenceIsNormal()
    ensures NormalizeEvidence(EVIDENCE_BINDING) == Ok(EVIDENCE_BINDING)
  {
    assert Trimmed("1");
    assert NormalizeReference(EvidenceReference(7, Qualified, [])) == Ok(EvidenceReference(7, Qualified, []));
    var rs := EVIDENCE_BINDING.evidence;
    assert forall i :: 0 <= i < |rs| ==> NormalizeReference(rs[i]) == Ok(rs[i]);
    assert NormalizeReferences(rs).value == rs;
  }

  lemma PlanSteps()
    ensures var s := Fresh(1, 2, 3);
      var b := Apply(s, OpRegisterRule("b", 3)).next; var a := Apply(b, OpRegisterRule("a", 3)).next;
      a == s.(required := ["b", "a"], version := 3)
  {
    hide TrimSpace;
    assert TrimSpace("b") == "b" && TrimSpace("a") == "a" by { assert Trimmed("b") && Trimmed("a"); }
    assert "a" != "b" by { assert "a"[0] != "b"[0]; }
  }

  lemma PreparedIs()
    ensures var s := Prepared();
      && Valid(s) && s.phase == Running && s.startedAt == Some(4) && s.outcomes == [] && s.required == ["b", "a"]
      && s.sessionID == 2 && s.policy == Some(ZeroPolicy()) && s.evidence == Some(EVIDENCE_BINDING)
  {
    hide Apply, Run, Valid, NormalizePolicy, NormalizeEvidence;
    var t := Tracked(Fresh(1, 2, 3), [Event(1, 2, 1, EvaluationCreated(3))]);
    NewIsValid(1, 2, 3);
    RunKeepsValid(t, PREPARATION);
    RunNothing(t);
    RunOneMore(t, [], PREPARATION[0]);
    RunOneMore(t, PREPARATION[..1], PREPARATION[1]);
    RunOneMore(t, PREPARATION[..2], PREPARATION[2]);
    RunOneMore(t, PREPARATION[..3], PREPARATION[3]);
    RunOneMore(t, PREPARATION[..4], PREPARATION[4]);
    assert [] + [PREPARATION[0]] == PREPARATION[..1] && PREPARATION[..1] + [PREPARATION[1]] == PREPARATION[..2]
      && PREPARATION[..2] + [PREPARATION[2]] == PREPARATION[..3] && PREPARATION[..3] + [PREPARATION[3]] == PREPARATION[..4]
      && PREPARATION[..4] + [PREPARATION[4]] == PREPARATION;
    PlanSteps();
    BindingSteps();
  }

  lemma BindingSteps()
    ensures var a := Fresh(1, 2, 3).(required := ["b", "a"], version := 3);
      var p := Apply(a, OpBindPolicy(ZeroPolicy())).next; var e := Apply(p, OpBindEvidence(EVIDENCE_BINDING)).next;
      Apply(e, OpStart(4)).next ==
        a.(policy := Some(ZeroPolicy()), evidence := Some(EVIDENCE_BINDING), phase := Running, startedAt := Some(4), version := 6)
  {
    hide NormalizePolicy, NormalizeEvidence;
    ZeroPolicyIsNormal();
    EvidenceIsNormal();
  }

  /** The plainest bundle of a run: the trace, then the evidence. */
  function BundleOf(s: Aggregate, evidence: seq<Evidence>): Bundle
    requires s.policy.Some?
  {
    Bundle(s.id, s.sessionID, PolicyDocument(ReferenceTo(s.policy.value), s.required, None),
           [TraceObject(Some(TraceOf(s)))] + seq(|evidence|, i requires 0 <= i < |evidence| => EvidenceObject(Some(evidence[i]), true)))
  }

  lemma {:induction false} BundleHolds(t: Trace, evidence: seq<Evidence>)
    ensures var objects := [TraceObject(Some(t))] + seq(|evidence|, i requires 0 <= i < |evidence| => EvidenceObject(Some(evidence[i]), true));
      Readable(objects) && TracesIn(objects) == [t] && EvidenceIn(objects) == evidence
  {
    var objects := [TraceObject(Some(t))] + seq(|evidence|, i requires 0 <= i < |evidence| => EvidenceObject(Some(evidence[i]), true));
    var n := |evidence|;
    if n == 0 {
      assert objects == [TraceObject(Some(t))] && objects[..0] == [];
    } else {
      BundleHolds(t, evidence[..n - 1]);
      var front := [TraceObject(Some(t))] + seq(n - 1, i requires 0 <= i < n - 1 => EvidenceObject(Some(evidence[..n - 1][i]), true));
      assert objects[..n] == front;
      assert evidence == evidence[..n - 1] + [evidence[n - 1]];
    }
  }

  lemma BundleIsHonest(s: Aggregate, evidence: seq<Evidence>)
    requires s.policy.Some?
    ensures HonestBundle(BundleOf(s, evidence), s, evidence)
  {
    hide Readable, TracesIn, EvidenceIn, TraceOf;
    BundleHolds(TraceOf(s), evidence);
  }

  lemma RunKeepsPolicy(s0: Aggregate, rules: Rules, evidence: seq<Evidence>, at: Time, done: Time, s: Aggregate)
    requires HonestRun(s0, rules, evidence, at, done, s)
    ensures s.policy == s0.policy
  {
    hide Batch, Executed, RecordBatch, CompleteAt, DeriveResult, Stored, Valid, Fetched;
    RunIsStored(s0, rules, evidence, at, done, s);
  }

  /** A run of two passing rules planned as "b", "a" that is refused. */
  lemma DescendingPlanIsRefused()
    ensures exists s :: HonestRun(Prepared(), Passing, [OBJECT], 5, 6, s) && s.policy.Some? && VerifyBundle(BundleOf(s, [OBJECT]), Passing) != None
  {
    hide HonestRun, HonestBundle, VerifyBundle, Valid, Prepared, BundleOf;
    PreparedIs();
    PassesAreRecordable(5);
    HonestRunsHappen(Prepared(), Passing, [OBJECT], 5, 6);
    var s :| HonestRun(Prepared(), Passing, [OBJECT], 5, 6, s);
    RunKeepsPolicy(Prepared(), Passing, [OBJECT], 5, 6, s);
    BundleIsHonest(s, [OBJECT]);
    HonestRunAcceptedExactly(Prepared(), Passing, [OBJECT], 5, 6, s, BundleOf(s, [OBJECT]));
    assert !Before(Prepared().required[0], Prepared().required[1]);
  }

  lemma PassesAreRecordable(at: Time)
    requires at != 0
    ensures Recordable("b", RuleDecision(Pass, []), at) && Recordable("a", RuleDecision(Pass, []), at)
  {
    assert Trimmed("b") && Trimmed("a");
  }
}
