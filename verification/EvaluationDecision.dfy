/**
  Deriving the result of an evaluation from its rule outcomes: the verdict is the worst
  status recorded, whatever the order, and the aggregate accepts it for completion.
 */
module EvaluationDecision {
  import opened Prelude
  import opened Sorting
  import opened Evaluation
  import opened EvaluationInvariant

  function Join(verdict: Verdict, status: Status): Verdict
  {
    match status
    case Fail => Rejected
    case Inconclusive => if verdict != Rejected then ManualReview else verdict
    case Warning => if verdict == Verified then VerifiedWithException else verdict
    case _ => verdict
  }

  function VerdictOf(os: seq<RuleOutcome>): Verdict
  {
    if os == [] then Verified else Join(VerdictOf(os[..|os| - 1]), os[|os| - 1].status)
  }

  function ReasonsOf(os: seq<RuleOutcome>): seq<string>
  {
    if os == [] then []
    else
      var o := os[|os| - 1];
      ReasonsOf(os[..|os| - 1]) + if o.status.Fail? || o.status.Inconclusive? || o.status.Warning? then o.reasons else []
  }

  function DeriveResult(s: Aggregate): Result<(Verdict, seq<string>), Error>
  {
    if !RequiredComplete(s) then Err(RequiredRulesIncomplete)
    else if s.outcomes == [] then Err(InvalidRuleOutcome)
    else
      match NormalizeReasons(ReasonsOf(s.outcomes))
      case Err(e) => Err(e)
      case Ok(reasons) => Ok((VerdictOf(s.outcomes), reasons))
  }

  // The verdict is the worst status ------------------------------------------------------

  ghost predicate Has(os: seq<RuleOutcome>, status: Status)
  {
    exists i :: 0 <= i < |os| && os[i].status == status
  }

  /** The severity order, without any fold: reject, else review, else except, else verify. */
  ghost function Worst(os: seq<RuleOutcome>): Verdict
  {
    if Has(os, Fail) then Rejected
    else if Has(os, Inconclusive) then ManualReview
    else if Has(os, Warning) then VerifiedWithException
    else Verified
  }

  lemma {:induction false} VerdictIsWorst(os: seq<RuleOutcome>)
    ensures VerdictOf(os) == Worst(os)
  {
    if os != [] {
      var n := |os| - 1;
      VerdictIsWorst(os[..n]);
      forall status ensures Has(os, status) <==> Has(os[..n], status) || os[n].status == status {
        if Has(os[..n], status) {
          var i :| 0 <= i < n && os[..n][i].status == status;
          assert os[i].status == status;
        }
        if Has(os, status) && os[n].status != status {
          var i :| 0 <= i < |os| && os[i].status == status;
          assert os[..n][i].status == status;
        }
      }
    }
  }

  lemma HasIgnoresOrder(os: seq<RuleOutcome>, ps: seq<RuleOutcome>, status: Status)
    requires multiset(os) == multiset(ps)
    ensures Has(os, status) ==> Has(ps, status)
  {
    InMultiset(os, ps);
    if Has(os, status) {
      var i :| 0 <= i < |os| && os[i].status == status;
      assert os[i] in ps;
      var j :| 0 <= j < |ps| && ps[j] == os[i];
    }
  }

  /** The order in which outcomes were recorded does not change the verdict. */
  lemma VerdictIgnoresOrder(os: seq<RuleOutcome>, ps: seq<RuleOutcome>)
    requires multiset(os) == multiset(ps)
    ensures VerdictOf(os) == VerdictOf(ps)
  {
    VerdictIsWorst(os);
    VerdictIsWorst(ps);
    forall status ensures Has(os, status) == Has(ps, status) {
      HasIgnoresOrder(os, ps, status);
      HasIgnoresOrder(ps, os, status);
    }
  }

  /** The reasons are those of every outcome that did not pass, and no others. */
  lemma {:induction false} ReasonsAreCollected(os: seq<RuleOutcome>, code: string)
    ensures code in ReasonsOf(os) <==> Gives(os, code)
  {
    if os != [] {
      var n := |os| - 1;
      ReasonsAreCollected(os[..n], code);
      if Gives(os[..n], code) {
        var i :| 0 <= i < n && Counts(os[..n][i]) && code in os[..n][i].reasons;
        assert Counts(os[i]) && code in os[i].reasons;
      }
      if i :| 0 <= i < n && Counts(os[i]) && code in os[i].reasons {
        assert Counts(os[..n][i]) && code in os[..n][i].reasons;
      }
    }
  }

  predicate Counts(o: RuleOutcome)
  {
    o.status == Fail || o.status == Inconclusive || o.status == Warning
  }

  ghost predicate Gives(os: seq<RuleOutcome>, code: string)
  {
    exists i :: 0 <= i < |os| && Counts(os[i]) && code in os[i].reasons
  }

  // Completion accepts what was derived ----------------------------------------------------

  ghost predicate AllCodes(xs: seq<string>)
  {
    forall i :: 0 <= i < |xs| ==> Text.IsCode(xs[i])
  }

  lemma {:induction false} ReasonsOfGood(os: seq<RuleOutcome>, startedAt: Option<Time>)
    requires forall i :: 0 <= i < |os| ==> GoodOutcome(os[i], startedAt)
    ensures AllCodes(ReasonsOf(os))
    ensures ReasonsOf(os) == [] <==> VerdictOf(os) == Verified
  {
    hide NormalizeOutcome, GoodOutcome;
    if os != [] {
      var n := |os| - 1;
      ReasonsOfGood(os[..n], startedAt);
      NormalOutcomeReasons(os[n], startedAt);
    }
  }

  lemma NormalOutcomeReasons(o: RuleOutcome, startedAt: Option<Time>)
    requires GoodOutcome(o, startedAt)
    ensures AllCodes(o.reasons) && ValidStatus(o.status) && (o.status == Pass <==> o.reasons == [])
  {
    hide NormalizeReasons;
    NormalizedReasonsAreNormal(o.reasons);
  }

  lemma {:induction false} CodesNormalize(xs: seq<string>)
    requires AllCodes(xs)
    ensures NormalizeReasons(xs).Ok?
    ensures NormalizeReasons(xs).value == [] <==> xs == []
  {
    if xs != [] {
      var n := |xs| - 1;
      CodesNormalize(xs[..n]);
      Text.CodesAreCanonical(xs[n]);
    }
  }

  /** In a valid state derivation fails only for missing rules or missing outcomes. */
  lemma DeriveFailsOnlyWhenIncomplete(s: Aggregate)
    requires Valid(s)
    ensures DeriveResult(s).Ok? <==> RequiredComplete(s) && s.outcomes != []
  {
    hide RequiredComplete, NormalizeReasons, GoodOutcome;
    ReasonsOfGood(s.outcomes, s.startedAt);
    CodesNormalize(ReasonsOf(s.outcomes));
  }

  /** Whatever a running evaluation derives, it accepts at any time from its start on. */
  lemma DerivedResultCompletes(s: Aggregate, at: Time)
    requires Valid(s) && s.phase == Running && DeriveResult(s).Ok?
    requires at != 0 && !Earlier(at, s.startedAt)
    ensures CompleteAt(s, DeriveResult(s).value.0, DeriveResult(s).value.1, at).error.None?
    ensures CompleteAt(s, DeriveResult(s).value.0, DeriveResult(s).value.1, at).next.verdict == Worst(s.outcomes)
  {
    hide RequiredComplete, GoodOutcome, NormalizeReasons;
    var reasons := DeriveResult(s).value.1;
    ReasonsOfGood(s.outcomes, s.startedAt);
    CodesNormalize(ReasonsOf(s.outcomes));
    NormalizedReasonsAreNormal(ReasonsOf(s.outcomes));
    NormalizedReasonsAreNormal(reasons);
    VerdictIsWorst(s.outcomes);
  }
}
