/**
  Why a SEQUENCE rule does not pass, exactly: the operator gets through the first steps along
  the leftmost embedding, and the first step with a fault gives the answer.
 */
module SequenceAnswers {
  import opened Prelude
  import opened JsonPointer
  import opened SequenceOperator

  /** Where the search for the next step begins. */
  function From(e: seq<nat>): nat
  {
    if e == [] then 0 else e[|e| - 1] + 1
  }

  function Times(ordered: seq<Item>, e: seq<nat>): Context
    requires Within(ordered, e)
  {
    if e == [] then Start else After(ordered[e[0]].observedAt, ordered[e[|e| - 1]].observedAt)
  }

  /** The first steps are chosen as early as possible, and all of them are good. */
  ghost predicate Reaches(ordered: seq<Item>, r: Rule, e: seq<nat>)
  {
    && |e| <= |r.steps| && Within(ordered, e)
    && Embeds(ordered, r.steps[..|e|], 0, e) && Leftmost(ordered, r.steps[..|e|], e)
    && forall i :: 0 <= i < |e| ==> GoodStep(ordered, r, e, i)
  }

  /** The first match of the next step after those chosen. */
  ghost predicate NextIs(ordered: seq<Item>, r: Rule, e: seq<nat>, j: nat)
    requires |e| < |r.steps|
  {
    && From(e) <= j < |ordered| && Matches(ordered[j], r.steps[|e|].selector)
    && forall l :: From(e) <= l < j ==> !Matches(ordered[l], r.steps[|e|].selector)
  }

  predicate TooLate(ordered: seq<Item>, r: Rule, e: seq<nat>, j: nat)
    requires Within(ordered, e) && j < |ordered|
  {
    e != [] && r.maxGap > 0 && Sub(ordered[j].observedAt, ordered[e[|e| - 1]].observedAt) > r.maxGap
  }

  predicate TooLong(ordered: seq<Item>, r: Rule, e: seq<nat>, j: nat)
    requires Within(ordered, e) && j < |ordered|
  {
    e != [] && r.maxDuration > 0 && Sub(ordered[j].observedAt, ordered[e[0]].observedAt) > r.maxDuration
  }

  /** What is wrong with the item found for the next step; the value is looked at before the windows. */
  predicate Faulty(ordered: seq<Item>, r: Rule, e: seq<nat>, j: nat, d: Decision)
    requires |e| < |r.steps| && Within(ordered, e) && j < |ordered|
  {
    var item, step := ordered[j], r.steps[|e|];
    match d
    case Inconclusive(EvidenceInvalid) => item.payload.None?
    case Inconclusive(FieldNotFound) => item.payload.Some? && Resolve(item.payload.value, step.selector.pointer).None?
    case Fail(ValueMismatch) =>
      && item.payload.Some? && Resolve(item.payload.value, step.selector.pointer).Some?
      && Resolve(item.payload.value, step.selector.pointer).value != step.expected
    case Fail(GapExceeded) => Shows(item, step) && TooLate(ordered, r, e, j)
    case Fail(DurationExceeded) => Shows(item, step) && !TooLate(ordered, r, e, j) && TooLong(ordered, r, e, j)
    case _ => false
  }

  /** Nothing matches the next step from there on: out of order if something matches it at all, else incomplete. */
  ghost predicate Exhausted(ordered: seq<Item>, r: Rule, e: seq<nat>, d: Decision)
    requires |e| < |r.steps|
  {
    var selector := r.steps[|e|].selector;
    && (forall l :: From(e) <= l < |ordered| ==> !Matches(ordered[l], selector))
    && d == if exists l :: 0 <= l < |ordered| && Matches(ordered[l], selector) then Fail(OrderInvalid) else Inconclusive(Incomplete)
  }

  ghost predicate Stops(ordered: seq<Item>, r: Rule, e: seq<nat>, d: Decision)
  {
    && |e| < |r.steps| && Reaches(ordered, r, e)
    && (Exhausted(ordered, r, e, d) || exists j :: 0 <= j < |ordered| && NextIs(ordered, r, e, j) && Faulty(ordered, r, e, j, d))
  }

  // One more step --------------------------------------------------------------------------------

  lemma GreedyMeans(ordered: seq<Item>, steps: seq<Step>, e: seq<nat>)
    ensures Greedy(ordered, steps, 0) == Some(e) <==> Embeds(ordered, steps, 0, e) && Leftmost(ordered, steps, e)
  {
    hide Greedy, Embeds, Leftmost;
    var g := Greedy(ordered, steps, 0);
    if g.Some? {
      GreedyEmbeds(ordered, steps, 0);
      GreedyLeftmost(ordered, steps);
    }
    if Embeds(ordered, steps, 0, e) && Leftmost(ordered, steps, e) {
      GreedyIsLeftmost(ordered, steps, 0, e);
      LeftmostIsUnique(ordered, steps, g.value, e);
    }
  }

  function FromOr(start: nat, e: seq<nat>): nat
  {
    if e == [] then start else From(e)
  }

  lemma {:induction false} GreedySnoc(ordered: seq<Item>, steps: seq<Step>, s: Step, start: nat)
    requires Greedy(ordered, steps, start).Some?
    ensures var e := Greedy(ordered, steps, start).value; var k := NextMatch(ordered, s.selector, FromOr(start, e));
      Greedy(ordered, steps + [s], start) == if k < 0 then None else Some(e + [k])
  {
    hide NextMatch;
    if steps == [] {
      var k := NextMatch(ordered, s.selector, start);
      assert (steps + [s])[1..] == [] && (steps + [s])[0] == s;
      assert k >= 0 ==> Greedy(ordered, [], k + 1) == Some([]) && [k] + [] == [] + [k];
    } else {
      var k := NextMatch(ordered, steps[0].selector, start);
      var rest := Greedy(ordered, steps[1..], k + 1).value;
      assert (steps + [s])[1..] == steps[1..] + [s] && (steps + [s])[0] == steps[0];
      GreedySnoc(ordered, steps[1..], s, k + 1);
      assert FromOr(k + 1, rest) == FromOr(start, [k] + rest);
      var l := NextMatch(ordered, s.selector, FromOr(k + 1, rest));
      assert l >= 0 ==> [k] + (rest + [l]) == ([k] + rest) + [l];
    }
  }

  /** The item found for the next step extends what was reached, if there is nothing wrong with it. */
  lemma Extends(ordered: seq<Item>, r: Rule, e: seq<nat>, k: nat)
    requires ValidRule(r) && |e| < |r.steps| && Reaches(ordered, r, e)
    requires NextMatch(ordered, r.steps[|e|].selector, From(e)) == k && k < |ordered|
    requires Shows(ordered[k], r.steps[|e|]) && !TooLate(ordered, r, e, k) && !TooLong(ordered, r, e, k)
    ensures Reaches(ordered, r, e + [k])
  {
    hide Greedy, Embeds, Leftmost, NextMatch, Shows;
    var n := |e|;
    GreedyMeans(ordered, r.steps[..n], e);
    GreedySnoc(ordered, r.steps[..n], r.steps[n], 0);
    assert r.steps[..n] + [r.steps[n]] == r.steps[..n + 1];
    GreedyMeans(ordered, r.steps[..n + 1], e + [k]);
    forall i | 0 <= i < n + 1 ensures GoodStep(ordered, r, e + [k], i) {
      if i < n {
        assert GoodStep(ordered, r, e, i);
      } else {
        assert Sub(ordered[k].observedAt, ordered[k].observedAt) == 0;
      }
    }
  }

  lemma Shortened(ordered: seq<Item>, r: Rule, e: seq<nat>)
    requires Reaches(ordered, r, e) && e != []
    ensures var n := |e| - 1;
      && Reaches(ordered, r, e[..n]) && NextMatch(ordered, r.steps[n].selector, From(e[..n])) == e[n]
  {
    hide Greedy, Embeds, Leftmost, NextMatch, Shows;
    var n := |e| - 1;
    GreedyMeans(ordered, r.steps[..n + 1], e);
    assert r.steps[..n] + [r.steps[n]] == r.steps[..n + 1];
    GreedyPrefix(ordered, r.steps[..n], r.steps[n], 0);
    GreedySnoc(ordered, r.steps[..n], r.steps[n], 0);
    var front := Greedy(ordered, r.steps[..n], 0).value;
    assert e[..n] == front;
    GreedyMeans(ordered, r.steps[..n], front);
    forall i | 0 <= i < n ensures GoodStep(ordered, r, e[..n], i) {
      assert GoodStep(ordered, r, e, i);
    }
  }

  lemma {:induction false} GreedyPrefix(ordered: seq<Item>, steps: seq<Step>, s: Step, start: nat)
    requires Greedy(ordered, steps + [s], start).Some?
    ensures Greedy(ordered, steps, start).Some?
  {
    hide NextMatch;
    if steps != [] {
      assert (steps + [s])[1..] == steps[1..] + [s] && (steps + [s])[0] == steps[0];
      GreedyPrefix(ordered, steps[1..], s, NextMatch(ordered, steps[0].selector, start) + 1);
    }
  }

  /** The decision on what is left, after the steps reached. */
  function Left(ordered: seq<Item>, r: Rule, e: seq<nat>): Decision
    requires |e| <= |r.steps| && Within(ordered, e)
  {
    EvaluateFrom(ordered, r, r.steps[|e|..], From(e), Times(ordered, e))
  }

  lemma LeftUnfolds(ordered: seq<Item>, r: Rule, e: seq<nat>)
    requires ValidRule(r) && |e| < |r.steps| && Within(ordered, e)
    ensures var step := r.steps[|e|]; var k := NextMatch(ordered, step.selector, From(e));
      && (k < 0 ==>
            Left(ordered, r, e) == if NextMatch(ordered, step.selector, 0) >= 0 then Fail(OrderInvalid) else Inconclusive(Incomplete))
      && (k >= 0 && Judge(ordered[k], step).Some? ==> Left(ordered, r, e) == Judge(ordered[k], step).value)
      && (k >= 0 && Judge(ordered[k], step).None? && TooLate(ordered, r, e, k) ==> Left(ordered, r, e) == Fail(GapExceeded))
      && (k >= 0 && Judge(ordered[k], step).None? && !TooLate(ordered, r, e, k) && TooLong(ordered, r, e, k) ==>
            Left(ordered, r, e) == Fail(DurationExceeded))
      && (k >= 0 && Judge(ordered[k], step).None? && !TooLate(ordered, r, e, k) && !TooLong(ordered, r, e, k) ==>
            Left(ordered, r, e) == Left(ordered, r, e + [k]))
  {
    hide NextMatch, Judge, Matches;
    var n := |e|;
    var k := NextMatch(ordered, r.steps[n].selector, From(e));
    assert r.steps[n..][1..] == r.steps[n + 1..] && r.steps[n..][0] == r.steps[n];
    if k >= 0 {
      var at := ordered[k].observedAt;
      assert Sub(at, at) == 0;
      assert First(Times(ordered, e), at) == if e == [] then at else ordered[e[0]].observedAt;
    }
  }

  /** The steps reached are behind the operator: the answer is that on what is left. */
  lemma {:induction false} Advances(ordered: seq<Item>, r: Rule, e: seq<nat>)
    requires ValidRule(r) && Reaches(ordered, r, e)
    ensures EvaluateFrom(ordered, r, r.steps, 0, Start) == Left(ordered, r, e)
  {
    hide Reaches, Left, NextMatch, Judge, Shows, Greedy, EvaluateFrom;
    if e == [] {
      NothingDone(ordered, r);
    } else {
      var n := |e| - 1;
      Shortened(ordered, r, e);
      ReachedWithin(ordered, r, e);
      ReachedWithin(ordered, r, e[..n]);
      Advances(ordered, r, e[..n]);
      LeftUnfolds(ordered, r, e[..n]);
      JudgeExactly(ordered[e[n]], r.steps[n]);
      assert e[..n] + [e[n]] == e;
      LastIsGood(ordered, r, e);
    }
  }

  lemma NothingDone(ordered: seq<Item>, r: Rule)
    ensures EvaluateFrom(ordered, r, r.steps, 0, Start) == Left(ordered, r, [])
  {
    assert r.steps[0..] == r.steps;
  }

  lemma ReachedWithin(ordered: seq<Item>, r: Rule, e: seq<nat>)
    requires Reaches(ordered, r, e)
    ensures |e| <= |r.steps| && Within(ordered, e)
  {
  }

  lemma LastIsGood(ordered: seq<Item>, r: Rule, e: seq<nat>)
    requires Reaches(ordered, r, e) && e != [] && Within(ordered, e) && Within(ordered, e[..|e| - 1])
    ensures var n := |e| - 1;
      && Shows(ordered[e[n]], r.steps[n]) && !TooLate(ordered, r, e[..n], e[n]) && !TooLong(ordered, r, e[..n], e[n])
  {
    hide Shows, Embeds, Leftmost;
    assert GoodStep(ordered, r, e, |e| - 1);
  }

  // The theorem ----------------------------------------------------------------------------------

  lemma SearchMeans(ordered: seq<Item>, r: Rule, e: seq<nat>)
    requires |e| < |r.steps|
    ensures var selector := r.steps[|e|].selector; var k := NextMatch(ordered, selector, From(e));
      && (k < 0 <==> forall l :: From(e) <= l < |ordered| ==> !Matches(ordered[l], selector))
      && (NextMatch(ordered, selector, 0) >= 0 <==> exists l :: 0 <= l < |ordered| && Matches(ordered[l], selector))
      && (forall j :: 0 <= j < |ordered| ==> (NextIs(ordered, r, e, j) <==> k == j))
  {
    hide NextMatch, Matches;
    var selector := r.steps[|e|].selector;
    NextMatchFinds(ordered, selector, From(e));
    NextMatchFinds(ordered, selector, 0);
  }

  lemma StopAnswers(ordered: seq<Item>, r: Rule, e: seq<nat>, d: Decision)
    requires ValidRule(r) && Stops(ordered, r, e, d)
    ensures Left(ordered, r, e) == d
  {
    hide NextMatch, Judge, Shows, Left, Reaches, Matches, NextIs, Resolve;
    ReachedWithin(ordered, r, e);
    LeftUnfolds(ordered, r, e);
    SearchMeans(ordered, r, e);
    if !Exhausted(ordered, r, e, d) {
      var j :| 0 <= j < |ordered| && NextIs(ordered, r, e, j) && Faulty(ordered, r, e, j, d);
      JudgeExactly(ordered[j], r.steps[|e|]);
    }
  }

  lemma {:induction false} FindStop(ordered: seq<Item>, r: Rule, e: seq<nat>) returns (f: seq<nat>)
    requires ValidRule(r) && Reaches(ordered, r, e) && |e| <= |r.steps| && Within(ordered, e) && Left(ordered, r, e) != Pass
    ensures Stops(ordered, r, f, Left(ordered, r, e))
    decreases |r.steps| - |e|
  {
    hide NextMatch, Judge, Shows, Left, Reaches, Matches, NextIs, Resolve;
    if |e| == |r.steps| {
      AllDone(ordered, r, e);
    } else {
      LeftUnfolds(ordered, r, e);
      SearchMeans(ordered, r, e);
      var k := NextMatch(ordered, r.steps[|e|].selector, From(e));
      f := e;
      if k >= 0 {
        JudgeExactly(ordered[k], r.steps[|e|]);
        if Shows(ordered[k], r.steps[|e|]) && !TooLate(ordered, r, e, k) && !TooLong(ordered, r, e, k) {
          Extends(ordered, r, e, k);
          f := FindStop(ordered, r, e + [k]);
        } else {
          JudgedFaults(ordered, r, e, k);
          assert NextIs(ordered, r, e, k) && Faulty(ordered, r, e, k, Left(ordered, r, e));
        }
      }
    }
  }

  lemma AllDone(ordered: seq<Item>, r: Rule, e: seq<nat>)
    requires |e| == |r.steps| && Within(ordered, e)
    ensures Left(ordered, r, e) == Pass
  {
    assert r.steps[|e|..] == [];
  }

  /** What is said of a value is one of the three faults. */
  lemma JudgedFaults(ordered: seq<Item>, r: Rule, e: seq<nat>, k: nat)
    requires |e| < |r.steps| && Within(ordered, e) && k < |ordered|
    ensures var j := Judge(ordered[k], r.steps[|e|]); j.Some? ==> Faulty(ordered, r, e, k, j.value)
  {
    hide Resolve;
  }

  /** For every rule and all evidence, an answer other than PASS is given exactly if the leftmost choice gets through
      some first steps and then stops for just that reason. */
  lemma AnswersExactly(r: Rule, evidence: seq<Item>, d: Decision)
    requires ValidRule(r) && d != Pass
    ensures Evaluate(r, evidence) == d <==> exists e :: Stops(Ordered(evidence), r, e, d)
  {
    hide Stops, Ordered, EvaluateFrom, Left, Reaches;
    var ordered := Ordered(evidence);
    NothingReached(ordered, r);
    NothingDone(ordered, r);
    if Evaluate(r, evidence) == d {
      var e := FindStop(ordered, r, []);
      assert Stops(ordered, r, e, d);
    }
    if e :| Stops(ordered, r, e, d) {
      StopReaches(ordered, r, e, d);
      Advances(ordered, r, e);
      StopAnswers(ordered, r, e, d);
    }
  }

  lemma StopReaches(ordered: seq<Item>, r: Rule, e: seq<nat>, d: Decision)
    requires Stops(ordered, r, e, d)
    ensures Reaches(ordered, r, e) && |e| < |r.steps| && Within(ordered, e)
  {
  }

  lemma NothingReached(ordered: seq<Item>, r: Rule)
    ensures Reaches(ordered, r, [])
  {
    assert r.steps[..0] == [];
  }
}
