/**
  The SEQUENCE rule: the evidence, in order of time, must contain the steps one after the
  other. The operator takes the first match of each step after the previous one, and judges
  the values and the distances of exactly those.
 */
module SequenceOperator {
  import opened Prelude
  import opened Sorting
  import opened JsonPointer

  /** A payload that is not one JSON value is `None`. */
  datatype Item = Item(id: Id, evidenceType: string, sourceID: string, observedAt: Time, payload: Option<Json>)

  datatype Selector = Selector(evidenceType: string, sourceID: string, pointer: string)

  /** Comparing the marshalled bytes of two decoded values is comparing the values. */
  datatype Step = Step(selector: Selector, expected: Json)

  datatype Reason =
    | EvidenceInvalid | FieldNotFound | Incomplete | OrderInvalid | ValueMismatch | GapExceeded | DurationExceeded

  datatype Decision = Pass | Fail(reason: Reason) | Inconclusive(reason: Reason)

  /** A window of zero is no limit. */
  datatype Rule = Rule(steps: seq<Step>, maxGap: int, maxDuration: int)

  predicate ValidRule(r: Rule)
  {
    |r.steps| >= 2 && 0 <= r.maxGap <= MAX_DURATION && 0 <= r.maxDuration <= MAX_DURATION
  }

  predicate ObservedBefore(a: Item, b: Item)
  {
    if a.observedAt == b.observedAt then a.id < b.id else a.observedAt < b.observedAt
  }

  predicate Matches(item: Item, s: Selector)
  {
    item.evidenceType == s.evidenceType && (s.sourceID == "" || item.sourceID == s.sourceID)
  }

  /** The first match at or after `start`, or -1. */
  function NextMatch(ordered: seq<Item>, s: Selector, start: nat): (k: int)
    ensures k == -1 || start <= k < |ordered|
    decreases |ordered| - start
  {
    if start >= |ordered| then -1 else if Matches(ordered[start], s) then start else NextMatch(ordered, s, start + 1)
  }

  method NextMatchingEvidence(ordered: seq<Item>, s: Selector, start: nat) returns (index: int)
    ensures index == NextMatch(ordered, s, start)
    ensures index >= 0 ==>
      && start <= index < |ordered| && ordered[index].evidenceType == s.evidenceType
      && (s.sourceID != "" ==> ordered[index].sourceID == s.sourceID)
    ensures forall j :: start <= j < (if index < 0 then |ordered| else index) ==>
      ordered[j].evidenceType != s.evidenceType || (s.sourceID != "" && ordered[j].sourceID != s.sourceID)
  {
    NextMatchFinds(ordered, s, start);
    index := start;
    while index < |ordered|
      invariant start <= index
      invariant NextMatch(ordered, s, index) == NextMatch(ordered, s, start)
    {
      if Matches(ordered[index], s) {
        return;
      }
      index := index + 1;
    }
    return -1;
  }

  /** Why the value of a step is not the expected one, if it is not. */
  function Judge(item: Item, step: Step): Option<Decision>
  {
    match item.payload
    case None => Some(Inconclusive(EvidenceInvalid))
    case Some(document) =>
      match Resolve(document, step.selector.pointer)
      case None => Some(Inconclusive(FieldNotFound))
      case Some(value) => if value != step.expected then Some(Fail(ValueMismatch)) else None
  }

  /** The value the step points at is there and is the expected one. */
  predicate Shows(item: Item, step: Step)
  {
    item.payload.Some? && Resolve(item.payload.value, step.selector.pointer) == Some(step.expected)
  }

  lemma JudgeExactly(item: Item, step: Step)
    ensures Judge(item, step).None? <==> Shows(item, step)
    ensures Judge(item, step) == Some(Inconclusive(EvidenceInvalid)) <==> item.payload.None?
    ensures Judge(item, step) == Some(Inconclusive(FieldNotFound)) <==>
      item.payload.Some? && Resolve(item.payload.value, step.selector.pointer).None?
    ensures Judge(item, step) == Some(Fail(ValueMismatch)) <==>
      && item.payload.Some? && Resolve(item.payload.value, step.selector.pointer).Some?
      && Resolve(item.payload.value, step.selector.pointer).value != step.expected
  {
    hide Resolve;
  }

  /** The times of the first and of the previous step, once there is one. */
  datatype Context = Start | After(first: Time, previous: Time)

  function First(c: Context, at: Time): Time
  {
    if c.Start? then at else c.first
  }

  function Windows(r: Rule, c: Context, at: Time): Option<Decision>
  {
    if c.After? && r.maxGap > 0 && Sub(at, c.previous) > r.maxGap then Some(Fail(GapExceeded))
    else if r.maxDuration > 0 && Sub(at, First(c, at)) > r.maxDuration then Some(Fail(DurationExceeded))
    else None
  }

  /** The decision on the remaining steps, looking from `start` on. */
  function EvaluateFrom(ordered: seq<Item>, r: Rule, steps: seq<Step>, start: nat, c: Context): Decision
  {
    if steps == [] then Pass
    else
      var step := steps[0];
      var index := NextMatch(ordered, step.selector, start);
      if index < 0 then
        if NextMatch(ordered, step.selector, 0) >= 0 then Fail(OrderInvalid) else Inconclusive(Incomplete)
      else if Judge(ordered[index], step).Some? then Judge(ordered[index], step).value
      else
        var at := ordered[index].observedAt;
        if Windows(r, c, at).Some? then Windows(r, c, at).value
        else EvaluateFrom(ordered, r, steps[1..], index + 1, After(First(c, at), at))
  }

  /** The evidence in order of time, and of identity where times agree. */
  function Ordered(evidence: seq<Item>): seq<Item>
  {
    StableSort(evidence, ObservedBefore)
  }

  function Evaluate(r: Rule, evidence: seq<Item>): Decision
  {
    EvaluateFrom(Ordered(evidence), r, r.steps, 0, Start)
  }

  lemma {:induction false} NextMatchFinds(ordered: seq<Item>, s: Selector, start: nat)
    ensures var k := NextMatch(ordered, s, start);
      && (k == -1 || (start <= k < |ordered| && Matches(ordered[k], s)))
      && (forall j :: start <= j < |ordered| && Matches(ordered[j], s) ==> 0 <= k <= j)
    decreases |ordered| - start
  {
    if start < |ordered| && !Matches(ordered[start], s) {
      NextMatchFinds(ordered, s, start + 1);
    }
  }

  method EvaluateEvidence(r: Rule, evidence: seq<Item>) returns (d: Decision)
    ensures d == Evaluate(r, evidence)
    ensures ValidRule(r) ==> (d == Pass <==> Fits(r, evidence))
  {
    hide Judge, Ordered, Windows, NextMatch, Fits, ValidRule;
    if ValidRule(r) { PassExactly(r, evidence); }
    var ordered := Ordered(evidence);
    var previousIndex := -1;
    var firstAt, previousAt := 0, 0;
    ghost var c := Start;
    for k := 0 to |r.steps|
      invariant -1 <= previousIndex < |ordered|
      invariant c == if previousIndex < 0 then Start else After(firstAt, previousAt)
      invariant EvaluateFrom(ordered, r, r.steps[k..], previousIndex + 1, c) == EvaluateFrom(ordered, r, r.steps, 0, Start)
    {
      assert r.steps[k..][1..] == r.steps[k + 1..];
      var step := r.steps[k];
      NextMatchFinds(ordered, step.selector, previousIndex + 1);
      var index := NextMatchingEvidence(ordered, step.selector, previousIndex + 1);
      if index < 0 {
        var anywhere := NextMatchingEvidence(ordered, step.selector, 0);
        return if anywhere >= 0 then Fail(OrderInvalid) else Inconclusive(Incomplete);
      }
      var judged := Judge(ordered[index], step);
      if judged.Some? {
        return judged.value;
      }
      var observedAt := ordered[index].observedAt;
      WindowsAre(r, c, observedAt);
      if previousIndex < 0 {
        firstAt := observedAt;
      } else if r.maxGap > 0 && Sub(observedAt, previousAt) > r.maxGap {
        return Fail(GapExceeded);
      }
      if r.maxDuration > 0 && Sub(observedAt, firstAt) > r.maxDuration {
        return Fail(DurationExceeded);
      }
      c := After(firstAt, observedAt);
      previousIndex, previousAt := index, observedAt;
    }
    return Pass;
  }

  lemma WindowsAre(r: Rule, c: Context, at: Time)
    ensures Windows(r, c, at) ==
      if c.After? && r.maxGap > 0 && Sub(at, c.previous) > r.maxGap then Some(Fail(GapExceeded))
      else if r.maxDuration > 0 && Sub(at, First(c, at)) > r.maxDuration then Some(Fail(DurationExceeded)) else None
  {
  }

  // Embeddings -----------------------------------------------------------------------------------

  /** A strictly increasing choice of one matching item for each step, from `start` on. */
  ghost predicate Embeds(ordered: seq<Item>, steps: seq<Step>, start: nat, e: seq<nat>)
  {
    && |e| == |steps|
    && (forall i :: 0 <= i < |e| ==> start <= e[i] < |ordered| && Matches(ordered[e[i]], steps[i].selector))
    && (forall i, j :: 0 <= i < j < |e| ==> e[i] < e[j])
  }

  /** The choice the operator makes, values and windows aside. */
  function Greedy(ordered: seq<Item>, steps: seq<Step>, start: nat): Option<seq<nat>>
  {
    if steps == [] then Some([])
    else
      var k := NextMatch(ordered, steps[0].selector, start);
      if k < 0 then None
      else
        match Greedy(ordered, steps[1..], k + 1)
        case None => None
        case Some(rest) => Some([k] + rest)
  }

  lemma {:induction false} GreedyEmbeds(ordered: seq<Item>, steps: seq<Step>, start: nat)
    requires Greedy(ordered, steps, start).Some?
    ensures Embeds(ordered, steps, start, Greedy(ordered, steps, start).value)
  {
    hide NextMatch, Matches;
    if steps != [] {
      NextMatchFinds(ordered, steps[0].selector, start);
      var k := NextMatch(ordered, steps[0].selector, start);
      GreedyEmbeds(ordered, steps[1..], k + 1);
    }
  }

  lemma EmbedsTail(ordered: seq<Item>, steps: seq<Step>, start: nat, e: seq<nat>, later: nat)
    requires steps != [] && Embeds(ordered, steps, start, e) && later <= e[0] + 1
    ensures Embeds(ordered, steps[1..], later, e[1..])
  {
    hide Matches;
    forall i | 0 <= i < |e[1..]| ensures later <= e[1..][i] < |ordered| && Matches(ordered[e[1..][i]], steps[1..][i].selector) {
      assert e[0] < e[i + 1];
    }
  }

  /** Whenever the steps embed at all, the greedy choice exists and is at every step the earliest possible. */
  lemma {:induction false} GreedyIsLeftmost(ordered: seq<Item>, steps: seq<Step>, start: nat, e: seq<nat>)
    requires Embeds(ordered, steps, start, e)
    ensures Greedy(ordered, steps, start).Some?
    ensures var g := Greedy(ordered, steps, start).value; |g| == |e| && forall i :: 0 <= i < |e| ==> g[i] <= e[i]
  {
    hide NextMatch;
    if steps != [] {
      NextMatchFinds(ordered, steps[0].selector, start);
      var k := NextMatch(ordered, steps[0].selector, start);
      assert k <= e[0];
      EmbedsTail(ordered, steps, start, e, k + 1);
      GreedyIsLeftmost(ordered, steps[1..], k + 1, e[1..]);
      assert forall i :: 0 < i < |e| ==> e[i] == e[1..][i - 1];
    }
  }

  /** Values and windows along a choice. */
  ghost predicate Meets(ordered: seq<Item>, r: Rule, steps: seq<Step>, e: seq<nat>, c: Context)
  {
    && |e| == |steps|
    && Within(ordered, e)
    && (steps != [] ==>
          && Shows(ordered[e[0]], steps[0]) && Windows(r, c, ordered[e[0]].observedAt).None?
          && Meets(ordered, r, steps[1..], e[1..], After(First(c, ordered[e[0]].observedAt), ordered[e[0]].observedAt)))
  }

  lemma {:induction false} PassFrom(ordered: seq<Item>, r: Rule, steps: seq<Step>, start: nat, c: Context)
    ensures EvaluateFrom(ordered, r, steps, start, c) == Pass <==>
      Greedy(ordered, steps, start).Some? && Meets(ordered, r, steps, Greedy(ordered, steps, start).value, c)
  {
    hide NextMatch, Judge, Shows, Windows, Matches;
    if steps != [] {
      JudgeNeverPasses(ordered, steps[0], r, c);
      NextMatchFinds(ordered, steps[0].selector, start);
      var k := NextMatch(ordered, steps[0].selector, start);
      if k >= 0 {
        JudgeExactly(ordered[k], steps[0]);
        var at := ordered[k].observedAt;
        PassFrom(ordered, r, steps[1..], k + 1, After(First(c, at), at));
        var g := Greedy(ordered, steps, start);
        if g.Some? {
          GreedyEmbeds(ordered, steps, start);
          assert g.value[1..] == Greedy(ordered, steps[1..], k + 1).value;
        }
      }
    }
  }

  lemma JudgeNeverPasses(ordered: seq<Item>, step: Step, r: Rule, c: Context)
    ensures forall i :: 0 <= i < |ordered| && Judge(ordered[i], step).Some? ==> Judge(ordered[i], step).value != Pass
    ensures forall at :: Windows(r, c, at).Some? ==> Windows(r, c, at).value != Pass
  {
    hide Resolve;
  }

  predicate Within(ordered: seq<Item>, e: seq<nat>)
  {
    forall i :: 0 <= i < |e| ==> e[i] < |ordered|
  }

  /** At one step the value is the expected one, the previous step is close enough, and so is the first. */
  predicate GoodStep(ordered: seq<Item>, r: Rule, e: seq<nat>, i: nat)
    requires |e| <= |r.steps| && Within(ordered, e) && i < |e|
  {
    && Shows(ordered[e[i]], r.steps[i])
    && (i > 0 && r.maxGap > 0 ==> Sub(ordered[e[i]].observedAt, ordered[e[i - 1]].observedAt) <= r.maxGap)
    && (r.maxDuration > 0 ==> Sub(ordered[e[i]].observedAt, ordered[e[0]].observedAt) <= r.maxDuration)
  }

  ghost predicate Satisfies(ordered: seq<Item>, r: Rule, e: seq<nat>)
  {
    |e| == |r.steps| && Within(ordered, e) && forall i :: 0 <= i < |e| ==> GoodStep(ordered, r, e, i)
  }

  /** The same for a tail of the steps, given the times of the first step and of the one before the tail. */
  predicate GoodLater(ordered: seq<Item>, r: Rule, steps: seq<Step>, e: seq<nat>, i: nat, first: Time, previous: Time)
    requires |e| == |steps| && Within(ordered, e) && i < |e|
  {
    var prior := if i == 0 then previous else ordered[e[i - 1]].observedAt;
    && Shows(ordered[e[i]], steps[i])
    && (r.maxGap > 0 ==> Sub(ordered[e[i]].observedAt, prior) <= r.maxGap)
    && (r.maxDuration > 0 ==> Sub(ordered[e[i]].observedAt, first) <= r.maxDuration)
  }

  ghost predicate Continues(ordered: seq<Item>, r: Rule, steps: seq<Step>, e: seq<nat>, first: Time, previous: Time)
  {
    |e| == |steps| && Within(ordered, e) && forall i :: 0 <= i < |e| ==> GoodLater(ordered, r, steps, e, i, first, previous)
  }

  lemma Shift(ordered: seq<Item>, r: Rule, steps: seq<Step>, e: seq<nat>, i: nat, first: Time, previous: Time)
    requires |e| == |steps| && Within(ordered, e) && i + 1 < |e|
    ensures Within(ordered, e[1..])
    ensures GoodLater(ordered, r, steps[1..], e[1..], i, first, ordered[e[0]].observedAt) <==> GoodLater(ordered, r, steps, e, i + 1, first, previous)
  {
    hide Shows, Sub;
  }

  lemma ContinuesUnfolds(ordered: seq<Item>, r: Rule, steps: seq<Step>, e: seq<nat>, first: Time, previous: Time)
    requires |e| == |steps| && Within(ordered, e) && steps != []
    ensures Continues(ordered, r, steps, e, first, previous) <==>
      GoodLater(ordered, r, steps, e, 0, first, previous) && Continues(ordered, r, steps[1..], e[1..], first, ordered[e[0]].observedAt)
  {
    hide GoodLater;
    var at := ordered[e[0]].observedAt;
    forall i | 0 <= i < |e| - 1
      ensures GoodLater(ordered, r, steps[1..], e[1..], i, first, at) <==> GoodLater(ordered, r, steps, e, i + 1, first, previous)
    {
      Shift(ordered, r, steps, e, i, first, previous);
    }
    if GoodLater(ordered, r, steps, e, 0, first, previous) && Continues(ordered, r, steps[1..], e[1..], first, at) {
      forall i | 0 <= i < |e| ensures GoodLater(ordered, r, steps, e, i, first, previous) {
        if i > 0 { assert GoodLater(ordered, r, steps[1..], e[1..], i - 1, first, at); }
      }
    }
  }

  lemma {:induction false} MeetsContinues(ordered: seq<Item>, r: Rule, steps: seq<Step>, e: seq<nat>, first: Time, previous: Time)
    ensures Meets(ordered, r, steps, e, After(first, previous)) <==> Continues(ordered, r, steps, e, first, previous)
  {
    hide Shows, Sub, Matches, Continues;
    if |e| == |steps| && Within(ordered, e) {
      if steps == [] {
        NothingContinues(ordered, r, e, first, previous);
      } else {
        MeetsContinues(ordered, r, steps[1..], e[1..], first, ordered[e[0]].observedAt);
        ContinuesUnfolds(ordered, r, steps, e, first, previous);
      }
    } else {
      ContinuesIsWithin(ordered, r, steps, e, first, previous);
    }
  }

  lemma NothingContinues(ordered: seq<Item>, r: Rule, e: seq<nat>, first: Time, previous: Time)
    ensures e == [] ==> Continues(ordered, r, [], e, first, previous)
  {
  }

  lemma ContinuesIsWithin(ordered: seq<Item>, r: Rule, steps: seq<Step>, e: seq<nat>, first: Time, previous: Time)
    ensures Continues(ordered, r, steps, e, first, previous) ==> |e| == |steps| && Within(ordered, e)
  {
  }

  lemma StepAgain(ordered: seq<Item>, r: Rule, e: seq<nat>, i: nat)
    requires |e| == |r.steps| && Within(ordered, e) && i < |e|
    ensures 0 <= r.maxGap && 0 <= r.maxDuration ==>
      (GoodStep(ordered, r, e, i) <==> GoodLater(ordered, r, r.steps, e, i, ordered[e[0]].observedAt, ordered[e[0]].observedAt))
  {
    hide Shows;
  }

  lemma MeetsSatisfies(ordered: seq<Item>, r: Rule, e: seq<nat>)
    requires ValidRule(r)
    ensures Meets(ordered, r, r.steps, e, Start) <==> Satisfies(ordered, r, e)
  {
    hide Shows, Matches, GoodStep, Continues;
    if |e| == |r.steps| && Within(ordered, e) {
      var at := ordered[e[0]].observedAt;
      MeetsContinues(ordered, r, r.steps[1..], e[1..], at, at);
      ContinuesUnfolds(ordered, r, r.steps, e, at, at);
      SatisfiesContinues(ordered, r, e);
    }
  }

  lemma SatisfiesContinues(ordered: seq<Item>, r: Rule, e: seq<nat>)
    requires ValidRule(r) && |e| == |r.steps| && Within(ordered, e)
    ensures Satisfies(ordered, r, e) <==> Continues(ordered, r, r.steps, e, ordered[e[0]].observedAt, ordered[e[0]].observedAt)
  {
    hide GoodStep, GoodLater;
    forall i | 0 <= i < |e|
      ensures GoodStep(ordered, r, e, i) <==> GoodLater(ordered, r, r.steps, e, i, ordered[e[0]].observedAt, ordered[e[0]].observedAt)
    {
      StepAgain(ordered, r, e, i);
    }
  }

  // The theorems ----------------------------------------------------------------------------------

  /** The rule passes exactly when the steps embed and the leftmost embedding meets every value, every gap and
      the total duration. */
  lemma PassExactly(r: Rule, evidence: seq<Item>)
    requires ValidRule(r)
    ensures Evaluate(r, evidence) == Pass <==> Fits(r, evidence)
  {
    hide NextMatch, Judge, Shows, Matches, Sub, Ordered, EvaluateFrom, Meets, Satisfies, Embeds, Leftmost, Greedy;
    var ordered := Ordered(evidence);
    PassFrom(ordered, r, r.steps, 0, Start);
    var g := Greedy(ordered, r.steps, 0);
    if g.Some? {
      GreedyEmbeds(ordered, r.steps, 0);
      MeetsSatisfies(ordered, r, g.value);
      GreedyLeftmost(ordered, r.steps);
    }
    if Evaluate(r, evidence) == Pass {
      assert PassesBy(ordered, r, g.value);
    } else if e: seq<nat> :| PassesBy(ordered, r, e) {
      GreedyIsLeftmost(ordered, r.steps, 0, e);
      LeftmostIsUnique(ordered, r.steps, g.value, e);
      assert false;
    }
  }

  ghost predicate Fits(r: Rule, evidence: seq<Item>)
  {
    exists e: seq<nat> :: PassesBy(Ordered(evidence), r, e)
  }

  ghost predicate PassesBy(ordered: seq<Item>, r: Rule, e: seq<nat>)
  {
    Embeds(ordered, r.steps, 0, e) && Leftmost(ordered, r.steps, e) && Satisfies(ordered, r, e)
  }

  /** No embedding chooses an earlier item anywhere. */
  ghost predicate Leftmost(ordered: seq<Item>, steps: seq<Step>, e: seq<nat>)
  {
    forall f :: Embeds(ordered, steps, 0, f) ==> |f| == |e| && forall i :: 0 <= i < |e| ==> e[i] <= f[i]
  }

  lemma GreedyLeftmost(ordered: seq<Item>, steps: seq<Step>)
    requires Greedy(ordered, steps, 0).Some?
    ensures Leftmost(ordered, steps, Greedy(ordered, steps, 0).value)
  {
    hide Embeds, Greedy;
    forall f | Embeds(ordered, steps, 0, f)
      ensures var g := Greedy(ordered, steps, 0).value; |f| == |g| && forall i :: 0 <= i < |g| ==> g[i] <= f[i]
    {
      GreedyIsLeftmost(ordered, steps, 0, f);
    }
  }

  lemma LeftmostIsUnique(ordered: seq<Item>, steps: seq<Step>, a: seq<nat>, b: seq<nat>)
    requires Embeds(ordered, steps, 0, a) && Embeds(ordered, steps, 0, b) && Leftmost(ordered, steps, a) && Leftmost(ordered, steps, b)
    ensures a == b
  {
    hide Embeds;
    assert |a| == |b|;
    forall i | 0 <= i < |a| ensures a[i] == b[i] {
      assert a[i] <= b[i] && b[i] <= a[i];
    }
  }

  lemma {:induction false} OrderFrom(ordered: seq<Item>, r: Rule, steps: seq<Step>, start: nat, c: Context)
    requires var d := EvaluateFrom(ordered, r, steps, start, c); d == Fail(OrderInvalid) || d == Inconclusive(Incomplete)
    ensures Greedy(ordered, steps, start).None?
    ensures EvaluateFrom(ordered, r, steps, start, c) == Inconclusive(Incomplete) ==>
      exists i :: 0 <= i < |steps| && forall j :: 0 <= j < |ordered| ==> !Matches(ordered[j], steps[i].selector)
  {
    hide NextMatch, Judge, Windows, Matches;
    OtherReasons(ordered, steps[0], r, c);
    NextMatchFinds(ordered, steps[0].selector, start);
    NextMatchFinds(ordered, steps[0].selector, 0);
    var k := NextMatch(ordered, steps[0].selector, start);
    if k >= 0 {
      var at := ordered[k].observedAt;
      OrderFrom(ordered, r, steps[1..], k + 1, After(First(c, at), at));
      if EvaluateFrom(ordered, r, steps, start, c) == Inconclusive(Incomplete) {
        var i :| 0 <= i < |steps[1..]| && forall j :: 0 <= j < |ordered| ==> !Matches(ordered[j], steps[1..][i].selector);
        assert steps[1..][i] == steps[i + 1];
      }
    }
  }

  lemma OtherReasons(ordered: seq<Item>, step: Step, r: Rule, c: Context)
    ensures forall i :: 0 <= i < |ordered| && Judge(ordered[i], step).Some? ==>
      Judge(ordered[i], step).value != Fail(OrderInvalid) && Judge(ordered[i], step).value != Inconclusive(Incomplete)
    ensures forall at :: Windows(r, c, at).Some? ==>
      Windows(r, c, at).value != Fail(OrderInvalid) && Windows(r, c, at).value != Inconclusive(Incomplete)
  {
    hide Resolve;
  }

  /** A verdict about order or completeness is never premature: it is given only when no choice of items, in any
      increasing order, could serve; and incompleteness only when some step has no match at all. */
  lemma OrderVerdictsAreSound(r: Rule, evidence: seq<Item>, e: seq<nat>)
    requires ValidRule(r) && (Evaluate(r, evidence) == Fail(OrderInvalid) || Evaluate(r, evidence) == Inconclusive(Incomplete))
    ensures !Embeds(Ordered(evidence), r.steps, 0, e)
    ensures Evaluate(r, evidence) == Inconclusive(Incomplete) ==>
      exists i :: 0 <= i < |r.steps| && forall j :: 0 <= j < |Ordered(evidence)| ==>
        !Matches(Ordered(evidence)[j], r.steps[i].selector)
  {
    hide NextMatch, Judge, Matches, Ordered, Greedy, Embeds;
    var ordered := Ordered(evidence);
    OrderFrom(ordered, r, r.steps, 0, Start);
    if Embeds(ordered, r.steps, 0, e) {
      GreedyIsLeftmost(ordered, r.steps, 0, e);
    }
  }

  lemma ObservationsAreOrdered()
    ensures Transitive(ObservedBefore) && Asymmetric(ObservedBefore)
  {
  }

  /** The order in which the evidence arrives does not matter, as long as no two items share time and identity. */
  lemma DecisionIgnoresOrder(r: Rule, a: seq<Item>, b: seq<Item>)
    requires multiset(a) == multiset(b)
    requires forall i, j :: 0 <= i < j < |a| ==> a[i].observedAt != a[j].observedAt || a[i].id != a[j].id
    ensures Evaluate(r, a) == Evaluate(r, b)
  {
    hide EvaluateFrom, StableSort;
    ObservationsAreOrdered();
    SortIgnoresInputOrder(a, b, ObservedBefore);
  }

  const CLOSE := Rule([Step(Selector("a", "", ""), JNull), Step(Selector("b", "", ""), JNull)], 2, 0)

  const SPREAD := [Item(1, "a", "", 1, Some(JNull)), Item(2, "a", "", 5, Some(JNull)), Item(3, "b", "", 6, Some(JNull))]

  /** Taking the leftmost embedding can fail where another would do: the second `a` is close enough to `b`. */
  lemma AnotherEmbeddingMightPass()
    ensures ValidRule(CLOSE) && Evaluate(CLOSE, SPREAD) == Fail(GapExceeded)
    ensures Embeds(Ordered(SPREAD), CLOSE.steps, 0, [1, 2]) && Satisfies(Ordered(SPREAD), CLOSE, [1, 2])
  {
    hide StableSort;
    ObservationsAreOrdered();
    SortedStays(SPREAD, ObservedBefore);
    LeftmostFails();
    assert Judge(SPREAD[1], CLOSE.steps[0]).None? && Judge(SPREAD[2], CLOSE.steps[1]).None?;
  }

  lemma LeftmostFails()
    ensures EvaluateFrom(SPREAD, CLOSE, CLOSE.steps, 0, Start) == Fail(GapExceeded)
  {
    assert "a" != "b" by { assert "a"[0] != "b"[0]; }
    assert CLOSE.steps[1..] == [CLOSE.steps[1]];
    assert NextMatch(SPREAD, CLOSE.steps[0].selector, 0) == 0;
    assert NextMatch(SPREAD, CLOSE.steps[1].selector, 1) == NextMatch(SPREAD, CLOSE.steps[1].selector, 2) == 2;
    assert Judge(SPREAD[0], CLOSE.steps[0]).None? && Judge(SPREAD[2], CLOSE.steps[1]).None?;
  }
}
