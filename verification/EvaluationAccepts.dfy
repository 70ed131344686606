/**
  When each operation of the aggregate is accepted, in terms of its arguments and the fields
  of the aggregate alone, and what it then leaves behind.
 */
module EvaluationAccepts {
  import opened Prelude
  import opened Text
  import opened Sorting
  import opened Evaluation
  import opened EvaluationRules

  // Arguments ----------------------------------------------------------------------------------------

  /** The evaluation has started, and not after this instant. */
  predicate Since(s: Aggregate, at: Time)
  {
    s.startedAt.Some? && s.startedAt.value <= at
  }

  ghost predicate Codes(reasons: seq<string>)
  {
    forall i :: 0 <= i < |reasons| ==> IsCode(Canonical(reasons[i]))
  }

  /** Reasons are taken exactly if each canonicalises to a code, and are then just those codes. */
  lemma {:induction false} CodesExactly(reasons: seq<string>)
    ensures NormalizeReasons(reasons).Ok? <==> Codes(reasons)
    ensures Codes(reasons) ==>
      var codes := NormalizeReasons(reasons).value;
      && (codes == [] <==> reasons == [])
      && (forall c :: c in codes <==> exists i :: 0 <= i < |reasons| && Canonical(reasons[i]) == c)
  {
    hide IsCode, Canonical;
    if reasons != [] {
      var n := |reasons| - 1;
      CodesExactly(reasons[..n]);
      assert forall i :: 0 <= i < n ==> reasons[..n][i] == reasons[i];
      if Codes(reasons) {
        var codes := NormalizeReasons(reasons).value;
        forall c ensures c in codes <==> exists i :: 0 <= i < |reasons| && Canonical(reasons[i]) == c {
          var front := NormalizeReasons(reasons[..n]).value;
          assert c in codes <==> c in front || c == Canonical(reasons[n]);
          if c in front {
            var i :| 0 <= i < n && Canonical(reasons[..n][i]) == c;
            assert Canonical(reasons[i]) == c;
          }
          if i :| 0 <= i < n && Canonical(reasons[i]) == c {
            assert Canonical(reasons[..n][i]) == c;
          }
        }
      }
    }
  }

  /** A rule, a known status, an instant, and reasons exactly unless it passed. */
  ghost predicate WellFormed(o: RuleOutcome)
  {
    && TrimSpace(o.ruleID) != "" && !o.status.OtherStatus? && o.evaluatedAt != 0
    && Codes(o.reasons) && (o.status == Pass <==> o.reasons == [])
  }

  lemma OutcomeExactly(o: RuleOutcome)
    ensures NormalizeOutcome(o).Ok? <==> WellFormed(o)
    ensures WellFormed(o) ==>
      && NormalizeReasons(o.reasons).Ok?
      && NormalizeOutcome(o).value == RuleOutcome(TrimSpace(o.ruleID), o.status, NormalizeReasons(o.reasons).value, o.evaluatedAt)
  {
    hide NormalizeReasons, TrimSpace, Codes;
    CodesExactly(o.reasons);
  }

  ghost predicate HasRule(os: seq<RuleOutcome>, id: string)
  {
    exists i :: 0 <= i < |os| && os[i].ruleID == id
  }

  lemma RecordedExactly(os: seq<RuleOutcome>, id: string)
    ensures Recorded(os, id) <==> HasRule(os, id)
  {
  }

  lemma OutcomeAt(os: seq<RuleOutcome>, i: nat)
    requires DistinctRules(os) && i < |os|
    ensures Recorded(os, os[i].ruleID) && OutcomeOf(os, os[i].ruleID) == os[i] && IndexOf(os, os[i].ruleID) == i
  {
  }

  /** The rule belongs to the plan, if there is one. */
  predicate InPlan(s: Aggregate, id: string)
  {
    s.required == [] || id in s.required
  }

  /** What is recorded of the rule, if anything, is this outcome. */
  ghost predicate Undisputed(s: Aggregate, o: RuleOutcome)
  {
    forall i :: 0 <= i < |s.outcomes| && s.outcomes[i].ruleID == TrimSpace(o.ruleID) ==> NormalizeOutcome(o) == Ok(s.outcomes[i])
  }

  ghost predicate Recordable(s: Aggregate, o: RuleOutcome)
  {
    WellFormed(o) && Since(s, o.evaluatedAt) && InPlan(s, TrimSpace(o.ruleID)) && Undisputed(s, o)
  }

  lemma RecordableExactly(s: Aggregate, o: RuleOutcome)
    requires DistinctRules(s.outcomes)
    ensures Acceptable(s, o) <==> Recordable(s, o)
  {
    hide NormalizeOutcome, WellFormed, TrimSpace, NormalizeReasons;
    OutcomeExactly(o);
    if WellFormed(o) {
      var v := NormalizeOutcome(o).value;
      TrimmedTwice(o.ruleID);
      RecordedExactly(s.outcomes, v.ruleID);
      if i :| 0 <= i < |s.outcomes| && s.outcomes[i].ruleID == v.ruleID {
        OutcomeAt(s.outcomes, i);
      }
    }
  }

  lemma TrimmedTwice(s: string)
    ensures TrimSpace(TrimSpace(s)) == TrimSpace(s)
  {
    hide TrimLeft, TrimRight;
  }

  /** The outcome may stand in for what is recorded: not of the future, of the plan, recorded, and not older. */
  ghost predicate CanReplace(s: Aggregate, at: Time, o: RuleOutcome)
  {
    && WellFormed(o) && Since(s, o.evaluatedAt) && o.evaluatedAt <= at && InPlan(s, TrimSpace(o.ruleID))
    && exists i :: 0 <= i < |s.outcomes| && s.outcomes[i].ruleID == TrimSpace(o.ruleID) && s.outcomes[i].evaluatedAt <= o.evaluatedAt
  }

  lemma ReplaceableExactly(s: Aggregate, at: Time, o: RuleOutcome)
    requires DistinctRules(s.outcomes)
    ensures NormalizeOutcome(o).Ok? && Replaceable(s, at, NormalizeOutcome(o).value) <==> CanReplace(s, at, o)
  {
    hide NormalizeOutcome, WellFormed, TrimSpace, NormalizeReasons;
    OutcomeExactly(o);
    if WellFormed(o) {
      var v := NormalizeOutcome(o).value;
      TrimmedTwice(o.ruleID);
      RecordedExactly(s.outcomes, v.ruleID);
      if i :| 0 <= i < |s.outcomes| && s.outcomes[i].ruleID == v.ruleID {
        OutcomeAt(s.outcomes, i);
      }
    }
  }

  // Lifecycle ----------------------------------------------------------------------------------------

  lemma StartsExactly(s: Aggregate, at: Time)
    ensures var r := Start(s, at);
      && (r.error.None? <==> s.phase == Created && at != 0 && s.createdAt <= at)
      && (r.error.None? ==> r.next == s.(phase := Running, startedAt := Some(at), version := s.version + 1))
  {
  }

  /** Every planned rule has an outcome. */
  ghost predicate Covered(s: Aggregate)
  {
    forall i :: 0 <= i < |s.required| ==> HasRule(s.outcomes, s.required[i])
  }

  lemma CoveredExactly(s: Aggregate)
    ensures RequiredComplete(s) <==> Covered(s)
  {
    hide Recorded, HasRule;
    forall i | 0 <= i < |s.required| ensures Recorded(s.outcomes, s.required[i]) <==> HasRule(s.outcomes, s.required[i]) {
      RecordedExactly(s.outcomes, s.required[i]);
    }
  }

  /** A running evaluation is completed exactly at a time from its start on, with a known verdict, over a plan whose
      every rule has an outcome, and with reasons exactly unless it is VERIFIED. */
  lemma CompletesExactly(s: Aggregate, verdict: Verdict, reasons: seq<string>, at: Time)
    ensures var r := CompleteAt(s, verdict, reasons, at);
      && (r.error.None? <==>
            && s.phase == Running && at != 0 && Since(s, at) && !verdict.OtherVerdict? && verdict != Unknown
            && Covered(s) && Codes(reasons) && (verdict == Verified <==> reasons == []))
      && (r.error.None? ==>
            && NormalizeReasons(reasons).Ok?
            && r.next == s.(phase := Completed, verdict := verdict, reasons := NormalizeReasons(reasons).value,
                            completedAt := Some(at), version := s.version + 1))
  {
    hide NormalizeReasons, RequiredComplete, Covered, Codes;
    CoveredExactly(s);
    CodesExactly(reasons);
  }

  lemma CancelsExactly(s: Aggregate, reason: string, now: Time)
    ensures var r := Cancel(s, reason, now);
      && (r.error.None? <==> (s.phase == Created || s.phase == Running) && TrimSpace(reason) != "")
      && (r.error.None? ==>
            r.next == s.(phase := Cancelled, cancelledAt := Some(now), cancellationReason := TrimSpace(reason), version := s.version + 1))
  {
    hide TrimSpace;
  }

  lemma ExpiresExactly(s: Aggregate, at: Time)
    ensures var r := Expire(s, at);
      && (r.error.None? <==> (s.phase == Created || s.phase == Running) && at != 0 && s.createdAt <= at)
      && (r.error.None? ==>
            r.next == s.(phase := Expired, verdict := SystemException, reasons := [TIMEOUT_REASON], expiredAt := Some(at), version := s.version + 1))
  {
  }

  // Rules --------------------------------------------------------------------------------------------

  lemma RegistersExactly(s: Aggregate, rule: string, at: Time)
    ensures var r := RegisterRule(s, rule, at); var id := TrimSpace(rule);
      && (r.error.None? <==> (s.phase == Created || s.phase == Running) && at != 0 && s.createdAt <= at && id != "")
      && (r.error.None? ==>
            r.next == if id in s.required then s else s.(required := s.required + [id], version := s.version + 1))
  {
    hide TrimSpace;
  }

  lemma RecordsExactly(s: Aggregate, o: RuleOutcome)
    requires DistinctRules(s.outcomes)
    ensures var r := Record(s, o);
      && (r.error.None? <==> s.phase == Running && Recordable(s, o))
      && (r.error.None? ==>
            && NormalizeOutcome(o).Ok?
            && r.next == if HasRule(s.outcomes, TrimSpace(o.ruleID)) then s
                         else s.(outcomes := s.outcomes + [NormalizeOutcome(o).value], version := s.version + 1))
  {
    hide NormalizeOutcome, Recordable, WellFormed, TrimSpace, NormalizeReasons, Recorded, HasRule;
    RecordableExactly(s, o);
    OutcomeExactly(o);
    RecordedExactly(s.outcomes, TrimSpace(o.ruleID));
  }

  /** Each outcome can be recorded on its own, and no two disagree about a rule. */
  ghost predicate RecordableTogether(s: Aggregate, os: seq<RuleOutcome>)
  {
    && (forall o :: o in os ==> Recordable(s, o))
    && (forall o, p :: o in os && p in os && TrimSpace(o.ruleID) == TrimSpace(p.ruleID) ==> NormalizeOutcome(o) == NormalizeOutcome(p))
  }

  lemma TogetherExactly(s: Aggregate, os: seq<RuleOutcome>)
    requires DistinctRules(s.outcomes)
    ensures Batch(s, os).Ok? <==> RecordableTogether(s, os)
  {
    hide NormalizeOutcome, Recordable, Acceptable, Batch, WellFormed, TrimSpace, NormalizeReasons;
    BatchAccepts(s, os);
    forall o | o in os ensures Acceptable(s, o) <==> Recordable(s, o) {
      RecordableExactly(s, o);
    }
    forall o | o in os && Recordable(s, o) ensures NormalizeOutcome(o).Ok? && NormalizeOutcome(o).value.ruleID == TrimSpace(o.ruleID) {
      RecordableIsWellFormed(s, o);
      OutcomeExactly(o);
    }
  }

  lemma RecordableIsWellFormed(s: Aggregate, o: RuleOutcome)
    requires Recordable(s, o)
    ensures WellFormed(o)
  {
  }

  lemma RecordsTogetherExactly(s: Aggregate, os: seq<RuleOutcome>, at: Time)
    requires DistinctRules(s.outcomes)
    ensures RecordAtomic(s, os).error.None? <==> s.phase == Running && RecordableTogether(s, os)
    ensures RecordBatch(s, os, at).error.None? <==>
      s.phase == Running && (os == [] || (at != 0 && Since(s, at) && RecordableTogether(s, os)))
  {
    hide RecordableTogether, Batch, Pending, AppendEach;
    TogetherExactly(s, os);
    BatchesAreAllOrNothing(s, os, [], at);
  }

  /** One by one to the end: possible exactly if it is possible together. */
  lemma {:induction false} RecordsEachExactly(s: Aggregate, os: seq<RuleOutcome>)
    requires DistinctRules(s.outcomes)
    ensures RecordEach(s, os).error.None? <==> os == [] || (s.phase == Running && RecordableTogether(s, os))
    ensures RecordEach(s, os).error.None? ==> Extended(s, os, RecordEach(s, os).next)
  {
    hide RecordableTogether, Record, Extended;
    if os == [] {
      NothingExtended(s);
    } else {
      var n := |os| - 1;
      RecordsEachExactly(s, os[..n]);
      var before := RecordEach(s, os[..n]);
      if before.error.None? {
        ExtendedIsDistinct(s, os[..n], before.next);
        RecordsExactly(before.next, os[n]);
        ExtendedRecordable(s, os, before.next);
        if s.phase == Running && Recordable(before.next, os[n]) {
          ExtendedByOne(s, os, before.next);
        }
      } else if RecordableTogether(s, os) {
        FewerTogether(s, os);
      }
    }
  }

  /** The aggregate with, after its own outcomes, the normal form of each new one, once. */
  ghost predicate Extended(s: Aggregate, os: seq<RuleOutcome>, next: Aggregate)
  {
    && next == s.(outcomes := next.outcomes, version := next.version) && s.outcomes <= next.outcomes && DistinctRules(next.outcomes)
    && (forall o :: o in os ==> NormalizeOutcome(o).Ok? && NormalizeOutcome(o).value in next.outcomes)
    && (forall k :: |s.outcomes| <= k < |next.outcomes| ==> Among(os, next.outcomes[k]))
  }

  ghost predicate Among(os: seq<RuleOutcome>, v: RuleOutcome)
  {
    exists o :: o in os && NormalizeOutcome(o) == Ok(v)
  }

  lemma NothingExtended(s: Aggregate)
    requires DistinctRules(s.outcomes)
    ensures Extended(s, [], s)
  {
  }

  lemma ExtendedIsDistinct(s: Aggregate, os: seq<RuleOutcome>, next: Aggregate)
    requires Extended(s, os, next)
    ensures DistinctRules(next.outcomes) && next.phase == s.phase
  {
  }

  lemma FewerTogether(s: Aggregate, os: seq<RuleOutcome>)
    requires os != [] && RecordableTogether(s, os)
    ensures RecordableTogether(s, os[..|os| - 1])
  {
    hide Recordable;
    assert forall o :: o in os[..|os| - 1] ==> o in os;
  }

  /** After the others have been recorded, the last one can be exactly if all can together. */
  lemma ExtendedRecordable(s: Aggregate, os: seq<RuleOutcome>, next: Aggregate)
    requires os != [] && Extended(s, os[..|os| - 1], next)
    requires os[..|os| - 1] == [] || RecordableTogether(s, os[..|os| - 1])
    ensures Recordable(next, os[|os| - 1]) <==> RecordableTogether(s, os)
  {
    hide NormalizeOutcome, WellFormed, TrimSpace, NormalizeReasons;
    var n := |os| - 1;
    var last := os[n];
    OutcomeExactly(last);
    assert os == os[..n] + [last];
    forall o | o in os[..n] ensures WellFormed(o) && NormalizeOutcome(o).value.ruleID == TrimSpace(o.ruleID) {
      RecordableIsWellFormed(s, o);
      OutcomeExactly(o);
    }
    if Recordable(next, last) {
      LastJoins(s, os, next);
    }
    if RecordableTogether(s, os) {
      LastFits(s, os, next);
    }
  }

  lemma LastJoins(s: Aggregate, os: seq<RuleOutcome>, next: Aggregate)
    requires os != [] && Extended(s, os[..|os| - 1], next) && Recordable(next, os[|os| - 1])
    requires os[..|os| - 1] == [] || RecordableTogether(s, os[..|os| - 1])
    requires forall o :: o in os[..|os| - 1] ==> NormalizeOutcome(o).Ok? && NormalizeOutcome(o).value.ruleID == TrimSpace(o.ruleID)
    ensures RecordableTogether(s, os)
  {
    hide NormalizeOutcome, WellFormed, TrimSpace;
    var n := |os| - 1;
    var last := os[n];
    assert os == os[..n] + [last];
    assert Undisputed(s, last) by {
      forall i | 0 <= i < |s.outcomes| && s.outcomes[i].ruleID == TrimSpace(last.ruleID) ensures NormalizeOutcome(last) == Ok(s.outcomes[i]) {
        assert next.outcomes[i] == s.outcomes[i];
      }
    }
    forall o | o in os[..n] && TrimSpace(o.ruleID) == TrimSpace(last.ruleID) ensures NormalizeOutcome(o) == NormalizeOutcome(last) {
      var v := NormalizeOutcome(o).value;
      var k :| 0 <= k < |next.outcomes| && next.outcomes[k] == v;
    }
  }

  lemma LastFits(s: Aggregate, os: seq<RuleOutcome>, next: Aggregate)
    requires os != [] && Extended(s, os[..|os| - 1], next) && RecordableTogether(s, os)
    requires forall o :: o in os[..|os| - 1] ==> NormalizeOutcome(o).Ok? && NormalizeOutcome(o).value.ruleID == TrimSpace(o.ruleID)
    ensures Recordable(next, os[|os| - 1])
  {
    hide NormalizeOutcome, WellFormed, TrimSpace;
    var n := |os| - 1;
    var last := os[n];
    assert last in os && Recordable(s, last);
    forall k | 0 <= k < |next.outcomes| && next.outcomes[k].ruleID == TrimSpace(last.ruleID) ensures NormalizeOutcome(last) == Ok(next.outcomes[k]) {
      if k < |s.outcomes| {
        assert next.outcomes[k] == s.outcomes[k];
      } else {
        assert Among(os[..n], next.outcomes[k]);
        var o :| o in os[..n] && NormalizeOutcome(o) == Ok(next.outcomes[k]);
        assert o in os;
      }
    }
  }

  lemma ExtendedByOne(s: Aggregate, os: seq<RuleOutcome>, before: Aggregate)
    requires os != [] && Extended(s, os[..|os| - 1], before) && before.phase == Running && Recordable(before, os[|os| - 1])
    ensures Extended(s, os, Record(before, os[|os| - 1]).next)
  {
    hide NormalizeOutcome, WellFormed, TrimSpace, Record, NormalizeReasons;
    var n := |os| - 1;
    var last := os[n];
    RecordsExactly(before, last);
    RecordableIsWellFormed(before, last);
    OutcomeExactly(last);
    var next := Record(before, last).next;
    var v := NormalizeOutcome(last).value;
    assert os == os[..n] + [last];
    if HasRule(before.outcomes, v.ruleID) {
      var i :| 0 <= i < |before.outcomes| && before.outcomes[i].ruleID == v.ruleID;
      assert before.outcomes[i] == v;
    } else {
      assert next.outcomes[|before.outcomes|] == v;
    }
    forall o | o in os ensures NormalizeOutcome(o).Ok? && NormalizeOutcome(o).value in next.outcomes {
      if o != last { assert o in os[..n] && NormalizeOutcome(o).value in before.outcomes; }
    }
    forall k | |s.outcomes| <= k < |next.outcomes| ensures Among(os, next.outcomes[k]) {
      if k < |before.outcomes| {
        assert Among(os[..n], before.outcomes[k]);
        var o :| o in os[..n] && NormalizeOutcome(o) == Ok(before.outcomes[k]);
        assert o in os && next.outcomes[k] == before.outcomes[k];
      } else {
        assert last in os;
      }
    }
  }

  // Replacement --------------------------------------------------------------------------------------

  /** One outcome is replaced exactly as a batch of one would be, but for the event; a stale one is refused. */
  lemma ReplacesExactly(s: Aggregate, o: RuleOutcome, at: Time)
    requires DistinctRules(s.outcomes)
    ensures var r := Replace(s, o, at);
      && (r.error.None? <==> s.phase == Running && at != 0 && Since(s, at) && CanReplace(s, at, o))
      && (r.error.None? <==> ReplaceAtomic(s, [Replacement(o, at)], at).error.None?)
      && r.next == ReplaceAtomic(s, [Replacement(o, at)], at).next
  {
    hide NormalizeOutcome, CanReplace, Recorded, OutcomeOf, Unplanned, IndexOf, Replaceable, Replace, ReplaceAtomic;
    ReplaceableExactly(s, at, o);
    ReplacesAcceptably(s, o, at);
    ReplacesTogetherExactly(s, [Replacement(o, at)], at);
    if s.phase == Running && at != 0 && Since(s, at) && CanReplace(s, at, o) {
      ReplacedAlone(s, o, at);
    } else {
      ReplaceRefused(s, o, at);
    }
  }

  lemma ReplacesAcceptably(s: Aggregate, o: RuleOutcome, at: Time)
    ensures Replace(s, o, at).error.None? <==>
      s.phase == Running && at != 0 && Since(s, at) && NormalizeOutcome(o).Ok? && Replaceable(s, at, NormalizeOutcome(o).value)
  {
    hide NormalizeOutcome, Recorded, OutcomeOf, Unplanned, IndexOf;
  }

  lemma ReplaceRefused(s: Aggregate, o: RuleOutcome, at: Time)
    ensures Replace(s, o, at).error.Some? ==> Replace(s, o, at).next == s
    ensures ReplaceAtomic(s, [Replacement(o, at)], at).error.Some? ==> ReplaceAtomic(s, [Replacement(o, at)], at).next == s
  {
    hide Replace, ReplaceAtomic;
    OneRefused(s, o, at);
    ManyRefused(s, [Replacement(o, at)], at);
  }

  lemma OneRefused(s: Aggregate, o: RuleOutcome, at: Time)
    ensures Replace(s, o, at).error.Some? ==> Replace(s, o, at).next == s
  {
    hide NormalizeOutcome, Recorded, OutcomeOf, Unplanned, IndexOf;
  }

  lemma ManyRefused(s: Aggregate, items: seq<Replacement>, at: Time)
    ensures ReplaceAtomic(s, items, at).error.Some? ==> ReplaceAtomic(s, items, at).next == s
  {
    hide Replacements, Differing, Overlay, Lookup;
  }

  /** What is written by one accepted replacement. */
  lemma ReplacedByOne(s: Aggregate, o: RuleOutcome, at: Time)
    requires Replace(s, o, at).error.None?
    ensures NormalizeOutcome(o).Ok? && Recorded(s.outcomes, NormalizeOutcome(o).value.ruleID)
    ensures var v := NormalizeOutcome(o).value;
      Replace(s, o, at).next ==
        if OutcomeOf(s.outcomes, v.ruleID) == v then s
        else s.(outcomes := s.outcomes[IndexOf(s.outcomes, v.ruleID) := v], version := s.version + 1)
  {
    hide NormalizeOutcome, OutcomeOf, IndexOf, Unplanned;
  }

  lemma OneReplacement(s: Aggregate, o: RuleOutcome, at: Time)
    requires NormalizeOutcome(o).Ok? && Replacements(s, at, [Replacement(o, at)]).Ok?
    ensures var v := NormalizeOutcome(o).value; Replacements(s, at, [Replacement(o, at)]) == Ok(map[v.ruleID := v])
  {
    hide NormalizeOutcome, Recorded, OutcomeOf, Unplanned;
    assert [Replacement(o, at)][..0] == [];
  }

  lemma ReplacedTogether(s: Aggregate, items: seq<Replacement>, at: Time)
    requires ReplaceAtomic(s, items, at).error.None? && items != []
    ensures Replacements(s, at, items).Ok?
    ensures var changes := Differing(s, Replacements(s, at, items).value);
      ReplaceAtomic(s, items, at).next ==
        if changes == map[] then s else s.(outcomes := Overlay(s.outcomes, changes), version := s.version + 1)
  {
    hide Replacements, Differing, Overlay, Lookup;
  }

  lemma ReplacedAlone(s: Aggregate, o: RuleOutcome, at: Time)
    requires DistinctRules(s.outcomes) && Replace(s, o, at).error.None? && ReplaceAtomic(s, [Replacement(o, at)], at).error.None?
    ensures Replace(s, o, at).next == ReplaceAtomic(s, [Replacement(o, at)], at).next
  {
    hide NormalizeOutcome, Recorded, OutcomeOf, IndexOf, Replace, ReplaceAtomic, Replacements, Differing, Overlay, DistinctRules;
    ReplacedByOne(s, o, at);
    ReplacedTogether(s, [Replacement(o, at)], at);
    OneReplacement(s, o, at);
    OneDiffers(s, NormalizeOutcome(o).value);
  }

  lemma OneDiffers(s: Aggregate, v: RuleOutcome)
    requires DistinctRules(s.outcomes) && Recorded(s.outcomes, v.ruleID)
    ensures var m := map[v.ruleID := v];
      && (OutcomeOf(s.outcomes, v.ruleID) == v ==> Differing(s, m) == map[])
      && (OutcomeOf(s.outcomes, v.ruleID) != v ==>
            && Differing(s, m) == m && Differing(s, m) != map[]
            && Overlay(s.outcomes, m) == s.outcomes[IndexOf(s.outcomes, v.ruleID) := v])
  {
    hide IndexOf, Overlay, OutcomeOf, DistinctRules;
    var m := map[v.ruleID := v];
    OverlaidOnce(s.outcomes, v);
    if OutcomeOf(s.outcomes, v.ruleID) != v {
      assert v.ruleID in Differing(s, m);
    }
  }

  lemma OverlaidOnce(os: seq<RuleOutcome>, v: RuleOutcome)
    requires DistinctRules(os) && Recorded(os, v.ruleID)
    ensures Overlay(os, map[v.ruleID := v]) == os[IndexOf(os, v.ruleID) := v]
  {
    var k := IndexOf(os, v.ruleID);
    var overlaid := Overlay(os, map[v.ruleID := v]);
    forall i | 0 <= i < |os| ensures overlaid[i] == os[k := v][i] {
      assert i != k ==> os[i].ruleID != os[k].ruleID;
    }
  }

  /** Each outcome may stand in for what is recorded, each request is dated by then, and no two disagree. */
  ghost predicate CanReplaceTogether(s: Aggregate, at: Time, items: seq<Replacement>)
  {
    && (forall x :: x in items ==> (x.replacedAt == 0 || x.replacedAt <= at) && CanReplace(s, at, x.outcome))
    && (forall x, y :: x in items && y in items && TrimSpace(x.outcome.ruleID) == TrimSpace(y.outcome.ruleID) ==>
          NormalizeOutcome(x.outcome) == NormalizeOutcome(y.outcome))
  }

  lemma ReplacesTogetherExactly(s: Aggregate, items: seq<Replacement>, at: Time)
    requires DistinctRules(s.outcomes)
    ensures ReplaceAtomic(s, items, at).error.None? <==>
      s.phase == Running && (items == [] || (at != 0 && Since(s, at) && CanReplaceTogether(s, at, items)))
  {
    hide NormalizeOutcome, CanReplace, Replaceable, Replacements, TrimSpace, NormalizeReasons, WellFormed;
    ReplacementsAccept(s, at, items);
    forall x | x in items
      ensures NormalizeOutcome(x.outcome).Ok? && Replaceable(s, at, NormalizeOutcome(x.outcome).value) <==> CanReplace(s, at, x.outcome)
      ensures CanReplace(s, at, x.outcome) ==> NormalizeOutcome(x.outcome).Ok? && NormalizeOutcome(x.outcome).value.ruleID == TrimSpace(x.outcome.ruleID)
    {
      ReplaceableExactly(s, at, x.outcome);
      OutcomeExactly(x.outcome);
    }
  }

  // Removal ------------------------------------------------------------------------------------------

  /** Removing a rule leaves the other outcomes in order. */
  lemma RemovesExactly(s: Aggregate, rule: string, at: Time)
    requires DistinctRules(s.outcomes)
    ensures var r := Remove(s, rule, at); var id := TrimSpace(rule);
      && (r.error.None? <==> s.phase == Running && id != "" && at != 0 && Since(s, at) && HasRule(s.outcomes, id))
      && (r.error.None? ==> r.next == s.(outcomes := Without(s.outcomes, {id}), version := s.version + 1))
  {
    hide TrimSpace, Cut, Without, HasRule, IndexOf;
    var id := TrimSpace(rule);
    RecordedExactly(s.outcomes, id);
    if Recorded(s.outcomes, id) {
      RemoveIsAFilter(s.outcomes, IndexOf(s.outcomes, id), id);
    }
  }

  /** Without an outcome of the rule there is nothing to do, in any phase; otherwise it is the removal. Either way what
      is left are the outcomes of other rules. */
  lemma RemovesIfPresentExactly(s: Aggregate, rule: string, at: Time)
    requires DistinctRules(s.outcomes)
    ensures var r := RemoveIfPresent(s, rule, at); var id := TrimSpace(rule);
      && (r.error.None? <==> id != "" && (!HasRule(s.outcomes, id) || (s.phase == Running && at != 0 && Since(s, at))))
      && (r.error.None? ==> r.next.outcomes == Without(s.outcomes, {id}))
      && (r.next == s <==> r.error.Some? || !HasRule(s.outcomes, id))
  {
    hide TrimSpace, Remove, Without, HasRule, Recorded;
    var id := TrimSpace(rule);
    TrimmedTwice(rule);
    RecordedExactly(s.outcomes, id);
    RemovesExactly(s, id, at);
    RemovalRefused(s, id, at);
    if !HasRule(s.outcomes, id) {
      AbsentStays(s.outcomes, id);
    }
  }

  lemma AbsentStays(os: seq<RuleOutcome>, id: string)
    requires !HasRule(os, id)
    ensures Without(os, {id}) == os
  {
    WithoutAbsent(os, {id});
  }

  lemma RemovalRefused(s: Aggregate, rule: string, at: Time)
    ensures Remove(s, rule, at).error.Some? ==> Remove(s, rule, at).next == s
    ensures Remove(s, rule, at).error.None? ==> Remove(s, rule, at).next != s
  {
    hide TrimSpace, Recorded, IndexOf;
  }

  ghost function Named(rules: seq<string>): set<string>
  {
    set i | 0 <= i < |rules| :: TrimSpace(rules[i])
  }

  lemma RemovesTogetherExactly(s: Aggregate, rules: seq<string>, at: Time)
    ensures var r := RemoveAtomic(s, rules, at);
      && (r.error.None? <==>
            && s.phase == Running
            && (rules == [] || (&& at != 0 && Since(s, at)
                                && forall i :: 0 <= i < |rules| ==> TrimSpace(rules[i]) != "" && HasRule(s.outcomes, TrimSpace(rules[i])))))
      && (r.error.None? ==> r.next.outcomes == Without(s.outcomes, Named(rules)))
  {
    hide TrimSpace, Without, HasRule, Recorded;
    forall i | 0 <= i < |rules| ensures Recorded(s.outcomes, TrimSpace(rules[i])) <==> HasRule(s.outcomes, TrimSpace(rules[i])) {
      RecordedExactly(s.outcomes, TrimSpace(rules[i]));
    }
    if s.phase == Running && rules != [] && at != 0 && Since(s, at) {
      RemoveAtomicIsAFilter(s, rules, at);
    }
    if rules == [] {
      assert Named(rules) == {};
      WithoutAbsent(s.outcomes, {});
    }
  }

  /** The rules named that have an outcome are removed; with none, nothing is asked of the time. */
  lemma RemovesEachIfPresentExactly(s: Aggregate, rules: seq<string>, at: Time)
    ensures var r := RemoveEachIfPresent(s, rules, at); var some := exists i :: 0 <= i < |rules| && HasRule(s.outcomes, TrimSpace(rules[i]));
      && (r.error.None? <==>
            && s.phase == Running && (forall i :: 0 <= i < |rules| ==> TrimSpace(rules[i]) != "")
            && (some ==> at != 0 && Since(s, at)))
      && (r.error.None? ==> r.next.outcomes == Without(s.outcomes, Named(rules)))
  {
    hide TrimSpace, Without, HasRule, Recorded, RemoveAtomic;
    if s.phase == Running && RuleSet(rules).Some? {
      var named := RuleSet(rules).value;
      NamesAreTrimmed(rules);
      var present := set id | id in named && Recorded(s.outcomes, id);
      forall id ensures Recorded(s.outcomes, id) <==> HasRule(s.outcomes, id) { RecordedExactly(s.outcomes, id); }
      forall i | 0 <= i < |rules| && HasRule(s.outcomes, TrimSpace(rules[i])) ensures present != {} {
        assert TrimSpace(rules[i]) in present;
      }
      if present == {} {
        NoneToRemove(s.outcomes, named);
      } else {
        PresentOnly(s, named, present, at);
      }
    }
  }

  lemma NamesAreTrimmed(rules: seq<string>)
    requires RuleSet(rules).Some?
    ensures forall id :: id in RuleSet(rules).value ==> id != "" && TrimSpace(id) == id
  {
    hide TrimSpace;
    forall id | id in RuleSet(rules).value ensures id != "" && TrimSpace(id) == id {
      var i :| 0 <= i < |rules| && TrimSpace(rules[i]) == id;
      TrimmedTwice(rules[i]);
    }
  }

  lemma NoneToRemove(os: seq<RuleOutcome>, ids: set<string>)
    requires forall id :: id in ids ==> !HasRule(os, id)
    ensures Without(os, ids) == os
  {
    WithoutAbsent(os, ids);
  }

  lemma PresentOnly(s: Aggregate, named: set<string>, present: set<string>, at: Time)
    requires s.phase == Running && present != {} && (forall id :: id in present <==> id in named && HasRule(s.outcomes, id))
    requires forall id :: id in named ==> id != "" && TrimSpace(id) == id
    ensures RemoveAtomic(s, Keys(present), at).error.None? <==> at != 0 && Since(s, at)
    ensures RemoveAtomic(s, Keys(present), at).error.None? ==> RemoveAtomic(s, Keys(present), at).next.outcomes == Without(s.outcomes, named)
  {
    hide TrimSpace, HasRule, RemoveAtomic, Without;
    var keys := Keys(present);
    assert Named(keys) == present by {
      forall id ensures id in Named(keys) <==> id in present {
        if id in present { var i :| 0 <= i < |keys| && keys[i] == id; assert TrimSpace(keys[i]) == id; }
      }
    }
    RemovesTogetherExactly(s, keys, at);
    forall i | 0 <= i < |s.outcomes| ensures s.outcomes[i].ruleID in named <==> s.outcomes[i].ruleID in present {
      HasAt(s.outcomes, i);
    }
    WithoutPresent(s.outcomes, named, present);
  }

  lemma HasAt(os: seq<RuleOutcome>, i: nat)
    requires i < |os|
    ensures HasRule(os, os[i].ruleID)
  {
  }

  lemma {:induction false} WithoutPresent(os: seq<RuleOutcome>, named: set<string>, present: set<string>)
    requires forall i :: 0 <= i < |os| ==> (os[i].ruleID in named <==> os[i].ruleID in present)
    ensures Without(os, named) == Without(os, present)
  {
    if os != [] {
      WithoutPresent(os[..|os| - 1], named, present);
    }
  }

  lemma ResetsExactly(s: Aggregate, expected: nat, at: Time)
    ensures var r := Reset(s, at);
      && (r.error.None? <==> s.phase == Running && at != 0 && Since(s, at))
      && (r.error.None? ==> r.next.outcomes == [] && (r.next == s <==> s.outcomes == []))
      && (ResetAtVersion(s, expected, at).error.None? <==> r.error.None? && s.version == expected)
      && (ResetAtVersion(s, expected, at).error.None? ==> ResetAtVersion(s, expected, at) == r)
  {
  }

  // Checkpoints and history ----------------------------------------------------------------------------

  lemma CheckpointsExactly(s: Aggregate, name: string, at: Time)
    ensures var r := CreateCheckpoint(s, name, at); var key := TrimSpace(name);
      && (r.error.None? <==> s.phase == Running && key != "" && key !in s.checkpoints && at != 0 && Since(s, at))
      && (r.error.None? ==>
            r.next == s.(checkpoints := s.checkpoints[key := Checkpoint(key, s.outcomes, s.version, at)], version := s.version + 1))
  {
    hide TrimSpace;
  }

  lemma RollsBackExactly(s: Aggregate, name: string, at: Time)
    ensures var r := Rollback(s, name, at); var key := TrimSpace(name);
      && (r.error.None? <==>
            s.phase == Running && key in s.checkpoints && at != 0 && Since(s, at) && s.checkpoints[key].createdAt <= at)
      && (r.error.None? ==> r.next == s.(outcomes := s.checkpoints[key].outcomes, version := s.version + 1))
  {
    hide TrimSpace;
  }

  /** What a checkpoint took is what rolling back to it puts in place, whatever was done to the outcomes since. */
  lemma RollbackUndoes(s: Aggregate, name: string, at: Time, later: Aggregate, backAt: Time)
    requires CreateCheckpoint(s, name, at).error.None? && TrimSpace(name) in later.checkpoints
    requires later.checkpoints[TrimSpace(name)] == CreateCheckpoint(s, name, at).next.checkpoints[TrimSpace(name)]
    requires later.phase == Running && backAt != 0 && Since(later, backAt) && at <= backAt
    ensures Rollback(later, name, backAt).error.None? && Rollback(later, name, backAt).next.outcomes == s.outcomes
  {
    hide TrimSpace;
  }

  /** History is captured in any phase, once per version. */
  lemma CapturesExactly(s: Aggregate, at: Time)
    ensures var r := RecordHistory(s, at);
      && (r.error.None? <==>
            && at != 0 && s.createdAt <= at && s.id != 0 && s.sessionID != 0 && s.version != 0 && !s.verdict.OtherVerdict?
            && forall i :: 0 <= i < |s.history| ==> s.history[i].version != s.version)
      && (r.error.None? ==>
            r.next == s.(history := s.history + [
              HistoryEntry(s.id, s.sessionID, s.version, s.phase, s.verdict, s.reasons, s.required, s.outcomes, at)]))
  {
  }

  // Bindings -----------------------------------------------------------------------------------------

  /** Blank reasons are dropped; the others must be codes. */
  ghost predicate LooseCodes(reasons: seq<string>)
  {
    forall i :: 0 <= i < |reasons| ==> Canonical(reasons[i]) == "" || IsCode(Canonical(reasons[i]))
  }

  ghost predicate NoReasons(reasons: seq<string>)
  {
    forall i :: 0 <= i < |reasons| ==> Canonical(reasons[i]) == ""
  }

  lemma {:induction false} LooseCodesExactly(reasons: seq<string>)
    ensures NormalizeEvidenceReasons(reasons).Ok? <==> LooseCodes(reasons)
    ensures LooseCodes(reasons) ==> (NormalizeEvidenceReasons(reasons).value == [] <==> NoReasons(reasons))
  {
    hide IsCode, Canonical;
    if reasons != [] {
      var n := |reasons| - 1;
      LooseCodesExactly(reasons[..n]);
      assert forall i :: 0 <= i < n ==> reasons[..n][i] == reasons[i];
      assert LooseCodes(reasons) <==> LooseCodes(reasons[..n]) && (Canonical(reasons[n]) == "" || IsCode(Canonical(reasons[n])));
      assert NoReasons(reasons) <==> NoReasons(reasons[..n]) && Canonical(reasons[n]) == "";
    }
  }

  ghost predicate WellFormedReference(r: EvidenceReference)
  {
    r.evidenceID != 0 && !r.status.OtherEvidenceStatus? && LooseCodes(r.reasons) && (r.status == Qualified <==> NoReasons(r.reasons))
  }

  lemma ReferenceExactly(r: EvidenceReference)
    ensures NormalizeReference(r).Ok? <==> WellFormedReference(r)
    ensures WellFormedReference(r) ==> NormalizeReference(r).value.evidenceID == r.evidenceID && NormalizeReference(r).value.status == r.status
  {
    hide NormalizeEvidenceReasons, LooseCodes, NoReasons;
    LooseCodesExactly(r.reasons);
  }

  /** The status agrees with the reasons and references. */
  ghost predicate Coherent(status: EvidenceStatus, none: bool, references: seq<EvidenceReference>)
  {
    match status
    case Qualified => references != [] && none && forall i :: 0 <= i < |references| ==> references[i].status == Qualified
    case Unavailable => references == [] && !none
    case EvidenceRejected => !none || exists i :: 0 <= i < |references| && references[i].status != Qualified
    case OtherEvidenceStatus(_) => false
  }

  ghost predicate WellFormedEvidence(b: EvidenceBinding)
  {
    && b.sessionID != 0 && TrimSpace(b.policyVersion) != "" && b.qualifiedAt != 0 && LooseCodes(b.reasons)
    && (forall i :: 0 <= i < |b.evidence| ==> WellFormedReference(b.evidence[i]))
    && (forall i, j :: 0 <= i < j < |b.evidence| ==> b.evidence[i].evidenceID != b.evidence[j].evidenceID)
    && Coherent(b.status, NoReasons(b.reasons), b.evidence)
  }

  lemma ReferencesExactly(rs: seq<EvidenceReference>)
    ensures NormalizeReferences(rs).Ok? <==>
      && (forall i :: 0 <= i < |rs| ==> WellFormedReference(rs[i]))
      && (forall i, j :: 0 <= i < j < |rs| ==> rs[i].evidenceID != rs[j].evidenceID)
    ensures NormalizeReferences(rs).Ok? ==>
      |NormalizeReferences(rs).value| == |rs| && forall i :: 0 <= i < |rs| ==> NormalizeReferences(rs).value[i].status == rs[i].status
  {
    hide NormalizeReference, WellFormedReference;
    forall i | 0 <= i < |rs|
      ensures NormalizeReference(rs[i]).Ok? <==> WellFormedReference(rs[i])
      ensures WellFormedReference(rs[i]) ==> NormalizeReference(rs[i]).value.status == rs[i].status
    {
      ReferenceExactly(rs[i]);
    }
  }

  lemma SameStatuses(status: EvidenceStatus, none: bool, xs: seq<EvidenceReference>, ys: seq<EvidenceReference>)
    requires |xs| == |ys| && forall i :: 0 <= i < |xs| ==> xs[i].status == ys[i].status
    ensures Coherent(status, none, xs) <==> Coherent(status, none, ys)
  {
    if i :| 0 <= i < |xs| && xs[i].status != Qualified {
      assert ys[i].status != Qualified;
    }
    if i :| 0 <= i < |ys| && ys[i].status != Qualified {
      assert xs[i].status != Qualified;
    }
  }

  lemma EvidenceExactly(b: EvidenceBinding)
    ensures NormalizeEvidence(b).Ok? <==> WellFormedEvidence(b)
    ensures WellFormedEvidence(b) ==> NormalizeEvidence(b).value.sessionID == b.sessionID
  {
    hide NormalizeEvidenceReasons, NormalizeReferences, WellFormedReference, LooseCodes, NoReasons, TrimSpace, Coherent, CoherentEvidence;
    LooseCodesExactly(b.reasons);
    ReferencesExactly(b.evidence);
    if NormalizeEvidenceReasons(b.reasons).Ok? && NormalizeReferences(b.evidence).Ok? {
      var reasons, references := NormalizeEvidenceReasons(b.reasons).value, NormalizeReferences(b.evidence).value;
      SameStatuses(b.status, NoReasons(b.reasons), b.evidence, references);
      CoherentAgain(b.(policyVersion := TrimSpace(b.policyVersion), reasons := reasons, evidence := references), NoReasons(b.reasons));
    }
  }

  lemma CoherentAgain(b: EvidenceBinding, none: bool)
    requires none <==> b.reasons == []
    ensures CoherentEvidence(b) <==> Coherent(b.status, none, b.evidence)
    ensures CoherentEvidence(b) ==> ValidEvidenceStatus(b.status)
  {
  }

  /** Evidence is bound once, before any outcome, for the evaluation's session; binding the same again changes nothing. */
  lemma BindsEvidenceExactly(s: Aggregate, b: EvidenceBinding)
    ensures var r := BindEvidence(s, b);
      && (r.error.None? <==>
            && (s.phase == Created || s.phase == Running) && s.outcomes == [] && WellFormedEvidence(b) && b.sessionID == s.sessionID
            && (s.evidence.None? || NormalizeEvidence(b) == Ok(s.evidence.value)))
      && (r.error.None? ==>
            && NormalizeEvidence(b).Ok?
            && r.next == if s.evidence.Some? then s else s.(evidence := Some(NormalizeEvidence(b).value), version := s.version + 1))
  {
    hide NormalizeEvidence, WellFormedEvidence;
    EvidenceExactly(b);
  }

  /** So is a policy, with a name, a version, a digest, and a time not before the creation. */
  lemma BindsPolicyExactly(s: Aggregate, b: PolicyBinding)
    ensures var r := BindPolicy(s, b); var v := PolicyBinding(TrimSpace(b.policyID), TrimSpace(b.version), TrimSpace(b.hash), b.boundAt);
      && (r.error.None? <==>
            && (s.phase == Created || s.phase == Running) && s.outcomes == []
            && v.policyID != "" && v.version != "" && IsPolicyHash(v.hash) && b.boundAt != 0 && s.createdAt <= b.boundAt
            && (s.policy.None? || s.policy.value == v))
      && (r.error.None? ==> r.next == if s.policy.Some? then s else s.(policy := Some(v), version := s.version + 1))
  {
    hide TrimSpace, IsPolicyHash;
  }

  // All operations ---------------------------------------------------------------------------------------

  /** The guards of the operations, one by one. */
  ghost predicate Allowed(s: Aggregate, op: Op)
  {
    var open := s.phase == Created || s.phase == Running;
    match op
    case OpStart(at) => s.phase == Created && at != 0 && s.createdAt <= at
    case OpComplete(verdict, reasons, at) =>
      && s.phase == Running && at != 0 && Since(s, at) && !verdict.OtherVerdict? && verdict != Unknown
      && Covered(s) && Codes(reasons) && (verdict == Verified <==> reasons == [])
    case OpCancel(reason, _) => open && TrimSpace(reason) != ""
    case OpExpire(at) => open && at != 0 && s.createdAt <= at
    case OpRegisterRule(rule, at) => open && at != 0 && s.createdAt <= at && TrimSpace(rule) != ""
    case OpRecord(o) => s.phase == Running && Recordable(s, o)
    case OpRecordEach(os) => os == [] || (s.phase == Running && RecordableTogether(s, os))
    case OpRecordAtomic(os) => s.phase == Running && RecordableTogether(s, os)
    case OpRecordBatch(os, at) => s.phase == Running && (os == [] || (at != 0 && Since(s, at) && RecordableTogether(s, os)))
    case OpReplace(o, at) => s.phase == Running && at != 0 && Since(s, at) && CanReplace(s, at, o)
    case OpReplaceAtomic(items, at) =>
      s.phase == Running && (items == [] || (at != 0 && Since(s, at) && CanReplaceTogether(s, at, items)))
    case OpRemove(rule, at) =>
      s.phase == Running && TrimSpace(rule) != "" && at != 0 && Since(s, at) && HasRule(s.outcomes, TrimSpace(rule))
    case OpRemoveIfPresent(rule, at) =>
      TrimSpace(rule) != "" && (!HasRule(s.outcomes, TrimSpace(rule)) || (s.phase == Running && at != 0 && Since(s, at)))
    case OpRemoveAtomic(rules, at) =>
      && s.phase == Running
      && (rules == [] || (&& at != 0 && Since(s, at)
                          && forall i :: 0 <= i < |rules| ==> TrimSpace(rules[i]) != "" && HasRule(s.outcomes, TrimSpace(rules[i]))))
    case OpRemoveEachIfPresent(rules, at) =>
      && s.phase == Running && (forall i :: 0 <= i < |rules| ==> TrimSpace(rules[i]) != "")
      && ((exists i :: 0 <= i < |rules| && HasRule(s.outcomes, TrimSpace(rules[i]))) ==> at != 0 && Since(s, at))
    case OpReset(at) => s.phase == Running && at != 0 && Since(s, at)
    case OpResetAtVersion(expected, at) => s.phase == Running && at != 0 && Since(s, at) && s.version == expected
    case OpCreateCheckpoint(name, at) =>
      s.phase == Running && TrimSpace(name) != "" && TrimSpace(name) !in s.checkpoints && at != 0 && Since(s, at)
    case OpRollback(name, at) =>
      && s.phase == Running && TrimSpace(name) in s.checkpoints && at != 0 && Since(s, at)
      && s.checkpoints[TrimSpace(name)].createdAt <= at
    case OpRecordHistory(at) =>
      && at != 0 && s.createdAt <= at && s.id != 0 && s.sessionID != 0 && s.version != 0 && !s.verdict.OtherVerdict?
      && forall i :: 0 <= i < |s.history| ==> s.history[i].version != s.version
    case OpBindEvidence(b) =>
      && open && s.outcomes == [] && WellFormedEvidence(b) && b.sessionID == s.sessionID
      && (s.evidence.None? || NormalizeEvidence(b) == Ok(s.evidence.value))
    case OpBindPolicy(b) =>
      var v := PolicyBinding(TrimSpace(b.policyID), TrimSpace(b.version), TrimSpace(b.hash), b.boundAt);
      && open && s.outcomes == []
      && v.policyID != "" && v.version != "" && IsPolicyHash(v.hash) && b.boundAt != 0 && s.createdAt <= b.boundAt
      && (s.policy.None? || s.policy.value == v)
  }

  lemma LifecycleExactly(s: Aggregate, op: Op)
    requires op.OpStart? || op.OpComplete? || op.OpCancel? || op.OpExpire? || op.OpRegisterRule?
    ensures Apply(s, op).error.None? <==> Allowed(s, op)
  {
    hide TrimSpace, Codes, Covered, NormalizeReasons, Start, CompleteAt, Cancel, Expire, RegisterRule;
    match op
    case OpStart(at) => StartsExactly(s, at);
    case OpComplete(verdict, reasons, at) => CompletesExactly(s, verdict, reasons, at);
    case OpCancel(reason, now) => CancelsExactly(s, reason, now);
    case OpExpire(at) => ExpiresExactly(s, at);
    case OpRegisterRule(rule, at) => RegistersExactly(s, rule, at);
    case _ =>
  }

  lemma RecordingExactly(s: Aggregate, op: Op)
    requires DistinctRules(s.outcomes)
    requires op.OpRecord? || op.OpRecordEach? || op.OpRecordAtomic? || op.OpRecordBatch? || op.OpReplace? || op.OpReplaceAtomic?
    ensures Apply(s, op).error.None? <==> Allowed(s, op)
  {
    hide Recordable, RecordableTogether, CanReplace, CanReplaceTogether, NormalizeOutcome, Record, RecordEach, RecordAtomic, RecordBatch,
      Replace, ReplaceAtomic, HasRule, Extended;
    match op
    case OpRecord(o) => RecordsExactly(s, o);
    case OpRecordEach(os) => RecordsEachExactly(s, os);
    case OpRecordAtomic(os) => RecordsTogetherExactly(s, os, 0);
    case OpRecordBatch(os, at) => RecordsTogetherExactly(s, os, at);
    case OpReplace(o, at) => ReplacesExactly(s, o, at);
    case OpReplaceAtomic(items, at) => ReplacesTogetherExactly(s, items, at);
    case _ =>
  }

  lemma RemovalExactly(s: Aggregate, op: Op)
    requires DistinctRules(s.outcomes)
    requires op.OpRemove? || op.OpRemoveIfPresent? || op.OpReset? || op.OpResetAtVersion?
    ensures Apply(s, op).error.None? <==> Allowed(s, op)
  {
    hide TrimSpace, HasRule, Remove, RemoveIfPresent, Reset, ResetAtVersion, Without;
    match op
    case OpRemove(rule, at) => RemovesExactly(s, rule, at);
    case OpRemoveIfPresent(rule, at) => RemovesIfPresentExactly(s, rule, at);
    case OpReset(at) => ResetsExactly(s, 0, at);
    case OpResetAtVersion(expected, at) => ResetsExactly(s, expected, at);
    case _ =>
  }

  lemma RemovalOfManyExactly(s: Aggregate, op: Op)
    requires op.OpRemoveAtomic? || op.OpRemoveEachIfPresent?
    ensures Apply(s, op).error.None? <==> Allowed(s, op)
  {
    hide TrimSpace, HasRule, RemoveAtomic, RemoveEachIfPresent, Without, Named;
    match op
    case OpRemoveAtomic(rules, at) => RemovesTogetherExactly(s, rules, at);
    case OpRemoveEachIfPresent(rules, at) => RemovesEachIfPresentExactly(s, rules, at);
    case _ =>
  }

  lemma CaptureExactly(s: Aggregate, op: Op)
    requires op.OpCreateCheckpoint? || op.OpRollback? || op.OpRecordHistory?
    ensures Apply(s, op).error.None? <==> Allowed(s, op)
  {
    hide TrimSpace, CreateCheckpoint, Rollback, RecordHistory;
    match op
    case OpCreateCheckpoint(name, at) => CheckpointsExactly(s, name, at);
    case OpRollback(name, at) => RollsBackExactly(s, name, at);
    case OpRecordHistory(at) => CapturesExactly(s, at);
    case _ =>
  }

  lemma BindingExactly(s: Aggregate, op: Op)
    requires op.OpBindEvidence? || op.OpBindPolicy?
    ensures Apply(s, op).error.None? <==> Allowed(s, op)
  {
    hide TrimSpace, WellFormedEvidence, IsPolicyHash, NormalizeEvidence, BindEvidence, BindPolicy;
    match op
    case OpBindEvidence(b) => BindsEvidenceExactly(s, b);
    case OpBindPolicy(b) => BindsPolicyExactly(s, b);
    case _ =>
  }

  /** Every operation, on every aggregate whose rules are distinct, is accepted exactly if its guard holds. */
  lemma AcceptedExactly(s: Aggregate, op: Op)
    requires DistinctRules(s.outcomes)
    ensures Apply(s, op).error.None? <==> Allowed(s, op)
  {
    hide Apply, Allowed, DistinctRules;
    if op.OpStart? || op.OpComplete? || op.OpCancel? || op.OpExpire? || op.OpRegisterRule? {
      LifecycleExactly(s, op);
    } else if op.OpRecord? || op.OpRecordEach? || op.OpRecordAtomic? || op.OpRecordBatch? || op.OpReplace? || op.OpReplaceAtomic? {
      RecordingExactly(s, op);
    } else if op.OpRemove? || op.OpRemoveIfPresent? || op.OpReset? || op.OpResetAtVersion? {
      RemovalExactly(s, op);
    } else if op.OpRemoveAtomic? || op.OpRemoveEachIfPresent? {
      RemovalOfManyExactly(s, op);
    } else if op.OpBindEvidence? || op.OpBindPolicy? {
      BindingExactly(s, op);
    } else {
      CaptureExactly(s, op);
    }
  }
}
