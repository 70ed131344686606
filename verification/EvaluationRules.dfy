/**
  What the batch operations on rule outcomes mean. A batch is accepted exactly when each
  outcome is acceptable alone and no two disagree about a rule; an accepted batch has the
  effect of recording its outcomes one by one in ascending order of rule; and neither the
  order of the input nor repeats in it make a difference.
 */
module EvaluationRules {
  import opened Prelude
  import opened Text
  import opened Sorting
  import opened Evaluation

  // Acceptance ---------------------------------------------------------------

  /** What the aggregate demands of one outcome before it may join a batch. */
  ghost predicate Acceptable(s: Aggregate, o: RuleOutcome)
  {
    NormalizeOutcome(o).Ok? && Admissible(s, NormalizeOutcome(o).value)
  }

  ghost predicate Admissible(s: Aggregate, v: RuleOutcome)
  {
    && !Earlier(v.evaluatedAt, s.startedAt)
    && !Unplanned(s, v.ruleID)
    && (Recorded(s.outcomes, v.ruleID) ==> OutcomeOf(s.outcomes, v.ruleID) == v)
  }

  ghost predicate Agree(o: RuleOutcome, p: RuleOutcome)
  {
    NormalizeOutcome(o).Ok? && NormalizeOutcome(p).Ok?
    && NormalizeOutcome(o).value.ruleID == NormalizeOutcome(p).value.ruleID
    ==> NormalizeOutcome(o) == NormalizeOutcome(p)
  }

  ghost predicate Accepted(s: Aggregate, os: seq<RuleOutcome>)
  {
    && (forall o :: o in os ==> Acceptable(s, o))
    && (forall o, p :: o in os && p in os ==> Agree(o, p))
  }

  /** `m` maps each rule named in `os` to its normalised outcome, and nothing else. */
  ghost predicate Collects(os: seq<RuleOutcome>, m: map<string, RuleOutcome>)
  {
    && (forall o :: o in os ==>
          NormalizeOutcome(o).Ok? && NormalizeOutcome(o).value.ruleID in m
          && m[NormalizeOutcome(o).value.ruleID] == NormalizeOutcome(o).value)
    && (forall id :: id in m ==> m[id].ruleID == id && exists o :: o in os && NormalizeOutcome(o) == Ok(m[id]))
  }

  lemma {:induction false} BatchCollects(s: Aggregate, os: seq<RuleOutcome>)
    requires Batch(s, os).Ok?
    ensures Collects(os, Batch(s, os).value)
    ensures forall id :: id in Batch(s, os).value ==> Admissible(s, Batch(s, os).value[id])
  {
    hide NormalizeOutcome, Recorded, OutcomeOf, Unplanned;
    if os != [] {
      var n := |os| - 1;
      BatchCollects(s, os[..n]);
      var m := Batch(s, os[..n]).value;
      var r := Batch(s, os).value;
      assert os == os[..n] + [os[n]];
      forall id | id in r ensures r[id].ruleID == id && exists o :: o in os && NormalizeOutcome(o) == Ok(r[id]) {
        if id in m && r[id] == m[id] {
          var o :| o in os[..n] && NormalizeOutcome(o) == Ok(m[id]);
          assert o in os;
        } else {
          assert os[n] in os && NormalizeOutcome(os[n]) == Ok(r[id]);
        }
      }
    }
  }

  /** A batch is accepted exactly when every outcome is, and no two of them disagree. */
  lemma {:induction false} BatchAccepts(s: Aggregate, os: seq<RuleOutcome>)
    ensures Batch(s, os).Ok? <==> Accepted(s, os)
  {
    hide NormalizeOutcome, Recorded, OutcomeOf, Unplanned;
    if os != [] {
      var n := |os| - 1;
      var front, o := os[..n], os[n];
      assert os == front + [o];
      BatchAccepts(s, front);
      if Batch(s, front).Ok? {
        BatchCollects(s, front);
        if Batch(s, os).Ok? {
          BatchCollects(s, os);
          forall p | p in os ensures Acceptable(s, p) {
            assert NormalizeOutcome(p).value.ruleID in Batch(s, os).value;
          }
        } else if Accepted(s, os) {
          RefusedHasAReason(s, Batch(s, front).value, front, o);
        }
      } else {
        assert Accepted(s, os) ==> Accepted(s, front);
      }
    }
  }

  lemma RefusedHasAReason(s: Aggregate, m: map<string, RuleOutcome>, front: seq<RuleOutcome>, o: RuleOutcome)
    requires Collects(front, m) && BatchAdd(s, m, o).Err? && Acceptable(s, o)
    ensures exists p :: p in front && !Agree(o, p)
  {
    var v := NormalizeOutcome(o).value;
    assert v.ruleID in m && m[v.ruleID] != v;
    var p :| p in front && NormalizeOutcome(p) == Ok(m[v.ruleID]);
    assert !Agree(o, p);
  }

  lemma CollectsIsUnique(xs: seq<RuleOutcome>, ys: seq<RuleOutcome>, m: map<string, RuleOutcome>, l: map<string, RuleOutcome>)
    requires Collects(xs, m) && Collects(ys, l)
    requires forall o :: o in xs <==> o in ys
    ensures m == l
  {
    hide NormalizeOutcome;
    assert forall id :: id in m ==> id in l && l[id] == m[id];
    assert forall id :: id in l ==> id in m;
  }

  /** Neither order nor equal repeats matter: the same outcomes are accepted, and give the same state
      and the same events; a refused batch changes nothing either way. */
  lemma BatchIgnoresOrderAndRepeats(s: Aggregate, xs: seq<RuleOutcome>, ys: seq<RuleOutcome>, at: Time)
    requires forall o :: o in xs <==> o in ys
    ensures Batch(s, xs).Ok? == Batch(s, ys).Ok?
    ensures Batch(s, xs).Ok? ==> Batch(s, xs) == Batch(s, ys)
    ensures RecordAtomic(s, xs).next == RecordAtomic(s, ys).next
    ensures RecordAtomic(s, xs).emitted == RecordAtomic(s, ys).emitted
    ensures RecordBatch(s, xs, at).next == RecordBatch(s, ys, at).next
    ensures RecordBatch(s, xs, at).emitted == RecordBatch(s, ys, at).emitted
    ensures RecordBatch(s, xs, at).error.None? == RecordBatch(s, ys, at).error.None?
  {
    hide NormalizeOutcome, Recorded, OutcomeOf, Unplanned, Pending, Batch;
    BatchAccepts(s, xs);
    BatchAccepts(s, ys);
    if Batch(s, xs).Ok? {
      BatchCollects(s, xs);
      BatchCollects(s, ys);
      CollectsIsUnique(xs, ys, Batch(s, xs).value, Batch(s, ys).value);
    }
    assert xs == [] || xs[0] in ys;
    assert ys == [] || ys[0] in xs;
  }

  /** A batch that is refused leaves state and log as they were; an accepted one is not refused later. */
  lemma BatchesAreAllOrNothing(s: Aggregate, os: seq<RuleOutcome>, items: seq<Replacement>, at: Time)
    ensures RecordAtomic(s, os).error.Some? ==> RecordAtomic(s, os) == Refuse(s, RecordAtomic(s, os).error.value)
    ensures RecordBatch(s, os, at).error.Some? ==> RecordBatch(s, os, at) == Refuse(s, RecordBatch(s, os, at).error.value)
    ensures ReplaceAtomic(s, items, at).error.Some? ==> ReplaceAtomic(s, items, at) == Refuse(s, ReplaceAtomic(s, items, at).error.value)
    ensures s.phase == Running && Batch(s, os).Ok? ==> RecordAtomic(s, os).error.None?
  {
    hide Pending, Batch, Replacements, Listing, Lookup, Overlay, Differing;
    if Batch(s, os).Ok? {
      AppendEachAppends(s, Pending(s, Batch(s, os).value));
    }
  }

  lemma RemovalIsAllOrNothing(s: Aggregate, ids: seq<string>, at: Time)
    ensures RemoveAtomic(s, ids, at).error.Some? ==> RemoveAtomic(s, ids, at) == Refuse(s, RemoveAtomic(s, ids, at).error.value)
    ensures RemoveEachIfPresent(s, ids, at).error.Some? ==> RemoveEachIfPresent(s, ids, at) == Refuse(s, RemoveEachIfPresent(s, ids, at).error.value)
  {
    hide Listing, Lookup, Without, Least, RuleSet, Keys, Recorded;
  }

  // Recording one by one -------------------------------------------------------

  lemma {:induction false} AppendEachAppends(s: Aggregate, os: seq<RuleOutcome>)
    ensures AppendEach(s, os).error.None?
    ensures AppendEach(s, os).next == s.(outcomes := s.outcomes + os, version := s.version + |os|)
    ensures |AppendEach(s, os).emitted| == |os|
  {
    if os != [] {
      var n := |os| - 1;
      AppendEachAppends(s, os[..n]);
      assert os == os[..n] + [os[n]];
      assert s.outcomes + os[..n] + [os[n]] == s.outcomes + os;
    } else {
      assert s.outcomes + os == s.outcomes;
    }
  }

  /** The outcomes of `os` whose rule has nothing recorded, in order. */
  function Unrecorded(recorded: seq<RuleOutcome>, os: seq<RuleOutcome>): (r: seq<RuleOutcome>)
    ensures forall o :: o in r <==> o in os && !Recorded(recorded, o.ruleID)
  {
    if os == [] then []
    else
      var n := |os| - 1;
      assert os == os[..n] + [os[n]];
      var front := Unrecorded(recorded, os[..n]);
      if Recorded(recorded, os[n].ruleID) then front else front + [os[n]]
  }

  ghost predicate AscendingRules(os: seq<RuleOutcome>)
  {
    forall i, j :: 0 <= i < j < |os| ==> Before(os[i].ruleID, os[j].ruleID)
  }

  lemma {:induction false} UnrecordedAscends(recorded: seq<RuleOutcome>, os: seq<RuleOutcome>)
    requires AscendingRules(os)
    ensures AscendingRules(Unrecorded(recorded, os))
  {
    if os != [] {
      var n := |os| - 1;
      UnrecordedAscends(recorded, os[..n]);
      var front := Unrecorded(recorded, os[..n]);
      forall i | 0 <= i < |front| ensures Before(front[i].ruleID, os[n].ruleID) {
        assert front[i] in os[..n];
        var k :| 0 <= k < n && os[k] == front[i];
      }
    }
  }

  /** Ascending by rule and holding exactly the values of `m`: that is the listing of `m`. */
  lemma ListingIsUnique(os: seq<RuleOutcome>, m: map<string, RuleOutcome>)
    requires forall id :: id in m ==> m[id].ruleID == id
    requires AscendingRules(os)
    requires forall o :: o in os <==> o.ruleID in m && m[o.ruleID] == o
    ensures os == Listing(m)
  {
    var ids := seq(|os|, i requires 0 <= i < |os| => os[i].ruleID);
    forall id ensures id in ids <==> id in m.Keys {
      if id in ids {
        var i :| 0 <= i < |ids| && ids[i] == id;
        assert os[i] in os;
      }
      if id in m {
        assert m[id] in os;
        var i :| 0 <= i < |os| && os[i] == m[id];
        assert ids[i] == id;
      }
    }
    KeysAreUnique(ids, m.Keys);
    forall i | 0 <= i < |os| ensures os[i] == Listing(m)[i] {
      assert os[i] in os && ids[i] == Keys(m.Keys)[i];
    }
    assert |os| == |Listing(m)|;
  }

  lemma ListingOfRules(m: map<string, RuleOutcome>)
    requires forall id :: id in m ==> m[id].ruleID == id
    ensures AscendingRules(Listing(m)) && DistinctRules(Listing(m))
    ensures forall o :: o in Listing(m) <==> o.ruleID in m && m[o.ruleID] == o
  {
    var l, keys := Listing(m), Keys(m.Keys);
    BeforeIsAnOrder();
    forall i, j | 0 <= i < j < |l| ensures Before(l[i].ruleID, l[j].ruleID) && l[i].ruleID != l[j].ruleID {
      assert Before(keys[i], keys[j]);
    }
    forall o: RuleOutcome | o.ruleID in m && m[o.ruleID] == o ensures o in l {
      ListingMembers(m, o.ruleID);
    }
  }

  lemma PendingIsUnrecorded(s: Aggregate, m: map<string, RuleOutcome>)
    requires forall id :: id in m ==> m[id].ruleID == id
    ensures Pending(s, m) == Unrecorded(s.outcomes, Listing(m))
  {
    ListingOfRules(m);
    UnrecordedAscends(s.outcomes, Listing(m));
    ListingIsUnique(Unrecorded(s.outcomes, Listing(m)), map id | id in m && !Recorded(s.outcomes, id) :: m[id]);
  }

  lemma IndexAfterAppend(os: seq<RuleOutcome>, ps: seq<RuleOutcome>, id: string)
    ensures Recorded(os + ps, id) <==> Recorded(os, id) || Recorded(ps, id)
    ensures Recorded(os, id) ==> OutcomeOf(os + ps, id) == OutcomeOf(os, id)
  {
    var k := IndexOf(os + ps, id);
    if Recorded(os, id) {
      assert (os + ps)[IndexOf(os, id)].ruleID == id;
    }
    if Recorded(ps, id) {
      assert (os + ps)[|os| + IndexOf(ps, id)].ruleID == id;
    }
    if k >= 0 {
      assert k < |os| ==> os[k].ruleID == id;
      assert k >= |os| ==> ps[k - |os|].ruleID == id;
    }
  }

  /** Recording admissible, distinct outcomes one by one appends exactly the unrecorded ones. */
  lemma {:induction false} RecordEachAppends(s: Aggregate, os: seq<RuleOutcome>)
    requires s.phase == Running && DistinctRules(os)
    requires forall i :: 0 <= i < |os| ==> Normal(os[i]) && Admissible(s, os[i])
    ensures RecordEach(s, os) == AppendEach(s, Unrecorded(s.outcomes, os))
  {
    hide NormalizeOutcome;
    if os != [] {
      var n := |os| - 1;
      var front, o := os[..n], os[n];
      RecordEachAppends(s, front);
      var added := Unrecorded(s.outcomes, front);
      AppendEachAppends(s, added);
      var before := RecordEach(s, front);
      IndexAfterAppend(s.outcomes, added, o.ruleID);
      assert forall i :: 0 <= i < |added| ==> added[i] in front;
      assert !Recorded(added, o.ruleID);
      var last := Record(before.next, o);
      if Recorded(s.outcomes, o.ruleID) {
        assert before.emitted + last.emitted == before.emitted;
      } else {
        assert (added + [o])[..|added|] == added;
      }
    }
  }

  /** Batch, atomic and one-by-one recording agree: `RecordRuleOutcomesAtomic` is one-by-one recording in
      ascending order of rule, events and all, and `RecordRuleOutcomeBatch` leaves the same outcome list. */
  lemma RecordingAgrees(s: Aggregate, os: seq<RuleOutcome>, at: Time)
    requires s.phase == Running && Batch(s, os).Ok?
    ensures RecordAtomic(s, os) == RecordEach(s, Listing(Batch(s, os).value))
    ensures at != 0 && !Earlier(at, s.startedAt) ==> RecordBatch(s, os, at).next.outcomes == RecordAtomic(s, os).next.outcomes
  {
    var m := Batch(s, os).value;
    BatchCollects(s, os);
    ListingOfRules(m);
    forall i | 0 <= i < |Listing(m)| ensures Normal(Listing(m)[i]) && Admissible(s, Listing(m)[i]) {
      var id := Keys(m.Keys)[i];
      var o :| o in os && NormalizeOutcome(o) == Ok(m[id]);
      NormalizeOutcomeIsIdempotent(o);
    }
    RecordEachAppends(s, Listing(m));
    PendingIsUnrecorded(s, m);
    AppendEachAppends(s, Pending(s, m));
    assert Pending(s, m) == [] ==> s.outcomes + Pending(s, m) == s.outcomes;
    if os == [] {
      assert m == map[] && Pending(s, m) == [];
    }
  }

  // Replacing -------------------------------------------------------------------

  ghost predicate CollectsItems(items: seq<Replacement>, m: map<string, RuleOutcome>)
  {
    && (forall x :: x in items ==>
          NormalizeOutcome(x.outcome).Ok? && NormalizeOutcome(x.outcome).value.ruleID in m
          && m[NormalizeOutcome(x.outcome).value.ruleID] == NormalizeOutcome(x.outcome).value)
    && (forall id :: id in m ==> m[id].ruleID == id && exists x :: x in items && NormalizeOutcome(x.outcome) == Ok(m[id]))
  }

  ghost predicate Replaceable(s: Aggregate, at: Time, v: RuleOutcome)
  {
    && v.evaluatedAt <= at && !Earlier(v.evaluatedAt, s.startedAt) && !Unplanned(s, v.ruleID)
    && Recorded(s.outcomes, v.ruleID) && OutcomeOf(s.outcomes, v.ruleID).evaluatedAt <= v.evaluatedAt
  }

  ghost predicate ItemAcceptable(s: Aggregate, at: Time, x: Replacement)
  {
    x.replacedAt <= at || x.replacedAt == 0
  }

  ghost predicate ItemsAccepted(s: Aggregate, at: Time, items: seq<Replacement>)
  {
    && (forall x :: x in items ==>
          ItemAcceptable(s, at, x) && NormalizeOutcome(x.outcome).Ok? && Replaceable(s, at, NormalizeOutcome(x.outcome).value))
    && (forall x, y :: x in items && y in items ==> Agree(x.outcome, y.outcome))
  }

  lemma ReplaceAddCollects(s: Aggregate, at: Time, front: seq<Replacement>, m: map<string, RuleOutcome>, x: Replacement)
    requires CollectsItems(front, m) && ReplaceAdd(s, at, m, x).Ok?
    ensures CollectsItems(front + [x], ReplaceAdd(s, at, m, x).value)
  {
    hide NormalizeOutcome, Recorded, OutcomeOf, Unplanned;
    var r := ReplaceAdd(s, at, m, x).value;
    var v := NormalizeOutcome(x.outcome).value;
    assert r == m[v.ruleID := v];
    forall id | id in r ensures r[id].ruleID == id && exists y :: y in front + [x] && NormalizeOutcome(y.outcome) == Ok(r[id]) {
      if id in m {
        var y :| y in front && NormalizeOutcome(y.outcome) == Ok(m[id]);
        assert y in front + [x];
      } else {
        assert x in front + [x];
      }
    }
  }

  lemma {:induction false} ReplacementsCollect(s: Aggregate, at: Time, items: seq<Replacement>)
    requires Replacements(s, at, items).Ok?
    ensures CollectsItems(items, Replacements(s, at, items).value)
    ensures forall x :: x in items ==> ItemAcceptable(s, at, x)
    ensures forall id :: id in Replacements(s, at, items).value ==> Replaceable(s, at, Replacements(s, at, items).value[id])
  {
    hide NormalizeOutcome, Recorded, OutcomeOf, Unplanned, CollectsItems;
    if items != [] {
      var n := |items| - 1;
      ReplacementsCollect(s, at, items[..n]);
      ReplaceAddCollects(s, at, items[..n], Replacements(s, at, items[..n]).value, items[n]);
      assert items == items[..n] + [items[n]];
    } else {
      NothingCollected();
    }
  }

  lemma NothingCollected()
    ensures CollectsItems([], map[])
  {
  }

  lemma {:induction false} ReplacementsAccept(s: Aggregate, at: Time, items: seq<Replacement>)
    ensures Replacements(s, at, items).Ok? <==> ItemsAccepted(s, at, items)
  {
    hide NormalizeOutcome, Recorded, OutcomeOf, Unplanned;
    if items != [] {
      var n := |items| - 1;
      var front, x := items[..n], items[n];
      assert items == front + [x];
      ReplacementsAccept(s, at, front);
      if Replacements(s, at, items).Ok? {
        ReplacementsCollect(s, at, items);
        CollectedItemsAreAccepted(s, at, items, Replacements(s, at, items).value);
      } else if Replacements(s, at, front).Ok? {
        ReplacementsCollect(s, at, front);
        RefusedItemHasAReason(s, at, front, Replacements(s, at, front).value, x);
      } else {
        assert ItemsAccepted(s, at, items) ==> ItemsAccepted(s, at, front);
      }
    }
  }

  lemma CollectedItemsAreAccepted(s: Aggregate, at: Time, items: seq<Replacement>, m: map<string, RuleOutcome>)
    requires CollectsItems(items, m)
    requires forall x :: x in items ==> ItemAcceptable(s, at, x)
    requires forall id :: id in m ==> Replaceable(s, at, m[id])
    ensures ItemsAccepted(s, at, items)
  {
    hide NormalizeOutcome, Replaceable;
  }

  lemma RefusedItemHasAReason(s: Aggregate, at: Time, front: seq<Replacement>, m: map<string, RuleOutcome>, x: Replacement)
    requires CollectsItems(front, m) && ReplaceAdd(s, at, m, x).Err?
    ensures !ItemsAccepted(s, at, front + [x])
  {
    hide NormalizeOutcome, Recorded, OutcomeOf, Unplanned;
    var items := front + [x];
    assert x in items && forall y :: y in front ==> y in items;
  }

  /** A batch replacement is accepted exactly when each item is and no two disagree, and then replaces
      pointwise: each position holds the replacement for its rule if there is one, else what it held. */
  lemma ReplaceAtomicIsPointwise(s: Aggregate, items: seq<Replacement>, at: Time)
    requires s.phase == Running && items != [] && at != 0 && !Earlier(at, s.startedAt) && DistinctRules(s.outcomes)
    ensures ReplaceAtomic(s, items, at).error.None? <==> ItemsAccepted(s, at, items)
    ensures ItemsAccepted(s, at, items) ==>
      && ReplaceAtomic(s, items, at).next.outcomes == Overlay(s.outcomes, Replacements(s, at, items).value)
      && CollectsItems(items, Replacements(s, at, items).value)
  {
    hide NormalizeOutcome;
    ReplacementsAccept(s, at, items);
    if ItemsAccepted(s, at, items) {
      ReplacementsCollect(s, at, items);
      var m := Replacements(s, at, items).value;
      forall i | 0 <= i < |s.outcomes| ensures Overlay(s.outcomes, Differing(s, m))[i] == Overlay(s.outcomes, m)[i] {
        IndexOfDistinct(s.outcomes, i);
      }
      assert Overlay(s.outcomes, Differing(s, m)) == Overlay(s.outcomes, m);
      if Differing(s, m) == map[] {
        assert Overlay(s.outcomes, map[]) == s.outcomes;
      }
    }
  }

  lemma IndexOfDistinct(os: seq<RuleOutcome>, i: nat)
    requires DistinctRules(os) && i < |os|
    ensures IndexOf(os, os[i].ruleID) == i
  {
    var k := IndexOf(os, os[i].ruleID);
    assert k >= 0 && (k < i || i < k || k == i);
  }

  lemma ReplaceAtomicIgnoresOrderAndRepeats(s: Aggregate, xs: seq<Replacement>, ys: seq<Replacement>, at: Time)
    requires forall x :: x in xs <==> x in ys
    ensures ReplaceAtomic(s, xs, at).next == ReplaceAtomic(s, ys, at).next
    ensures ReplaceAtomic(s, xs, at).emitted == ReplaceAtomic(s, ys, at).emitted
    ensures ReplaceAtomic(s, xs, at).error.None? == ReplaceAtomic(s, ys, at).error.None?
  {
    hide NormalizeOutcome, Recorded, OutcomeOf, Unplanned, Differing, Replacements;
    ReplacementsAccept(s, at, xs);
    ReplacementsAccept(s, at, ys);
    if Replacements(s, at, xs).Ok? {
      ReplacementsCollect(s, at, xs);
      ReplacementsCollect(s, at, ys);
      var m, l := Replacements(s, at, xs).value, Replacements(s, at, ys).value;
      assert forall id :: id in m ==> id in l && l[id] == m[id];
      assert forall id :: id in l ==> id in m;
      assert m == l;
    }
    assert xs == [] || xs[0] in ys;
    assert ys == [] || ys[0] in xs;
  }

  // Removing ---------------------------------------------------------------------

  /** A batch removal is a filter that keeps the order of what remains; it goes through exactly when every
      named rule is recorded. */
  lemma RemoveAtomicIsAFilter(s: Aggregate, ids: seq<string>, at: Time)
    requires s.phase == Running && ids != [] && at != 0 && !Earlier(at, s.startedAt)
    ensures RemoveAtomic(s, ids, at).error.None? <==>
      forall i :: 0 <= i < |ids| ==> !Blank(ids[i]) && Recorded(s.outcomes, TrimSpace(ids[i]))
    ensures RemoveAtomic(s, ids, at).error.None? ==>
      RemoveAtomic(s, ids, at).next.outcomes == Without(s.outcomes, set i | 0 <= i < |ids| :: TrimSpace(ids[i]))
  {
    if RuleSet(ids).Some? {
      var rules := RuleSet(ids).value;
      var missing := Missing(s.outcomes, rules);
      forall i | 0 <= i < |ids| && !Recorded(s.outcomes, TrimSpace(ids[i])) ensures missing != {} {
        assert TrimSpace(ids[i]) in missing;
      }
    }
  }

  /** Removing a rule by position is removing it by name. */
  lemma {:induction false} RemoveIsAFilter(os: seq<RuleOutcome>, k: nat, id: string)
    requires DistinctRules(os) && k < |os| && os[k].ruleID == id
    ensures Cut(os, k) == Without(os, {id})
  {
    hide Without;
    var n := |os| - 1;
    WithoutLast(os, {id});
    if k == n {
      WithoutAbsent(os[..n], {id});
      assert Cut(os, k) == os[..n];
    } else {
      RemoveIsAFilter(os[..n], k, id);
      assert os[n].ruleID != id;
      CutBeforeLast(os, k);
    }
  }

  lemma CutBeforeLast(os: seq<RuleOutcome>, k: nat)
    requires k + 1 < |os|
    ensures var front := os[..|os| - 1]; Cut(os, k) == Cut(front, k) + [os[|os| - 1]]
  {
  }

  lemma WithoutLast(os: seq<RuleOutcome>, ids: set<string>)
    requires os != []
    ensures var n := |os| - 1; Without(os, ids) == Without(os[..n], ids) + if os[n].ruleID in ids then [] else [os[n]]
  {
  }

  lemma {:induction false} WithoutAbsent(os: seq<RuleOutcome>, ids: set<string>)
    requires forall i :: 0 <= i < |os| ==> os[i].ruleID !in ids
    ensures Without(os, ids) == os
  {
    if os != [] {
      var n := |os| - 1;
      WithoutAbsent(os[..n], ids);
      assert os == os[..n] + [os[n]];
    }
  }

  lemma {:induction false} WithoutKeepsDistinct(os: seq<RuleOutcome>, ids: set<string>)
    requires DistinctRules(os)
    ensures DistinctRules(Without(os, ids))
  {
    if os != [] {
      var n := |os| - 1;
      WithoutKeepsDistinct(os[..n], ids);
      var front := Without(os[..n], ids);
      forall i | 0 <= i < |front| ensures front[i].ruleID != os[n].ruleID {
        assert front[i] in os[..n];
        var k :| 0 <= k < n && os[k] == front[i];
      }
    }
  }

  // Frame -------------------------------------------------------------------------

  predicate WritesOutcomes(op: Op)
  {
    || op.OpRecord? || op.OpRecordEach? || op.OpRecordAtomic? || op.OpRecordBatch? || op.OpReplace? || op.OpReplaceAtomic?
    || op.OpRemove? || op.OpRemoveIfPresent? || op.OpRemoveAtomic? || op.OpRemoveEachIfPresent? || op.OpReset? || op.OpResetAtVersion?
    || op.OpRollback?
  }

  ghost predicate OnlyOutcomes(s: Aggregate, next: Aggregate)
  {
    next == s.(outcomes := next.outcomes, version := next.version)
  }

  lemma RecordFrame(s: Aggregate, o: RuleOutcome)
    ensures OnlyOutcomes(s, Record(s, o).next)
  {
    hide NormalizeOutcome, Recorded, OutcomeOf, Unplanned, Earlier;
  }

  lemma {:induction false} RecordEachFrame(s: Aggregate, os: seq<RuleOutcome>)
    ensures OnlyOutcomes(s, RecordEach(s, os).next)
  {
    hide Record;
    if os != [] {
      RecordEachFrame(s, os[..|os| - 1]);
      RecordFrame(RecordEach(s, os[..|os| - 1]).next, os[|os| - 1]);
    }
  }

  lemma RecordManyFrame(s: Aggregate, os: seq<RuleOutcome>, at: Time)
    ensures OnlyOutcomes(s, RecordAtomic(s, os).next) && OnlyOutcomes(s, RecordBatch(s, os, at).next)
  {
    hide Batch, Pending, Earlier;
    if Batch(s, os).Ok? {
      AppendEachAppends(s, Pending(s, Batch(s, os).value));
    }
  }

  lemma ReplaceFrame(s: Aggregate, o: RuleOutcome, items: seq<Replacement>, at: Time)
    ensures OnlyOutcomes(s, Replace(s, o, at).next) && OnlyOutcomes(s, ReplaceAtomic(s, items, at).next)
  {
    hide NormalizeOutcome, Recorded, OutcomeOf, Unplanned, Earlier, Replacements, Differing, Listing, Lookup, Overlay;
  }

  lemma RemoveFrame(s: Aggregate, rule: string, at: Time)
    ensures OnlyOutcomes(s, Remove(s, rule, at).next)
  {
    hide Earlier, Recorded, TrimSpace, Cut, IndexOf;
  }

  lemma RemoveIfPresentFrame(s: Aggregate, rule: string, at: Time)
    ensures OnlyOutcomes(s, RemoveIfPresent(s, rule, at).next)
  {
    hide Remove, Recorded, TrimSpace;
    RemoveFrame(s, TrimSpace(rule), at);
  }

  lemma RemoveSetFrame(s: Aggregate, ids: set<string>, at: Time)
    ensures OnlyOutcomes(s, RemoveSet(s, ids, at).next)
  {
    hide Missing, Listing, Lookup, Without, Least;
  }

  lemma RemoveAtomicFrame(s: Aggregate, rules: seq<string>, at: Time)
    ensures OnlyOutcomes(s, RemoveAtomic(s, rules, at).next)
  {
    hide RemoveSet, RuleSet, Earlier;
    if RuleSet(rules).Some? {
      RemoveSetFrame(s, RuleSet(rules).value, at);
    }
  }

  lemma RemoveEachFrame(s: Aggregate, rules: seq<string>, at: Time)
    ensures OnlyOutcomes(s, RemoveEachIfPresent(s, rules, at).next)
  {
    hide RemoveAtomic, RuleSet, Recorded, Keys;
    if RuleSet(rules).Some? {
      RemoveAtomicFrame(s, Keys(set id | id in RuleSet(rules).value && Recorded(s.outcomes, id)), at);
    }
  }

  lemma ResetFrame(s: Aggregate, op: Op)
    requires op.OpReset? || op.OpResetAtVersion? || op.OpRollback?
    ensures OnlyOutcomes(s, Apply(s, op).next)
  {
    hide Earlier, TrimSpace;
  }

  /** Outcome operations write the outcome list and the version, nothing else. */
  lemma OutcomeFrame(s: Aggregate, op: Op)
    requires WritesOutcomes(op)
    ensures OnlyOutcomes(s, Apply(s, op).next)
  {
    hide Record, RecordEach, RecordAtomic, RecordBatch, Replace, ReplaceAtomic, Remove, RemoveIfPresent, RemoveAtomic, RemoveEachIfPresent,
      Reset, ResetAtVersion, Rollback, OnlyOutcomes;
    match op
    case OpRecord(o) => RecordFrame(s, o);
    case OpRecordEach(os) => RecordEachFrame(s, os);
    case OpRecordAtomic(os) => RecordManyFrame(s, os, 0);
    case OpRecordBatch(os, at) => RecordManyFrame(s, os, at);
    case OpReplace(o, at) => ReplaceFrame(s, o, [], at);
    case OpReplaceAtomic(items, at) => ReplaceFrame(s, RuleOutcome("", Pass, [], 0), items, at);
    case OpRemove(rule, at) => RemoveFrame(s, rule, at);
    case OpRemoveIfPresent(rule, at) => RemoveIfPresentFrame(s, rule, at);
    case OpRemoveAtomic(rules, at) => RemoveAtomicFrame(s, rules, at);
    case OpRemoveEachIfPresent(rules, at) => RemoveEachFrame(s, rules, at);
    case _ => ResetFrame(s, op);
  }
}
