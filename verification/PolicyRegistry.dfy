/**
  The registry of activated policy versions. Versions of one policy hold for disjoint
  half-open periods, and their lifecycle only moves forward.
 */
module PolicyRegistry {
  import opened Prelude

  /** An immutable version; `document` stands for everything its hash covers. */
  datatype Policy = Policy(policyID: string, version: string, hash: string, from: Time, until: Option<Time>, document: string)

  datatype Lifecycle = Active | Suspended | Retired
  {
    function Rank(): nat { match this case Active => 0 case Suspended => 1 case Retired => 2 }
  }

  datatype Entry = Entry(policy: Policy, status: Lifecycle, statusAt: Time)

  datatype RegistryError = VersionConflict | EffectiveOverlap | PolicyNotFound | AmbiguousPolicy | InvalidLifecycleChange

  type Versions = map<string, map<string, Entry>>

  predicate Covers(p: Policy, at: Time)
  {
    p.from <= at && (p.until.None? || at < p.until.value)
  }

  predicate EffectiveAt(p: Policy, at: Time)
  {
    at != 0 && Covers(p, at)
  }

  predicate Overlap(a: Policy, b: Policy)
  {
    (a.until.None? || b.from < a.until.value) && (b.until.None? || a.from < b.until.value)
  }

  predicate WellFormed(p: Policy)
  {
    p.until.Some? ==> p.from < p.until.value
  }

  /** The comparison of the four bounds decides whether two periods have an instant in common. */
  lemma OverlapExactly(a: Policy, b: Policy)
    requires WellFormed(a) && WellFormed(b)
    ensures Overlap(a, b) <==> exists at :: Covers(a, at) && Covers(b, at)
  {
    if Overlap(a, b) {
      var at := if a.from <= b.from then b.from else a.from;
      assert Covers(a, at) && Covers(b, at);
    }
  }

  // Operations ---------------------------------------------------------------------------------

  function VersionsOf(vs: Versions, id: string): map<string, Entry>
  {
    if id in vs then vs[id] else map[]
  }

  function Put(vs: Versions, e: Entry): Versions
  {
    vs[e.policy.policyID := VersionsOf(vs, e.policy.policyID)[e.policy.version := e]]
  }

  function Add(vs: Versions, p: Policy, activatedAt: Time): (Versions, Option<RegistryError>)
  {
    var byVersion := VersionsOf(vs, p.policyID);
    if p.version in byVersion then (vs, if byVersion[p.version].policy.hash == p.hash then None else Some(VersionConflict))
    else if exists v :: v in byVersion && Overlap(byVersion[v].policy, p) then (vs, Some(EffectiveOverlap))
    else (Put(vs, Entry(p, Active, activatedAt)), None)
  }

  predicate Advances(from: Lifecycle, to: Lifecycle)
  {
    (from == Active && (to == Suspended || to == Retired)) || (from == Suspended && to == Retired)
  }

  function Transition(vs: Versions, id: string, version: string, target: Lifecycle, at: Time): (Versions, Option<RegistryError>)
  {
    var byVersion := VersionsOf(vs, id);
    if at == 0 || version !in byVersion || at < byVersion[version].statusAt || !Advances(byVersion[version].status, target)
    then (vs, Some(InvalidLifecycleChange))
    else (vs[id := byVersion[version := byVersion[version].(status := target, statusAt := at)]], None)
  }

  predicate Selected(e: Entry, at: Time)
  {
    e.status == Active && e.statusAt <= at && EffectiveAt(e.policy, at)
  }

  function Matches(vs: Versions, id: string, at: Time): set<string>
  {
    SelectedKeys(VersionsOf(vs, id), at)
  }

  function FindVersion(vs: Versions, id: string, version: string, hash: string): Result<Policy, RegistryError>
  {
    var byVersion := VersionsOf(vs, id);
    if version in byVersion && byVersion[version].policy.hash == hash then Ok(byVersion[version].policy) else Err(PolicyNotFound)
  }

  class Registry {
    var versions: Versions

    constructor ()
      ensures versions == map[]
    {
      versions := map[];
    }

    method AddVersion(p: Policy, activatedAt: Time) returns (err: Option<RegistryError>)
      modifies this
      ensures (versions, err) == Add(old(versions), p, activatedAt)
    {
      var byVersion := if p.policyID in versions then versions[p.policyID] else map[];
      if p.version in byVersion {
        if byVersion[p.version].policy.hash == p.hash {
          return None;
        }
        return Some(VersionConflict);
      }
      var left := byVersion.Keys;
      while left != {}
        invariant left <= byVersion.Keys
        invariant forall v :: v in byVersion && v !in left ==> !Overlap(byVersion[v].policy, p)
        invariant versions == old(versions)
        decreases |left|
      {
        var v :| v in left;
        if Overlap(byVersion[v].policy, p) {
          return Some(EffectiveOverlap);
        }
        left := left - {v};
      }
      versions := versions[p.policyID := byVersion[p.version := Entry(p, Active, activatedAt)]];
      return None;
    }

    method Change(id: string, version: string, target: Lifecycle, at: Time) returns (err: Option<RegistryError>)
      modifies this
      ensures (versions, err) == Transition(old(versions), id, version, target, at)
    {
      if at == 0 {
        return Some(InvalidLifecycleChange);
      }
      if id !in versions || version !in versions[id] {
        return Some(InvalidLifecycleChange);
      }
      var entry := versions[id][version];
      if at < entry.statusAt || !Advances(entry.status, target) {
        return Some(InvalidLifecycleChange);
      }
      entry := entry.(status := target, statusAt := at);
      versions := versions[id := versions[id][version := entry]];
      return None;
    }

    method Resolve(id: string, at: Time) returns (r: Result<Policy, RegistryError>)
      ensures r == Err(PolicyNotFound) <==> |Matches(versions, id, at)| == 0
      ensures r == Err(AmbiguousPolicy) <==> |Matches(versions, id, at)| > 1
      ensures r.Ok? <==> |Matches(versions, id, at)| == 1
      ensures r.Ok? ==> forall v :: v in Matches(versions, id, at) ==> VersionsOf(versions, id)[v].policy == r.value
    {
      var matches := CollectMatches(VersionsOf(versions, id), at);
      if |matches| == 0 {
        return Err(PolicyNotFound);
      }
      if |matches| > 1 {
        return Err(AmbiguousPolicy);
      }
      return Ok(matches[0]);
    }
  }

  function SelectedKeys(byVersion: map<string, Entry>, at: Time): set<string>
  {
    set v | v in byVersion && Selected(byVersion[v], at)
  }

  /** The policies of the selected entries, in whatever order the map is walked. */
  method CollectMatches(byVersion: map<string, Entry>, at: Time) returns (matches: seq<Policy>)
    ensures |matches| == |SelectedKeys(byVersion, at)|
    ensures forall v :: v in SelectedKeys(byVersion, at) ==> byVersion[v].policy in matches
  {
    hide Selected;
    matches := [];
    var left := byVersion.Keys;
    ghost var found: set<string> := {};
    while left != {}
      invariant left <= byVersion.Keys
      invariant forall v :: v in found <==> v in SelectedKeys(byVersion, at) && v !in left
      invariant |matches| == |found|
      invariant forall v :: v in found ==> byVersion[v].policy in matches
      decreases |left|
    {
      var v :| v in left;
      left := left - {v};
      if Selected(byVersion[v], at) {
        matches := matches + [byVersion[v].policy];
        found := found + {v};
      }
    }
    assert found == SelectedKeys(byVersion, at);
  }

  // Runs ------------------------------------------------------------------------------------------

  datatype Op = OpAdd(p: Policy, at: Time) | OpChange(id: string, version: string, target: Lifecycle, at: Time)

  function Step(vs: Versions, op: Op): (Versions, Option<RegistryError>)
  {
    match op
    case OpAdd(p, at) => Add(vs, p, at)
    case OpChange(id, version, target, at) => Transition(vs, id, version, target, at)
  }

  function Run(ops: seq<Op>): Versions
  {
    if ops == [] then map[] else Step(Run(ops[..|ops| - 1]), ops[|ops| - 1]).0
  }

  /** Entries stand under their own names, and two versions of one policy never hold together. */
  ghost predicate Disjoint(vs: Versions)
  {
    forall id :: id in vs ==>
      && (forall v :: v in vs[id] ==> vs[id][v].policy.policyID == id && vs[id][v].policy.version == v)
      && (forall v, w :: v in vs[id] && w in vs[id] && v != w ==> !Overlap(vs[id][v].policy, vs[id][w].policy))
  }

  lemma AddKeepsDisjoint(vs: Versions, p: Policy, at: Time)
    requires Disjoint(vs)
    ensures Disjoint(Add(vs, p, at).0)
  {
    hide Overlap;
    OverlapIsMutual(p);
  }

  lemma OverlapIsMutual(p: Policy)
    ensures forall q :: Overlap(p, q) <==> Overlap(q, p)
  {
  }

  lemma ChangeKeepsDisjoint(vs: Versions, id: string, version: string, target: Lifecycle, at: Time)
    requires Disjoint(vs)
    ensures Disjoint(Transition(vs, id, version, target, at).0)
  {
    hide Overlap;
  }

  lemma StepKeepsDisjoint(vs: Versions, op: Op)
    requires Disjoint(vs)
    ensures Disjoint(Step(vs, op).0)
  {
    hide Disjoint, Add, Transition;
    match op
    case OpAdd(p, at) => AddKeepsDisjoint(vs, p, at);
    case OpChange(id, version, target, at) => ChangeKeepsDisjoint(vs, id, version, target, at);
  }

  lemma {:induction false} RunIsDisjoint(ops: seq<Op>)
    ensures Disjoint(Run(ops))
  {
    hide Disjoint, Step;
    if ops == [] {
      EmptyIsDisjoint();
    } else {
      RunIsDisjoint(ops[..|ops| - 1]);
      StepKeepsDisjoint(Run(ops[..|ops| - 1]), ops[|ops| - 1]);
    }
  }

  lemma EmptyIsDisjoint()
    ensures Disjoint(map[])
  {
  }

  /** At no instant do two versions of a policy apply: resolving is never ambiguous. */
  lemma NeverAmbiguous(ops: seq<Op>, id: string, at: Time)
    ensures |Matches(Run(ops), id, at)| <= 1
  {
    hide Run;
    RunIsDisjoint(ops);
    var matches := Matches(Run(ops), id, at);
    if matches != {} {
      var v :| v in matches;
      assert forall w :: w in matches ==> w == v;
      assert matches == {v};
    }
  }

  /** In every run resolving gives a version exactly if it is active, was made so by then, and its period holds the
      instant; there is never a second one. */
  lemma ResolvesExactly(ops: seq<Op>, id: string, at: Time, version: string)
    ensures var vs := Run(ops);
      Matches(vs, id, at) == {version} <==>
        && Has(vs, id, version) && at != 0
        && var e := vs[id][version];
           e.status == Active && e.statusAt <= at && e.policy.from <= at && (e.policy.until.None? || at < e.policy.until.value)
  {
    hide Run;
    NeverAmbiguous(ops, id, at);
    var matches := Matches(Run(ops), id, at);
    if version in matches {
      OnlyOne(matches, version);
    }
  }

  lemma OnlyOne(s: set<string>, x: string)
    requires x in s && |s| <= 1
    ensures s == {x}
  {
    assert s == {x} + (s - {x});
  }

  /** So from its activation to the end of its period a version is what is resolved, unless it was withdrawn. */
  lemma AddedIsResolved(ops: seq<Op>, p: Policy, activatedAt: Time, more: seq<Op>, at: Time)
    requires !Has(Run(ops), p.policyID, p.version) && Add(Run(ops), p, activatedAt).1.None?
    requires at != 0 && activatedAt <= at && p.from <= at && (p.until.None? || at < p.until.value)
    ensures var vs := Run(ops + [OpAdd(p, activatedAt)] + more);
      Has(vs, p.policyID, p.version) && (Matches(vs, p.policyID, at) == {p.version} <==> vs[p.policyID][p.version].status == Active)
  {
    hide Overlap, Matches;
    var now := ops + [OpAdd(p, activatedAt)];
    assert now[..|ops|] == ops;
    assert Run(now) == Add(Run(ops), p, activatedAt).0;
    LifecycleMovesForward(now, more, p.policyID, p.version);
    ResolvesExactly(now + more, p.policyID, at, p.version);
  }

  /** What is taken: a new version whose period is free, and nothing is lost by it. */
  lemma AddsExactly(ops: seq<Op>, p: Policy, at: Time)
    ensures var vs := Run(ops); var (next, err) := Add(vs, p, at);
      && (err.None? && next != vs ==> !Has(vs, p.policyID, p.version))
      && (!Has(vs, p.policyID, p.version) && WellFormed(p) && AllWellFormed(vs, p.policyID) ==>
            (err.None? <==> forall v, t :: v in VersionsOf(vs, p.policyID) ==> !(Covers(VersionsOf(vs, p.policyID)[v].policy, t) && Covers(p, t))))
      && (Has(vs, p.policyID, p.version) ==> next == vs && (err.None? <==> vs[p.policyID][p.version].policy.hash == p.hash))
      && (err.None? && !Has(vs, p.policyID, p.version) ==> Has(next, p.policyID, p.version) && next[p.policyID][p.version] == Entry(p, Active, at))
  {
    hide Run, Overlap, Covers;
    var byVersion := VersionsOf(Run(ops), p.policyID);
    if WellFormed(p) && AllWellFormed(Run(ops), p.policyID) {
      forall v | v in byVersion ensures Overlap(byVersion[v].policy, p) <==> exists t :: Covers(byVersion[v].policy, t) && Covers(p, t) {
        OverlapExactly(byVersion[v].policy, p);
      }
    }
  }

  ghost predicate AllWellFormed(vs: Versions, id: string)
  {
    forall v :: v in VersionsOf(vs, id) ==> WellFormed(VersionsOf(vs, id)[v].policy)
  }

  /** A change is made exactly if it is dated, not before the last one, and moves the version forward. */
  lemma ChangesExactly(vs: Versions, id: string, version: string, target: Lifecycle, at: Time)
    ensures var (next, err) := Transition(vs, id, version, target, at);
      && (err.None? <==>
            && Has(vs, id, version) && at != 0 && vs[id][version].statusAt <= at
            && vs[id][version].status.Rank() < target.Rank())
      && (err.None? ==> Has(next, id, version) && next[id][version] == Entry(vs[id][version].policy, target, at))
      && (err.Some? ==> next == vs)
  {
  }

  /** The entry is the same version, no further back in its lifecycle, and not earlier. */
  predicate Later(a: Entry, b: Entry)
  {
    a.policy == b.policy && a.status.Rank() <= b.status.Rank() && a.statusAt <= b.statusAt && (a.status == b.status ==> a == b)
  }

  predicate Has(vs: Versions, id: string, version: string)
  {
    version in VersionsOf(vs, id)
  }

  lemma StepMovesForward(vs: Versions, op: Op, id: string, version: string)
    requires Has(vs, id, version)
    ensures Has(Step(vs, op).0, id, version) && Later(vs[id][version], Step(vs, op).0[id][version])
  {
  }

  /** Whatever happens later, an entry stays, its version unchanged, and its status and time only move forward. */
  lemma {:induction false} LifecycleMovesForward(ops: seq<Op>, more: seq<Op>, id: string, version: string)
    requires Has(Run(ops), id, version)
    ensures Has(Run(ops + more), id, version) && Later(Run(ops)[id][version], Run(ops + more)[id][version])
  {
    hide Step;
    if more == [] {
      assert ops + more == ops;
    } else {
      var n := |more| - 1;
      assert (ops + more)[..|ops| + n] == ops + more[..n];
      LifecycleMovesForward(ops, more[..n], id, version);
      StepMovesForward(Run(ops + more[..n]), more[n], id, version);
    }
  }

  /** A suspended or retired version is never resolved again, not even after being added once more. */
  lemma WithdrawnStaysWithdrawn(ops: seq<Op>, more: seq<Op>, id: string, version: string, at: Time)
    requires Has(Run(ops), id, version) && Run(ops)[id][version].status != Active
    ensures version !in Matches(Run(ops + more), id, at)
  {
    hide Run;
    LifecycleMovesForward(ops, more, id, version);
  }

  /** A version is found exactly by its name, version and digest. */
  lemma FindsExactly(vs: Versions, id: string, version: string, hash: string, p: Policy)
    ensures FindVersion(vs, id, version, hash) == Ok(p) <==> Has(vs, id, version) && vs[id][version].policy == p && p.hash == hash
    ensures FindVersion(vs, id, version, hash).Err? <==> !Has(vs, id, version) || vs[id][version].policy.hash != hash
  {
  }

  /** An added version can be found by its exact identity for ever, unchanged. */
  lemma AddedStaysFindable(ops: seq<Op>, p: Policy, activatedAt: Time, more: seq<Op>)
    requires !Has(Run(ops), p.policyID, p.version) && Add(Run(ops), p, activatedAt).1.None?
    ensures FindVersion(Run(ops + [OpAdd(p, activatedAt)] + more), p.policyID, p.version, p.hash) == Ok(p)
  {
    hide Overlap;
    var now := ops + [OpAdd(p, activatedAt)];
    assert now[..|ops|] == ops;
    assert Run(now) == Add(Run(ops), p, activatedAt).0;
    LifecycleMovesForward(now, more, p.policyID, p.version);
  }

  /** Nothing is in the registry that was not added: every entry goes back to an accepted activation, and is in
      force no earlier than that. */
  lemma {:induction false} EntriesWereAdded(ops: seq<Op>, id: string, version: string)
    requires Has(Run(ops), id, version)
    ensures exists i :: 0 <= i < |ops| && ops[i].OpAdd? && ops[i].p == Run(ops)[id][version].policy && ops[i].at <= Run(ops)[id][version].statusAt
  {
    hide Overlap;
    var n := |ops| - 1;
    var before := Run(ops[..n]);
    if Has(before, id, version) {
      EntriesWereAdded(ops[..n], id, version);
      var i :| 0 <= i < n && ops[..n][i].OpAdd? && ops[..n][i].p == before[id][version].policy && ops[..n][i].at <= before[id][version].statusAt;
      StepMovesForward(before, ops[n], id, version);
      assert ops[i].OpAdd?;
    } else {
      assert ops[n].OpAdd?;
    }
  }
}
