/**
  Any number of safety machines and direct writers over one repository. A commit is two
  steps, so that anything may happen between a machine's look at the repository and its
  write; a machine itself serves one call at a time.
 */
module Handover {
  import opened Prelude
  import opened Text
  import opened Responsibility
  import opened Safety

  /** `verifiedAt` records when the permit was accepted; no step looks at it. */
  datatype Handler = Handler(m: Machine, pending: Option<Pending>, verifiedAt: Time)

  datatype Done = Done(machine: nat, permit: Permit, verifiedAt: Time, before: Snapshot, after: Snapshot)

  /** The repository is what its writes so far have made it. */
  datatype System = System(writes: seq<Write>, machines: map<nat, Handler>, commits: seq<Done>)

  datatype Event =
    | Create(id: nat, s: Snapshot)
    | Local(id: nat, a: Action)
    | BeginCommit(id: nat, at: Time)
    | FinishCommit(id: nat)
    | Direct(w: Write)

  function Begin(sys: System, id: nat, at: Time): System
    requires id in sys.machines
  {
    var m := sys.machines[id].m;
    if m.state != Verified then sys
    else
      match PrepareExpected(After(sys.writes), m.held, m.proposed, at)
      case Err(e) => sys.(machines := sys.machines[id := Handler(Failed(m, e), None, 0)])
      case Ok(p) => sys.(machines := sys.machines[id := sys.machines[id].(pending := Some(p))])
  }

  function Finish(sys: System, id: nat): System
    requires id in sys.machines && sys.machines[id].pending.Some? && sys.machines[id].m.permit.Some?
  {
    var m := sys.machines[id].m;
    var p := sys.machines[id].pending.value;
    var w := WriteCommit(p.next, p.expected, p.event);
    match Responsibility.Step(After(sys.writes), w).1
    case Some(e) => System(sys.writes + [w], sys.machines[id := Handler(Failed(m, e), None, 0)], sys.commits)
    case None =>
      System(sys.writes + [w], sys.machines[id := Handler(Succeeded(p.next), None, 0)],
             sys.commits + [Done(id, m.permit.value, sys.machines[id].verifiedAt, m.held, p.next)])
  }

  function Acted(h: Handler, a: Action): Handler
  {
    Handler(Act(h.m, a), None, if a.ActVerify? && h.m.state == Proposed then a.now else h.verifiedAt)
  }

  function Next(sys: System, e: Event): System
  {
    match e
    case Create(id, s) =>
      if id in sys.machines || NewMachine(s).Err? then sys
      else sys.(machines := sys.machines[id := Handler(NewMachine(s).value, None, 0)])
    case Local(id, a) =>
      if id !in sys.machines || sys.machines[id].pending.Some? then sys
      else sys.(machines := sys.machines[id := Acted(sys.machines[id], a)])
    case BeginCommit(id, at) =>
      if id !in sys.machines || sys.machines[id].pending.Some? then sys else Begin(sys, id, at)
    case FinishCommit(id) =>
      if id in sys.machines && sys.machines[id].pending.Some? && sys.machines[id].m.permit.Some? then Finish(sys, id) else sys
    case Direct(w) => sys.(writes := sys.writes + [w])
  }

  const NOTHING := System([], map[], [])

  function Execution(events: seq<Event>): System
  {
    if events == [] then NOTHING else Next(Execution(events[..|events| - 1]), events[|events| - 1])
  }

  // What holds in every reachable state --------------------------------------------------------

  /** The assignment was accepted at some point, under its own version. */
  ghost predicate OnChain(writes: seq<Write>, s: Snapshot)
  {
    var chain := Chain(writes, s.objectID);
    1 <= s.version <= |chain| && chain[s.version - 1].s == s
  }

  /** The instant lies within the validity of the permit. */
  predicate InForce(p: Permit, at: Time)
  {
    p.evaluatedAt <= at <= p.validUntil
  }

  predicate VerifiedInForce(h: Handler)
  {
    h.m.state == Verified ==> h.m.permit.Some? && InForce(h.m.permit.value, h.verifiedAt)
  }

  /** A commit under way was prepared from the held assignment, which was then current. */
  ghost predicate HandlerInv(writes: seq<Write>, h: Handler)
  {
    && Coherent(h.m) && VerifiedInForce(h)
    && (h.pending.Some? ==>
          && h.m.state == Verified && OnChain(writes, h.m.held)
          && Prepare(h.m.held, h.m.proposed, h.pending.value.next.assignedAt) == Ok(h.pending.value))
  }

  /** A finished commit moved its object from one accepted assignment to the next, from the permit's holder to
      the permit's target, and the permit was in force when it was accepted. */
  ghost predicate DoneInv(writes: seq<Write>, d: Done)
  {
    && OnChain(writes, d.before) && OnChain(writes, d.after)
    && d.after.objectID == d.before.objectID == d.permit.objectID && d.after.version == d.before.version + 1
    && d.before.participantID == d.permit.from && d.after.participantID == d.permit.to && d.permit.admissible
    && InForce(d.permit, d.verifiedAt)
  }

  ghost predicate Inv(sys: System)
  {
    && (forall id :: id in sys.machines ==> HandlerInv(sys.writes, sys.machines[id]))
    && (forall i :: 0 <= i < |sys.commits| ==> DoneInv(sys.writes, sys.commits[i]))
    && (forall i, j :: 0 <= i < j < |sys.commits| && sys.commits[i].after.objectID == sys.commits[j].after.objectID ==>
          sys.commits[i].after.version < sys.commits[j].after.version)
  }

  lemma OnChainStays(writes: seq<Write>, w: Write, s: Snapshot)
    requires OnChain(writes, s)
    ensures OnChain(writes + [w], s)
  {
    hide Chain;
    ChainGrows(writes, [w], s.objectID);
  }

  lemma HandlerStays(writes: seq<Write>, w: Write, h: Handler)
    requires HandlerInv(writes, h)
    ensures HandlerInv(writes + [w], h)
  {
    hide Coherent, OnChain, Prepare;
    if h.pending.Some? {
      OnChainStays(writes, w, h.m.held);
    }
  }

  lemma WriteKeepsInv(sys: System, w: Write)
    requires Inv(sys)
    ensures Inv(sys.(writes := sys.writes + [w]))
  {
    hide HandlerInv, OnChain;
    forall id | id in sys.machines ensures HandlerInv(sys.writes + [w], sys.machines[id]) {
      HandlerStays(sys.writes, w, sys.machines[id]);
    }
    forall i | 0 <= i < |sys.commits| ensures DoneInv(sys.writes + [w], sys.commits[i]) {
      assert DoneInv(sys.writes, sys.commits[i]);
      OnChainStays(sys.writes, w, sys.commits[i].before);
      OnChainStays(sys.writes, w, sys.commits[i].after);
    }
  }

  lemma MachineKeepsInv(sys: System, id: nat, h: Handler)
    requires Inv(sys) && HandlerInv(sys.writes, h)
    ensures Inv(sys.(machines := sys.machines[id := h]))
  {
    hide HandlerInv, DoneInv;
  }

  /** What is stored is the end of the chain. */
  lemma StoredIsLast(writes: seq<Write>, id: string)
    ensures var chain := Chain(writes, id); var repo := After(writes);
      && (id in repo.snapshots <==> chain != [])
      && (chain != [] ==>
            && repo.snapshots[id] == chain[|chain| - 1].s && repo.snapshots[id].version == |chain|
            && repo.snapshots[id].objectID == id && Validate(repo.snapshots[id]) == None)
  {
    hide Chain, After, Validate;
    Conservation(writes, id);
    var chain := Chain(writes, id);
    if chain != [] {
      assert Linked(chain, |chain| - 1);
    }
  }

  lemma FailedIsCoherent(m: Machine, e: Error)
    requires Coherent(m)
    ensures Coherent(Failed(m, e)) && Failed(m, e).held == m.held && Failed(m, e).state == Halted
  {
    hide Validate, ValidName;
  }

  lemma BeginKeepsInv(sys: System, id: nat, at: Time)
    requires Inv(sys) && id in sys.machines && sys.machines[id].pending.None?
    ensures Inv(Begin(sys, id, at))
  {
    hide Inv, Chain, After, Validate, ValidName, Transfer, Authorizes;
    var m := sys.machines[id].m;
    HandlerOf(sys, id);
    if m.state == Verified {
      var r := PrepareExpected(After(sys.writes), m.held, m.proposed, at);
      if r.Err? {
        FailedIsCoherent(m, r.error);
        MachineKeepsInv(sys, id, Handler(Failed(m, r.error), None, 0));
      } else {
        StoredIsLast(sys.writes, m.held.objectID);
        PreparedAt(m.held, m.proposed, at);
        MachineKeepsInv(sys, id, sys.machines[id].(pending := Some(r.value)));
      }
    }
  }

  lemma HandlerOf(sys: System, id: nat)
    requires Inv(sys) && id in sys.machines
    ensures HandlerInv(sys.writes, sys.machines[id])
  {
  }

  lemma PreparedAt(held: Snapshot, to: string, at: Time)
    requires Prepare(held, to, at).Ok?
    ensures Prepare(held, to, at).value.next.assignedAt == at
  {
    hide ValidName;
  }

  // The commit ---------------------------------------------------------------------------------

  /** The second step succeeds exactly when the held assignment is still the stored one (and the version can
      still rise); otherwise nothing is written and the machine halts. */
  lemma FinishExactly(sys: System, id: nat)
    requires Inv(sys) && id in sys.machines && sys.machines[id].pending.Some?
    ensures var h := sys.machines[id]; var p := h.pending.value; var repo := After(sys.writes);
      var result := Commit(repo, p.next, p.expected, p.event);
      && h.m.permit.Some? && h.m.held.objectID in repo.snapshots && repo.snapshots[h.m.held.objectID].version >= h.m.held.version
      && (result.1.None? <==> repo.snapshots[h.m.held.objectID] == h.m.held && h.m.held.version < MAX_VERSION)
      && (result.1.None? ==>
            && h.m.held.objectID in result.0.snapshots && result.0.snapshots[h.m.held.objectID] == p.next && p.next.objectID == h.m.held.objectID
            && p.next.version == h.m.held.version + 1 && p.next.participantID == h.m.proposed)
      && (result.1.Some? ==> result.0 == repo)
      && (result.1.Some? && repo.snapshots[h.m.held.objectID].version > h.m.held.version ==> result.1 == Some(ConcurrentModification))
  {
    hide Inv, Chain, After, Authorizes;
    HandlerOf(sys, id);
    var h := sys.machines[id];
    StoredIsLast(sys.writes, h.m.held.objectID);
    NoDuplicate(sys.writes, h.m.held.objectID);
  }

  lemma NoDuplicate(writes: seq<Write>, id: string)
    ensures forall v: Version :: (id, v) in After(writes).transfers ==> id in After(writes).snapshots && v <= After(writes).snapshots[id].version
  {
    hide Chain, After, Validate, Linked;
    Conservation(writes, id);
    StoredIsLast(writes, id);
  }

  lemma FinishKeepsInv(sys: System, id: nat)
    requires Inv(sys) && id in sys.machines && sys.machines[id].pending.Some? && sys.machines[id].m.permit.Some?
    ensures Inv(Finish(sys, id))
  {
    hide Inv, After, Chain, Commit, HandlerInv;
    var h := sys.machines[id];
    var p := h.pending.value;
    var w := WriteCommit(p.next, p.expected, p.event);
    var wrote := sys.(writes := sys.writes + [w]);
    WriteKeepsInv(sys, w);
    FinishExactly(sys, id);
    HandlerIsCoherent(sys, id);
    var err := Commit(After(sys.writes), p.next, p.expected, p.event).1;
    if err.Some? {
      FailedIsCoherent(h.m, err.value);
      IdleHandler(wrote.writes, Handler(Failed(h.m, err.value), None, 0));
      MachineKeepsInv(wrote, id, Handler(Failed(h.m, err.value), None, 0));
    } else {
      SucceededIsCoherent(sys, id);
      IdleHandler(wrote.writes, Handler(Succeeded(p.next), None, 0));
      MachineKeepsInv(wrote, id, Handler(Succeeded(p.next), None, 0));
      NewDone(sys, id);
      LogKeepsInv(wrote.(machines := wrote.machines[id := Handler(Succeeded(p.next), None, 0)]),
                  Done(id, h.m.permit.value, h.verifiedAt, h.m.held, p.next));
    }
  }

  lemma IdleHandler(writes: seq<Write>, h: Handler)
    requires Coherent(h.m) && VerifiedInForce(h) && h.pending.None?
    ensures HandlerInv(writes, h)
  {
    hide Coherent, VerifiedInForce;
  }

  /** Only an accepted Verify makes a machine VERIFIED, and it accepts a permit in force at its instant. */
  lemma ActedInForce(h: Handler, a: Action)
    requires Coherent(h.m) && VerifiedInForce(h)
    ensures Coherent(Acted(h, a).m) && VerifiedInForce(Acted(h, a)) && Acted(h, a).pending.None?
  {
    hide ValidName, Validate, TrimSpace;
    ActKeepsCoherent(h.m, a);
  }

  lemma HandlerIsCoherent(sys: System, id: nat)
    requires Inv(sys) && id in sys.machines
    ensures Coherent(sys.machines[id].m)
  {
    assert HandlerInv(sys.writes, sys.machines[id]);
  }

  lemma SucceededIsCoherent(sys: System, id: nat)
    requires Inv(sys) && id in sys.machines && sys.machines[id].pending.Some?
    requires var p := sys.machines[id].pending.value; Commit(After(sys.writes), p.next, p.expected, p.event).1.None?
    ensures Coherent(Succeeded(sys.machines[id].pending.value.next))
  {
    hide ValidName, After, Chain;
  }

  lemma NewDone(sys: System, id: nat)
    requires Inv(sys) && id in sys.machines && sys.machines[id].pending.Some? && sys.machines[id].m.permit.Some?
    requires var p := sys.machines[id].pending.value; Commit(After(sys.writes), p.next, p.expected, p.event).1.None?
    ensures var h := sys.machines[id]; var p := h.pending.value; var w := WriteCommit(p.next, p.expected, p.event);
      && DoneInv(sys.writes + [w], Done(id, h.m.permit.value, h.verifiedAt, h.m.held, p.next))
      && forall i :: 0 <= i < |sys.commits| && sys.commits[i].after.objectID == p.next.objectID ==> sys.commits[i].after.version < p.next.version
  {
    hide Inv, After, Commit, Validate, ValidName;
    var h := sys.machines[id];
    var p := h.pending.value;
    var w := WriteCommit(p.next, p.expected, p.event);
    var thing := p.next.objectID;
    FinishExactly(sys, id);
    HandlerOf(sys, id);
    StoredIsLast(sys.writes, thing);
    assert (sys.writes + [w])[..|sys.writes|] == sys.writes;
    assert Chain(sys.writes + [w], thing) == Chain(sys.writes, thing) + [EntryOf(w)];
    forall i | 0 <= i < |sys.commits| && sys.commits[i].after.objectID == thing ensures sys.commits[i].after.version < p.next.version {
      DoneOf(sys, i);
    }
  }

  lemma DoneOf(sys: System, i: nat)
    requires Inv(sys) && i < |sys.commits|
    ensures DoneInv(sys.writes, sys.commits[i])
  {
  }

  lemma LogKeepsInv(sys: System, d: Done)
    requires Inv(sys) && DoneInv(sys.writes, d)
    requires forall i :: 0 <= i < |sys.commits| && sys.commits[i].after.objectID == d.after.objectID ==> sys.commits[i].after.version < d.after.version
    ensures Inv(sys.(commits := sys.commits + [d]))
  {
    hide HandlerInv, DoneInv;
  }

  lemma NextKeepsInv(sys: System, e: Event)
    requires Inv(sys)
    ensures Inv(Next(sys, e))
  {
    hide Inv, After, Chain, Begin, Finish, Acted;
    match e
    case Create(id, s) =>
      if id !in sys.machines && NewMachine(s).Ok? {
        IdleHandler(sys.writes, Handler(NewMachine(s).value, None, 0));
        MachineKeepsInv(sys, id, Handler(NewMachine(s).value, None, 0));
      }
    case Local(id, a) =>
      if id in sys.machines && sys.machines[id].pending.None? {
        HandlerOf(sys, id);
        ActedInForce(sys.machines[id], a);
        IdleHandler(sys.writes, Acted(sys.machines[id], a));
        MachineKeepsInv(sys, id, Acted(sys.machines[id], a));
      }
    case BeginCommit(id, at) =>
      if id in sys.machines && sys.machines[id].pending.None? { BeginKeepsInv(sys, id, at); }
    case FinishCommit(id) =>
      if id in sys.machines && sys.machines[id].pending.Some? && sys.machines[id].m.permit.Some? { FinishKeepsInv(sys, id); }
    case Direct(w) => WriteKeepsInv(sys, w);
  }

  lemma {:induction false} ExecutionKeepsInv(events: seq<Event>)
    ensures Inv(Execution(events))
  {
    hide Inv, Next;
    if events == [] {
      NothingIsFine();
    } else {
      var n := |events| - 1;
      ExecutionKeepsInv(events[..n]);
      NextKeepsInv(Execution(events[..n]), events[n]);
    }
  }

  lemma NothingIsFine()
    ensures Inv(NOTHING)
  {
  }

  // The theorems --------------------------------------------------------------------------------

  /** Every machine commit, in any run, moved the object from the holder its permit names to the target its
      permit names, between consecutive accepted assignments; and no assignment is left by two commits. */
  lemma CommitsFollowPermits(events: seq<Event>, i: nat)
    requires i < |Execution(events).commits|
    ensures DoneInv(Execution(events).writes, Execution(events).commits[i])
    ensures forall j :: 0 <= j < i ==> Execution(events).commits[j].before != Execution(events).commits[i].before
  {
    hide Execution, OnChain;
    ExecutionKeepsInv(events);
    var sys := Execution(events);
    assert DoneInv(sys.writes, sys.commits[i]);
    forall j | 0 <= j < i ensures sys.commits[j].before != sys.commits[i].before {
      assert DoneInv(sys.writes, sys.commits[j]);
    }
  }

  /** The machine's assignment has been left behind: the object has moved on from its version, or never was
      as the machine believes. */
  predicate Stale(sys: System, id: nat)
  {
    && id in sys.machines
    && var held := sys.machines[id].m.held; var repo := After(sys.writes);
       held.objectID in repo.snapshots && repo.snapshots[held.objectID].version >= held.version && repo.snapshots[held.objectID] != held
  }

  lemma StoredGrows(writes: seq<Write>, w: Write, id: string)
    requires id in After(writes).snapshots
    ensures id in After(writes + [w]).snapshots
    ensures var a, b := After(writes).snapshots[id], After(writes + [w]).snapshots[id]; a == b || a.version < b.version
  {
    hide Chain, After, Validate;
    StoredIsLast(writes, id);
    StoredIsLast(writes + [w], id);
    ChainGrows(writes, [w], id);
  }

  lemma WriteKeepsStale(sys: System, id: nat, w: Write)
    requires Stale(sys, id)
    ensures Stale(sys.(writes := sys.writes + [w]), id)
  {
    hide After;
    StoredGrows(sys.writes, w, sys.machines[id].m.held.objectID);
  }

  lemma NextKeepsStale(sys: System, e: Event, id: nat)
    requires Inv(sys) && Stale(sys, id)
    ensures Stale(Next(sys, e), id)
    ensures var more := Next(sys, e).commits;
      sys.commits <= more && forall i :: |sys.commits| <= i < |more| ==> more[i].machine != id
  {
    hide Inv, After, Act, Commit, PrepareExpected, HandlerInv;
    match e
    case Create(_, _) =>
    case Local(k, a) =>
      if k in sys.machines {
        HandlerIsCoherent(sys, k);
        ActKeepsCoherent(sys.machines[k].m, a);
      }
    case BeginCommit(_, _) =>
    case FinishCommit(k) =>
      if k in sys.machines && sys.machines[k].pending.Some? && sys.machines[k].m.permit.Some? {
        FinishExactly(sys, k);
        var p := sys.machines[k].pending.value;
        WriteKeepsStale(sys, id, WriteCommit(p.next, p.expected, p.event));
      }
    case Direct(w) => WriteKeepsStale(sys, id, w);
  }

  /** A machine once stale stays stale and commits nothing ever again, whatever it and everybody else do,
      recovery included. */
  lemma {:induction false} StaleNeverCommits(events: seq<Event>, more: seq<Event>, id: nat)
    requires Stale(Execution(events), id)
    ensures Stale(Execution(events + more), id)
    ensures var before, after := Execution(events).commits, Execution(events + more).commits;
      before <= after && forall i :: |before| <= i < |after| ==> after[i].machine != id
  {
    hide Stale, Next;
    if more == [] {
      assert events + more == events;
    } else {
      var n := |more| - 1;
      assert (events + more)[..|events| + n] == events + more[..n];
      StaleNeverCommits(events, more[..n], id);
      ExecutionKeepsInv(events + more[..n]);
      NextKeepsStale(Execution(events + more[..n]), more[n], id);
    }
  }

  /** Of two machines holding one assignment at most one commits: as soon as one has, the other is stale. */
  lemma CommitOutdatesOthers(events: seq<Event>, a: nat, b: nat)
    requires var sys := Execution(events);
      && a in sys.machines && b in sys.machines && a != b && sys.machines[a].m.held == sys.machines[b].m.held
      && |Next(sys, FinishCommit(a)).commits| > |sys.commits|
    ensures Stale(Next(Execution(events), FinishCommit(a)), b)
  {
    hide After, Commit, Execution, Inv;
    var sys := Execution(events);
    ExecutionKeepsInv(events);
    var p := sys.machines[a].pending.value;
    FinishExactly(sys, a);
    AfterCommit(sys.writes, WriteCommit(p.next, p.expected, p.event));
    var next := Next(sys, FinishCommit(a));
    assert After(next.writes).snapshots[p.next.objectID] == p.next;
  }

  lemma AfterCommit(writes: seq<Write>, w: Write)
    ensures After(writes + [w]) == Responsibility.Step(After(writes), w).0
  {
    hide Responsibility.Step;
    assert (writes + [w])[..|writes|] == writes;
  }

  /** The event brings a permit in force that leaves the machine's object with its holder. */
  predicate Recovery(sys: System, e: Event, id: nat)
  {
    && e.Local? && e.id == id && id in sys.machines && e.a.ActRecover?
    && Permits(e.a.p, sys.machines[id].m.held, sys.machines[id].m.held.participantID, e.a.now)
  }

  /** In every run a halted machine leaves HALT exactly by such a recovery, and never commits on the way. */
  lemma LeavesHaltExactly(events: seq<Event>, e: Event, id: nat)
    requires id in Execution(events).machines && Execution(events).machines[id].m.state == Halted
    ensures var sys := Execution(events); var next := Next(sys, e);
      && id in next.machines && next.machines[id].m.held == sys.machines[id].m.held
      && (next.machines[id].m.state != Halted <==> Recovery(sys, e, id))
      && sys.commits <= next.commits && (forall i :: |sys.commits| <= i < |next.commits| ==> next.commits[i].machine != id)
  {
    hide Execution, Inv, Permits, PrepareExpected, Act;
    var sys := Execution(events);
    ExecutionKeepsInv(events);
    HandlerOf(sys, id);
    if e.Local? && e.id == id {
      EnteredExactly(sys.machines[id].m, e.a);
      ActKeepsCoherent(sys.machines[id].m, e.a);
    }
  }

  ghost predicate RecoveredAt(events: seq<Event>, more: seq<Event>, k: nat, id: nat)
    requires k < |more|
  {
    Recovery(Execution(events + more[..k]), more[k], id)
  }

  /** So without one it stays in HALT with what it holds, and commits nothing, whatever else happens. */
  lemma {:induction false} HaltedStays(events: seq<Event>, more: seq<Event>, id: nat)
    requires id in Execution(events).machines && Execution(events).machines[id].m.state == Halted
    requires forall k :: 0 <= k < |more| ==> !RecoveredAt(events, more, k, id)
    ensures var sys := Execution(events); var later := Execution(events + more);
      && id in later.machines && later.machines[id].m.state == Halted && later.machines[id].m.held == sys.machines[id].m.held
      && sys.commits <= later.commits && (forall i :: |sys.commits| <= i < |later.commits| ==> later.commits[i].machine != id)
  {
    hide Execution, Next, Recovery;
    if more == [] {
      assert events + more == events;
    } else {
      var n := |more| - 1;
      var front := more[..n];
      forall k | 0 <= k < n ensures !RecoveredAt(events, front, k, id) {
        assert front[..k] == more[..k] && !RecoveredAt(events, more, k, id);
      }
      HaltedStays(events, front, id);
      assert events + more == events + front + [more[n]];
      OneMoreEvent(events + front, more[n]);
      assert !RecoveredAt(events, more, n, id);
      LeavesHaltExactly(events + front, more[n], id);
    }
  }

  /** A stale machine that tries to commit is halted for a concurrent change, at whichever step it is. */
  lemma StaleHalts(events: seq<Event>, id: nat, at: Time)
    requires Stale(Execution(events), id) && Execution(events).machines[id].m.state == Verified
    ensures var sys := Execution(events); var h := sys.machines[id];
      var next := Next(sys, if h.pending.Some? then FinishCommit(id) else BeginCommit(id, at));
      next.machines[id] == Handler(EnterHalt(h.m, ConcurrentChange), None, 0) && After(next.writes) == After(sys.writes) && next.commits == sys.commits
  {
    hide After, Execution, Inv, Chain, Commit, Prepare;
    var sys := Execution(events);
    ExecutionKeepsInv(events);
    var h := sys.machines[id];
    HandlerOf(sys, id);
    StoredIsLast(sys.writes, h.m.held.objectID);
    if h.pending.Some? {
      FinishExactly(sys, id);
      var p := h.pending.value;
      AfterCommit(sys.writes, WriteCommit(p.next, p.expected, p.event));
      SameVersionSameSnapshot(sys, id);
    }
  }

  /** While a commit is under way, the held assignment can only be out of date by version. */
  lemma SameVersionSameSnapshot(sys: System, id: nat)
    requires Inv(sys) && id in sys.machines && sys.machines[id].pending.Some? && Stale(sys, id)
    ensures var held := sys.machines[id].m.held; After(sys.writes).snapshots[held.objectID].version > held.version
  {
    hide After, Chain, Validate, Coherent;
    HandlerOf(sys, id);
    StoredIsLast(sys.writes, sys.machines[id].m.held.objectID);
  }

  /** A commit begins exactly when the held assignment is the stored one and the time is later. */
  lemma CommitBeginsExactly(sys: System, id: nat, at: Time)
    requires Inv(sys) && id in sys.machines && sys.machines[id].pending.None? && sys.machines[id].m.state == Verified
    ensures var m := sys.machines[id].m; var repo := After(sys.writes);
      Begin(sys, id, at).machines[id].pending.Some? <==>
        m.held.objectID in repo.snapshots && repo.snapshots[m.held.objectID] == m.held && at != 0 && m.held.assignedAt < at
  {
    hide After, Inv, Chain, ValidName, Validate;
    HandlerOf(sys, id);
    ValidHeld(sys.machines[id].m);
    StoredIsLast(sys.writes, sys.machines[id].m.held.objectID);
  }

  /** While a commit is under way nothing but its own second step touches the machine. */
  lemma {:induction false} PendingWaits(events: seq<Event>, more: seq<Event>, id: nat)
    requires id in Execution(events).machines && Execution(events).machines[id].pending.Some?
    requires forall i :: 0 <= i < |more| ==> more[i] != FinishCommit(id)
    ensures id in Execution(events + more).machines && Execution(events + more).machines[id] == Execution(events).machines[id]
  {
    hide After, Act, PrepareExpected;
    if more == [] {
      assert events + more == events;
    } else {
      var n := |more| - 1;
      assert (events + more)[..|events| + n] == events + more[..n];
      PendingWaits(events, more[..n], id);
    }
  }

  /** Over every run, whatever happens in between: a commit begun at `at` that goes through is recorded with a time
      within the validity of its permit exactly if `at` was within it. */
  lemma CommitInForceExactly(events: seq<Event>, id: nat, at: Time, more: seq<Event>)
    requires var sys := Execution(events);
      id in sys.machines && sys.machines[id].m.state == Verified && sys.machines[id].pending.None?
    requires Execution(events + [BeginCommit(id, at)]).machines[id].pending.Some?
    requires forall i :: 0 <= i < |more| ==> more[i] != FinishCommit(id)
    requires var before := Execution(events + [BeginCommit(id, at)] + more); |Next(before, FinishCommit(id)).commits| > |before.commits|
    ensures var m := Execution(events).machines[id].m;
      var done := Next(Execution(events + [BeginCommit(id, at)] + more), FinishCommit(id)).commits;
      && m.permit.Some? && done != []
      && var d := done[|done| - 1];
         && d.machine == id && d.permit == m.permit.value && d.after.assignedAt == at
         && (InForce(d.permit, d.after.assignedAt) <==> InForce(m.permit.value, at))
  {
    hide After, Execution, Inv, Commit, Chain, Validate, ValidName;
    var begun := events + [BeginCommit(id, at)];
    ExecutionKeepsInv(events);
    HandlerOf(Execution(events), id);
    OneMoreEvent(events, BeginCommit(id, at));
    PendingWaits(begun, more, id);
    PreparedAt(Execution(events).machines[id].m.held, Execution(events).machines[id].m.proposed, at);
  }

  lemma OneMoreEvent(events: seq<Event>, e: Event)
    ensures Execution(events + [e]) == Next(Execution(events), e)
  {
    hide Next;
    assert (events + [e])[..|events|] == events;
  }

  /** The holder "a" of "x" proposes "b" under a permit valid until 5, verified at 4, and commits at 9. */
  const FIRST := Snapshot("x", "a", 1, 1)

  const PERMIT := Permit("x", "a", "b", "p", "1", "1", 3, 5, true)

  /** A run in which the recorded commit is later than its permit allows. */
  lemma ExpiredPermitCommits()
    ensures var done := Execution([Direct(WriteSave(FIRST, 0)), Create(0, FIRST), Local(0, ActPropose("b")),
                                   Local(0, ActVerify(PERMIT, 4)), BeginCommit(0, 9), FinishCommit(0)]).commits;
      |done| == 1 && done[0].permit == PERMIT && done[0].verifiedAt == 4 && done[0].after.assignedAt == 9 && !InForce(PERMIT, done[0].after.assignedAt)
  {
    hide Execution, Next, After, Commit;
    var saved := [Direct(WriteSave(FIRST, 0))];
    var created := saved + [Create(0, FIRST)];
    var proposed := created + [Local(0, ActPropose("b"))];
    var verified := proposed + [Local(0, ActVerify(PERMIT, 4))];
    var begun := verified + [BeginCommit(0, 9)];
    NoEvents();
    assert [] + saved == saved;
    OneMoreEvent([], Direct(WriteSave(FIRST, 0)));
    OneMoreEvent(saved, Create(0, FIRST));
    OneMoreEvent(created, Local(0, ActPropose("b")));
    OneMoreEvent(proposed, Local(0, ActVerify(PERMIT, 4)));
    OneMoreEvent(verified, BeginCommit(0, 9));
    OneMoreEvent(begun, FinishCommit(0));
    assert begun + [FinishCommit(0)] ==
      [Direct(WriteSave(FIRST, 0)), Create(0, FIRST), Local(0, ActPropose("b")), Local(0, ActVerify(PERMIT, 4)), BeginCommit(0, 9), FinishCommit(0)];
    FirstSteps();
    LastSteps();
  }

  lemma NoEvents()
    ensures Execution([]) == NOTHING
  {
  }

  const SAVED := [WriteSave(FIRST, 0)]

  const VERIFIED := Machine(Verified, NoReason, FIRST, "b", Some(PERMIT))

  lemma FirstSteps()
    ensures var saved := Next(NOTHING, Direct(WriteSave(FIRST, 0)));
      var created := Next(saved, Create(0, FIRST));
      var proposed := Next(created, Local(0, ActPropose("b")));
      Next(proposed, Local(0, ActVerify(PERMIT, 4))) == System(SAVED, map[0 := Handler(VERIFIED, None, 4)], [])
  {
    hide TrimSpace;
    PlainNames();
    assert [] + SAVED == SAVED;
    var saved := Next(NOTHING, Direct(WriteSave(FIRST, 0)));
    var created := Next(saved, Create(0, FIRST));
    assert created == System(SAVED, map[0 := Handler(Machine(Idle, NoReason, FIRST, "", None), None, 0)], []);
    var proposed := Next(created, Local(0, ActPropose("b")));
    assert proposed == System(SAVED, map[0 := Handler(Machine(Proposed, NoReason, FIRST, "b", None), None, 0)], []);
    assert CheckPermit(Machine(Proposed, NoReason, FIRST, "b", None), PERMIT, 4, "b") == NoReason;
  }

  lemma PlainNames()
    ensures TrimSpace("x") == "x" && TrimSpace("a") == "a" && TrimSpace("b") == "b" && TrimSpace("p") == "p" && TrimSpace("1") == "1"
    ensures "a" != "b"
  {
    assert "a"[0] != "b"[0];
  }

  lemma StoredFirst()
    ensures After(SAVED) == Repository(map["x" := FIRST], map[])
  {
    hide TrimSpace;
    PlainNames();
    assert SAVED[..0] == [];
  }

  lemma LastSteps()
    ensures var verified := System(SAVED, map[0 := Handler(VERIFIED, None, 4)], []);
      var next := Snapshot("x", "b", 2, 9);
      Next(Next(verified, BeginCommit(0, 9)), FinishCommit(0)).commits == [Done(0, PERMIT, 4, FIRST, next)]
  {
    hide TrimSpace, After;
    PlainNames();
    StoredFirst();
    var verified := System(SAVED, map[0 := Handler(VERIFIED, None, 4)], []);
    var pending := Pending(Snapshot("x", "b", 2, 9), 1, Transferred("x", "a", "b", 9, 2));
    assert PrepareExpected(After(SAVED), FIRST, "b", 9) == Ok(pending);
    assert Next(verified, BeginCommit(0, 9)).machines[0] == Handler(VERIFIED, Some(pending), 4);
    assert Commit(After(SAVED), pending.next, pending.expected, pending.event).1 == None;
  }

  /** Undisturbed, the two steps of a commit are the one call of the source. */
  lemma UndisturbedCommit(sys: System, id: nat, at: Time)
    requires Inv(sys) && id in sys.machines && sys.machines[id].pending.None?
    ensures var (repo, m, _) := CommitNow(After(sys.writes), sys.machines[id].m, at);
      var done := Next(Next(sys, BeginCommit(id, at)), FinishCommit(id));
      After(done.writes) == repo && done.machines[id].m == m && done.machines[id].pending.None?
  {
    hide After, Inv, Commit, PrepareExpected, Validate, ValidName, Chain;
    HandlerOf(sys, id);
    var m := sys.machines[id].m;
    if m.state == Verified {
      var r := PrepareExpected(After(sys.writes), m.held, m.proposed, at);
      if r.Ok? {
        AfterCommit(sys.writes, WriteCommit(r.value.next, r.value.expected, r.value.event));
      }
    }
  }

  lemma ValidHeld(m: Machine)
    requires Coherent(m)
    ensures ValidName(m.held.objectID)
  {
    hide ValidName;
  }
}
