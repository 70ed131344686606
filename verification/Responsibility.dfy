/**
  Who answers for a physical object. A repository keeps one versioned assignment per
  object and the immutable event of every handover; writers race, and each write names
  the version it builds on.
 */
module Responsibility {
  import opened Prelude
  import opened Text

  const MAX_VERSION: nat := 0xFFFF_FFFF_FFFF_FFFF

  /** An unsigned 64-bit version. */
  type Version = v: nat | v <= MAX_VERSION

  datatype Snapshot = Snapshot(objectID: string, participantID: string, version: Version, assignedAt: Time)

  datatype Transferred = Transferred(objectID: string, from: string, to: string, at: Time, version: Version)

  datatype Error =
    | InvalidSnapshot | ObjectIDRequired | ParticipantIDRequired | AssignmentTime | SameParticipant | TransferTime
    | NotFound | ConcurrentModification | InvalidVersionTransition | InvalidTransferCommit | TransferNotFound

  // Assignments -----------------------------------------------------------------------

  predicate ValidName(id: string)
  {
    id != "" && id == TrimSpace(id)
  }

  function Validate(s: Snapshot): Option<Error>
  {
    if s.version == 0 then Some(InvalidSnapshot)
    else if !ValidName(s.objectID) then Some(ObjectIDRequired)
    else if !ValidName(s.participantID) then Some(ParticipantIDRequired)
    else if s.assignedAt == 0 then Some(AssignmentTime)
    else None
  }

  predicate ValidEvent(e: Transferred)
  {
    e.version >= 2 && e.from != e.to && e.at != 0 && ValidName(e.objectID) && ValidName(e.from) && ValidName(e.to)
  }

  /** Addition on unsigned 64-bit numbers wraps around. */
  function Successor(v: Version): Version
  {
    if v == MAX_VERSION then 0 else v + 1
  }

  /** The assignment after a handover, and its event. */
  function Transfer(s: Snapshot, to: string, at: Time): Result<(Snapshot, Transferred), Error>
  {
    if !ValidName(to) then Err(ParticipantIDRequired)
    else if to == s.participantID then Err(SameParticipant)
    else if at == 0 || at <= s.assignedAt then Err(TransferTime)
    else
      Ok((Snapshot(s.objectID, to, Successor(s.version), at),
          Transferred(s.objectID, s.participantID, to, at, Successor(s.version))))
  }

  // The repository ----------------------------------------------------------------------

  datatype Repository = Repository(snapshots: map<string, Snapshot>, transfers: map<(string, Version), Transferred>)

  function CheckVersion(s: Snapshot, expected: Version): Option<Error>
  {
    if Validate(s).Some? then Validate(s)
    else if expected == MAX_VERSION || s.version != expected + 1 then Some(InvalidVersionTransition)
    else None
  }

  function CheckCommit(s: Snapshot, expected: Version, e: Transferred): Option<Error>
  {
    if CheckVersion(s, expected).Some? then CheckVersion(s, expected)
    else if || expected == 0 || e.objectID != s.objectID || e.from == e.to || e.to != s.participantID
            || e.version != s.version || e.at != s.assignedAt || !ValidEvent(e) then Some(InvalidTransferCommit)
    else None
  }

  function Save(repo: Repository, s: Snapshot, expected: Version): (Repository, Option<Error>)
  {
    var id := s.objectID;
    if CheckVersion(s, expected).Some? then (repo, CheckVersion(s, expected))
    else if expected == 0 && id in repo.snapshots then (repo, Some(ConcurrentModification))
    else if && expected != 0
            && (|| id !in repo.snapshots || repo.snapshots[id].version != expected
                || repo.snapshots[id].participantID == s.participantID || s.assignedAt <= repo.snapshots[id].assignedAt)
    then (repo, Some(ConcurrentModification))
    else (repo.(snapshots := repo.snapshots[id := s]), None)
  }

  /** A commit names an assignment that is not the current one of its object. */
  predicate Outdated(repo: Repository, s: Snapshot, expected: Version, from: string)
  {
    var id := s.objectID;
    || id !in repo.snapshots || repo.snapshots[id].version != expected
    || repo.snapshots[id].participantID != from || s.assignedAt <= repo.snapshots[id].assignedAt
  }

  function Commit(repo: Repository, s: Snapshot, expected: Version, e: Transferred): (Repository, Option<Error>)
  {
    if CheckCommit(s, expected, e).Some? then (repo, CheckCommit(s, expected, e))
    else if Outdated(repo, s, expected, e.from) then (repo, Some(ConcurrentModification))
    else if (s.objectID, s.version) in repo.transfers then (repo, Some(ConcurrentModification))
    else
      (Repository(repo.snapshots[s.objectID := s],
                  repo.transfers[(s.objectID, s.version) := e.(at := s.assignedAt)]), None)
  }

  function Find(repo: Repository, id: string): Result<Snapshot, Error>
  {
    if !ValidName(id) then Err(ObjectIDRequired)
    else if id !in repo.snapshots then Err(NotFound)
    else if Validate(repo.snapshots[id]).Some? then Err(Validate(repo.snapshots[id]).value)
    else Ok(repo.snapshots[id])
  }

  function FindTransfer(repo: Repository, id: string, version: Version): Result<Transferred, Error>
  {
    if !ValidName(id) then Err(ObjectIDRequired)
    else if (id, version) !in repo.transfers then Err(TransferNotFound)
    else Ok(repo.transfers[(id, version)])
  }

  // Runs ------------------------------------------------------------------------------------

  datatype Write = WriteSave(s: Snapshot, expected: Version) | WriteCommit(s: Snapshot, expected: Version, e: Transferred)

  function Step(repo: Repository, w: Write): (Repository, Option<Error>)
  {
    match w
    case WriteSave(s, expected) => Save(repo, s, expected)
    case WriteCommit(s, expected, e) => Commit(repo, s, expected, e)
  }

  const EMPTY := Repository(map[], map[])

  function After(writes: seq<Write>): Repository
  {
    if writes == [] then EMPTY else Step(After(writes[..|writes| - 1]), writes[|writes| - 1]).0
  }

  /** An accepted assignment, with the event if it was a handover. */
  datatype Entry = Entry(s: Snapshot, event: Option<Transferred>)

  function EntryOf(w: Write): Entry
  {
    match w
    case WriteSave(s, _) => Entry(s, None)
    case WriteCommit(s, _, e) => Entry(s, Some(e))
  }

  /** The accepted writes to one object, oldest first. */
  function Chain(writes: seq<Write>, id: string): seq<Entry>
  {
    if writes == [] then []
    else
      var n := |writes| - 1;
      var w := writes[n];
      Chain(writes[..n], id) + if Step(After(writes[..n]), w).1.None? && w.s.objectID == id then [EntryOf(w)] else []
  }

  /** One link of the chain: the next version, a later time, another participant, and if an event was
      recorded, one that names exactly these two assignments. */
  ghost predicate Linked(chain: seq<Entry>, k: nat)
    requires k < |chain|
  {
    var c := chain[k];
    && Validate(c.s) == None && c.s.version == k + 1
    && (k == 0 ==> c.event.None?)
    && (k > 0 ==>
          var p := chain[k - 1];
          && p.s.assignedAt < c.s.assignedAt && p.s.participantID != c.s.participantID
          && (c.event.Some? ==>
                c.event.value == Transferred(c.s.objectID, p.s.participantID, c.s.participantID, c.s.assignedAt, c.s.version)))
  }

  /** The repository holds, of one object, the last assignment of the chain and exactly its recorded events. */
  ghost predicate Holds(repo: Repository, id: string, chain: seq<Entry>)
  {
    && |chain| <= MAX_VERSION
    && (forall k :: 0 <= k < |chain| ==> Linked(chain, k) && chain[k].s.objectID == id)
    && (id in repo.snapshots <==> chain != [])
    && (chain != [] ==> repo.snapshots[id] == chain[|chain| - 1].s)
    && (forall v: Version :: (id, v) in repo.transfers <==> 1 <= v <= |chain| && chain[v - 1].event.Some?)
    && (forall v: Version :: (id, v) in repo.transfers ==> chain[v - 1].event == Some(repo.transfers[(id, v)]))
  }

  lemma LinkedPrefix(chain: seq<Entry>, e: Entry, k: nat)
    requires k < |chain|
    ensures Linked(chain + [e], k) <==> Linked(chain, k)
  {
    hide Validate;
  }

  lemma StepExtends(repo: Repository, w: Write, id: string, chain: seq<Entry>)
    requires Holds(repo, id, chain)
    ensures var next := if Step(repo, w).1.None? && w.s.objectID == id then chain + [EntryOf(w)] else chain;
      Holds(Step(repo, w).0, id, next)
  {
    hide Validate, Linked, ValidName;
    var n := |chain|;
    if Step(repo, w).1.None? && w.s.objectID == id {
      var next := chain + [EntryOf(w)];
      forall k | 0 <= k < n ensures Linked(next, k) && next[k].s.objectID == id {
        LinkedPrefix(chain, EntryOf(w), k);
      }
      NewLink(repo, w, id, chain);
    }
  }

  lemma NewLink(repo: Repository, w: Write, id: string, chain: seq<Entry>)
    requires Holds(repo, id, chain) && w.s.objectID == id && Step(repo, w).1.None?
    ensures |chain| < MAX_VERSION && w.s.version == |chain| + 1
    ensures Linked(chain + [EntryOf(w)], |chain|)
  {
    hide Validate, ValidName;
    if chain != [] {
      assert Linked(chain, |chain| - 1);
    }
  }

  /** Conservation: after any writes whatever, each object has one assignment, versions rise by exactly one,
      assignment times strictly increase, no handover is to oneself, and every stored event links the
      participants of the version before and the version it created. */
  lemma {:induction false} Conservation(writes: seq<Write>, id: string)
    ensures Holds(After(writes), id, Chain(writes, id))
  {
    hide Holds, Step;
    if writes == [] {
      NothingYet(id);
    } else {
      var n := |writes| - 1;
      Conservation(writes[..n], id);
      assert Chain(writes[..n], id) + [] == Chain(writes[..n], id);
      StepExtends(After(writes[..n]), writes[n], id, Chain(writes[..n], id));
    }
  }

  lemma NothingYet(id: string)
    ensures Holds(EMPTY, id, [])
  {
  }

  /** The check for an event already stored under the new version can never fire: a commit that names the
      current assignment is accepted. */
  lemma DuplicateCheckNeverFires(writes: seq<Write>, s: Snapshot, expected: Version, e: Transferred)
    requires CheckCommit(s, expected, e).None? && !Outdated(After(writes), s, expected, e.from)
    ensures Commit(After(writes), s, expected, e).1 == None
  {
    hide Validate, ValidName, After, Chain;
    Conservation(writes, s.objectID);
    var chain := Chain(writes, s.objectID);
    assert Linked(chain, |chain| - 1);
  }

  /** After any writes, an event is stored under a version exactly if a handover created that version, and it
      names the participants of the version before and of that version, and its time. */
  lemma StoredTransfersLink(writes: seq<Write>, id: string, version: Version)
    ensures var chain := Chain(writes, id);
      && ((id, version) in After(writes).transfers <==> 1 <= version <= |chain| && chain[version - 1].event.Some?)
      && ((id, version) in After(writes).transfers ==>
            && version >= 2
            && After(writes).transfers[(id, version)] ==
                 Transferred(id, chain[version - 2].s.participantID, chain[version - 1].s.participantID, chain[version - 1].s.assignedAt, version))
  {
    hide Chain, After, Validate;
    Conservation(writes, id);
    if (id, version) in After(writes).transfers {
      assert Linked(Chain(writes, id), version - 1);
    }
  }

  /** Chains only grow. */
  lemma {:induction false} ChainGrows(writes: seq<Write>, more: seq<Write>, id: string)
    ensures Chain(writes, id) <= Chain(writes + more, id)
  {
    hide Step, After;
    if more == [] {
      assert writes + more == writes;
    } else {
      var n := |more| - 1;
      assert (writes + more)[..|writes| + n] == writes + more[..n];
      ChainGrows(writes, more[..n], id);
    }
  }

  /** A committed handover is found under its version for ever, as it was committed, whatever is written later. */
  lemma CommittedStaysFound(writes: seq<Write>, s: Snapshot, expected: Version, e: Transferred, more: seq<Write>)
    requires Commit(After(writes), s, expected, e).1.None?
    ensures FindTransfer(After(writes + [WriteCommit(s, expected, e)] + more), s.objectID, s.version) == Ok(e)
  {
    hide After, Chain, Commit;
    var w := WriteCommit(s, expected, e);
    var now := writes + [w];
    var id := s.objectID;
    Conservation(writes, id);
    NewLink(After(writes), w, id, Chain(writes, id));
    ChainOneMore(writes, w);
    ChainGrows(now, more, id);
    StoredTransfersAre(now + more, id, s.version);
    CommittedIsValid(After(writes), s, expected, e);
  }

  lemma ChainOneMore(writes: seq<Write>, w: Write)
    requires Step(After(writes), w).1.None?
    ensures Chain(writes + [w], w.s.objectID) == Chain(writes, w.s.objectID) + [EntryOf(w)]
  {
    hide Step, After;
    assert (writes + [w])[..|writes|] == writes;
  }

  lemma StoredTransfersAre(writes: seq<Write>, id: string, version: Version)
    requires 1 <= version <= |Chain(writes, id)| && Chain(writes, id)[version - 1].event.Some?
    ensures (id, version) in After(writes).transfers && Some(After(writes).transfers[(id, version)]) == Chain(writes, id)[version - 1].event
  {
    hide After, Chain, Linked;
    Conservation(writes, id);
  }

  lemma CommittedIsValid(repo: Repository, s: Snapshot, expected: Version, e: Transferred)
    requires Commit(repo, s, expected, e).1.None?
    ensures ValidName(s.objectID)
  {
    hide ValidName;
  }

  /** Two writes built on the same version of the same object: at most one is accepted, in any run. */
  lemma OneSuccessor(writes: seq<Write>, more: seq<Write>, w: Write, x: Write)
    requires w.s.objectID == x.s.objectID && w.expected == x.expected
    requires Step(After(writes), w).1.None?
    ensures Step(After(writes + [w] + more), x).1.Some?
  {
    hide Validate, ValidName, Linked, Step;
    var id := w.s.objectID;
    var first, last := Chain(writes + [w], id), Chain(writes + [w] + more, id);
    assert (writes + [w])[..|writes|] == writes;
    Conservation(writes, id);
    Conservation(writes + [w] + more, id);
    ChainGrows(writes + [w], more, id);
    NewLink(After(writes), w, id, Chain(writes, id));
    ExpectedIsPrevious(After(writes), w);
    if Step(After(writes + [w] + more), x).1.None? {
      NewLink(After(writes + [w] + more), x, id, last);
      ExpectedIsPrevious(After(writes + [w] + more), x);
    }
  }

  lemma ExpectedIsPrevious(repo: Repository, w: Write)
    requires Step(repo, w).1.None?
    ensures w.s.version == w.expected + 1
  {
    hide Validate, ValidName;
  }
}
