/**
  When assignments, handovers and their commits are accepted, on the fields they consist of.
 */
module ResponsibilityAccepts {
  import opened Prelude
  import opened Text
  import opened Responsibility

  /** A name that is not blank and carries no white space at its ends. */
  predicate Clean(name: string)
  {
    name != "" && Trimmed(name)
  }

  lemma NamesExactly(name: string)
    ensures ValidName(name) <==> Clean(name)
  {
    hide TrimLeft, TrimRight;
  }

  /** An assignment: a clean object and holder, a version, and a time. */
  predicate Assigned(s: Snapshot)
  {
    s.version > 0 && Clean(s.objectID) && Clean(s.participantID) && s.assignedAt != 0
  }

  lemma AssignedExactly(s: Snapshot)
    ensures Validate(s) == None <==> Assigned(s)
    ensures Validate(s) == Some(InvalidSnapshot) <==> s.version == 0
    ensures Validate(s) == Some(ObjectIDRequired) <==> s.version > 0 && !Clean(s.objectID)
    ensures Validate(s) == Some(ParticipantIDRequired) <==> s.version > 0 && Clean(s.objectID) && !Clean(s.participantID)
  {
    hide Clean, ValidName;
    NamesExactly(s.objectID);
    NamesExactly(s.participantID);
  }

  /** The event of handing the object over into this assignment. */
  predicate Tells(e: Transferred, s: Snapshot)
  {
    && e.objectID == s.objectID && e.to == s.participantID && e.at == s.assignedAt && e.version == s.version
    && Clean(e.from) && e.from != e.to
  }

  lemma EventsExactly(e: Transferred)
    ensures ValidEvent(e) <==> e.version >= 2 && e.from != e.to && e.at != 0 && Clean(e.objectID) && Clean(e.from) && Clean(e.to)
  {
    hide Clean, ValidName;
    NamesExactly(e.objectID);
    NamesExactly(e.from);
    NamesExactly(e.to);
  }

  /** A handover is made exactly to another, cleanly named participant, later than the last. It raises the version by
      one, around at the largest, and tells of itself. */
  lemma TransfersExactly(s: Snapshot, to: string, at: Time)
    ensures var r := Transfer(s, to, at);
      && (r.Ok? <==> Clean(to) && to != s.participantID && at != 0 && s.assignedAt < at)
      && (r.Ok? ==>
            && var (next, e) := r.value; var version := if s.version == MAX_VERSION then 0 else s.version + 1;
               next == Snapshot(s.objectID, to, version, at) && e == Transferred(s.objectID, s.participantID, to, at, version))
      && (r == Err(ParticipantIDRequired) <==> !Clean(to))
      && (r == Err(SameParticipant) <==> Clean(to) && to == s.participantID)
  {
    hide Clean, ValidName;
    NamesExactly(to);
  }

  /** The assignment follows what is stored of its object: the first one if there is none, otherwise the next version,
      for another holder, later. */
  predicate Follows(repo: Repository, s: Snapshot, expected: Version)
  {
    && s.version == expected + 1
    && if s.objectID in repo.snapshots then
         var now := repo.snapshots[s.objectID];
         now.version == expected && expected > 0 && now.participantID != s.participantID && now.assignedAt < s.assignedAt
       else expected == 0
  }

  /** An assignment is stored exactly if it is one and follows what is stored; otherwise nothing changes. */
  lemma SavesExactly(repo: Repository, s: Snapshot, expected: Version)
    ensures var (next, err) := Save(repo, s, expected);
      && (err.None? <==> Assigned(s) && Follows(repo, s, expected))
      && (err.None? ==> next == repo.(snapshots := repo.snapshots[s.objectID := s]))
      && (err.Some? ==> next == repo)
      && (err == Some(ConcurrentModification) <==> Assigned(s) && s.version == expected + 1 && !Follows(repo, s, expected))
  {
    hide Assigned, Validate;
    AssignedExactly(s);
    NeverConcurrent(s);
  }

  lemma NeverConcurrent(s: Snapshot)
    ensures Validate(s) != Some(ConcurrentModification) && Validate(s) != Some(InvalidTransferCommit)
  {
    hide ValidName;
  }

  /** A handover is committed exactly if it leads into an assignment that follows the stored one, from its holder, with
      an event that tells of it and is not there yet. */
  lemma CommitsExactly(repo: Repository, s: Snapshot, expected: Version, e: Transferred)
    ensures var (next, err) := Commit(repo, s, expected, e);
      && (err.None? <==>
            && Assigned(s) && Tells(e, s) && s.objectID in repo.snapshots && Follows(repo, s, expected)
            && repo.snapshots[s.objectID].participantID == e.from && (s.objectID, s.version) !in repo.transfers)
      && (err.None? ==>
            next == Repository(repo.snapshots[s.objectID := s], repo.transfers[(s.objectID, s.version) := e]))
      && (err.Some? ==> next == repo)
      && (err == Some(InvalidTransferCommit) <==> Assigned(s) && s.version == expected + 1 && (expected == 0 || !Tells(e, s)))
  {
    hide Clean, Validate, ValidEvent;
    AssignedExactly(s);
    NeverConcurrent(s);
    EventsExactly(e);
    assert e.at == s.assignedAt ==> e.(at := s.assignedAt) == e;
  }

  /** What is stored is found under a clean name, as long as it is an assignment. */
  lemma FindsExactly(repo: Repository, id: string, version: Version)
    ensures Find(repo, id).Ok? <==> Clean(id) && id in repo.snapshots && Assigned(repo.snapshots[id])
    ensures Find(repo, id).Ok? ==> Find(repo, id).value == repo.snapshots[id]
    ensures Find(repo, id) == Err(NotFound) <==> Clean(id) && id !in repo.snapshots
    ensures FindTransfer(repo, id, version).Ok? <==> Clean(id) && (id, version) in repo.transfers
    ensures FindTransfer(repo, id, version).Ok? ==> FindTransfer(repo, id, version).value == repo.transfers[(id, version)]
  {
    hide Clean, Assigned, ValidName, Validate;
    NamesExactly(id);
    if id in repo.snapshots {
      AssignedExactly(repo.snapshots[id]);
      NeverNotFound(repo.snapshots[id]);
    }
  }

  lemma NeverNotFound(s: Snapshot)
    ensures Validate(s) != Some(NotFound)
  {
    hide ValidName;
  }
}
