/**
  The database behind the handovers: one assignment per object, the event of every handover
  with the number of the audit entry that records it, and the audit ledger, which other
  writers append to as well. Each transaction is one step; a refused one changes nothing.
  The database keeps instants to the microsecond, in a way the model leaves open.
 */
module HandoverStore {
  import opened Prelude
  import opened Encoding
  import opened Responsibility
  import opened HandoverProof
  import Audit

  const HANDOVER_KIND: Byte := 3

  datatype Stored = Stored(event: Transferred, sequence: nat)

  /** `given` records the event each row was made from; no step looks at it. */
  datatype Database = Database(
    snapshots: map<string, Snapshot>, events: map<(string, Version), Stored>, ledger: seq<Audit.Entry>,
    given: map<(string, Version), Transferred>)

  datatype StoreError = Refused(error: Error) | Unaudited(reason: Audit.AuditError) | Unwritable | AuditInvalid

  datatype Transaction =
    | SaveAssignment(s: Snapshot, expected: Version)
    | CommitTransfer(s: Snapshot, expected: Version, e: Transferred)
    | AppendEntry(entry: Audit.Entry)
    | RecordOther(kind: Byte, record: Root, at: Time)

  /** What the columns can hold: signed 64-bit versions and instants in range. */
  predicate Writable(round: Time -> Time, version: Version, at: Time)
  {
    version <= Audit.MAX_SEQUENCE && Representable(at) && Representable(round(at))
  }

  function Kept(round: Time -> Time, s: Snapshot): Snapshot
  {
    s.(assignedAt := round(s.assignedAt))
  }

  function KeptEvent(round: Time -> Time, e: Transferred): Transferred
  {
    e.(at := round(e.at))
  }

  function Save(round: Time -> Time, db: Database, s: Snapshot, expected: Version): (Database, Option<StoreError>)
  {
    var id := s.objectID;
    if CheckVersion(s, expected).Some? then (db, Some(Refused(CheckVersion(s, expected).value)))
    else if !Writable(round, s.version, s.assignedAt) then (db, Some(Unwritable))
    else if expected == 0 && id in db.snapshots then (db, Some(Refused(ConcurrentModification)))
    else if && expected != 0
            && (|| id !in db.snapshots || db.snapshots[id].version != expected
                || db.snapshots[id].participantID == s.participantID || round(s.assignedAt) <= db.snapshots[id].assignedAt)
    then (db, Some(Refused(ConcurrentModification)))
    else (db.(snapshots := db.snapshots[id := Kept(round, s)]), None)
  }

  /** The guard of the update. */
  predicate Current(round: Time -> Time, db: Database, s: Snapshot, expected: Version, from: string)
  {
    var id := s.objectID;
    && id in db.snapshots && db.snapshots[id].version == expected
    && db.snapshots[id].participantID == from && db.snapshots[id].assignedAt < round(s.assignedAt)
  }

  predicate HoldableNames(e: Transferred)
  {
    Holdable(e.objectID) && Holdable(e.from) && Holdable(e.to)
  }

  function Commit(H: Bytes -> Root, round: Time -> Time, db: Database, s: Snapshot, expected: Version, e: Transferred):
    (Database, Option<StoreError>)
  {
    if CheckCommit(s, expected, e).Some? then (db, Some(Refused(CheckCommit(s, expected, e).value)))
    else if !HoldableNames(e) || !Writable(round, e.version, e.at) then (db, Some(Unwritable))
    else if !Current(round, db, s, expected, e.from) then (db, Some(Refused(ConcurrentModification)))
    else
      var key := (e.objectID, e.version);
      match Audit.Following(H, db.ledger, HANDOVER_KIND, TransferRoot(H, e).value, e.at)
      case Err(reason) => (db, Some(Unaudited(reason)))
      case Ok(entry) =>
        if key in db.events then (db, Some(Unwritable))
        else
          (Database(db.snapshots[s.objectID := Kept(round, s)],
                    db.events[key := Stored(KeptEvent(round, e), entry.sequence)],
                    db.ledger + [entry], db.given[key := e]), None)
  }

  function Audited(db: Database, r: (seq<Audit.Entry>, Option<Audit.AuditError>)): (Database, Option<StoreError>)
  {
    (db.(ledger := r.0), if r.1.Some? then Some(Unaudited(r.1.value)) else None)
  }

  function Apply(H: Bytes -> Root, round: Time -> Time, db: Database, t: Transaction): (Database, Option<StoreError>)
  {
    match t
    case SaveAssignment(s, expected) => Save(round, db, s, expected)
    case CommitTransfer(s, expected, e) => Commit(H, round, db, s, expected, e)
    case AppendEntry(entry) => Audited(db, Audit.Append(H, db.ledger, entry))
    case RecordOther(kind, record, at) => Audited(db, Audit.Record(H, db.ledger, kind, record, at))
  }

  const NEW_DATABASE := Database(map[], map[], [], map[])

  function Execution(H: Bytes -> Root, round: Time -> Time, ts: seq<Transaction>): Database
  {
    if ts == [] then NEW_DATABASE else Apply(H, round, Execution(H, round, ts[..|ts| - 1]), ts[|ts| - 1]).0
  }

  /** The entry the join finds for a number. */
  function Joined(ledger: seq<Audit.Entry>, sequence: nat): Option<Audit.Entry>
  {
    if ledger == [] then None
    else if ledger[|ledger| - 1].sequence == sequence then Some(ledger[|ledger| - 1])
    else Joined(ledger[..|ledger| - 1], sequence)
  }

  function FindTransfer(H: Bytes -> Root, db: Database, id: string, version: Version): Result<Transferred, StoreError>
  {
    if version > Audit.MAX_SEQUENCE then Err(Unwritable)
    else if (id, version) !in db.events then Err(Refused(TransferNotFound))
    else
      var row := db.events[(id, version)];
      var entry := Joined(db.ledger, row.sequence);
      if || !HoldableEvent(row.event) || TransferRoot(H, row.event).None? || entry.None? || entry.value.kind != HANDOVER_KIND
         || TransferRoot(H, row.event) != Some(entry.value.record)
      then Err(AuditInvalid) else Ok(row.event)
  }

  // Every stored event has its audit entry -------------------------------------------------------------

  ghost predicate Numbered(ledger: seq<Audit.Entry>)
  {
    |ledger| <= Audit.MAX_SEQUENCE && forall i :: 0 <= i < |ledger| ==> ledger[i].sequence == i + 1
  }

  /** The row was made from a valid handover, and its number is that of a ledger entry with this handover's own root. */
  ghost predicate Bound(H: Bytes -> Root, round: Time -> Time, db: Database, key: (string, Version))
  {
    && key in db.events && key in db.given
    && var row, e := db.events[key], db.given[key];
       && key == (e.objectID, e.version) && ValidEvent(e) && HoldableEvent(e) && Writable(round, e.version, e.at)
       && row.event == KeptEvent(round, e)
       && 1 <= row.sequence <= |db.ledger|
       && db.ledger[row.sequence - 1].kind == HANDOVER_KIND
       && TransferRoot(H, e) == Some(db.ledger[row.sequence - 1].record)
  }

  /** No handover is ahead of its object's assignment. */
  ghost predicate Behind(db: Database, key: (string, Version))
  {
    key.0 in db.snapshots && key.1 <= db.snapshots[key.0].version
  }

  ghost predicate Apart(events: map<(string, Version), Stored>)
  {
    forall k, l :: k in events && l in events && k != l ==> events[k].sequence != events[l].sequence
  }

  ghost predicate Inv(H: Bytes -> Root, round: Time -> Time, db: Database)
  {
    && Numbered(db.ledger) && Apart(db.events)
    && (forall key :: key in db.events ==> Bound(H, round, db, key) && Behind(db, key))
  }

  lemma BoundStays(H: Bytes -> Root, round: Time -> Time, db: Database, next: Database, key: (string, Version))
    requires key in db.events && Bound(H, round, db, key) && db.ledger <= next.ledger
    requires key in next.events && next.events[key] == db.events[key] && key in next.given && next.given[key] == db.given[key]
    ensures Bound(H, round, next, key)
  {
    hide HoldableEvent, ValidEvent, Representable, TransferPreimage;
  }

  lemma AppendNumbers(H: Bytes -> Root, ledger: seq<Audit.Entry>, op: Audit.Op)
    requires Numbered(ledger)
    ensures Numbered(Audit.Step(H, ledger, op).0) && ledger <= Audit.Step(H, ledger, op).0
  {
    hide Audit.Preimage, Truncated;
  }

  lemma LedgerStepKeepsInv(H: Bytes -> Root, round: Time -> Time, db: Database, op: Audit.Op)
    requires Inv(H, round, db)
    ensures Inv(H, round, db.(ledger := Audit.Step(H, db.ledger, op).0))
  {
    hide Bound, Audit.Step;
    var next := db.(ledger := Audit.Step(H, db.ledger, op).0);
    AppendNumbers(H, db.ledger, op);
    forall key | key in next.events ensures Bound(H, round, next, key) {
      assert Bound(H, round, db, key);
      BoundHasGiven(H, round, db, key);
      BoundStays(H, round, db, next, key);
    }
    forall key | key in next.events ensures Behind(next, key) {
      assert Behind(db, key);
    }
  }

  lemma BoundHasGiven(H: Bytes -> Root, round: Time -> Time, db: Database, key: (string, Version))
    requires key in db.events && Bound(H, round, db, key)
    ensures key in db.given
  {
  }

  lemma SaveKeepsInv(H: Bytes -> Root, round: Time -> Time, db: Database, s: Snapshot, expected: Version)
    requires Inv(H, round, db)
    ensures Inv(H, round, Save(round, db, s, expected).0)
  {
    hide Bound, Numbered, Validate, Representable;
    var next := Save(round, db, s, expected).0;
    forall key | key in next.events ensures Bound(H, round, next, key) {
      assert Bound(H, round, db, key);
      BoundHasGiven(H, round, db, key);
      BoundStays(H, round, db, next, key);
    }
    forall key | key in next.events ensures Behind(next, key) {
      assert Behind(db, key);
    }
  }

  /** What a commit that is accepted knows. */
  lemma CommitFacts(H: Bytes -> Root, round: Time -> Time, db: Database, s: Snapshot, expected: Version, e: Transferred)
    requires Numbered(db.ledger) && Commit(H, round, db, s, expected, e).1.None?
    ensures HoldableEvent(e) && ValidEvent(e) && Writable(round, e.version, e.at) && CheckCommit(s, expected, e) == None
    ensures Current(round, db, s, expected, e.from) && e.version == s.version == expected + 1
    ensures var next := Commit(H, round, db, s, expected, e).0; var n := |db.ledger|; var key := (e.objectID, e.version);
      && |next.ledger| == n + 1 <= Audit.MAX_SEQUENCE && next.ledger[..n] == db.ledger
      && next.ledger[n].sequence == n + 1 && next.ledger[n].kind == HANDOVER_KIND
      && next.ledger[n].record == H(TransferPreimage(e))
      && key !in db.events && next.events == db.events[key := Stored(KeptEvent(round, e), n + 1)]
      && next.given == db.given[key := e] && next.snapshots == db.snapshots[s.objectID := Kept(round, s)]
  {
    hide Audit.Preimage, TransferPreimage, Truncated, Holdable, Representable, ValidName;
  }

  lemma CommitKeepsBound(H: Bytes -> Root, round: Time -> Time, db: Database, s: Snapshot, expected: Version, e: Transferred, k: (string, Version))
    requires Numbered(db.ledger) && Commit(H, round, db, s, expected, e).1.None?
    requires k in Commit(H, round, db, s, expected, e).0.events && (k in db.events ==> Bound(H, round, db, k))
    ensures Bound(H, round, Commit(H, round, db, s, expected, e).0, k)
  {
    hide Bound, Commit, CheckCommit, HoldableEvent, ValidEvent, Writable, Numbered, Current, TransferPreimage;
    CommitFacts(H, round, db, s, expected, e);
    var next := Commit(H, round, db, s, expected, e).0;
    if k == (e.objectID, e.version) {
      NewIsBound(H, round, next, e);
    } else {
      BoundHasGiven(H, round, db, k);
      BoundStays(H, round, db, next, k);
    }
  }

  lemma CommitKeepsBehind(H: Bytes -> Root, round: Time -> Time, db: Database, s: Snapshot, expected: Version, e: Transferred, k: (string, Version))
    requires Numbered(db.ledger) && Commit(H, round, db, s, expected, e).1.None?
    requires k in Commit(H, round, db, s, expected, e).0.events && (k in db.events ==> Behind(db, k))
    ensures Behind(Commit(H, round, db, s, expected, e).0, k)
  {
    hide Commit, CheckCommit, HoldableEvent, ValidEvent, Writable, Numbered, TransferPreimage;
    CommitFacts(H, round, db, s, expected, e);
    SameObject(s, expected, e);
  }

  lemma CommitKeepsInv(H: Bytes -> Root, round: Time -> Time, db: Database, s: Snapshot, expected: Version, e: Transferred)
    requires Inv(H, round, db) && Commit(H, round, db, s, expected, e).1.None?
    ensures Inv(H, round, Commit(H, round, db, s, expected, e).0)
  {
    hide Bound, Behind, Commit, CheckCommit, HoldableEvent, ValidEvent, Writable, Current, TransferPreimage;
    var next := Commit(H, round, db, s, expected, e).0;
    forall k | k in next.events ensures Bound(H, round, next, k) {
      CommitKeepsBound(H, round, db, s, expected, e, k);
    }
    forall k | k in next.events ensures Behind(next, k) {
      CommitKeepsBehind(H, round, db, s, expected, e, k);
    }
    CommitFacts(H, round, db, s, expected, e);
    forall k | k in db.events ensures db.events[k].sequence <= |db.ledger| {
      BoundInLedger(H, round, db, k);
    }
  }

  lemma SameObject(s: Snapshot, expected: Version, e: Transferred)
    requires CheckCommit(s, expected, e) == None
    ensures e.objectID == s.objectID && e.at == s.assignedAt && e.to == s.participantID && e.version == s.version
  {
    hide ValidName;
  }

  lemma BoundInLedger(H: Bytes -> Root, round: Time -> Time, db: Database, key: (string, Version))
    requires key in db.events && Bound(H, round, db, key)
    ensures 1 <= db.events[key].sequence <= |db.ledger|
  {
  }

  lemma NewIsBound(H: Bytes -> Root, round: Time -> Time, db: Database, e: Transferred)
    requires var key := (e.objectID, e.version); var n := |db.ledger|;
      && key in db.events && key in db.given && db.given[key] == e && n > 0
      && db.events[key] == Stored(KeptEvent(round, e), n)
      && db.ledger[n - 1].kind == HANDOVER_KIND
      && HoldableEvent(e) && ValidEvent(e) && Writable(round, e.version, e.at)
      && db.ledger[n - 1].record == H(TransferPreimage(e))
    ensures Bound(H, round, db, (e.objectID, e.version))
  {
    hide HoldableEvent, ValidEvent, Writable, TransferPreimage;
  }

  lemma ApplyKeepsInv(H: Bytes -> Root, round: Time -> Time, db: Database, t: Transaction)
    requires Inv(H, round, db)
    ensures Inv(H, round, Apply(H, round, db, t).0)
  {
    hide Inv, Save, Audit.Append, Audit.Record;
    match t
    case SaveAssignment(s, expected) => SaveKeepsInv(H, round, db, s, expected);
    case CommitTransfer(s, expected, e) =>
      if Commit(H, round, db, s, expected, e).1.None? {
        CommitKeepsInv(H, round, db, s, expected, e);
      } else {
        RefusedChangesNothing(H, round, db, s, expected, e);
      }
    case AppendEntry(entry) => LedgerStepKeepsInv(H, round, db, Audit.OpAppend(entry));
    case RecordOther(kind, record, at) => LedgerStepKeepsInv(H, round, db, Audit.OpRecord(kind, record, at));
  }

  lemma RefusedChangesNothing(H: Bytes -> Root, round: Time -> Time, db: Database, s: Snapshot, expected: Version, e: Transferred)
    requires Commit(H, round, db, s, expected, e).1.Some?
    ensures Commit(H, round, db, s, expected, e).0 == db
  {
    hide Audit.Following, CheckCommit, HoldableNames, Writable, Current;
  }

  lemma {:induction false} ExecutionKeepsInv(H: Bytes -> Root, round: Time -> Time, ts: seq<Transaction>)
    ensures Inv(H, round, Execution(H, round, ts))
  {
    hide Inv, Apply;
    if ts == [] {
      NothingStored(H, round);
    } else {
      ExecutionKeepsInv(H, round, ts[..|ts| - 1]);
      ApplyKeepsInv(H, round, Execution(H, round, ts[..|ts| - 1]), ts[|ts| - 1]);
    }
  }

  lemma NothingStored(H: Bytes -> Root, round: Time -> Time)
    ensures Inv(H, round, NEW_DATABASE)
  {
  }

  /** Whatever else is appended to the ledger, every stored handover names an entry of its own kind with the root of
      the very event that was committed, and no two handovers share one. */
  lemma StoredEventsAreAudited(H: Bytes -> Root, round: Time -> Time, ts: seq<Transaction>, k: (string, Version), l: (string, Version))
    requires k in Execution(H, round, ts).events && l in Execution(H, round, ts).events
    ensures var db := Execution(H, round, ts);
      && Bound(H, round, db, k) && db.ledger[db.events[k].sequence - 1].sequence == db.events[k].sequence
      && (k != l ==> db.events[k].sequence != db.events[l].sequence)
  {
    hide Execution, Bound;
    ExecutionKeepsInv(H, round, ts);
    BoundInLedger(H, round, Execution(H, round, ts), k);
  }

  // Reading it back ------------------------------------------------------------------------------------

  lemma {:induction false} JoinedAt(ledger: seq<Audit.Entry>, sequence: nat)
    requires Numbered(ledger) && 1 <= sequence <= |ledger|
    ensures Joined(ledger, sequence) == Some(ledger[sequence - 1])
  {
    if sequence < |ledger| {
      JoinedAt(ledger[..|ledger| - 1], sequence);
    }
  }

  lemma SameMicrosSameRoot(H: Bytes -> Root, a: Transferred, b: Transferred)
    requires HoldableEvent(a) && HoldableEvent(b) && a.(at := b.at) == b && Truncated(a.at) == Truncated(b.at)
    ensures TransferPreimage(a) == TransferPreimage(b)
  {
    hide Field, Utf8, Scalar;
    TruncatedOnce(a.at);
    TruncatedOnce(b.at);
  }

  lemma {:induction false} JoinedIsThere(ledger: seq<Audit.Entry>, sequence: nat)
    ensures Joined(ledger, sequence).Some? ==> Joined(ledger, sequence).value in ledger && Joined(ledger, sequence).value.sequence == sequence
  {
    if ledger != [] {
      JoinedIsThere(ledger[..|ledger| - 1], sequence);
    }
  }

  /** Whatever was done to the database by other means, a handover it gives out is valid, and its ledger holds an entry
      under the number of the row, of the handover kind and with the root of just this event. */
  lemma FoundIsAudited(H: Bytes -> Root, db: Database, id: string, version: Version)
    requires FindTransfer(H, db, id, version).Ok?
    ensures (id, version) in db.events && FindTransfer(H, db, id, version).value == db.events[(id, version)].event
    ensures var e := FindTransfer(H, db, id, version).value;
      && ValidEvent(e) && HoldableEvent(e)
      && exists entry :: entry in db.ledger && entry.sequence == db.events[(id, version)].sequence
           && entry.kind == HANDOVER_KIND && entry.record == H(TransferPreimage(e))
  {
    hide Joined, TransferPreimage, HoldableEvent, ValidEvent;
    JoinedIsThere(db.ledger, db.events[(id, version)].sequence);
  }

  /** The database gave the event back with its microsecond, and not as the zero time. */
  predicate Faithful(round: Time -> Time, at: Time)
  {
    Truncated(round(at)) == Truncated(at) && round(at) != 0
  }

  lemma BoundIsFound(H: Bytes -> Root, round: Time -> Time, db: Database, key: (string, Version))
    requires Numbered(db.ledger) && key in db.events && Bound(H, round, db, key)
    ensures var e := db.given[key]; var r := FindTransfer(H, db, key.0, key.1);
      && HoldableEvent(KeptEvent(round, e)) && (r == Ok(KeptEvent(round, e)) || r == Err(AuditInvalid))
      && (r.Ok? <==> round(e.at) != 0 && H(TransferPreimage(KeptEvent(round, e))) == H(TransferPreimage(e)))
  {
    hide TransferPreimage, Joined, Numbered, Holdable, Representable, ValidName;
    JoinedAt(db.ledger, db.events[key].sequence);
  }

  /** A committed handover is read back exactly if the database kept its microsecond and a time at all; otherwise the
      read reports the audit link as invalid, although nothing was tampered with. That the two events differ in their
      roots when the microsecond changed is what the hash is trusted for. */
  lemma FoundExactly(H: Bytes -> Root, round: Time -> Time, ts: seq<Transaction>, id: string, version: Version)
    requires (id, version) in Execution(H, round, ts).events
    ensures var db := Execution(H, round, ts); (id, version) in db.given
    ensures var db := Execution(H, round, ts); var e := db.given[(id, version)]; var r := FindTransfer(H, db, id, version);
      && HoldableEvent(e) && HoldableEvent(KeptEvent(round, e))
      && (r == Ok(KeptEvent(round, e)) || r == Err(AuditInvalid))
      && (Faithful(round, e.at) ==> r.Ok?)
      && (CollisionFreeOn(H, {TransferPreimage(e), TransferPreimage(KeptEvent(round, e))}) ==> (r.Ok? <==> Faithful(round, e.at)))
  {
    hide Execution, FindTransfer, TransferPreimage, HoldableEvent, Truncated;
    var db, key := Execution(H, round, ts), (id, version);
    ExecutionKeepsInv(H, round, ts);
    assert Bound(H, round, db, key);
    var e := db.given[key];
    var kept := KeptEvent(round, e);
    BoundIsFound(H, round, db, key);
    if Truncated(e.at) == Truncated(round(e.at)) {
      SameMicrosSameRoot(H, e, kept);
    }
    if TransferPreimage(e) == TransferPreimage(kept) {
      TransferPreimageIsInjective(e, kept);
    }
  }

  /** A database that rounds down never breaks a link, except of a handover in the first microsecond of the zero time. */
  lemma TruncatingKeepsLinks(H: Bytes -> Root, ts: seq<Transaction>, id: string, version: Version)
    requires (id, version) in Execution(H, Truncated, ts).events
    ensures var db := Execution(H, Truncated, ts); (id, version) in db.given
    ensures var db := Execution(H, Truncated, ts); var e := db.given[(id, version)];
      FindTransfer(H, db, id, version) == if Truncated(e.at) != 0 then Ok(e.(at := Truncated(e.at))) else Err(AuditInvalid)
  {
    hide Execution, FindTransfer, TransferPreimage, HoldableEvent;
    var db, key := Execution(H, Truncated, ts), (id, version);
    ExecutionKeepsInv(H, Truncated, ts);
    assert Bound(H, Truncated, db, key);
    BoundIsFound(H, Truncated, db, key);
    TruncatedOnce(db.given[key].at);
    FoundExactly(H, Truncated, ts, id, version);
  }

  /** To the nearest microsecond. */
  function Nearest(at: Time): Time
  {
    Truncated(at + 500)
  }

  const HANDED_OVER := Transferred("o", "a", "b", 2500, 2)

  const HANDOVER_RUN := [
    SaveAssignment(Snapshot("o", "a", 1, 1000), 0),
    CommitTransfer(Snapshot("o", "b", 2, 2500), 1, HANDED_OVER)]

  lemma PlainNames()
    ensures ValidName("o") && ValidName("a") && ValidName("b") && "a" != "b"
    ensures HoldableEvent(HANDED_OVER) && HoldableEvent(KeptEvent(Nearest, HANDED_OVER))
  {
    assert "a"[0] != "b"[0];
    assert "o"[1..] == "" && "a"[1..] == "" && "b"[1..] == "";
  }

  lemma HandoverIsStored(H: Bytes -> Root)
    requires HoldableEvent(HANDED_OVER) && H(TransferPreimage(HANDED_OVER)) != ZERO_ROOT
    ensures ("o", 2) in Execution(H, Nearest, HANDOVER_RUN).given
    ensures ("o", 2) in Execution(H, Nearest, HANDOVER_RUN).events && Execution(H, Nearest, HANDOVER_RUN).given[("o", 2)] == HANDED_OVER
  {
    hide TransferPreimage, HoldableEvent, ValidName, Holdable, Audit.Preimage;
    PlainNames();
    var one := Save(Nearest, NEW_DATABASE, Snapshot("o", "a", 1, 1000), 0);
    assert one.1.None? && one.0.snapshots == map["o" := Snapshot("o", "a", 1, 1000)];
    var run := HANDOVER_RUN;
    assert run[..1][..0] == [] && run[..1][0] == run[0];
    assert Execution(H, Nearest, run[..1]) == one.0;
  }

  /** One that rounds to the nearest microsecond breaks the link of a handover that it rounds up. */
  lemma RoundingUpBreaksLinks(H: Bytes -> Root)
    requires HoldableEvent(HANDED_OVER) && HoldableEvent(KeptEvent(Nearest, HANDED_OVER)) && H(TransferPreimage(HANDED_OVER)) != ZERO_ROOT
    requires CollisionFreeOn(H, {TransferPreimage(HANDED_OVER), TransferPreimage(KeptEvent(Nearest, HANDED_OVER))})
    ensures var db := Execution(H, Nearest, HANDOVER_RUN);
      ("o", 2) in db.events && FindTransfer(H, db, "o", 2) == Err(AuditInvalid)
  {
    hide Execution, FindTransfer, TransferPreimage, HoldableEvent;
    HandoverIsStored(H);
    FoundExactly(H, Nearest, HANDOVER_RUN, "o", 2);
  }

  // The two halves -------------------------------------------------------------------------------------

  predicate Accepted(H: Bytes -> Root, round: Time -> Time, db: Database, t: Transaction)
  {
    Apply(H, round, db, t).1.None?
  }

  /** What a transaction does to the ledger. */
  function AuditOp(H: Bytes -> Root, round: Time -> Time, db: Database, t: Transaction): seq<Audit.Op>
  {
    match t
    case SaveAssignment(_, _) => []
    case AppendEntry(entry) => [Audit.OpAppend(entry)]
    case RecordOther(kind, record, at) => [Audit.OpRecord(kind, record, at)]
    case CommitTransfer(s, expected, e) =>
      if Accepted(H, round, db, t) then [Audit.OpRecord(HANDOVER_KIND, H(TransferPreimage(e)), e.at)] else []
  }

  function AuditOps(H: Bytes -> Root, round: Time -> Time, ts: seq<Transaction>): seq<Audit.Op>
  {
    if ts == [] then []
    else
      var n := |ts| - 1;
      AuditOps(H, round, ts[..n]) + AuditOp(H, round, Execution(H, round, ts[..n]), ts[n])
  }

  /** The ledger of the database is a run of the ledger alone, so what holds of those holds of it: it is one unbroken
      chain exactly if nothing was recorded in the first microsecond of the zero time. */
  lemma LedgerIsChainedExactly(H: Bytes -> Root, round: Time -> Time, ts: seq<Transaction>)
    ensures var ops := AuditOps(H, round, ts);
      && Execution(H, round, ts).ledger == Audit.Run(H, ops)
      && (Audit.Chained(H, Execution(H, round, ts).ledger) <==> forall i :: 0 <= i < |ops| ==> !Audit.Undated(H, ops, i))
  {
    hide Audit.Chained, Audit.Undated, Execution, AuditOps;
    LedgerIsRun(H, round, ts);
    Audit.RunIsChainedExactly(H, AuditOps(H, round, ts));
  }

  lemma {:induction false} LedgerIsRun(H: Bytes -> Root, round: Time -> Time, ts: seq<Transaction>)
    ensures Execution(H, round, ts).ledger == Audit.Run(H, AuditOps(H, round, ts))
  {
    hide Audit.Step, AuditOp, Apply;
    if ts != [] {
      var n := |ts| - 1;
      var db := Execution(H, round, ts[..n]);
      LedgerIsRun(H, round, ts[..n]);
      LedgerStep(H, round, db, ts[n]);
      RunMore(H, AuditOps(H, round, ts[..n]), AuditOp(H, round, db, ts[n]));
    }
  }

  lemma LedgerStep(H: Bytes -> Root, round: Time -> Time, db: Database, t: Transaction)
    ensures |AuditOp(H, round, db, t)| <= 1
    ensures var ops := AuditOp(H, round, db, t);
      Apply(H, round, db, t).0.ledger == if ops == [] then db.ledger else Audit.Step(H, db.ledger, ops[0]).0
  {
    hide Audit.Append, Audit.Following, TransferPreimage, HoldableNames, Writable, Current;
  }

  lemma RunMore(H: Bytes -> Root, ops: seq<Audit.Op>, more: seq<Audit.Op>)
    requires |more| <= 1
    ensures Audit.Run(H, ops + more) == if more == [] then Audit.Run(H, ops) else Audit.Step(H, Audit.Run(H, ops), more[0]).0
  {
    hide Audit.Step;
    if more == [] {
      assert ops + more == ops;
    } else {
      assert (ops + more)[..|ops|] == ops;
    }
  }

  /** The assignments and events, apart from the ledger. */
  function Assignments(db: Database): Repository
  {
    Repository(db.snapshots, map key | key in db.events :: db.events[key].event)
  }

  function WriteOf(round: Time -> Time, t: Transaction): Write
    requires t.SaveAssignment? || t.CommitTransfer?
  {
    match t
    case SaveAssignment(s, expected) => WriteSave(Kept(round, s), expected)
    case CommitTransfer(s, expected, e) => WriteCommit(Kept(round, s), expected, KeptEvent(round, e))
  }

  function Writes(H: Bytes -> Root, round: Time -> Time, ts: seq<Transaction>): seq<Write>
  {
    if ts == [] then []
    else
      var n := |ts| - 1;
      Writes(H, round, ts[..n]) +
        if (ts[n].SaveAssignment? || ts[n].CommitTransfer?) && Accepted(H, round, Execution(H, round, ts[..n]), ts[n])
        then [WriteOf(round, ts[n])] else []
  }

  /** No accepted write is kept as the zero time. */
  ghost predicate Timed(ws: seq<Write>)
  {
    forall i :: 0 <= i < |ws| ==> ws[i].s.assignedAt != 0
  }

  lemma SaveIsWrite(round: Time -> Time, db: Database, s: Snapshot, expected: Version)
    requires Save(round, db, s, expected).1.None? && round(s.assignedAt) != 0
    ensures Responsibility.Step(Assignments(db), WriteSave(Kept(round, s), expected)) == (Assignments(Save(round, db, s, expected).0), None)
  {
    hide ValidName, Representable;
  }

  lemma CommitIsWrite(H: Bytes -> Root, round: Time -> Time, db: Database, s: Snapshot, expected: Version, e: Transferred)
    requires Numbered(db.ledger) && Commit(H, round, db, s, expected, e).1.None? && round(s.assignedAt) != 0
    ensures Responsibility.Step(Assignments(db), WriteCommit(Kept(round, s), expected, KeptEvent(round, e)))
      == (Assignments(Commit(H, round, db, s, expected, e).0), None)
  {
    hide ValidName, Commit, HoldableEvent, Writable, TransferPreimage, Numbered;
    CommitFacts(H, round, db, s, expected, e);
    SameObject(s, expected, e);
    var next := Commit(H, round, db, s, expected, e).0;
    var key := (e.objectID, e.version);
    assert Assignments(next).transfers == Assignments(db).transfers[key := KeptEvent(round, e)];
  }

  lemma AuditLeavesAssignments(H: Bytes -> Root, round: Time -> Time, db: Database, t: Transaction)
    requires !(t.SaveAssignment? || t.CommitTransfer?) || !Accepted(H, round, db, t)
    ensures Assignments(Apply(H, round, db, t).0) == Assignments(db)
  {
    hide Audit.Append, Audit.Record, Audit.Following, CheckCommit, CheckVersion, HoldableNames, Writable, Current;
  }

  /** The assignments and events of the database are those of a repository alone, given the accepted writes. */
  lemma {:induction false} AssignmentsAreRun(H: Bytes -> Root, round: Time -> Time, ts: seq<Transaction>)
    requires Timed(Writes(H, round, ts))
    ensures Assignments(Execution(H, round, ts)) == After(Writes(H, round, ts))
  {
    hide Apply, Accepted, Responsibility.Step, Inv;
    if ts != [] {
      var n := |ts| - 1;
      var db := Execution(H, round, ts[..n]);
      var before := Writes(H, round, ts[..n]);
      assert Timed(before) by { assert forall i :: 0 <= i < |before| ==> before[i] == Writes(H, round, ts)[i]; }
      AssignmentsAreRun(H, round, ts[..n]);
      if (ts[n].SaveAssignment? || ts[n].CommitTransfer?) && Accepted(H, round, db, ts[n]) {
        var w := WriteOf(round, ts[n]);
        assert Writes(H, round, ts)[|before|] == w;
        ExecutionKeepsInv(H, round, ts[..n]);
        AcceptedIsWrite(H, round, db, ts[n]);
        assert (before + [w])[..|before|] == before;
      } else {
        AuditLeavesAssignments(H, round, db, ts[n]);
        assert before + [] == before;
      }
    }
  }

  lemma AcceptedIsWrite(H: Bytes -> Root, round: Time -> Time, db: Database, t: Transaction)
    requires Inv(H, round, db) && (t.SaveAssignment? || t.CommitTransfer?) && Accepted(H, round, db, t)
    requires WriteOf(round, t).s.assignedAt != 0
    ensures Responsibility.Step(Assignments(db), WriteOf(round, t)) == (Assignments(Apply(H, round, db, t).0), None)
  {
    hide Save, Commit, Responsibility.Step, Bound, Behind, Assignments;
    match t
    case SaveAssignment(s, expected) => SaveIsWrite(round, db, s, expected);
    case CommitTransfer(s, expected, e) => CommitIsWrite(H, round, db, s, expected, e);
    case _ =>
  }

  /** So each object's assignments and events form one unbroken chain in the database too. */
  lemma StoreConserves(H: Bytes -> Root, round: Time -> Time, ts: seq<Transaction>, id: string)
    requires Timed(Writes(H, round, ts))
    ensures Holds(Assignments(Execution(H, round, ts)), id, Chain(Writes(H, round, ts), id))
  {
    hide Holds, Execution, Writes, Chain, Timed;
    AssignmentsAreRun(H, round, ts);
    Conservation(Writes(H, round, ts), id);
  }

  /** A refused transaction changes nothing; an accepted one writes one assignment or one ledger entry, a commit both. */
  lemma AllOrNothing(H: Bytes -> Root, round: Time -> Time, db: Database, t: Transaction)
    ensures var (next, err) := Apply(H, round, db, t);
      && (err.Some? ==> next == db)
      && (err.None? <==>
            match t
            case SaveAssignment(s, _) => Save(round, db, s, t.expected).1.None?
            case _ => |next.ledger| == |db.ledger| + 1)
      && db.ledger <= next.ledger
      && (t.SaveAssignment? ==> next.ledger == db.ledger && next.events == db.events)
      && (t.AppendEntry? || t.RecordOther? ==> next.snapshots == db.snapshots && next.events == db.events)
  {
    hide Audit.Validate, Audit.Following, CheckCommit, CheckVersion, HoldableNames, Writable, Current, TransferPreimage;
  }

  /** An assignment is stored exactly if it is well formed, writable, and follows what is stored: the first of its object,
      or the next version for another holder at a later kept time. */
  lemma SaveAcceptedExactly(round: Time -> Time, db: Database, s: Snapshot, expected: Version)
    ensures var (next, err) := Save(round, db, s, expected); var id := s.objectID;
      && (err.None? <==>
            && Validate(s) == None && s.version == expected + 1 && Writable(round, s.version, s.assignedAt)
            && if id in db.snapshots then
                 && expected > 0 && db.snapshots[id].version == expected && db.snapshots[id].participantID != s.participantID
                 && db.snapshots[id].assignedAt < round(s.assignedAt)
               else expected == 0)
      && next == (if err.None? then db.(snapshots := db.snapshots[id := s.(assignedAt := round(s.assignedAt))]) else db)
  {
    hide Validate, Representable;
  }

  /** When a handover is recorded, in a database with an unbroken ledger: it must be well formed and current, its root
      must not be the zero root, and the ledger must have room and a head that does not pass for the start of a chain.
      That the event is already there never stops it. */
  lemma CommitAcceptedExactly(H: Bytes -> Root, round: Time -> Time, ts: seq<Transaction>, s: Snapshot, expected: Version, e: Transferred)
    requires Audit.Chained(H, Execution(H, round, ts).ledger)
    ensures var db := Execution(H, round, ts); var ledger := db.ledger;
      Commit(H, round, db, s, expected, e).1.None? <==>
        && CheckCommit(s, expected, e) == None && HoldableNames(e) && Writable(round, e.version, e.at)
        && Current(round, db, s, expected, e.from) && H(TransferPreimage(e)) != ZERO_ROOT
        && |ledger| < Audit.MAX_SEQUENCE && (ledger != [] ==> ledger[|ledger| - 1].root != ZERO_ROOT)
  {
    hide Execution, Audit.Chained, CheckCommit, Holdable, Representable, TransferPreimage, Audit.Following, Bound;
    var db := Execution(H, round, ts);
    ExecutionKeepsInv(H, round, ts);
    if CheckCommit(s, expected, e) == None && HoldableNames(e) && Writable(round, e.version, e.at) && Current(round, db, s, expected, e.from) {
      ValidCommit(s, expected, e);
      SameObject(s, expected, e);
      Audit.RecordingExactly(H, db.ledger, HANDOVER_KIND, H(TransferPreimage(e)), e.at);
      assert (e.objectID, e.version) !in db.events;
    }
  }

  lemma ValidCommit(s: Snapshot, expected: Version, e: Transferred)
    requires CheckCommit(s, expected, e) == None
    ensures ValidEvent(e) && e.at != 0 && e.version == expected + 1
  {
    hide ValidName;
  }
}
