/**
  The in-memory store as the object it is, with the loops that take a snapshot apart and
  put it together again. What it does to its two fields is what `Pds.SaveSnapshot` says.
 */
module PdsStore {
  import opened Prelude
  import opened Text
  import opened Sorting
  import opened Evaluation
  import opened EvaluationSnapshot
  import opened Pds

  /** The keys of a map, collected in any order and sorted. */
  method SortedNames<T>(m: map<string, T>) returns (names: seq<string>)
    ensures names == Keys(m.Keys)
  {
    hide Keys, StableSort, Before;
    names := [];
    var left := m.Keys;
    while left != {}
      invariant left <= m.Keys
      invariant forall n :: n in names <==> n in m.Keys - left
      invariant forall i, j :: 0 <= i < j < |names| ==> names[i] != names[j]
      decreases |left|
    {
      var n :| n in left;
      names := names + [n];
      left := left - {n};
    }
    SortListsKeys(names);
    assert (set n | n in names) == m.Keys;
    names := StableSort(names, Before);
  }

  /** The checkpoints of an aggregate, in order of name. */
  method ListCheckpoints(m: map<string, Checkpoint>) returns (out: seq<Checkpoint>)
    ensures out == Listing(m)
  {
    hide Keys, Listing;
    var names := SortedNames(m);
    out := [];
    for i := 0 to |names|
      invariant |out| == i
      invariant forall j :: 0 <= j < i ==> names[j] in m && out[j] == m[names[j]]
    {
      assert names[i] in names;
      out := out + [m[names[i]]];
    }
  }

  method TakeSnapshotOf(s: Aggregate) returns (snapshot: Snapshot)
    ensures snapshot == TakeSnapshot(s)
  {
    var cs := ListCheckpoints(s.checkpoints);
    snapshot := Snapshot(s.(checkpoints := map[]), cs);
  }

  lemma {:induction false} FirstRefusalStands(cs: seq<Checkpoint>, n: nat)
    requires n <= |cs| && RestoreCheckpoints(cs[..n]).Err?
    ensures RestoreCheckpoints(cs) == RestoreCheckpoints(cs[..n])
    decreases |cs| - n
  {
    if n == |cs| {
      assert cs[..n] == cs;
    } else {
      assert cs[..n + 1][..n] == cs[..n];
      FirstRefusalStands(cs, n + 1);
    }
  }

  method RehydrateEvaluation(snapshot: Snapshot) returns (r: Result<Aggregate, Error>)
    ensures r == Rehydrate(snapshot)
  {
    hide ValidateSnapshot;
    var refused := ValidateSnapshot(snapshot.state);
    if refused.Some? {
      return Err(refused.value);
    }
    var cs := snapshot.checkpoints;
    var m: map<string, Checkpoint> := map[];
    for i := 0 to |cs|
      invariant RestoreCheckpoints(cs[..i]) == Ok(m)
    {
      assert cs[..i + 1][..i] == cs[..i];
      if cs[i].name == "" || cs[i].createdAt == 0 || cs[i].name in m {
        FirstRefusalStands(cs, i + 1);
        return Err(InvalidSnapshot);
      }
      m := m[cs[i].name := cs[i]];
    }
    assert cs[..|cs|] == cs;
    return Ok(snapshot.state.(checkpoints := m));
  }

  lemma {:induction false} RestoredNames(cs: seq<Checkpoint>)
    requires RestoreCheckpoints(cs).Ok?
    ensures forall n :: n in RestoreCheckpoints(cs).value ==>
      var c := RestoreCheckpoints(cs).value[n]; c.name == n && n != "" && c.createdAt != 0
  {
    if cs != [] {
      RestoredNames(cs[..|cs| - 1]);
    }
  }

  /** Whatever is rebuilt, from any snapshot at all, survives being saved and rebuilt again. */
  lemma RehydratedIsStable(snapshot: Snapshot)
    requires Rehydrate(snapshot).Ok?
    ensures Rehydrate(TakeSnapshot(Rehydrate(snapshot).value)) == Rehydrate(snapshot)
  {
    hide RestoreCheckpoints, Listing, NormalizeEvidence, NormalizePolicy, NormalizeOutcome, ValidEntry;
    RestoredNames(snapshot.checkpoints);
    RestoreListed(Rehydrate(snapshot).value.checkpoints);
    SameButCheckpoints(snapshot.state, Rehydrate(snapshot).value.(checkpoints := map[]));
  }

  lemma SameButCheckpoints(a: Aggregate, b: Aggregate)
    requires b.(checkpoints := a.checkpoints) == a
    ensures ValidateSnapshot(a) == ValidateSnapshot(b)
  {
    hide NormalizeEvidence, NormalizePolicy, NormalizeOutcome, ValidEntry;
  }

  method BuildOutboxRecords(events: seq<Event>, createdAt: Time) returns (r: Result<seq<Record>, ServiceError>)
    ensures r == BuildRecords(events, createdAt)
  {
    var records: seq<Record> := [];
    for i := 0 to |events|
      invariant BuildRecords(events[..i], createdAt) == Ok(records)
    {
      assert events[..i + 1][..i] == events[..i];
      var record := BuildRecord(events[i], createdAt);
      if record.Err? {
        FirstFailureStands(events, createdAt, i + 1);
        return Err(record.error);
      }
      records := records + [record.value];
    }
    assert events[..|events|] == events;
    return Ok(records);
  }

  lemma {:induction false} FirstFailureStands(events: seq<Event>, createdAt: Time, n: nat)
    requires n <= |events| && BuildRecords(events[..n], createdAt).Err?
    ensures BuildRecords(events, createdAt) == BuildRecords(events[..n], createdAt)
    decreases |events| - n
  {
    if n == |events| {
      assert events[..n] == events;
    } else {
      assert events[..n + 1][..n] == events[..n];
      FirstFailureStands(events, createdAt, n + 1);
    }
  }

  class MemoryStore {
    var snapshots: map<Id, Snapshot>
    var outbox: seq<Record>

    /** Every stored snapshot is one that was rebuilt before it was stored. */
    ghost predicate Valid()
      reads this
    {
      forall id :: id in snapshots ==>
        Rehydrate(snapshots[id]).Ok? && TakeSnapshot(Rehydrate(snapshots[id]).value) == snapshots[id]
    }

    ghost function View(): Store
      reads this
      requires Valid()
    {
      Store(map id | id in snapshots :: Rehydrate(snapshots[id]).value, outbox)
    }

    constructor ()
      ensures Valid() && View() == EMPTY.store
    {
      snapshots, outbox := map[], [];
    }

    method SaveEvaluation(snapshot: Snapshot, expected: nat, records: seq<Record>) returns (err: Option<ServiceError>)
      requires Valid()
      modifies this
      ensures Valid()
      ensures (View(), err) == SaveSnapshot(old(View()), snapshot, expected, records)
    {
      hide Rehydrate, TakeSnapshot;
      var id := snapshot.state.id;
      assert id in snapshots ==> View().evaluations[id].version == snapshots[id].state.version by {
        if id in snapshots {
          assert TakeSnapshot(Rehydrate(snapshots[id]).value) == snapshots[id];
        }
      }
      if expected == 0 && id in snapshots {
        return Some(ConcurrentModification);
      }
      if expected > 0 && (id !in snapshots || snapshots[id].state.version != expected) {
        return Some(ConcurrentModification);
      }
      var aggregate := RehydrateEvaluation(snapshot);
      if aggregate.Err? {
        return Some(Domain(aggregate.error));
      }
      var copy := TakeSnapshotOf(aggregate.value);
      RehydratedIsStable(snapshot);
      ghost var before := View();
      snapshots := snapshots[id := copy];
      outbox := outbox + records;
      assert View().evaluations == before.evaluations[id := aggregate.value];
      return None;
    }

    method FindEvaluation(id: Id) returns (r: Result<Aggregate, ServiceError>)
      requires Valid()
      ensures r == if id in View().evaluations then Ok(View().evaluations[id]) else Err(NotFound)
    {
      hide Rehydrate, TakeSnapshot;
      if id !in snapshots {
        return Err(NotFound);
      }
      var a := RehydrateEvaluation(snapshots[id]);
      return Ok(a.value);
    }
  }
}
