/**
  What the attempts of an outbox row count, over every run of the lease protocol. The guard of a report
  compares worker names, so a call can report on a row that another call under the same name has claimed since;
  a failure reported that way puts the attempts of the older claim back.
 */
module LeaseAttempts {
  import opened Prelude
  import opened Text
  import opened Outbox
  import opened Lease

  // One step -----------------------------------------------------------------------------------------

  /** The guard of the release: the row is being published and its lock has run out. */
  predicate Frees(sys: System, step: Step, id: Id)
  {
    && step.Release? && step.at != 0 && id in sys.rows && sys.rows[id].status == Publishing
    && sys.rows[id].lockUntil.Some? && sys.rows[id].lockUntil.value <= step.at
  }

  predicate Takes(sys: System, step: Step, id: Id)
  {
    && step.Claim? && step.call !in sys.jobs && CanClaim(sys, step.worker, step.ids, step.at, step.duration)
    && id in step.ids && id in sys.rows && id in sys.claims
  }

  /** A failure report that passes the guard for a row claimed again since, under the same name. */
  predicate Stale(sys: System, step: Step, id: Id)
  {
    && step.Report? && Working(sys, step.call)
    && var job := sys.jobs[step.call];
       && job.stage.Failing? && job.batch[0].id == id && Owns(sys, job.worker, id)
       && id in sys.claims && job.batch[0].claim < |sys.claims[id]|
       && RegisterFailure(job.batch[0].row, job.worker, job.stage.reason, step.at, step.p).1.None?
  }

  predicate Waits(r: Row)
  {
    r.status == Pending || r.status == RetryScheduled
  }

  /** What a step does to a row: only a claim raises the attempts, and only of a row that waits; a row comes to wait by
      a released lock, or by a failure with attempts left. */
  predicate Moved(r: Row, n: Row, took: bool, freed: bool)
  {
    && n.maxAttempts == r.maxAttempts && n.attempts == r.attempts + (if took then 1 else 0)
    && (took ==> Waits(r) && n.status == Publishing)
    && (Waits(n) ==> Waits(r) || freed || n.attempts < n.maxAttempts)
  }

  /** What a stale report does: the attempts become those of the older claim. */
  predicate PutBack(r: Row, n: Row, c: Copy, claims: nat)
  {
    && n.maxAttempts == r.maxAttempts == c.row.maxAttempts && n.attempts == c.row.attempts < claims
    && (Waits(n) ==> n.attempts < n.maxAttempts)
  }

  lemma RowMoves(sys: System, step: Step, id: Id)
    requires Inv(sys) && id in sys.rows
    ensures id in Next(sys, step).rows
    ensures !Stale(sys, step, id) ==> Moved(sys.rows[id], Next(sys, step).rows[id], Takes(sys, step, id), Frees(sys, step, id))
    ensures Stale(sys, step, id) ==>
      PutBack(sys.rows[id], Next(sys, step).rows[id], sys.jobs[step.call].batch[0], |sys.claims[id]|)
  {
    hide Inv, Stale, Moved, PutBack, Next, Takes, Frees;
    RowsStay(sys, step, id);
    if step.Report? && Changes(sys, step.call, step.at, step.p, id) {
      ReportMoves(sys, step.call, step.at, step.p, id);
    } else {
      if Stale(sys, step, id) { StaleChanges(sys, step, id); }
      ClaimsMove(sys, step, id);
      OtherMoves(sys, step, id);
    }
  }

  lemma RowsStay(sys: System, step: Step, id: Id)
    requires id in sys.rows
    ensures id in Next(sys, step).rows
  {
    hide RegisterFailure, CanClaim, TrimSpace;
  }

  lemma StaleChanges(sys: System, step: Step, id: Id)
    requires Inv(sys) && id in sys.rows && Stale(sys, step, id)
    ensures step.Report? && Changes(sys, step.call, step.at, step.p, id)
  {
    hide RegisterFailure, RowInv, CopyInv, TrimSpace, Persisted;
    var job := sys.jobs[step.call];
    assert JobInv(sys, job) && Copied(sys, job.worker, job.batch[0]);
    FailedRow(sys.rows[id], sys.claims[id], sys.releases[id], id in sys.delivered, job.worker, job.batch[0], job.stage.reason, step.at, step.p);
  }

  lemma ReportMoves(sys: System, call: nat, at: Time, p: RetryPolicy, id: Id)
    requires Inv(sys) && id in sys.rows && Changes(sys, call, at, p, id)
    ensures var step := Report(call, at, p);
      && (!Stale(sys, step, id) ==> Moved(sys.rows[id], Next(sys, step).rows[id], Takes(sys, step, id), Frees(sys, step, id)))
      && (Stale(sys, step, id) ==>
            PutBack(sys.rows[id], Next(sys, step).rows[id], sys.jobs[call].batch[0], |sys.claims[id]|))
  {
    hide Inv, RegisterFailure, Next;
    ReportComesUnderLatestName(sys, call, at, p, id);
    ChangeIsAccepted(sys, call, at, p, id);
  }

  lemma ChangeIsAccepted(sys: System, call: nat, at: Time, p: RetryPolicy, id: Id)
    requires id in sys.rows && Changes(sys, call, at, p, id)
    ensures Working(sys, call)
    ensures var job := sys.jobs[call];
      !job.stage.Sending? && Owns(sys, job.worker, id) && (job.stage.Failing? ==> RegisterFailure(job.batch[0].row, job.worker, job.stage.reason, at, p).1.None?)
  {
    hide RegisterFailure, Persisted, Finished;
  }

  lemma OtherMoves(sys: System, step: Step, id: Id)
    requires id in sys.rows && id in Next(sys, step).rows && (step.Report? ==> Next(sys, step).rows[id] == sys.rows[id])
    requires id in sys.claims
    ensures Moved(sys.rows[id], Next(sys, step).rows[id], Takes(sys, step, id), Frees(sys, step, id))
  {
    hide RegisterFailure, TrimSpace, ReportStep;
    if Takes(sys, step, id) {
      var i :| 0 <= i < |step.ids| && step.ids[i] == id;
      assert Claimable(sys.rows[id], step.at);
    }
  }

  lemma ClaimsMove(sys: System, step: Step, id: Id)
    requires Inv(sys) && id in sys.rows
    ensures id in sys.claims && id in Next(sys, step).claims
    ensures Next(sys, step).claims[id] == sys.claims[id] + (if Takes(sys, step, id) then [step.worker] else [])
  {
    hide RegisterFailure, TrimSpace, RowInv, JobInv, CanClaim;
  }

  lemma InsertedFresh(sys: System, step: Step, id: Id)
    requires Inv(sys) && id !in sys.rows && id in Next(sys, step).rows
    ensures id in Next(sys, step).claims && Next(sys, step).claims[id] == []
    ensures var r := Next(sys, step).rows[id]; r.attempts == 0 < r.maxAttempts
    ensures !Stale(sys, step, id)
  {
    hide RegisterFailure, TrimSpace, RowInv, JobInv;
  }

  /** The call held the copy, at this place of its batch or the next. */
  predicate Held(sys: System, call: nat, worker: string, i: nat, c: Copy)
  {
    && call in sys.jobs && sys.jobs[call].worker == worker
    && ((i < |sys.jobs[call].batch| && sys.jobs[call].batch[i] == c)
        || (i + 1 < |sys.jobs[call].batch| && sys.jobs[call].batch[i + 1] == c))
  }

  /** A copy in a batch was there before the step, or the step has just claimed its row. */
  lemma CopyOrigin(sys: System, step: Step, call: nat, i: nat)
    requires call in Next(sys, step).jobs && i < |Next(sys, step).jobs[call].batch|
    ensures var next := Next(sys, step); var c := next.jobs[call].batch[i];
      || (&& Takes(sys, step, c.id) && c.id in next.rows && c.row == next.rows[c.id]
          && c.claim == |sys.claims[c.id]| + 1 && next.jobs[call].worker == step.worker)
      || Held(sys, call, next.jobs[call].worker, i, c)
  {
    hide RegisterFailure, ClaimStep, CanClaim, ReleaseStep, Takes, Persisted, Finished, Owns;
    if step.Claim? {
      if step.call !in sys.jobs && CanClaim(sys, step.worker, step.ids, step.at, step.duration) {
        ClaimOrigin(sys, step, call, i);
      }
    } else if step.Release? {
      ReleaseKeepsJobs(sys, step.at);
    }
  }

  lemma ReleaseKeepsJobs(sys: System, at: Time)
    ensures ReleaseStep(sys, at).jobs == sys.jobs
  {
  }

  lemma ClaimOrigin(sys: System, step: Step, call: nat, i: nat)
    requires step.Claim? && step.call !in sys.jobs && CanClaim(sys, step.worker, step.ids, step.at, step.duration)
    requires var next := ClaimStep(sys, step.call, step.worker, step.ids, step.at, step.duration);
      call in next.jobs && i < |next.jobs[call].batch|
    ensures var next := ClaimStep(sys, step.call, step.worker, step.ids, step.at, step.duration); var c := next.jobs[call].batch[i];
      || (&& Takes(sys, step, c.id) && c.id in next.rows && c.row == next.rows[c.id]
          && c.claim == |sys.claims[c.id]| + 1 && next.jobs[call].worker == step.worker)
      || Held(sys, call, next.jobs[call].worker, i, c)
  {
    hide TrimSpace, Claimable, Claimed;
  }

  // The history of a row -----------------------------------------------------------------------------

  ghost predicate StaleAt(steps: seq<Step>, i: nat, id: Id)
    requires i < |steps|
  {
    Stale(Execution(steps[..i]), steps[i], id)
  }

  ghost predicate AnyStale(steps: seq<Step>, id: Id)
  {
    exists i :: 0 <= i < |steps| && StaleAt(steps, i, id)
  }

  /** At step `i` of the run a lock on the row ran out with its attempts used up. */
  ghost predicate FreedAtMaximum(steps: seq<Step>, i: nat, id: Id)
    requires i < |steps|
  {
    var sys := Execution(steps[..i]);
    Frees(sys, steps[i], id) && sys.rows[id].attempts >= sys.rows[id].maxAttempts
  }

  ghost predicate TakenAt(steps: seq<Step>, j: nat, id: Id)
    requires j < |steps|
  {
    Takes(Execution(steps[..j]), steps[j], id)
  }

  ghost predicate FreedBefore(steps: seq<Step>, id: Id)
  {
    exists i :: 0 <= i < |steps| && FreedAtMaximum(steps, i, id)
  }

  ghost predicate Overran(steps: seq<Step>, id: Id)
  {
    exists i, j :: 0 <= i < j < |steps| && FreedAtMaximum(steps, i, id) && TakenAt(steps, j, id)
  }

  lemma PrefixEvents(steps: seq<Step>, n: nat, i: nat, id: Id)
    requires i < n <= |steps|
    ensures FreedAtMaximum(steps[..n], i, id) <==> FreedAtMaximum(steps, i, id)
    ensures TakenAt(steps[..n], i, id) <==> TakenAt(steps, i, id)
    ensures StaleAt(steps[..n], i, id) <==> StaleAt(steps, i, id)
  {
    hide Execution, Frees, Takes, Stale;
    assert steps[..n][..i] == steps[..i];
  }

  lemma PrefixHistory(steps: seq<Step>, id: Id)
    requires steps != []
    ensures var front := steps[..|steps| - 1];
      (FreedBefore(front, id) ==> FreedBefore(steps, id)) && (Overran(front, id) ==> Overran(steps, id))
  {
    hide FreedAtMaximum, TakenAt;
    var n := |steps| - 1;
    if FreedBefore(steps[..n], id) {
      var i :| 0 <= i < n && FreedAtMaximum(steps[..n], i, id);
      PrefixEvents(steps, n, i, id);
    }
    if Overran(steps[..n], id) {
      var i, j :| 0 <= i < j < n && FreedAtMaximum(steps[..n], i, id) && TakenAt(steps[..n], j, id);
      PrefixEvents(steps, n, i, id);
      PrefixEvents(steps, n, j, id);
    }
  }

  lemma AnyStaleGrows(steps: seq<Step>, id: Id)
    requires steps != []
    ensures var n := |steps| - 1; AnyStale(steps, id) <==> AnyStale(steps[..n], id) || Stale(Execution(steps[..n]), steps[n], id)
  {
    hide StaleAt, Stale;
    var n := |steps| - 1;
    LastStale(steps, id);
    if AnyStale(steps, id) {
      var i :| 0 <= i < |steps| && StaleAt(steps, i, id);
      if i < n { PrefixEvents(steps, n, i, id); }
    }
    if AnyStale(steps[..n], id) {
      var i :| 0 <= i < n && StaleAt(steps[..n], i, id);
      PrefixEvents(steps, n, i, id);
    }
  }

  lemma LastStale(steps: seq<Step>, id: Id)
    requires steps != []
    ensures var n := |steps| - 1; StaleAt(steps, n, id) <==> Stale(Execution(steps[..n]), steps[n], id)
  {
    hide Stale, Execution;
  }

  // Attempts count claims ----------------------------------------------------------------------------

  /** In every run the attempts of a row are the number of its claims exactly if no stale failure report on it was ever
      accepted; otherwise they fall short for good. */
  lemma {:induction false} AttemptsCountClaimsExactly(steps: seq<Step>, id: Id)
    requires id in Execution(steps).rows
    ensures var sys := Execution(steps);
      && id in sys.claims && sys.rows[id].attempts <= |sys.claims[id]|
      && (sys.rows[id].attempts == |sys.claims[id]| <==> !AnyStale(steps, id))
  {
    hide Next, Inv, AnyStale, Takes, Frees, Stale;
    if steps != [] {
      var n := |steps| - 1;
      var sys := Execution(steps[..n]);
      ExecutionKeepsInv(steps[..n]);
      AnyStaleGrows(steps, id);
      if id in sys.rows {
        AttemptsCountClaimsExactly(steps[..n], id);
        RowMoves(sys, steps[n], id);
        ClaimsMove(sys, steps[n], id);
        StaleIsNoClaim(sys, steps[n], id);
      } else {
        InsertedFresh(sys, steps[n], id);
        NothingStaleYet(steps[..n], id);
      }
    }
  }

  lemma StaleIsNoClaim(sys: System, step: Step, id: Id)
    ensures Stale(sys, step, id) ==> !Takes(sys, step, id)
  {
    hide RegisterFailure, CanClaim;
  }

  /** Before a row is inserted nothing reports on it. */
  lemma {:induction false} NothingStaleYet(steps: seq<Step>, id: Id)
    requires id !in Execution(steps).rows
    ensures !AnyStale(steps, id)
  {
    hide Next, Stale, AnyStale;
    if steps != [] {
      var n := |steps| - 1;
      var sys := Execution(steps[..n]);
      if id in sys.rows { RowsStay(sys, steps[n], id); }
      NothingStaleYet(steps[..n], id);
      AnyStaleGrows(steps, id);
      StaleIsKnown(sys, steps[n], id);
    } else {
      NoneStale(id);
    }
  }

  lemma StaleIsKnown(sys: System, step: Step, id: Id)
    ensures Stale(sys, step, id) ==> id in sys.rows
  {
    hide RegisterFailure;
  }

  lemma NoneStale(id: Id)
    ensures !AnyStale([], id)
  {
  }

  // Names apart --------------------------------------------------------------------------------------

  /** No call in progress uses the worker name of this claim. */
  ghost predicate NameFree(sys: System, step: Step)
  {
    step.Claim? ==> forall c :: c in sys.jobs ==> sys.jobs[c].worker != step.worker
  }

  ghost predicate FreeAt(steps: seq<Step>, k: nat)
    requires k < |steps|
  {
    NameFree(Execution(steps[..k]), steps[k])
  }

  ghost predicate NamesApart(steps: seq<Step>)
  {
    forall k :: 0 <= k < |steps| ==> FreeAt(steps, k)
  }

  lemma ApartBefore(steps: seq<Step>)
    requires NamesApart(steps) && steps != []
    ensures var n := |steps| - 1; NamesApart(steps[..n]) && NameFree(Execution(steps[..n]), steps[n])
  {
    hide Execution, NameFree;
    var n := |steps| - 1;
    assert FreeAt(steps, n);
    forall k | 0 <= k < n ensures FreeAt(steps[..n], k) {
      assert FreeAt(steps, k) && steps[..n][..k] == steps[..k];
    }
  }

  ghost predicate LastUnder(claims: seq<string>, worker: string, claim: nat)
  {
    forall k :: claim <= k < |claims| ==> claims[k] != worker
  }

  /** While a call is in progress no later claim of its rows is made under its name. */
  lemma {:induction false} LastUnderName(steps: seq<Step>, call: nat, i: nat)
    requires NamesApart(steps) && call in Execution(steps).jobs && i < |Execution(steps).jobs[call].batch|
    ensures var sys := Execution(steps); var job := sys.jobs[call]; var c := job.batch[i];
      c.id in sys.claims && LastUnder(sys.claims[c.id], job.worker, c.claim)
    decreases |steps|
  {
    hide Next, Inv, NamesApart, Takes, NameFree;
    var n := |steps| - 1;
    var sys := Execution(steps[..n]);
    var next := Execution(steps);
    var c := next.jobs[call].batch[i];
    ExecutionKeepsInv(steps[..n]);
    ApartBefore(steps);
    CopyOrigin(sys, steps[n], call, i);
    if !Held(sys, call, next.jobs[call].worker, i, c) {
      TakesKnown(sys, steps[n], c.id);
      ClaimsMove(sys, steps[n], c.id);
    } else {
      var j := if i < |sys.jobs[call].batch| && sys.jobs[call].batch[i] == c then i else i + 1;
      LastUnderName(steps[..n], call, j);
      CopyOfRow(sys, call, j);
      ClaimsMove(sys, steps[n], c.id);
      TakenUnderOther(sys, steps[n], c.id, call);
    }
  }

  lemma TakesKnown(sys: System, step: Step, id: Id)
    requires Takes(sys, step, id)
    ensures id in sys.rows && id in sys.claims
  {
  }

  lemma CopyOfRow(sys: System, call: nat, i: nat)
    requires Inv(sys) && call in sys.jobs && i < |sys.jobs[call].batch|
    ensures sys.jobs[call].batch[i].id in sys.rows
  {
    hide RowInv, CopyInv;
    assert JobInv(sys, sys.jobs[call]);
    assert Copied(sys, sys.jobs[call].worker, sys.jobs[call].batch[i]);
  }

  lemma TakenUnderOther(sys: System, step: Step, id: Id, call: nat)
    requires NameFree(sys, step) && call in sys.jobs
    ensures Takes(sys, step, id) ==> step.worker != sys.jobs[call].worker
  {
    hide CanClaim;
  }

  /** With the names apart, a report that changes a row is of the latest claim itself, and its copy is the row. */
  lemma ReportsAreOfLatestClaim(steps: seq<Step>, call: nat, at: Time, p: RetryPolicy, id: Id)
    requires NamesApart(steps) && id in Execution(steps).rows && Changes(Execution(steps), call, at, p, id)
    ensures var sys := Execution(steps);
      && Working(sys, call) && id in sys.claims
      && sys.jobs[call].batch[0] == Copy(id, sys.rows[id], |sys.claims[id]|)
  {
    hide Execution, Next, Inv, NamesApart;
    var sys := Execution(steps);
    ExecutionKeepsInv(steps);
    ReportComesUnderLatestName(sys, call, at, p, id);
    LastUnderName(steps, call, 0);
  }

  /** So attempts count claims in every run that keeps the names apart. */
  lemma {:induction false} ApartIsNeverStale(steps: seq<Step>, id: Id)
    requires NamesApart(steps)
    ensures !AnyStale(steps, id)
  {
    hide Next, Inv, NamesApart, Stale, AnyStale;
    if steps == [] {
      NoneStale(id);
    } else {
      var n := |steps| - 1;
      var sys := Execution(steps[..n]);
      ApartBefore(steps);
      ApartIsNeverStale(steps[..n], id);
      AnyStaleGrows(steps, id);
      ExecutionKeepsInv(steps[..n]);
      if Stale(sys, steps[n], id) {
        StaleIsKnown(sys, steps[n], id);
        StaleChanges(sys, steps[n], id);
        ReportsAreOfLatestClaim(steps[..n], steps[n].call, steps[n].at, steps[n].p, id);
        StaleIsOlder(sys, steps[n], id);
      }
    }
  }

  lemma StaleIsOlder(sys: System, step: Step, id: Id)
    requires Stale(sys, step, id)
    ensures step.Report? && Working(sys, step.call) && id in sys.claims && sys.jobs[step.call].batch[0].claim < |sys.claims[id]|
  {
    hide RegisterFailure;
  }

  // Beyond the maximum -------------------------------------------------------------------------------

  lemma FreedThenTaken(steps: seq<Step>, id: Id)
    requires steps != [] && FreedBefore(steps[..|steps| - 1], id) && TakenAt(steps, |steps| - 1, id)
    ensures Overran(steps, id)
  {
    hide FreedAtMaximum, TakenAt;
    var n := |steps| - 1;
    var i :| 0 <= i < n && FreedAtMaximum(steps[..n], i, id);
    PrefixEvents(steps, n, i, id);
  }

  lemma FreedLast(steps: seq<Step>, id: Id)
    requires steps != [] && FreedAtMaximum(steps, |steps| - 1, id)
    ensures FreedBefore(steps, id)
  {
  }

  /** How a row gets there: with its attempts used up it waits only after such a release, and passes the maximum only
      by a claim after one. */
  lemma {:induction false} OverrunHasCause(steps: seq<Step>, id: Id)
    requires id in Execution(steps).rows
    ensures var r := Execution(steps).rows[id];
      && (r.attempts > r.maxAttempts ==> Overran(steps, id))
      && (Waits(r) && r.attempts >= r.maxAttempts ==> FreedBefore(steps, id))
    decreases |steps|, 0
  {
    hide Next, Inv, FreedBefore, Overran, Takes, Frees, Stale;
    var n := |steps| - 1;
    var sys := Execution(steps[..n]);
    ExecutionKeepsInv(steps[..n]);
    PrefixHistory(steps, id);
    if id !in sys.rows {
      InsertedFresh(sys, steps[n], id);
    } else {
      OverrunHasCause(steps[..n], id);
      RowMoves(sys, steps[n], id);
      if Stale(sys, steps[n], id) {
        StaleIsOlder(sys, steps[n], id);
        StaleIsOf(sys, steps[n], id);
        CopyHasCause(steps[..n], steps[n].call, 0);
      } else {
        if Takes(sys, steps[n], id) && FreedBefore(steps[..n], id) {
          FreedThenTaken(steps, id);
        }
        if Frees(sys, steps[n], id) && sys.rows[id].attempts >= sys.rows[id].maxAttempts {
          FreedLast(steps, id);
        }
      }
    }
  }

  lemma StaleIsOf(sys: System, step: Step, id: Id)
    requires Stale(sys, step, id)
    ensures step.Report? && Working(sys, step.call) && sys.jobs[step.call].batch[0].id == id
  {
    hide RegisterFailure;
  }

  /** The same of the copies that calls hold. */
  lemma {:induction false} CopyHasCause(steps: seq<Step>, call: nat, i: nat)
    requires call in Execution(steps).jobs && i < |Execution(steps).jobs[call].batch|
    ensures var c := Execution(steps).jobs[call].batch[i];
      c.row.attempts > c.row.maxAttempts ==> Overran(steps, c.id)
    decreases |steps|, 1
  {
    hide Next, Inv, Overran, Takes;
    var n := |steps| - 1;
    var sys := Execution(steps[..n]);
    var c := Execution(steps).jobs[call].batch[i];
    CopyOrigin(sys, steps[n], call, i);
    PrefixHistory(steps, c.id);
    if Takes(sys, steps[n], c.id) && c.id in Execution(steps).rows && c.row == Execution(steps).rows[c.id] {
      OverrunHasCause(steps, c.id);
    } else {
      CopyHasCause(steps[..n], call, if i < |sys.jobs[call].batch| && sys.jobs[call].batch[i] == c then i else i + 1);
    }
  }

  lemma {:induction false} AttemptsGrow(steps: seq<Step>, more: seq<Step>, id: Id)
    requires id in Execution(steps).rows && !AnyStale(steps + more, id)
    ensures id in Execution(steps + more).rows
    ensures var a, b := Execution(steps).rows[id], Execution(steps + more).rows[id];
      a.attempts <= b.attempts && a.maxAttempts == b.maxAttempts
  {
    hide Next, Inv, Takes, Frees, Stale, AnyStale;
    if more == [] {
      assert steps + more == steps;
    } else {
      var n := |more| - 1;
      AnyStaleGrows(steps + more, id);
      assert (steps + more)[..|steps| + n] == steps + more[..n];
      AttemptsGrow(steps, more[..n], id);
      ExecutionKeepsInv(steps + more[..n]);
      RowMoves(Execution(steps + more[..n]), more[n], id);
    }
  }

  lemma NeverStaleBefore(steps: seq<Step>, n: nat, id: Id)
    requires n <= |steps| && !AnyStale(steps, id)
    ensures !AnyStale(steps[..n], id)
  {
    hide StaleAt;
    if AnyStale(steps[..n], id) {
      var i :| 0 <= i < n && StaleAt(steps[..n], i, id);
      PrefixEvents(steps, n, i, id);
    }
  }

  lemma AttemptsGrowAlong(steps: seq<Step>, i: nat, j: nat, id: Id)
    requires i <= j <= |steps| && id in Execution(steps[..i]).rows && !AnyStale(steps, id)
    ensures id in Execution(steps[..j]).rows
    ensures var a, b := Execution(steps[..i]).rows[id], Execution(steps[..j]).rows[id];
      a.attempts <= b.attempts && a.maxAttempts == b.maxAttempts
  {
    hide Execution, AnyStale;
    assert steps[..i] + steps[i..j] == steps[..j];
    NeverStaleBefore(steps, j, id);
    AttemptsGrow(steps[..i], steps[i..j], id);
  }

  lemma OverrunPasses(steps: seq<Step>, i: nat, j: nat, id: Id)
    requires i < j < |steps| && FreedAtMaximum(steps, i, id) && TakenAt(steps, j, id) && !AnyStale(steps, id)
    ensures id in Execution(steps).rows && Execution(steps).rows[id].attempts > Execution(steps).rows[id].maxAttempts
  {
    hide Next, Inv, Execution, CanClaim, AnyStale, Stale;
    AttemptsGrowAlong(steps, i, j, id);
    ExecutionKeepsInv(steps[..j]);
    RowMoves(Execution(steps[..j]), steps[j], id);
    StaleIsNoClaim(Execution(steps[..j]), steps[j], id);
    assert steps[..j] + [steps[j]] == steps[..j + 1];
    OneMoreStep(steps[..j], steps[j]);
    AttemptsGrowAlong(steps, j + 1, |steps|, id);
    assert steps[..|steps|] == steps;
  }

  /** In every run a row passes its maximum only if at some point a lock on it ran out with its attempts used up and it
      was claimed again later; and, unless a stale report took attempts back, that is exactly when. */
  lemma PassesMaximumExactly(steps: seq<Step>, id: Id)
    requires id in Execution(steps).rows
    ensures var r := Execution(steps).rows[id];
      && (r.attempts > r.maxAttempts ==> Overran(steps, id))
      && (!AnyStale(steps, id) ==> (r.attempts > r.maxAttempts <==> Overran(steps, id)))
  {
    hide Execution, FreedAtMaximum, TakenAt, AnyStale;
    OverrunHasCause(steps, id);
    if Overran(steps, id) && !AnyStale(steps, id) {
      var i, j :| 0 <= i < j < |steps| && FreedAtMaximum(steps, i, id) && TakenAt(steps, j, id);
      OverrunPasses(steps, i, j, id);
    }
  }

  lemma OneMoreStep(steps: seq<Step>, step: Step)
    ensures Execution(steps + [step]) == Next(Execution(steps), step)
  {
    hide Next;
    assert (steps + [step])[..|steps|] == steps;
  }

  // The runs that show it ----------------------------------------------------------------------------

  /** One attempt allowed, claimed, released, and claimed again by a second call. */
  function TwiceClaimed(second: string): seq<Step>
  {
    [Insert(1, 1), Claim(0, "w", [1], 5, 1), Release(6), Claim(1, second, [1], 6, 1)]
  }

  lemma TwiceClaimedSteps(second: string)
    ensures Execution(TwiceClaimed(second)) ==
      Next(Next(Next(Next(NOTHING, Insert(1, 1)), Claim(0, "w", [1], 5, 1)), Release(6)), Claim(1, second, [1], 6, 1))
  {
    hide Execution, Next;
    var inserted := [Insert(1, 1)];
    var claimed := inserted + [Claim(0, "w", [1], 5, 1)];
    var released := claimed + [Release(6)];
    NoSteps();
    assert [] + inserted == inserted;
    OneMoreStep([], Insert(1, 1));
    OneMoreStep(inserted, Claim(0, "w", [1], 5, 1));
    OneMoreStep(claimed, Release(6));
    OneMoreStep(released, Claim(1, second, [1], 6, 1));
    assert released + [Claim(1, second, [1], 6, 1)] == TwiceClaimed(second);
  }

  lemma NoSteps()
    ensures Execution([]) == NOTHING
  {
  }

  /** It ends beyond the maximum, whatever the name of the second call. */
  lemma AttemptsCanPassMaximum(second: string)
    requires second != "" && TrimSpace(second) == second
    ensures var sys := Execution(TwiceClaimed(second));
      1 in sys.rows && sys.rows[1].attempts == 2 && sys.rows[1].maxAttempts == 1
  {
    hide Execution, TrimSpace;
    TwiceClaimedState(second);
  }

  /** Both calls hold a copy, the first that of the first claim. */
  lemma TwiceClaimedState(second: string)
    requires second != "" && TrimSpace(second) == second
    ensures var sys := Execution(TwiceClaimed(second));
      && 1 in sys.rows && sys.rows[1].attempts == 2 && sys.rows[1].maxAttempts == 1
      && sys.rows[1].status == Publishing && sys.rows[1].lockOwner == second
      && 1 in sys.claims && sys.claims[1] == ["w", second]
      && sys.jobs.Keys == {0, 1} && sys.jobs[0].worker == "w" && sys.jobs[0].stage == Sending && sys.jobs[1].worker == second
      && |sys.jobs[0].batch| == 1
      && var c := sys.jobs[0].batch[0];
         && c.id == c.claim == c.row.attempts == c.row.maxAttempts == 1
         && c.row.status == Publishing && c.row.lockOwner == "w"
  {
    hide Execution, Next, TrimSpace;
    PlainWords();
    TwiceClaimedSteps(second);
    var inserted := Next(NOTHING, Insert(1, 1));
    var claimed := Next(inserted, Claim(0, "w", [1], 5, 1));
    OneInserted();
    OneClaimed(inserted, 0, "w", 5);
    OneReleased(claimed);
    OneClaimed(Next(claimed, Release(6)), 1, second, 6);
  }

  lemma OneInserted()
    ensures var next := Next(NOTHING, Insert(1, 1));
      next.rows == map[1 := NEW_ROW.(maxAttempts := 1)] && next.jobs == map[] && next.claims == map[1 := []]
  {
    hide TrimSpace;
    PlainWords();
  }

  lemma OneClaimed(sys: System, call: nat, worker: string, at: Time)
    requires 1 in sys.rows && 1 in sys.claims && Claimable(sys.rows[1], at) && call !in sys.jobs
    requires worker != "" && TrimSpace(worker) == worker && at != 0
    ensures var next := Next(sys, Claim(call, worker, [1], at, 1)); var claimed := Claimed(sys.rows[1], worker, at, 1);
      && 1 in next.rows && next.rows[1] == claimed && 1 in next.claims && next.claims[1] == sys.claims[1] + [worker]
      && next.jobs == sys.jobs[call := Job(worker, [Copy(1, claimed, |sys.claims[1]| + 1)], Sending)]
  {
    hide TrimSpace, Claimed, Claimable;
    assert CanClaim(sys, worker, [1], at, 1);
    var next := ClaimStep(sys, call, worker, [1], at, 1);
    assert next.jobs[call].batch == [Copy(1, next.rows[1], |sys.claims[1]| + 1)];
  }

  lemma OneReleased(sys: System)
    requires 1 in sys.rows && sys.rows[1].status == Publishing && sys.rows[1].lockUntil == Some(6)
    ensures var next := Next(sys, Release(6));
      && 1 in next.rows && next.jobs == sys.jobs && next.claims == sys.claims && Claimable(next.rows[1], 6)
      && next.rows[1].attempts == sys.rows[1].attempts && next.rows[1].maxAttempts == sys.rows[1].maxAttempts
  {
  }

  lemma PlainWords()
    ensures TrimSpace("") == "" && TrimSpace("w") == "w" && TrimSpace("x") == "x" && TrimSpace("w") != ""
  {
  }

  /** With one name for both calls, the failure of the first is accepted while the second holds the row: it is
      dead-lettered with one attempt counted of two, although it had passed its maximum, and the second call can no
      longer report it published. */
  lemma SharedNameMisreports(p: RetryPolicy)
    requires ValidPolicy(p)
    ensures var steps := TwiceClaimed("w") + [Send(0, false, "x"), Report(0, 7, p)]; var sys := Execution(steps);
      && !NamesApart(steps) && AnyStale(steps, 1) && Overran(steps, 1)
      && 1 in sys.rows && 1 in sys.claims && |sys.claims[1]| == 2
      && sys.rows[1].attempts == 1 == sys.rows[1].maxAttempts && sys.rows[1].status == DeadLettered
      && 1 in sys.jobs && sys.jobs[1].worker == "w" && !Owns(sys, "w", 1)
  {
    hide Execution, Next, TrimSpace, AnyStale, Overran, NamesApart, Claimed;
    var steps := TwiceClaimed("w") + [Send(0, false, "x"), Report(0, 7, p)];
    PlainWords();
    TwiceClaimedState("w");
    Passed();
    var four := Execution(TwiceClaimed("w"));
    var sent := Next(four, Send(0, false, "x"));
    OneMoreStep(TwiceClaimed("w"), Send(0, false, "x"));
    OneMoreStep(TwiceClaimed("w") + [Send(0, false, "x")], Report(0, 7, p));
    assert TwiceClaimed("w") + [Send(0, false, "x")] + [Report(0, 7, p)] == steps;
    FailureSent(four);
    FailureReported(sent, p);
    AttemptsCountClaimsExactly(steps, 1);
    if NamesApart(steps) { ApartIsNeverStale(steps, 1); }
    OverranStays(TwiceClaimed("w"), Send(0, false, "x"), 1);
    OverranStays(TwiceClaimed("w") + [Send(0, false, "x")], Report(0, 7, p), 1);
  }

  lemma Passed()
    ensures Overran(TwiceClaimed("w"), 1)
  {
    hide Execution, Overran, TrimSpace;
    PlainWords();
    AttemptsCanPassMaximum("w");
    PassesMaximumExactly(TwiceClaimed("w"), 1);
  }

  lemma OverranStays(steps: seq<Step>, step: Step, id: Id)
    requires Overran(steps, id)
    ensures Overran(steps + [step], id)
  {
    hide Overran;
    assert (steps + [step])[..|steps + [step]| - 1] == steps;
    PrefixHistory(steps + [step], id);
  }

  lemma FailureSent(sys: System)
    requires Working(sys, 0) && sys.jobs[0].stage == Sending
    ensures var next := Next(sys, Send(0, false, "x"));
      && next.rows == sys.rows && next.claims == sys.claims
      && next.jobs == sys.jobs[0 := sys.jobs[0].(stage := Failing("x"))]
  {
  }

  lemma FailureReported(sys: System, p: RetryPolicy)
    requires Working(sys, 0) && |sys.jobs[0].batch| == 1 && sys.jobs[0].stage == Failing("x") && ValidPolicy(p)
    requires sys.jobs[0].worker == "w" && Owns(sys, "w", 1)
    requires var c := sys.jobs[0].batch[0];
      c.id == 1 && c.row.status == Publishing && c.row.lockOwner == "w" && c.row.attempts == c.row.maxAttempts
    ensures var next := Next(sys, Report(0, 7, p)); var c := sys.jobs[0].batch[0];
      && next.claims == sys.claims && next.jobs == sys.jobs - {0}
      && 1 in next.rows && next.rows[1].status == DeadLettered && next.rows[1].attempts == c.row.attempts
      && next.rows[1].maxAttempts == sys.rows[1].maxAttempts
  {
    hide TrimSpace, Delay;
    PlainWords();
  }
}
