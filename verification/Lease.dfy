/**
  The lease protocol of the outbox. Publishers claim rows, hand them to the broker and
  report back; locks that run out are released by anybody. Each guarded UPDATE is one
  step. A call of PublishOnce works its batch to the end or gives it up; any number of
  calls are under way at once, and nothing keeps two of them from using one worker name.
 */
module Lease {
  import opened Prelude
  import opened Text
  import opened Outbox

  /** A claimed row as it was returned to the call. `claim` records which claim of the row it was; no step looks at it. */
  datatype Copy = Copy(id: Id, row: Row, claim: nat)

  datatype Stage = Sending | Marking | Failing(reason: string)

  /** The records still to be handled, under the worker name of the call; the stage is that of the first. */
  datatype Job = Job(worker: string, batch: seq<Copy>, stage: Stage)

  /** `claims`, `releases` and `delivered` record what happened; no step looks at them. */
  datatype System = System(
    rows: map<Id, Row>, jobs: map<nat, Job>,
    claims: map<Id, seq<string>>, releases: map<Id, nat>, delivered: set<Id>)

  datatype Step =
    | Insert(id: Id, maxAttempts: nat)
    | Claim(call: nat, worker: string, ids: seq<Id>, at: Time, duration: int)
    | Send(call: nat, accepted: bool, reason: string)
    | Lose(call: nat, reason: string)
    | Report(call: nat, at: Time, p: RetryPolicy)
    | Abandon(call: nat)
    | Release(at: Time)

  const NEW_ROW := Row(Pending, None, None, None, None, None, 0, DEFAULT_MAX_ATTEMPTS, "", "", None)

  predicate Claimable(r: Row, at: Time)
  {
    Ready(r, at) && (r.lockUntil.None? || r.lockUntil.value <= at)
  }

  predicate CanClaim(sys: System, worker: string, ids: seq<Id>, at: Time, duration: int)
  {
    && worker != "" && worker == TrimSpace(worker) && at != 0 && duration > 0
    && (forall i :: 0 <= i < |ids| ==> ids[i] in sys.rows && ids[i] in sys.claims && Claimable(sys.rows[ids[i]], at))
    && (forall i, j :: 0 <= i < j < |ids| ==> ids[i] != ids[j])
  }

  function ClaimStep(sys: System, call: nat, worker: string, ids: seq<Id>, at: Time, duration: int): System
    requires CanClaim(sys, worker, ids, at, duration)
  {
    var rows := map id | id in sys.rows :: if id in ids then Claimed(sys.rows[id], worker, at, duration) else sys.rows[id];
    var batch := seq(|ids|, i requires 0 <= i < |ids| => Copy(ids[i], rows[ids[i]], |sys.claims[ids[i]]| + 1));
    sys.(rows := rows, jobs := if ids == [] then sys.jobs else sys.jobs[call := Job(worker, batch, Sending)],
         claims := map id | id in sys.claims :: if id in ids then sys.claims[id] + [worker] else sys.claims[id])
  }

  predicate Working(sys: System, call: nat)
  {
    call in sys.jobs && sys.jobs[call].batch != []
  }

  function Quit(sys: System, call: nat): System
  {
    sys.(jobs := sys.jobs - {call})
  }

  /** The first record of the batch is done with. */
  function Advance(sys: System, call: nat): System
    requires Working(sys, call)
  {
    var job := sys.jobs[call];
    if job.batch[1..] == [] then Quit(sys, call) else sys.(jobs := sys.jobs[call := Job(job.worker, job.batch[1..], Sending)])
  }

  /** The guard of every report: the row is being published, under this worker name. */
  predicate Owns(sys: System, worker: string, id: Id)
  {
    id in sys.rows && sys.rows[id].status == Publishing && sys.rows[id].lockOwner == worker
  }

  /** The columns a failure report writes, taken from the call's copy. */
  function Persisted(r: Row, failed: Row): Row
  {
    r.(status := failed.status, nextAttemptAt := failed.nextAttemptAt, lastAttemptAt := failed.lastAttemptAt,
       deadLetteredAt := failed.deadLetteredAt, attempts := failed.attempts, lastError := failed.lastError,
       lockOwner := "", lockUntil := None)
  }

  function ReportStep(sys: System, call: nat, at: Time, p: RetryPolicy): System
    requires Working(sys, call)
  {
    var job := sys.jobs[call];
    var copy := job.batch[0];
    match job.stage
    case Sending => sys
    case Marking =>
      if copy.id == 0 || at == 0 || !Owns(sys, job.worker, copy.id) then Quit(sys, call)
      else Advance(sys.(rows := sys.rows[copy.id := Finished(sys.rows[copy.id], at)]), call)
    case Failing(reason) =>
      var (failed, err) := RegisterFailure(copy.row, job.worker, reason, at, p);
      if err.Some? || !Owns(sys, job.worker, copy.id) then Quit(sys, call)
      else Advance(sys.(rows := sys.rows[copy.id := Persisted(sys.rows[copy.id], failed)]), call)
  }

  function Released(r: Row, at: Time): Row
  {
    if r.status == Publishing && r.lockUntil.Some? && r.lockUntil.value <= at
    then r.(status := RetryScheduled, nextAttemptAt := Some(at), lockOwner := "", lockUntil := None) else r
  }

  function ReleaseStep(sys: System, at: Time): System
  {
    if at == 0 then sys
    else
      sys.(rows := map id | id in sys.rows :: Released(sys.rows[id], at),
           releases := map id | id in sys.releases ::
             sys.releases[id] + if id in sys.rows && Released(sys.rows[id], at) != sys.rows[id] then 1 else 0)
  }

  function Next(sys: System, step: Step): System
  {
    match step
    case Insert(id, max) =>
      if id == 0 || id in sys.rows then sys
      else
        System(sys.rows[id := Normalize(NEW_ROW.(maxAttempts := max))], sys.jobs,
               sys.claims[id := []], sys.releases[id := 0], sys.delivered)
    case Claim(call, worker, ids, at, duration) =>
      if call !in sys.jobs && CanClaim(sys, worker, ids, at, duration) then ClaimStep(sys, call, worker, ids, at, duration) else sys
    case Send(call, accepted, reason) =>
      if !Working(sys, call) || sys.jobs[call].stage != Sending then sys
      else
        var job := sys.jobs[call].(stage := if accepted then Marking else Failing(reason));
        sys.(jobs := sys.jobs[call := job], delivered := sys.delivered + if accepted then {job.batch[0].id} else {})
    case Lose(call, reason) =>
      // The broker took the message, but the call is told it failed.
      if !Working(sys, call) || sys.jobs[call].stage != Sending then sys
      else
        sys.(jobs := sys.jobs[call := sys.jobs[call].(stage := Failing(reason))],
             delivered := sys.delivered + {sys.jobs[call].batch[0].id})
    case Report(call, at, p) => if Working(sys, call) then ReportStep(sys, call, at, p) else sys
    case Abandon(call) => Quit(sys, call)
    case Release(at) => ReleaseStep(sys, at)
  }

  const NOTHING := System(map[], map[], map[], map[], {})

  function Execution(steps: seq<Step>): System
  {
    if steps == [] then NOTHING else Next(Execution(steps[..|steps| - 1]), steps[|steps| - 1])
  }

  // What holds in every reachable state --------------------------------------------------------------

  /** A row in PUBLISHING has an owner, the name of its latest claim, and no other row has one. Attempts are at most
      the claims, and pass the maximum only through released locks. */
  ghost predicate RowInv(r: Row, claims: seq<string>, releases: nat, delivered: bool)
  {
    && r.attempts <= |claims| && r.maxAttempts > 0 && Trimmed(r.lastError)
    && (if r.status == Publishing then claims != [] && r.lockOwner == claims[|claims| - 1] != "" && r.lockUntil.Some?
        else r.lockOwner == "" && r.lockUntil.None?)
    && (r.status == Published ==> delivered)
    && r.status != Unset
    && r.attempts <= r.maxAttempts + releases
    && (r.status == Pending || r.status == RetryScheduled ==> r.attempts < r.maxAttempts + releases)
    && (r.status == DeadLettered ==> r.attempts >= r.maxAttempts)
  }

  /** The copy is of a claim made under this name. As long as that claim is the latest and stands, it is the row. */
  ghost predicate CopyInv(r: Row, claims: seq<string>, releases: nat, worker: string, c: Copy)
  {
    && c.row.lockOwner == worker && c.row.status == Publishing && c.row.maxAttempts == r.maxAttempts
    && 1 <= c.claim <= |claims| && claims[c.claim - 1] == worker
    && c.row.attempts <= c.claim && c.row.attempts <= c.row.maxAttempts + releases
    && (c.claim == |claims| && r.status == Publishing ==> c.row == r)
  }

  ghost predicate Copied(sys: System, worker: string, c: Copy)
  {
    && c.id in sys.rows && c.id in sys.claims && c.id in sys.releases
    && CopyInv(sys.rows[c.id], sys.claims[c.id], sys.releases[c.id], worker, c)
  }

  ghost predicate JobInv(sys: System, job: Job)
  {
    && job.worker != "" && job.worker == TrimSpace(job.worker) && job.batch != []
    && (forall i :: 0 <= i < |job.batch| ==> Copied(sys, job.worker, job.batch[i]))
    && (job.stage == Marking ==> job.batch[0].id in sys.delivered)
  }

  ghost predicate Inv(sys: System)
  {
    && sys.claims.Keys == sys.rows.Keys && sys.releases.Keys == sys.rows.Keys
    && (forall id :: id in sys.rows ==> RowInv(sys.rows[id], sys.claims[id], sys.releases[id], id in sys.delivered))
    && (forall c :: c in sys.jobs ==> JobInv(sys, sys.jobs[c]))
  }

  lemma JobFrame(before: System, after: System, job: Job)
    requires JobInv(before, job) && before.delivered <= after.delivered
    requires forall i :: 0 <= i < |job.batch| ==> Copied(after, job.worker, job.batch[i])
    ensures JobInv(after, job)
  {
    hide Copied;
  }

  lemma InsertKeepsJob(sys: System, id: Id, max: nat, job: Job)
    requires id != 0 && id !in sys.rows && JobInv(sys, job)
    ensures JobInv(Next(sys, Insert(id, max)), job)
  {
    hide TrimSpace, Normalize, CopyInv;
    var next := Next(sys, Insert(id, max));
    forall i | 0 <= i < |job.batch| ensures Copied(next, job.worker, job.batch[i]) {
      assert Copied(sys, job.worker, job.batch[i]);
    }
  }

  lemma NewRow(max: nat, delivered: bool)
    ensures RowInv(Normalize(NEW_ROW.(maxAttempts := max)), [], 0, delivered)
  {
    assert TrimSpace("") == "";
  }

  lemma InsertKeepsInv(sys: System, id: Id, max: nat)
    requires Inv(sys) && id != 0 && id !in sys.rows
    ensures Inv(Next(sys, Insert(id, max)))
  {
    hide RowInv, JobInv, Normalize;
    var next := Next(sys, Insert(id, max));
    NewRow(max, id in sys.delivered);
    forall c | c in next.jobs ensures JobInv(next, next.jobs[c]) {
      InsertKeepsJob(sys, id, max, sys.jobs[c]);
    }
  }

  lemma ClaimedRow(r: Row, claims: seq<string>, releases: nat, delivered: bool, worker: string, at: Time, duration: int)
    requires RowInv(r, claims, releases, delivered) && Claimable(r, at) && worker != ""
    ensures RowInv(Claimed(r, worker, at, duration), claims + [worker], releases, delivered)
  {
  }

  lemma NewCopy(r: Row, claims: seq<string>, releases: nat, delivered: bool, worker: string, at: Time, duration: int, id: Id)
    requires RowInv(r, claims, releases, delivered) && Claimable(r, at) && worker != ""
    ensures var claimed := Claimed(r, worker, at, duration);
      CopyInv(claimed, claims + [worker], releases, worker, Copy(id, claimed, |claims| + 1))
  {
  }

  /** A copy of an earlier claim stays one. */
  lemma ClaimedCopy(r: Row, claims: seq<string>, releases: nat, w: string, c: Copy, worker: string, at: Time, duration: int)
    requires CopyInv(r, claims, releases, w, c)
    ensures CopyInv(Claimed(r, worker, at, duration), claims + [worker], releases, w, c)
  {
  }

  lemma OwnJob(sys: System, call: nat, worker: string, ids: seq<Id>, at: Time, duration: int)
    requires Inv(sys) && CanClaim(sys, worker, ids, at, duration) && ids != []
    ensures var next := ClaimStep(sys, call, worker, ids, at, duration); call in next.jobs && JobInv(next, next.jobs[call])
  {
    hide TrimSpace, Claimable, RowInv, CopyInv, Claimed, JobInv;
    var next := ClaimStep(sys, call, worker, ids, at, duration);
    var job := next.jobs[call];
    forall i | 0 <= i < |job.batch| ensures Copied(next, job.worker, job.batch[i]) {
      var id := ids[i];
      assert job.batch[i] == Copy(id, next.rows[id], |sys.claims[id]| + 1) && id in ids;
      NewCopy(sys.rows[id], sys.claims[id], sys.releases[id], id in sys.delivered, worker, at, duration, id);
    }
    JobMade(next, job);
  }

  lemma JobMade(sys: System, job: Job)
    requires job.worker != "" && job.worker == TrimSpace(job.worker) && job.batch != [] && job.stage == Sending
    requires forall i :: 0 <= i < |job.batch| ==> Copied(sys, job.worker, job.batch[i])
    ensures JobInv(sys, job)
  {
    hide TrimSpace, Copied;
  }

  lemma OtherJob(sys: System, call: nat, worker: string, ids: seq<Id>, at: Time, duration: int, job: Job)
    requires CanClaim(sys, worker, ids, at, duration) && JobInv(sys, job)
    ensures JobInv(ClaimStep(sys, call, worker, ids, at, duration), job)
  {
    hide TrimSpace, Claimable, CopyInv, Claimed;
    var next := ClaimStep(sys, call, worker, ids, at, duration);
    forall i | 0 <= i < |job.batch| ensures Copied(next, job.worker, job.batch[i]) {
      var c := job.batch[i];
      assert Copied(sys, job.worker, c);
      ClaimedCopy(sys.rows[c.id], sys.claims[c.id], sys.releases[c.id], job.worker, c, worker, at, duration);
    }
    JobFrame(sys, next, job);
  }

  lemma ClaimKeepsInv(sys: System, call: nat, worker: string, ids: seq<Id>, at: Time, duration: int)
    requires Inv(sys) && CanClaim(sys, worker, ids, at, duration)
    ensures Inv(ClaimStep(sys, call, worker, ids, at, duration))
  {
    hide TrimSpace, JobInv, RowInv, Claimed, Claimable, CopyInv;
    var next := ClaimStep(sys, call, worker, ids, at, duration);
    assert next.claims.Keys == sys.claims.Keys;
    forall id | id in next.rows ensures RowInv(next.rows[id], next.claims[id], next.releases[id], id in next.delivered) {
      if id in ids {
        ClaimedRow(sys.rows[id], sys.claims[id], sys.releases[id], id in sys.delivered, worker, at, duration);
      }
    }
    forall c | c in next.jobs ensures JobInv(next, next.jobs[c]) {
      if c == call && ids != [] {
        OwnJob(sys, call, worker, ids, at, duration);
      } else {
        OtherJob(sys, call, worker, ids, at, duration, sys.jobs[c]);
      }
    }
  }

  lemma QuitKeepsInv(sys: System, call: nat)
    requires Inv(sys)
    ensures Inv(Quit(sys, call))
  {
    hide RowInv, TrimSpace, CopyInv;
    var next := Quit(sys, call);
    forall c | c in next.jobs ensures JobInv(next, next.jobs[c]) {
      assert JobInv(sys, sys.jobs[c]);
      assert forall i :: 0 <= i < |sys.jobs[c].batch| ==> Copied(sys, sys.jobs[c].worker, sys.jobs[c].batch[i]);
    }
  }

  lemma AdvanceKeepsInv(sys: System, call: nat)
    requires Inv(sys) && Working(sys, call)
    ensures Inv(Advance(sys, call))
  {
    hide RowInv, TrimSpace, CopyInv;
    QuitKeepsInv(sys, call);
    var next := Advance(sys, call);
    if |sys.jobs[call].batch| > 1 {
      var job := sys.jobs[call];
      assert JobInv(sys, job);
      forall i | 0 <= i < |job.batch[1..]| ensures Copied(next, job.worker, job.batch[1..][i]) {
        assert Copied(sys, job.worker, job.batch[i + 1]);
      }
      JobMade(next, Job(job.worker, job.batch[1..], Sending));
      forall c | c in next.jobs && c != call ensures JobInv(next, next.jobs[c]) {
        assert JobInv(sys, sys.jobs[c]);
        assert forall i :: 0 <= i < |sys.jobs[c].batch| ==> Copied(sys, sys.jobs[c].worker, sys.jobs[c].batch[i]);
      }
    }
  }

  /** Writing a row that is no longer being published keeps every copy. */
  lemma WriteKeepsInv(sys: System, id: Id, r: Row)
    requires Inv(sys) && id in sys.rows && RowInv(r, sys.claims[id], sys.releases[id], id in sys.delivered)
    requires r.status != Publishing && r.maxAttempts == sys.rows[id].maxAttempts
    ensures Inv(sys.(rows := sys.rows[id := r]))
  {
    hide RowInv, TrimSpace;
    var next := sys.(rows := sys.rows[id := r]);
    forall c | c in next.jobs ensures JobInv(next, next.jobs[c]) {
      var job := sys.jobs[c];
      assert JobInv(sys, job);
      forall i | 0 <= i < |job.batch| ensures Copied(next, job.worker, job.batch[i]) {
        assert Copied(sys, job.worker, job.batch[i]);
      }
      JobFrame(sys, next, job);
    }
  }

  lemma FinishedRow(r: Row, claims: seq<string>, releases: nat, at: Time)
    requires RowInv(r, claims, releases, true)
    ensures RowInv(Finished(r, at), claims, releases, true)
  {
  }

  lemma FailedRow(r: Row, claims: seq<string>, releases: nat, delivered: bool, worker: string, c: Copy, reason: string, at: Time, p: RetryPolicy)
    requires RowInv(r, claims, releases, delivered) && CopyInv(r, claims, releases, worker, c)
    requires RegisterFailure(c.row, worker, reason, at, p).1.None?
    ensures var n := Persisted(r, RegisterFailure(c.row, worker, reason, at, p).0);
      && RowInv(n, claims, releases, delivered) && n.attempts == c.row.attempts && n.maxAttempts == r.maxAttempts
      && (if n.attempts >= n.maxAttempts then n.status == DeadLettered else n.status == RetryScheduled)
  {
    hide TrimSpace, Delay;
  }

  lemma ReportKeepsInv(sys: System, call: nat, at: Time, p: RetryPolicy)
    requires Inv(sys) && Working(sys, call)
    ensures Inv(ReportStep(sys, call, at, p))
  {
    hide RowInv, CopyInv, RegisterFailure, Finished, Persisted, Advance;
    var job := sys.jobs[call];
    var copy := job.batch[0];
    assert JobInv(sys, job) && Copied(sys, job.worker, copy);
    var id := copy.id;
    QuitKeepsInv(sys, call);
    match job.stage
    case Sending =>
    case Marking =>
      FinishedIsPublished(sys.rows[id], at);
      FinishedRow(sys.rows[id], sys.claims[id], sys.releases[id], at);
      WriteKeepsInv(sys, id, Finished(sys.rows[id], at));
      AdvanceKeepsInv(sys.(rows := sys.rows[id := Finished(sys.rows[id], at)]), call);
    case Failing(reason) =>
      var (failed, err) := RegisterFailure(copy.row, job.worker, reason, at, p);
      if err.None? {
        FailedRow(sys.rows[id], sys.claims[id], sys.releases[id], id in sys.delivered, job.worker, copy, reason, at, p);
        WriteKeepsInv(sys, id, Persisted(sys.rows[id], failed));
        AdvanceKeepsInv(sys.(rows := sys.rows[id := Persisted(sys.rows[id], failed)]), call);
      }
  }

  lemma FinishedIsPublished(r: Row, at: Time)
    ensures Finished(r, at).status == Published && Finished(r, at).maxAttempts == r.maxAttempts && Finished(r, at).attempts == r.attempts
  {
  }

  lemma DeliveredRow(r: Row, claims: seq<string>, releases: nat, delivered: bool)
    requires RowInv(r, claims, releases, delivered)
    ensures RowInv(r, claims, releases, true)
  {
  }

  lemma StageKeepsInv(sys: System, call: nat, stage: Stage, more: set<Id>)
    requires Inv(sys) && Working(sys, call)
    requires stage == Marking ==> sys.jobs[call].batch[0].id in sys.delivered + more
    ensures Inv(sys.(jobs := sys.jobs[call := sys.jobs[call].(stage := stage)], delivered := sys.delivered + more))
  {
    hide TrimSpace, RowInv, CopyInv;
    var next := sys.(jobs := sys.jobs[call := sys.jobs[call].(stage := stage)], delivered := sys.delivered + more);
    forall id | id in next.rows ensures RowInv(next.rows[id], next.claims[id], next.releases[id], id in next.delivered) {
      DeliveredRow(sys.rows[id], sys.claims[id], sys.releases[id], id in sys.delivered);
    }
    forall c | c in next.jobs ensures JobInv(next, next.jobs[c]) {
      var job := sys.jobs[c];
      assert JobInv(sys, job);
      forall i | 0 <= i < |job.batch| ensures Copied(next, job.worker, job.batch[i]) {
        assert Copied(sys, job.worker, job.batch[i]);
      }
    }
  }

  lemma ReleasedRow(r: Row, claims: seq<string>, releases: nat, delivered: bool, at: Time)
    requires RowInv(r, claims, releases, delivered)
    ensures RowInv(Released(r, at), claims, releases + if Released(r, at) != r then 1 else 0, delivered)
  {
  }

  lemma ReleasedCopy(r: Row, claims: seq<string>, releases: nat, worker: string, c: Copy, at: Time)
    requires CopyInv(r, claims, releases, worker, c)
    ensures CopyInv(Released(r, at), claims, releases + if Released(r, at) != r then 1 else 0, worker, c)
  {
  }

  lemma ReleaseKeepsInv(sys: System, at: Time)
    requires Inv(sys) && at != 0
    ensures Inv(ReleaseStep(sys, at))
  {
    hide TrimSpace, RowInv, CopyInv, Released;
    var next := ReleaseStep(sys, at);
    assert next.releases.Keys == sys.releases.Keys && next.rows.Keys == sys.rows.Keys;
    forall id | id in next.rows ensures RowInv(next.rows[id], next.claims[id], next.releases[id], id in next.delivered) {
      ReleasedRow(sys.rows[id], sys.claims[id], sys.releases[id], id in sys.delivered, at);
    }
    forall k | k in next.jobs ensures JobInv(next, next.jobs[k]) {
      var job := sys.jobs[k];
      assert JobInv(sys, job);
      forall i | 0 <= i < |job.batch| ensures Copied(next, job.worker, job.batch[i]) {
        var c := job.batch[i];
        assert Copied(sys, job.worker, c);
        ReleasedCopy(sys.rows[c.id], sys.claims[c.id], sys.releases[c.id], job.worker, c, at);
      }
    }
  }

  lemma NextKeepsInv(sys: System, step: Step)
    requires Inv(sys)
    ensures Inv(Next(sys, step))
  {
    hide Inv, CanClaim, ClaimStep, ReportStep, ReleaseStep;
    match step
    case Insert(id, max) => if id != 0 && id !in sys.rows { InsertKeepsInv(sys, id, max); }
    case Claim(call, worker, ids, at, duration) =>
      if CanClaim(sys, worker, ids, at, duration) { ClaimKeepsInv(sys, call, worker, ids, at, duration); }
    case Send(call, accepted, reason) =>
      if Working(sys, call) {
        StageKeepsInv(sys, call, if accepted then Marking else Failing(reason), if accepted then {sys.jobs[call].batch[0].id} else {});
      }
    case Lose(call, reason) =>
      if Working(sys, call) { StageKeepsInv(sys, call, Failing(reason), {sys.jobs[call].batch[0].id}); }
    case Report(call, at, p) => if Working(sys, call) { ReportKeepsInv(sys, call, at, p); }
    case Abandon(call) => QuitKeepsInv(sys, call);
    case Release(at) => if at != 0 { ReleaseKeepsInv(sys, at); } else { ReleaseAtZero(sys); }
  }

  lemma ReleaseAtZero(sys: System)
    ensures ReleaseStep(sys, 0) == sys
  {
  }

  lemma {:induction false} ExecutionKeepsInv(steps: seq<Step>)
    ensures Inv(Execution(steps))
  {
    hide Inv, Next;
    if steps == [] {
      NothingIsFine();
    } else {
      var n := |steps| - 1;
      var before := Execution(steps[..n]);
      ExecutionKeepsInv(steps[..n]);
      NextKeepsInv(before, steps[n]);
    }
  }

  lemma NothingIsFine()
    ensures Inv(NOTHING)
  {
  }

  // The theorems --------------------------------------------------------------------------------

  /** In every reachable state, shared worker names or not: PUBLISHING exactly when there is an owner, the name of the
      latest claim; attempts are at most the claims, and exceed the maximum by no more than the released locks; what is
      published was delivered; what is dead-lettered had its attempts used up. */
  lemma LeaseSafety(steps: seq<Step>, id: Id)
    requires id in Execution(steps).rows
    ensures var sys := Execution(steps); var r := sys.rows[id];
      && id in sys.claims && id in sys.releases
      && (r.status == Publishing <==> r.lockOwner != "")
      && (r.status == Publishing ==> sys.claims[id] != [] && r.lockOwner == sys.claims[id][|sys.claims[id]| - 1])
      && r.attempts <= |sys.claims[id]| && r.attempts <= r.maxAttempts + sys.releases[id]
      && (r.status == Published ==> id in sys.delivered)
      && (r.status == DeadLettered ==> r.attempts >= r.maxAttempts)
  {
    hide Execution;
    ExecutionKeepsInv(steps);
    var sys := Execution(steps);
    assert RowInv(sys.rows[id], sys.claims[id], sys.releases[id], id in sys.delivered);
  }

  /** PUBLISHED and DEAD_LETTERED rows never change again. */
  lemma {:induction false} TerminalRowsStay(steps: seq<Step>, more: seq<Step>, id: Id)
    requires id in Execution(steps).rows && Execution(steps).rows[id].status.Terminal()
    ensures id in Execution(steps + more).rows && Execution(steps + more).rows[id] == Execution(steps).rows[id]
  {
    hide Next;
    if more == [] {
      assert steps + more == steps;
    } else {
      var n := |more| - 1;
      assert (steps + more)[..|steps| + n] == steps + more[..n];
      TerminalRowsStay(steps, more[..n], id);
      TerminalStep(Execution(steps + more[..n]), more[n], id);
    }
  }

  lemma TerminalStep(sys: System, step: Step, id: Id)
    requires id in sys.rows && sys.rows[id].status.Terminal()
    ensures id in Next(sys, step).rows && Next(sys, step).rows[id] == sys.rows[id]
  {
    hide TrimSpace, RegisterFailure, Claimed;
    if step.Claim? {
      TerminalIsNotClaimed(sys, step, id);
    }
  }

  lemma TerminalIsNotClaimed(sys: System, step: Step, id: Id)
    requires step.Claim? && id in sys.rows && sys.rows[id].status.Terminal()
    ensures CanClaim(sys, step.worker, step.ids, step.at, step.duration) ==> id !in step.ids
  {
    hide TrimSpace;
    if CanClaim(sys, step.worker, step.ids, step.at, step.duration) {
      forall i | 0 <= i < |step.ids| ensures step.ids[i] != id {
        assert Claimable(sys.rows[step.ids[i]], step.at);
      }
    }
  }

  /** A report that changes a row comes from a call under the name of the latest claim, while its lock stands; it
      publishes exactly what the broker accepted, and dead-letters exactly on failure with the attempts of its own
      copy used up. */
  lemma ReportsComeUnderLatestName(steps: seq<Step>, call: nat, at: Time, p: RetryPolicy, id: Id)
    requires var sys := Execution(steps); id in sys.rows && Changes(sys, call, at, p, id)
    ensures var sys := Execution(steps); ReportedAs(sys, call, Next(sys, Report(call, at, p)).rows[id], id)
  {
    hide Execution, Inv, Next, ReportedAs;
    ExecutionKeepsInv(steps);
    ReportComesUnderLatestName(Execution(steps), call, at, p, id);
  }

  predicate Changes(sys: System, call: nat, at: Time, p: RetryPolicy, id: Id)
    requires id in sys.rows
  {
    var next := Next(sys, Report(call, at, p));
    id in next.rows && next.rows[id] != sys.rows[id]
  }

  ghost predicate ReportedAs(sys: System, call: nat, after: Row, id: Id)
  {
    && Working(sys, call) && id in sys.rows && id in sys.claims
    && var job, r := sys.jobs[call], sys.rows[id];
       && job.batch[0].id == id && r.status == Publishing && sys.claims[id] != []
       && sys.claims[id][|sys.claims[id]| - 1] == r.lockOwner == job.worker
       && 1 <= job.batch[0].claim <= |sys.claims[id]| && sys.claims[id][job.batch[0].claim - 1] == job.worker
       && after.maxAttempts == r.maxAttempts
       && (after.status == Published <==> job.stage == Marking)
       && (after.status == DeadLettered <==> job.stage.Failing? && after.attempts >= after.maxAttempts)
       && (after.status.Terminal() || after.status == RetryScheduled)
       && after.attempts == (if job.stage.Failing? then job.batch[0].row.attempts else r.attempts)
       && (job.batch[0].claim == |sys.claims[id]| ==> job.batch[0].row == r)
       && job.batch[0].row.attempts <= job.batch[0].claim && job.batch[0].row.maxAttempts == r.maxAttempts
  }

  lemma ReportComesUnderLatestName(sys: System, call: nat, at: Time, p: RetryPolicy, id: Id)
    requires Inv(sys) && id in sys.rows && Changes(sys, call, at, p, id)
    ensures ReportedAs(sys, call, Next(sys, Report(call, at, p)).rows[id], id)
  {
    hide TrimSpace, RegisterFailure, RowInv, Finished, Persisted, CopyInv;
    var job := sys.jobs[call];
    var copy := job.batch[0];
    assert JobInv(sys, job) && Copied(sys, job.worker, copy);
    assert copy.id == id && Owns(sys, job.worker, id);
    CopyFacts(sys.rows[id], sys.claims[id], sys.releases[id], job.worker, copy);
    OwnedRow(sys, job.worker, id);
    FinishedIsPublished(sys.rows[id], at);
    if job.stage.Failing? {
      FailedRow(sys.rows[id], sys.claims[id], sys.releases[id], id in sys.delivered, job.worker, copy, job.stage.reason, at, p);
    }
  }

  lemma CopyFacts(r: Row, claims: seq<string>, releases: nat, worker: string, c: Copy)
    requires CopyInv(r, claims, releases, worker, c)
    ensures 1 <= c.claim <= |claims| && claims[c.claim - 1] == worker && c.row.attempts <= c.claim
    ensures c.row.maxAttempts == r.maxAttempts
    ensures c.claim == |claims| && r.status == Publishing ==> c.row == r
  {
  }

  lemma OwnedRow(sys: System, worker: string, id: Id)
    requires Inv(sys) && Owns(sys, worker, id)
    ensures id in sys.claims && sys.claims[id] != [] && sys.claims[id][|sys.claims[id]| - 1] == worker
  {
    hide JobInv;
    assert RowInv(sys.rows[id], sys.claims[id], sys.releases[id], id in sys.delivered);
  }

  lemma {:induction false} NoNilRow(steps: seq<Step>)
    ensures 0 !in Execution(steps).rows
  {
    hide Next;
    if steps != [] {
      NoNilRow(steps[..|steps| - 1]);
      NextKeepsNil(Execution(steps[..|steps| - 1]), steps[|steps| - 1]);
    }
  }

  lemma NextKeepsNil(sys: System, step: Step)
    requires 0 !in sys.rows
    ensures 0 !in Next(sys, step).rows
  {
    hide RegisterFailure, CanClaim, TrimSpace;
  }

  /** In every run a report changes a row exactly if it is about the first record of the call, under the name that holds
      the row, dated, and the broker either took the message or failed for a reason, with a policy that makes sense. */
  lemma ReportsExactly(steps: seq<Step>, call: nat, at: Time, p: RetryPolicy, id: Id)
    requires id in Execution(steps).rows
    ensures var sys := Execution(steps);
      Changes(sys, call, at, p, id) <==>
        && Working(sys, call) && at != 0
        && var job, r := sys.jobs[call], sys.rows[id];
           && job.batch[0].id == id && r.status == Publishing && r.lockOwner == job.worker
           && (job.stage == Marking || (job.stage.Failing? && TrimSpace(job.stage.reason) != "" && ValidPolicy(p)))
  {
    hide Execution, RowInv, TrimSpace, Finished, Persisted, RegisterFailure, ValidPolicy, Changes;
    var sys := Execution(steps);
    ExecutionKeepsInv(steps);
    NoNilRow(steps);
    if Working(sys, call) {
      var job := sys.jobs[call];
      assert JobInv(sys, job) && Copied(sys, job.worker, job.batch[0]);
      if job.stage.Failing? {
        FailureTaken(sys.rows[job.batch[0].id], sys.claims[job.batch[0].id], sys.releases[job.batch[0].id], job, at, p);
      }
    }
    ReportWrites(sys, call, at, p, id);
  }

  lemma FailureTaken(r: Row, claims: seq<string>, releases: nat, job: Job, at: Time, p: RetryPolicy)
    requires job.batch != [] && job.stage.Failing? && CopyInv(r, claims, releases, job.worker, job.batch[0]) && job.worker == TrimSpace(job.worker)
    ensures var (failed, err) := RegisterFailure(job.batch[0].row, job.worker, job.stage.reason, at, p);
      && (err.None? <==> at != 0 && TrimSpace(job.stage.reason) != "" && ValidPolicy(p))
      && (err.None? ==> failed.status != Publishing)
  {
    hide TrimSpace, Delay;
  }

  /** A report writes exactly if its guard and, of a failure, the record itself allow it. */
  lemma ReportWrites(sys: System, call: nat, at: Time, p: RetryPolicy, id: Id)
    requires id in sys.rows && 0 !in sys.rows
    requires Working(sys, call) && sys.jobs[call].stage.Failing? ==>
      var r := RegisterFailure(sys.jobs[call].batch[0].row, sys.jobs[call].worker, sys.jobs[call].stage.reason, at, p);
      r.1.None? ==> r.0.status != Publishing
    ensures Changes(sys, call, at, p, id) <==>
      && Working(sys, call)
      && var job := sys.jobs[call];
         && job.batch[0].id == id && Owns(sys, job.worker, id)
         && match job.stage
            case Sending => false
            case Marking => at != 0
            case Failing(reason) => RegisterFailure(job.batch[0].row, job.worker, reason, at, p).1.None?
  {
    hide RegisterFailure;
  }

  /** What the broker said about a record stands until the call reports it or gives up. */
  lemma AnswerStands(sys: System, step: Step, call: nat)
    requires call in sys.jobs && sys.jobs[call].stage != Sending && step != Abandon(call) && !(step.Report? && step.call == call)
    ensures call in Next(sys, step).jobs && Next(sys, step).jobs[call] == sys.jobs[call]
  {
    hide RegisterFailure, CanClaim, TrimSpace, Persisted, Finished, Owns;
  }

  /** The statement that claims rows does to each what starting the record does. */
  lemma ClaimIsStart(steps: seq<Step>, call: nat, worker: string, ids: seq<Id>, at: Time, duration: int, id: Id)
    requires call !in Execution(steps).jobs && CanClaim(Execution(steps), worker, ids, at, duration) && id in ids
    ensures var sys := Execution(steps); var next := Next(sys, Claim(call, worker, ids, at, duration));
      id in sys.rows && id in next.rows && StartPublishing(sys.rows[id], worker, at, duration) == (next.rows[id], None)
  {
    hide Execution, TrimSpace, JobInv;
    ExecutionKeepsInv(steps);
    var sys := Execution(steps);
    var i :| 0 <= i < |ids| && ids[i] == id;
    assert Claimable(sys.rows[id], at);
    assert RowInv(sys.rows[id], sys.claims[id], sys.releases[id], id in sys.delivered);
    NothingToTrim();
  }

  /** In every run a row that waits is unlocked: it can be claimed exactly if it is new, or its next attempt is due. */
  lemma ClaimableExactly(steps: seq<Step>, id: Id, at: Time)
    requires id in Execution(steps).rows
    ensures var r := Execution(steps).rows[id];
      Claimable(r, at) <==> r.status == Pending || (r.status == RetryScheduled && r.nextAttemptAt.Some? && r.nextAttemptAt.value <= at)
  {
    hide Execution, JobInv;
    ExecutionKeepsInv(steps);
    var sys := Execution(steps);
    assert RowInv(sys.rows[id], sys.claims[id], sys.releases[id], id in sys.delivered);
  }

  lemma NothingToTrim()
    ensures TrimSpace("") == ""
  {
  }

  /** In every run the guard of the statement that marks a row accepts exactly the reports the record itself would,
      and writes what the record would. */
  lemma GuardIsRecordsOwn(steps: seq<Step>, worker: string, at: Time, id: Id)
    requires id in Execution(steps).rows && worker != "" && worker == TrimSpace(worker)
    ensures var sys := Execution(steps); var r := MarkPublished(sys.rows[id], worker, at);
      && (r.1.None? <==> at != 0 && Owns(sys, worker, id))
      && (r.1.None? ==>
            && r.0 == Finished(sys.rows[id], at) && r.0.status == Published
            && id in sys.claims && sys.claims[id] != [] && sys.claims[id][|sys.claims[id]| - 1] == worker)
  {
    hide Execution, TrimSpace, JobInv;
    ExecutionKeepsInv(steps);
    var sys := Execution(steps);
    assert RowInv(sys.rows[id], sys.claims[id], sys.releases[id], id in sys.delivered);
  }
}
