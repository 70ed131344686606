/**
  Outbox records and the back-off between publication attempts.
 */
module Outbox {
  import opened Prelude
  import opened Text

  // Back-off --------------------------------------------------------------------------------

  type Duration = d: int | -MAX_DURATION - 1 <= d <= MAX_DURATION

  /** The multiplier is an unsigned 32-bit number. */
  type Multiplier = m: nat | m <= 0xFFFF_FFFF

  datatype RetryPolicy = RetryPolicy(base: Duration, max: Duration, multiplier: Multiplier)

  predicate ValidPolicy(p: RetryPolicy)
  {
    0 < p.base <= p.max && 1 <= p.multiplier
  }

  /** What a signed 64-bit multiplication leaves of a product. */
  function Wrapped(x: int): Duration
  {
    (x + MAX_DURATION + 1) % (2 * (MAX_DURATION + 1)) - MAX_DURATION - 1
  }

  /** The delay reached from `d` after `left` more attempts. */
  function DelayFrom(p: RetryPolicy, d: int, left: nat): int
    requires p.multiplier > 0
    decreases left
  {
    if left == 0 then (if d > p.max then p.max else d)
    else if d >= p.max / p.multiplier then p.max
    else DelayFrom(p, d * p.multiplier, left - 1)
  }

  function Steps(attempt: nat): nat
  {
    if attempt == 0 then 0 else attempt - 1
  }

  function Delay(p: RetryPolicy, attempt: nat): int
    requires p.multiplier > 0
  {
    DelayFrom(p, p.base, Steps(attempt))
  }

  lemma BelowQuotient(d: int, max: int, m: int)
    requires 1 <= m && 0 <= d < max / m
    ensures d <= d * m <= max
  {
    assert (max / m) * m <= max;
    assert d * m <= (max / m) * m;
  }

  /** Division truncates toward zero. */
  function Quotient(a: int, b: int): int
    requires b > 0
  {
    if a >= 0 then a / b else -((-a) / b)
  }

  /** What the loop does with any policy at all, on machine integers; `None` is the panic of a division by zero. */
  function MachineDelayFrom(p: RetryPolicy, d: Duration, left: nat): Option<Duration>
    decreases left
  {
    if left == 0 then Some(if d > p.max then p.max else d)
    else if p.multiplier == 0 then None
    else if d >= Quotient(p.max, p.multiplier) then Some(p.max)
    else MachineDelayFrom(p, Wrapped(d * p.multiplier), left - 1)
  }

  /** On a valid policy no multiplication overflows. */
  lemma {:induction false} MachineDelayIsDelay(p: RetryPolicy, d: Duration, left: nat)
    requires ValidPolicy(p) && 0 < d <= p.max
    ensures MachineDelayFrom(p, d, left) == Some(DelayFrom(p, d, left))
    decreases left
  {
    hide Wrapped;
    if left > 0 && d < p.max / p.multiplier {
      BelowQuotient(d, p.max, p.multiplier);
      NoWrap(d * p.multiplier);
      MachineDelayIsDelay(p, d * p.multiplier, left - 1);
    }
  }

  /** Whatever the policy, the cap is never passed. */
  lemma {:induction false} NeverAboveCap(p: RetryPolicy, d: Duration, e: int, left: nat)
    ensures MachineDelayFrom(p, d, left).Some? ==> MachineDelayFrom(p, d, left).value <= p.max
    ensures p.multiplier > 0 ==> DelayFrom(p, e, left) <= p.max
    decreases left
  {
    hide Wrapped, Quotient;
    if left > 0 && p.multiplier > 0 {
      NeverAboveCap(p, Wrapped(d * p.multiplier), e * p.multiplier, left - 1);
    }
  }

  /** Any policy and attempt. The only panic is a zero multiplier from the second attempt on; a valid policy gets the
      delay specified above, between base and cap. */
  method RetryDelay(p: RetryPolicy, attempt: nat) returns (r: Option<Duration>)
    ensures r == MachineDelayFrom(p, p.base, Steps(attempt))
    ensures p.multiplier == 0 ==> (r.None? <==> attempt >= 2)
    ensures r.Some? ==> r.value <= p.max
    ensures ValidPolicy(p) ==> r == Some(Delay(p, attempt)) && p.base <= Delay(p, attempt) <= p.max
  {
    hide Wrapped, Quotient;
    NeverAboveCap(p, p.base, p.base, Steps(attempt));
    if ValidPolicy(p) {
      DelayBounds(p, p.base, Steps(attempt));
      MachineDelayIsDelay(p, p.base, Steps(attempt));
    }
    var d: Duration := p.base;
    var i := 1;
    while i < attempt
      invariant 1 <= i && (attempt > 0 ==> i <= attempt)
      invariant i > 1 ==> p.multiplier != 0
      invariant MachineDelayFrom(p, d, if attempt == 0 then 0 else attempt - i) == MachineDelayFrom(p, p.base, Steps(attempt))
    {
      if p.multiplier == 0 {
        return None;
      }
      if d >= Quotient(p.max, p.multiplier) {
        return Some(p.max);
      }
      d := Wrapped(d * p.multiplier);
      i := i + 1;
    }
    return Some(if d > p.max then p.max else d);
  }

  lemma NoWrap(x: int)
    requires 0 <= x <= MAX_DURATION
    ensures Wrapped(x) == x
  {
  }

  function Pow(b: nat, e: nat): nat
  {
    if e == 0 then 1 else b * Pow(b, e - 1)
  }

  function Min(a: int, b: int): int
  {
    if a <= b then a else b
  }

  lemma {:induction false} DelayBounds(p: RetryPolicy, d: int, left: nat)
    requires ValidPolicy(p) && 0 < d <= p.max
    ensures d <= DelayFrom(p, d, left) <= p.max
    decreases left
  {
    if left > 0 && d < p.max / p.multiplier {
      BelowQuotient(d, p.max, p.multiplier);
      DelayBounds(p, d * p.multiplier, left - 1);
    }
  }

  lemma {:induction false} DelayGrows(p: RetryPolicy, d: int, left: nat)
    requires ValidPolicy(p) && 0 < d <= p.max
    ensures DelayFrom(p, d, left) <= DelayFrom(p, d, left + 1)
    decreases left
  {
    if d < p.max / p.multiplier {
      BelowQuotient(d, p.max, p.multiplier);
      if left > 0 {
        DelayGrows(p, d * p.multiplier, left - 1);
      }
    }
  }

  /** Later attempts never wait less. */
  lemma {:induction false} DelayIsMonotone(p: RetryPolicy, a: nat, b: nat)
    requires ValidPolicy(p) && a <= b
    ensures p.base <= Delay(p, a) <= Delay(p, b) <= p.max
    decreases b - a
  {
    DelayBounds(p, p.base, Steps(a));
    if a < b {
      DelayIsMonotone(p, a + 1, b);
      if a > 0 {
        DelayGrows(p, p.base, Steps(a));
      }
    }
  }

  lemma {:induction false} PowGrows(b: nat, e: nat)
    requires b >= 1
    ensures Pow(b, e) >= 1
  {
    if e > 0 {
      PowGrows(b, e - 1);
      assert b * Pow(b, e - 1) >= b;
    }
  }

  lemma NextPower(d: int, m: nat, k: nat)
    requires k > 0
    ensures (d * Pow(m, k - 1)) * m == d * Pow(m, k)
  {
    assert Pow(m, k) == m * Pow(m, k - 1);
  }

  lemma Reassociate(d: int, m: nat, k: nat)
    requires k > 0
    ensures (d * m) * Pow(m, k - 1) == d * Pow(m, k)
  {
    assert Pow(m, k) == m * Pow(m, k - 1);
  }

  /** Once a delay reaches the quotient, its next power is short of the cap by less than one multiplier. */
  lemma AtQuotient(prev: int, max: int, m: int)
    requires 1 <= m && 0 < max && prev >= max / m
    ensures 0 <= max - Min(max, prev * m) < m
    ensures max == Min(max, prev * m) <==> !(prev == max / m && max % m != 0)
  {
    var q := max / m;
    assert max == q * m + max % m;
    if prev > q {
      assert prev * m >= (q + 1) * m;
    }
  }

  lemma AtLeast(x: int, f: nat)
    requires x >= 0 && f >= 1
    ensures x * f >= x
  {
  }

  lemma {:induction false} DelayTracks(p: RetryPolicy, d: int, k: nat)
    requires ValidPolicy(p) && 0 < d <= p.max
    ensures 0 <= DelayFrom(p, d, k) - Min(p.max, d * Pow(p.multiplier, k)) < p.multiplier
    ensures DelayFrom(p, d, k) == Min(p.max, d * Pow(p.multiplier, k)) <==>
      !(k > 0 && d * Pow(p.multiplier, k - 1) == p.max / p.multiplier && p.max % p.multiplier != 0)
    decreases k
  {
    hide Pow;
    if k == 0 {
      PowZero(p.multiplier);
    } else if d >= p.max / p.multiplier {
      PowGrows(p.multiplier, k - 1);
      AtLeast(d, Pow(p.multiplier, k - 1));
      NextPower(d, p.multiplier, k);
      AtQuotient(d * Pow(p.multiplier, k - 1), p.max, p.multiplier);
    } else {
      BelowQuotient(d, p.max, p.multiplier);
      DelayTracks(p, d * p.multiplier, k - 1);
      Reassociate(d, p.multiplier, k);
      if k > 1 {
        Reassociate(d, p.multiplier, k - 1);
      } else {
        PowZero(p.multiplier);
      }
    }
  }

  lemma PowZero(b: nat)
    ensures Pow(b, 0) == 1
  {
  }

  /** The delay is the capped power up to less than one multiplier. It is exactly the capped power unless the
      previous delay is the truncated quotient of the cap, and the division does truncate. */
  lemma DelayIsCappedPower(p: RetryPolicy, attempt: nat)
    requires ValidPolicy(p) && attempt > 0
    ensures var ideal := Min(p.max, p.base * Pow(p.multiplier, attempt - 1));
      && 0 <= Delay(p, attempt) - ideal < p.multiplier
      && (Delay(p, attempt) == ideal <==>
            !(attempt > 1 && p.base * Pow(p.multiplier, attempt - 2) == p.max / p.multiplier && p.max % p.multiplier != 0))
  {
    DelayTracks(p, p.base, attempt - 1);
  }

  /** The slack is real: base 2, cap 10, multiplier 4 jumps to 10 where 8 was due. */
  lemma TruncationShows()
    ensures var p := RetryPolicy(2, 10, 4); ValidPolicy(p) && Delay(p, 2) == 10 && Min(p.max, p.base * Pow(p.multiplier, 1)) == 8
  {
    assert Pow(4, 1) == 4 * Pow(4, 0);
  }

  // Records -------------------------------------------------------------------------------------

  datatype Status = Unset | Pending | Publishing | Published | RetryScheduled | DeadLettered
  {
    predicate Terminal() { Published? || DeadLettered? }
  }

  datatype OutboxError =
    | AlreadyPublished | AlreadyDeadLettered | WorkerIDRequired | PublishTimeRequired | LockDurationInvalid
    | LockOwnershipMismatch | FailureTimeRequired | FailureReasonRequired | InvalidRetrySchedule
    | RecordNotFound | ConcurrentChange

  const DEFAULT_MAX_ATTEMPTS: nat := 10

  /** The part of a record that publication changes. */
  datatype Row = Row(
    status: Status, startedAt: Option<Time>, publishedAt: Option<Time>, nextAttemptAt: Option<Time>,
    lastAttemptAt: Option<Time>, deadLetteredAt: Option<Time>, attempts: nat, maxAttempts: nat,
    lastError: string, lockOwner: string, lockUntil: Option<Time>)

  function Normalize(r: Row): Row
  {
    r.(status := if r.status == Unset then Pending else r.status,
       maxAttempts := if r.maxAttempts == 0 then DEFAULT_MAX_ATTEMPTS else r.maxAttempts,
       lockOwner := TrimSpace(r.lockOwner), lastError := TrimSpace(r.lastError))
  }

  /** The claim writes the same fields whether done on a record or on its row. */
  function Claimed(r: Row, worker: string, at: Time, duration: int): Row
  {
    r.(status := Publishing, startedAt := Some(at), lastAttemptAt := Some(at), lockOwner := worker,
       lockUntil := Some(at + duration), attempts := r.attempts + 1)
  }

  function StartPublishing(r0: Row, worker: string, at: Time, duration: int): (Row, Option<OutboxError>)
  {
    var r := Normalize(r0);
    if r.status == Published then (r, Some(AlreadyPublished))
    else if r.status == DeadLettered then (r, Some(AlreadyDeadLettered))
    else if TrimSpace(worker) == "" then (r, Some(WorkerIDRequired))
    else if at == 0 then (r, Some(PublishTimeRequired))
    else if duration <= 0 then (r, Some(LockDurationInvalid))
    else (Claimed(r, TrimSpace(worker), at, duration), None)
  }

  function Finished(r: Row, at: Time): Row
  {
    r.(status := Published, publishedAt := Some(at), nextAttemptAt := None, lastError := "", lockOwner := "", lockUntil := None)
  }

  function MarkPublished(r: Row, worker: string, at: Time): (Row, Option<OutboxError>)
  {
    if r.status == Published then (r, Some(AlreadyPublished))
    else if TrimSpace(worker) == "" || r.lockOwner != TrimSpace(worker) then (r, Some(LockOwnershipMismatch))
    else if at == 0 then (r, Some(PublishTimeRequired))
    else (Finished(r, at), None)
  }

  function RegisterFailure(r: Row, worker: string, reason: string, at: Time, p: RetryPolicy): (Row, Option<OutboxError>)
  {
    if r.status == Published then (r, Some(AlreadyPublished))
    else if r.status == DeadLettered then (r, Some(AlreadyDeadLettered))
    else if r.lockOwner != TrimSpace(worker) then (r, Some(LockOwnershipMismatch))
    else if at == 0 then (r, Some(FailureTimeRequired))
    else if TrimSpace(reason) == "" then (r, Some(FailureReasonRequired))
    else if !ValidPolicy(p) then (r, Some(InvalidRetrySchedule))
    else
      var s := r.(lastError := TrimSpace(reason), lastAttemptAt := Some(at), lockOwner := "", lockUntil := None);
      if r.attempts >= r.maxAttempts then (s.(status := DeadLettered, deadLetteredAt := Some(at), nextAttemptAt := None), None)
      else (s.(status := RetryScheduled, nextAttemptAt := Some(at + Delay(p, r.attempts))), None)
  }

  predicate Ready(r: Row, at: Time)
  {
    r.status == Pending || (r.status == RetryScheduled && r.nextAttemptAt.Some? && r.nextAttemptAt.value <= at)
  }

  /** A record is started exactly if it is not over, by a named worker, at a time, for a positive duration; it counts one
      attempt more and is locked until then. */
  lemma StartsExactly(r: Row, worker: string, at: Time, duration: int)
    ensures var (next, err) := StartPublishing(r, worker, at, duration);
      && (err.None? <==> r.status != Published && r.status != DeadLettered && TrimSpace(worker) != "" && at != 0 && duration > 0)
      && (err.None? ==>
            && next.status == Publishing && next.attempts == r.attempts + 1 && next.lockOwner == TrimSpace(worker)
            && next.lockUntil == Some(at + duration) && next.startedAt == Some(at) && next.lastAttemptAt == Some(at)
            && next.maxAttempts == (if r.maxAttempts == 0 then DEFAULT_MAX_ATTEMPTS else r.maxAttempts) && next.publishedAt == r.publishedAt
            && next.nextAttemptAt == r.nextAttemptAt && next.deadLetteredAt == r.deadLetteredAt)
      && (err.Some? ==> next.attempts == r.attempts && next.status == if r.status == Unset then Pending else r.status)
      && (err == Some(AlreadyPublished) <==> r.status == Published) && (err == Some(AlreadyDeadLettered) <==> r.status == DeadLettered)
  {
    hide TrimSpace;
  }

  /** It is marked published exactly if it is not yet, by the worker that holds it, at a time; then it is done with. */
  lemma PublishesExactly(r: Row, worker: string, at: Time)
    ensures var (next, err) := MarkPublished(r, worker, at);
      && (err.None? <==> r.status != Published && TrimSpace(worker) != "" && r.lockOwner == TrimSpace(worker) && at != 0)
      && (err.None? ==>
            next == r.(status := Published, publishedAt := Some(at), nextAttemptAt := None, lastError := "", lockOwner := "", lockUntil := None))
      && (err.Some? ==> next == r)
  {
    hide TrimSpace;
  }

  /** A failure is taken exactly from the worker that holds the record, while it is not over, with a time, a reason and
      a policy that makes sense. */
  lemma FailsExactly(r: Row, worker: string, reason: string, at: Time, p: RetryPolicy)
    ensures var (next, err) := RegisterFailure(r, worker, reason, at, p);
      && (err.None? <==>
            && r.status != Published && r.status != DeadLettered && r.lockOwner == TrimSpace(worker) && at != 0
            && TrimSpace(reason) != "" && 0 < p.base <= p.max && p.multiplier >= 1)
      && (err.None? ==>
            && next.lastError == TrimSpace(reason) && next.lastAttemptAt == Some(at) && next.maxAttempts == r.maxAttempts
            && (next.status == DeadLettered ==> next.deadLetteredAt == Some(at) && next.nextAttemptAt.None?))
      && (err.Some? ==> next == r)
  {
    hide TrimSpace, Delay;
  }

  /** A failed attempt is over: the lock is free and the record is either finished for good, exactly when its
      attempts are used up, or due again after a wait between the base and the cap. */
  lemma FailureOutcome(r: Row, worker: string, reason: string, at: Time, p: RetryPolicy)
    requires RegisterFailure(r, worker, reason, at, p).1.None?
    ensures var s := RegisterFailure(r, worker, reason, at, p).0;
      && s.lockOwner == "" && s.lockUntil.None? && s.attempts == r.attempts
      && (s.status == DeadLettered <==> r.attempts >= r.maxAttempts)
      && (s.status != DeadLettered ==>
            && (forall t :: Ready(s, t) <==> at + Delay(p, r.attempts) <= t)
            && p.base <= Delay(p, r.attempts) <= p.max)
  {
    hide TrimSpace, Delay;
    DelayIsMonotone(p, r.attempts, r.attempts);
  }

  /** A started record can be marked published by exactly the worker that started it, at any set time, once. */
  lemma OnlyTheStarterPublishes(r: Row, worker: string, at: Time, duration: int, other: string, done: Time)
    requires StartPublishing(r, worker, at, duration).1.None?
    ensures var started := StartPublishing(r, worker, at, duration).0; var (published, err) := MarkPublished(started, other, done);
      && started.attempts == r.attempts + 1 && started.lockUntil == Some(at + duration)
      && (err.None? <==> TrimSpace(other) == TrimSpace(worker) && done != 0)
      && (err.None? ==>
            && published.status == Published && published.attempts == r.attempts + 1 && published.lockOwner == ""
            && MarkPublished(published, other, done).1 == Some(AlreadyPublished)
            && StartPublishing(published, worker, at, duration).1 == Some(AlreadyPublished))
  {
    hide TrimSpace;
  }

  class OutboxRecord {
    var row: Row

    constructor (r: Row)
      ensures row == r
    {
      row := r;
    }

    method Start(worker: string, at: Time, duration: int) returns (err: Option<OutboxError>)
      modifies this
      ensures (row, err) == StartPublishing(old(row), worker, at, duration)
    {
      row := Normalize(row);
      if row.status == Published {
        return Some(AlreadyPublished);
      }
      if row.status == DeadLettered {
        return Some(AlreadyDeadLettered);
      }
      var name := TrimSpace(worker);
      if name == "" {
        return Some(WorkerIDRequired);
      }
      if at == 0 {
        return Some(PublishTimeRequired);
      }
      if duration <= 0 {
        return Some(LockDurationInvalid);
      }
      row := row.(status := Publishing, startedAt := Some(at), lastAttemptAt := Some(at));
      row := row.(lockOwner := name, lockUntil := Some(at + duration), attempts := row.attempts + 1);
      return None;
    }

    method Publish(worker: string, at: Time) returns (err: Option<OutboxError>)
      modifies this
      ensures (row, err) == MarkPublished(old(row), worker, at)
    {
      if row.status == Published {
        return Some(AlreadyPublished);
      }
      if TrimSpace(worker) == "" || row.lockOwner != TrimSpace(worker) {
        return Some(LockOwnershipMismatch);
      }
      if at == 0 {
        return Some(PublishTimeRequired);
      }
      row := row.(status := Published, publishedAt := Some(at), nextAttemptAt := None);
      row := row.(lastError := "", lockOwner := "", lockUntil := None);
      return None;
    }

    method Fail(worker: string, reason: string, at: Time, p: RetryPolicy) returns (err: Option<OutboxError>)
      modifies this
      ensures (row, err) == RegisterFailure(old(row), worker, reason, at, p)
    {
      hide TrimSpace, Delay;
      if row.status == Published {
        return Some(AlreadyPublished);
      }
      if row.status == DeadLettered {
        return Some(AlreadyDeadLettered);
      }
      if row.lockOwner != TrimSpace(worker) {
        return Some(LockOwnershipMismatch);
      }
      if at == 0 {
        return Some(FailureTimeRequired);
      }
      var why := TrimSpace(reason);
      if why == "" {
        return Some(FailureReasonRequired);
      }
      if !ValidPolicy(p) {
        return Some(InvalidRetrySchedule);
      }
      row := row.(lastError := why, lastAttemptAt := Some(at), lockOwner := "", lockUntil := None);
      if row.attempts >= row.maxAttempts {
        row := row.(status := DeadLettered, deadLetteredAt := Some(at), nextAttemptAt := None);
        return None;
      }
      var wait := RetryDelay(p, row.attempts);
      row := row.(status := RetryScheduled, nextAttemptAt := Some(at + wait.value));
      return None;
    }
  }
}
