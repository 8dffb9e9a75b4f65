/** Attempt tracker: the per-name table of failed logins with a sliding window
    and a lockout, as login reads and rewrites it (context/SessionContext.tsx). */
module AttemptTracker {
  import opened Wrappers

  /** Milliseconds since the epoch, as `Date.now()` returns them. */
  type Millis = nat

  const MaxAttempts := 5
  const WindowMs := 15 * 60 * 1000
  const LockMs := 15 * 60 * 1000
  /** Base of the throttle delay, and the cap on what failures add to it. */
  const ThrottleBaseMs := 300
  const ThrottleStepMs := 150
  const ThrottleCapMs := 1500

  /** `{ count, last, lockUntil? }`. */
  datatype AttemptRec = AttemptRec(count: nat, last: Millis, lockUntil: Option<Millis>)

  /** The table, keyed by normalised user name. */
  type Table = map<string, AttemptRec>

  /** `rec.lockUntil && now < rec.lockUntil`. */
  predicate IsLocked(rec: AttemptRec, now: Millis)
  {
    rec.lockUntil.Some? && rec.lockUntil.value != 0 && now < rec.lockUntil.value
  }

  /** `now - rec.last > windowMs`: the last failure lies outside the window. */
  predicate IsStale(rec: AttemptRec, now: Millis)
  {
    now - rec.last > WindowMs
  }

  /** The record a stale one is restarted as: `{ count: 0, last: now }`. */
  function Restarted(now: Millis): (rec: AttemptRec)
    ensures rec.count == 0 && !IsLocked(rec, now) && !IsStale(rec, now)
  {
    AttemptRec(0, now, None)
  }

  /** The throttle delay before the store is queried:
      `300 + Math.min((rec?.count || 0) * 150, 1500)`. */
  function ThrottleMs(rec: Option<AttemptRec>): (d: nat)
    ensures ThrottleBaseMs <= d <= ThrottleBaseMs + ThrottleCapMs
    ensures rec.None? || rec.value.count == 0 ==> d == ThrottleBaseMs
    ensures rec.Some? && rec.value.count < 10 ==> d == ThrottleBaseMs + ThrottleStepMs * rec.value.count
    ensures rec.Some? && rec.value.count >= 10 ==> d == ThrottleBaseMs + ThrottleCapMs
  {
    var count := if rec.Some? then rec.value.count else 0;
    ThrottleBaseMs + (if count * ThrottleStepMs < ThrottleCapMs then count * ThrottleStepMs else ThrottleCapMs)
  }

  /** The record a failed attempt writes, from the record `data[uname]` holds at that point. */
  function NextFailure(rec: Option<AttemptRec>, now: Millis): (r: AttemptRec)
    ensures r.last == now
    ensures r.count == if rec.None? || IsStale(rec.value, now) then 1 else rec.value.count + 1
    ensures r.count >= MaxAttempts ==> r.lockUntil == Some(now + LockMs)
    ensures r.count < MaxAttempts ==> r.lockUntil == (if rec.None? then None else rec.value.lockUntil)
  {
    var rec2 := if rec.Some? then rec.value else AttemptRec(0, now, None);
    var count := if now - rec2.last > WindowMs then 1 else rec2.count + 1;
    var lockUntil := if count >= MaxAttempts then Some(now + LockMs) else rec2.lockUntil;
    AttemptRec(count, now, lockUntil)
  }

  /** A table the tracker itself wrote: every record counts at least one failure,
      carries a lock exactly when it counts MaxAttempts or more, and the lock
      ends LockMs after the failure that set it. */
  ghost predicate WellFormed(table: Table)
  {
    forall key :: key in table ==> WellFormedRec(table[key])
  }

  ghost predicate WellFormedRec(rec: AttemptRec)
  {
    && rec.count >= 1
    && (rec.lockUntil.Some? <==> rec.count >= MaxAttempts)
    && (rec.lockUntil.Some? ==> rec.lockUntil.value == rec.last + LockMs)
  }

  /** In a well-formed record the lock is active exactly within LockMs of a failure
      that brought the count to MaxAttempts or more. */
  lemma LockedIff(rec: AttemptRec, now: Millis)
    requires WellFormedRec(rec)
    ensures IsLocked(rec, now) <==> rec.count >= MaxAttempts && now < rec.last + LockMs
  {
  }

  /** A failure written over a well-formed record still inside the window, or over
      no record, or over a record just restarted, is well formed. */
  lemma NextFailureWellFormed(rec: Option<AttemptRec>, now: Millis)
    requires rec.Some? ==> (WellFormedRec(rec.value) && !IsStale(rec.value, now)) || rec.value == Restarted(now)
    ensures WellFormedRec(NextFailure(rec, now))
  {
  }
}
