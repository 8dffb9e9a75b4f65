/** What the session manager promises, proved about the step functions of
    SessionContext: the login guards, the attempt record a failure writes,
    the lockout after five failures, the table invariant, the session's
    lifetime, the driver scope it gives the trip list, and the outcomes of a
    password change. */
module SessionProperties {
  import opened Wrappers
  import opened JsString
  import opened Crypto
  import opened CredentialStore
  import opened AttemptTracker
  import opened SessionContext
  import TripList

  // ---------------------------------------------------------------------------
  // Normalised names

  /** Normalising an already normalised name gives it back, so the key an attempt
      record is stored under is the key a later login looks up. */
  lemma NormalizeIdempotent(username: string)
    ensures Normalize(Normalize(username)) == Normalize(username)
  {
    var key := Normalize(username);
    NormalizeSpec(username);
    TrimOfTrimmed(key);
    ToUpperCaseIdempotent(Trim(username));
  }

  // ---------------------------------------------------------------------------
  // login: the guards

  /** A blank name or password fails after 300 ms and changes nothing. */
  lemma BlankLoginChangesNothing(attempts: Table, session: Session, store: Store, kdf: KeyDerivation, t: Try)
    requires AllWhitespace(t.username) || AllWhitespace(t.password)
    ensures LoginStep(attempts, session, store, kdf, t) == LoginOutcome(false, [BlankInputWaitMs], session, attempts)
  {
    NormalizeSpec(t.username);
    TrimSpec(t.password);
  }

  /** While the name's record is locked, login fails after 500 ms and writes
      nothing, and its outcome does not depend on the password, the store, the
      key derivation or the store's faults: neither collection is queried. */
  lemma LockedLoginRefused(attempts: Table, session: Session, store: Store, kdf: KeyDerivation, t: Try,
                           otherStore: Store, otherKdf: KeyDerivation, otherPassword: string, otherFault: QueryFault)
    requires !AllWhitespace(t.username) && !AllWhitespace(t.password) && !AllWhitespace(otherPassword)
    requires IsLockedOut(attempts, Normalize(t.username), t.now)
    ensures LoginStep(attempts, session, store, kdf, t) == LoginOutcome(false, [LockedWaitMs], session, attempts)
    ensures LoginStep(attempts, session, otherStore, otherKdf, t.(password := otherPassword, fault := otherFault))
         == LoginStep(attempts, session, store, kdf, t)
  {
    NormalizeSpec(t.username);
    TrimSpec(t.password);
    TrimSpec(otherPassword);
  }

  /** Past the guards, login first waits the throttle delay, 300 ms plus 150 ms per
      counted failure up to 1500 ms, taken from the record as read (before a stale
      record is restarted), whatever the store then answers. */
  lemma ThrottleBeforeQuery(attempts: Table, session: Session, uname: string, pwd: string,
                            now: Millis, later: Millis, v: Verdict)
    requires uname != [] && pwd != [] && !IsLockedOut(attempts, uname, now)
    ensures var o := LoginOn(attempts, session, uname, pwd, now, later, v);
      && 1 <= |o.waits|
      && o.waits[0] == ThrottleMs(Get(attempts, uname))
      && ThrottleBaseMs <= o.waits[0] <= ThrottleBaseMs + ThrottleCapMs
  {
  }

  /** Login succeeds exactly when neither input is blank, the name is not locked
      and an identity accepts the password. */
  lemma LoginOkIff(attempts: Table, session: Session, store: Store, kdf: KeyDerivation, t: Try)
    ensures var key := Normalize(t.username);
      LoginStep(attempts, session, store, kdf, t).ok <==>
        && !AllWhitespace(t.username) && !AllWhitespace(t.password)
        && !IsLockedOut(attempts, key, t.now)
        && CheckCredentials(store, kdf, key, Trim(t.password), t.fault).Accepted()
  {
    NormalizeSpec(t.username);
    TrimSpec(t.password);
  }

  // ---------------------------------------------------------------------------
  // login: what it writes
  //
  // These are stated for every verdict `v`; LoginStep is LoginOn with the
  // verdict CheckCredentials gives, so they hold for it in particular.

  /** A failed attempt past the guards (wrong password, unknown name, identity
      without salt or hash, or a store error) writes the name's record and no
      other: the count restarts at 1 outside the window and grows by one inside
      it, `last` becomes `now`, and a count of five or more locks the name for
      LockMs while a lower count keeps the lock it had (none after a restart). */
  lemma FailedLoginRecord(attempts: Table, session: Session, uname: string, pwd: string,
                          now: Millis, later: Millis, v: Verdict)
    requires uname != [] && pwd != [] && !IsLockedOut(attempts, uname, now)
    requires !v.Accepted()
    ensures var o := LoginOn(attempts, session, uname, pwd, now, later, v);
      var rec := Get(attempts, uname);
      var restarts := rec.None? || IsStale(rec.value, now);
      && !o.ok && o.session == session
      && o.waits == (if v.StoreFailed? then [ThrottleMs(rec), StoreErrorWaitMs] else [ThrottleMs(rec)])
      && o.attempts.Keys == attempts.Keys + {uname}
      && (forall k :: k in attempts && k != uname ==> o.attempts[k] == attempts[k])
      && o.attempts[uname].last == now
      && o.attempts[uname].count == (if restarts then 1 else rec.value.count + 1)
      && (o.attempts[uname].count >= MaxAttempts ==> o.attempts[uname].lockUntil == Some(now + LockMs))
      && (o.attempts[uname].count < MaxAttempts ==>
            o.attempts[uname].lockUntil == (if restarts then None else rec.value.lockUntil))
  {
    var rec := Get(attempts, uname);
    if rec.Some? && IsStale(rec.value, now) {
      assert Get(attempts[uname := Restarted(now)], uname) == Some(Restarted(now));
    }
  }

  /** A successful login mints a session lasting eight hours from the clock at
      minting, as admin when the admin collection accepted the password and as
      that driver otherwise, and deletes the name's record and no other. */
  lemma SuccessfulLogin(attempts: Table, session: Session, uname: string, pwd: string,
                        now: Millis, later: Millis, v: Verdict)
    requires LoginOn(attempts, session, uname, pwd, now, later, v).ok
    ensures var o := LoginOn(attempts, session, uname, pwd, now, later, v);
      && v.Accepted() && uname != [] && pwd != [] && !IsLockedOut(attempts, uname, now)
      && o.attempts == attempts - {uname}
      && o.waits == [ThrottleMs(Get(attempts, uname))]
      && IsAuthenticated(o.session, later)
      && o.session.expiresAt == Some(later + SessionTtlMs)
      && (v.AdminAccepted? ==> o.session.user == Some(User(v.admin.name + AdminSuffix, Admin, None, v.admin.id)))
      && (v.DriverAccepted? ==> o.session.user == Some(User(v.driver.name, Driver, Some(v.driver.id), v.driver.id)))
  {
  }

  /** Login keeps a table the tracker wrote well formed. */
  lemma LoginKeepsTableWellFormed(attempts: Table, session: Session, uname: string, pwd: string,
                                  now: Millis, later: Millis, v: Verdict)
    requires WellFormed(attempts)
    ensures WellFormed(LoginOn(attempts, session, uname, pwd, now, later, v).attempts)
  {
    var o := LoginOn(attempts, session, uname, pwd, now, later, v);
    if uname != [] && pwd != [] && !IsLockedOut(attempts, uname, now) && !v.Accepted() {
      var rec := Get(attempts, uname);
      var data := if rec.Some? && IsStale(rec.value, now) then attempts[uname := Restarted(now)] else attempts;
      NextFailureWellFormed(Get(data, uname), now);
      assert o.attempts == data[uname := NextFailure(Get(data, uname), now)];
    }
  }

  // ---------------------------------------------------------------------------
  // Lockout after repeated failures

  /** One call of login as LoginOn sees it: the normalised name, the trimmed
      password, the two clock readings and the store's verdict. */
  datatype Call = Call(uname: string, pwd: string, now: Millis, later: Millis, v: Verdict)

  /** The table and session after a sequence of logins, one after the other. */
  function Replay(attempts: Table, session: Session, calls: seq<Call>): (Table, Session)
  {
    if calls == [] then (attempts, session)
    else
      var prev := Replay(attempts, session, calls[..|calls| - 1]);
      var c := calls[|calls| - 1];
      var o := LoginOn(prev.0, prev.1, c.uname, c.pwd, c.now, c.later, c.v);
      (o.attempts, o.session)
  }

  /** Non-blank attempts on one name that the store does not accept, each made
      within the window of the one before. */
  ghost predicate RejectedRun(key: string, calls: seq<Call>)
  {
    && (forall i :: 0 <= i < |calls| ==> calls[i].uname == key && calls[i].pwd != [] && !calls[i].v.Accepted())
    && (forall i :: 0 < i < |calls| ==> calls[i].now - calls[i - 1].now <= WindowMs)
  }

  /** The record n <= 5 rejected attempts in a row leave: { n, time of the
      last attempt }, locked for LockMs from then when n reaches five. */
  function LastRecord(calls: seq<Call>): AttemptRec
    requires calls != []
  {
    var last := calls[|calls| - 1].now;
    AttemptRec(|calls|, last, if |calls| >= MaxAttempts then Some(last + LockMs) else None)
  }

  /** One more rejected attempt on a name whose record counts `count` < 5
      failures, the last one within the window and no lock (or that has no
      record, when `count` is 0), adds one to the count. */
  lemma RejectedAttemptCounts(attempts: Table, session: Session, key: string, c: Call, count: nat)
    requires key != [] && c.uname == key && c.pwd != [] && !c.v.Accepted()
    requires count < MaxAttempts
    requires count == 0 ==> key !in attempts
    requires count > 0 ==> key in attempts && attempts[key].count == count && attempts[key].lockUntil.None?
                           && c.now - attempts[key].last <= WindowMs
    ensures var o := LoginOn(attempts, session, c.uname, c.pwd, c.now, c.later, c.v);
      && o.session == session
      && key in o.attempts
      && o.attempts[key] == AttemptRec(count + 1, c.now, if count + 1 >= MaxAttempts then Some(c.now + LockMs) else None)
  {
    FailedLoginRecord(attempts, session, c.uname, c.pwd, c.now, c.later, c.v);
  }

  lemma RejectedRunPrefix(key: string, calls: seq<Call>)
    requires calls != [] && RejectedRun(key, calls)
    ensures RejectedRun(key, calls[..|calls| - 1])
  {
  }

  /** Starting without a record, n <= 5 rejected attempts in a row leave the
      record { n, time of the last attempt } and lock it when n reaches five. */
  lemma {:induction false} FailuresAccumulate(attempts: Table, session: Session, key: string, calls: seq<Call>)
    requires key != [] && key !in attempts
    requires 1 <= |calls| <= MaxAttempts
    requires RejectedRun(key, calls)
    ensures Replay(attempts, session, calls).1 == session
    ensures key in Replay(attempts, session, calls).0
    ensures Replay(attempts, session, calls).0[key] == LastRecord(calls)
  {
    var n := |calls|;
    var prev := Replay(attempts, session, calls[..n - 1]);
    if n > 1 {
      RejectedRunPrefix(key, calls);
      FailuresAccumulate(attempts, session, key, calls[..n - 1]);
      assert calls[..n - 1][n - 2] == calls[n - 2];
      RejectedAttemptCounts(prev.0, prev.1, key, calls[n - 1], n - 1);
    } else {
      assert calls[..0] == [];
      RejectedAttemptCounts(prev.0, prev.1, key, calls[0], 0);
    }
  }

  /** Five rejected attempts within the window lock the name: until LockMs after
      the fifth, any login on that name fails at once, whatever the verdict the
      password would have drawn, and changes nothing. */
  lemma FiveFailuresLockOut(attempts: Table, session: Session, key: string, calls: seq<Call>, next: Call)
    requires key != [] && key !in attempts
    requires |calls| == MaxAttempts && RejectedRun(key, calls)
    requires next.uname == key && next.pwd != []
    requires next.now < calls[MaxAttempts - 1].now + LockMs
    ensures var after := Replay(attempts, session, calls);
      LoginOn(after.0, after.1, next.uname, next.pwd, next.now, next.later, next.v)
        == LoginOutcome(false, [LockedWaitMs], after.1, after.0)
  {
    FailuresAccumulate(attempts, session, key, calls);
  }

  /** Once the lock has run out, an accepted password logs in and clears the record. */
  lemma LockExpiresThenLoginClears(attempts: Table, session: Session, key: string, calls: seq<Call>, next: Call)
    requires key != [] && key !in attempts
    requires |calls| == MaxAttempts && RejectedRun(key, calls)
    requires next.uname == key && next.pwd != []
    requires next.now >= calls[MaxAttempts - 1].now + LockMs
    requires next.v.Accepted()
    ensures var after := Replay(attempts, session, calls);
      var o := LoginOn(after.0, after.1, next.uname, next.pwd, next.now, next.later, next.v);
      o.ok && key !in o.attempts
  {
    FailuresAccumulate(attempts, session, key, calls);
  }

  // ---------------------------------------------------------------------------
  // Session lifetime and driver scope

  /** A session minted at time T is authenticated and kept before T + 8 h, and
      replaced by `{ user: null }` from T + 8 h on; the same holds for the
      persisted copy a reloaded provider starts from, since the check reads only
      the session value and the clock. */
  lemma SessionLifetime(v: Verdict, later: Millis, now: Millis)
    requires v.Accepted()
    ensures var s := MintSession(v, later);
      && (now < later + SessionTtlMs ==> IsAuthenticated(s, now) && CheckExpiry(s, now) == s)
      && (now >= later + SessionTtlMs ==> !IsAuthenticated(s, now) && CheckExpiry(s, now) == SignedOut)
  {
  }

  /** After the expiry check, no session with a deadline carries a user past it. */
  lemma ExpiryLeavesNoStaleUser(s: Session, now: Millis)
    requires s.expiresAt.Some? && s.expiresAt.value != 0
    ensures CheckExpiry(s, now).user.Some? ==> IsAuthenticated(CheckExpiry(s, now), now)
  {
  }

  /** An admin login leaves no current driver id; a driver login sets it to the driver's id. */
  lemma LoginDriverScope(attempts: Table, session: Session, uname: string, pwd: string,
                         now: Millis, later: Millis, v: Verdict)
    requires LoginOn(attempts, session, uname, pwd, now, later, v).ok
    ensures var o := LoginOn(attempts, session, uname, pwd, now, later, v);
      && (v.AdminAccepted? ==> DriverIdOf(o.session) == None)
      && (v.DriverAccepted? && v.driver.id != "" ==> DriverIdOf(o.session) == Some(v.driver.id))
  {
    SuccessfulLogin(attempts, session, uname, pwd, now, later, v);
  }

  /** After a driver logs in, the trip list shows that driver's trips only; after
      an admin logs in, it shows every trip once the filters are cleared. */
  lemma LoginScopesTripList(attempts: Table, session: Session, uname: string, pwd: string,
                            now: Millis, later: Millis, v: Verdict,
                            trips: seq<TripList.Trip>, f: TripList.Filters)
    requires LoginOn(attempts, session, uname, pwd, now, later, v).ok
    ensures var o := LoginOn(attempts, session, uname, pwd, now, later, v);
      && (v.DriverAccepted? && v.driver.id != "" ==>
            forall trip :: trip in TripList.FilteredTrips(trips, DriverIdOf(o.session), f) ==> trip.driverId == v.driver.id)
      && (v.AdminAccepted? ==> TripList.FilteredTrips(trips, DriverIdOf(o.session), TripList.ClearFilters()) == trips)
  {
    var o := LoginOn(attempts, session, uname, pwd, now, later, v);
    LoginDriverScope(attempts, session, uname, pwd, now, later, v);
    TripList.FilteredTripsSpec(trips, DriverIdOf(o.session), f);
    TripList.ClearedFiltersShowAllVisible(trips, DriverIdOf(o.session));
  }

  // ---------------------------------------------------------------------------
  // changePassword
  //
  // The first four are stated for every `rotated` pair; ChangeStep is ChangeOn
  // with the pair RotatedCredentials computes.

  /** Every failing change leaves the store as it was. */
  lemma ChangeFailureLeavesStore(store: Store, session: Session, kdf: KeyDerivation, userId: string, userType: Role,
                                 newPassword: string, oldPassword: Option<string>, rotated: Option<(string, string)>,
                                 fault: DocFault)
    ensures var o := ChangeOn(store, session, kdf, userId, userType, newPassword, oldPassword, rotated, fault);
      !o.result.success ==> o.store == store
  {
  }

  /** Each refusal comes with its own message, checked in this order; an old
      password checked against a salt the hasher cannot decode is an error,
      not a wrong password. */
  lemma ChangeFailureReasons(store: Store, session: Session, kdf: KeyDerivation, userId: string, userType: Role,
                             newPassword: string, oldPassword: Option<string>, rotated: Option<(string, string)>,
                             fault: DocFault)
    ensures var o := ChangeOn(store, session, kdf, userId, userType, newPassword, oldPassword, rotated, fault);
      var docs := Collection(store, userType);
      var i := FindById(docs, userId);
      && (AllWhitespace(newPassword) ==> o.result == ChangeResult(false, MsgEmptyPassword))
      && (!AllWhitespace(newPassword) && fault == ReadFails ==> o.result == ChangeResult(false, MsgError))
      && (!AllWhitespace(newPassword) && fault != ReadFails && i.None? ==> o.result == ChangeResult(false, MsgNotFound))
      && (!AllWhitespace(newPassword) && fault != ReadFails && i.Some? && GivesOldPassword(oldPassword)
            && !HasCredentials(docs[i.value])
          ==> o.result == ChangeResult(false, MsgLegacyAccount))
      && (!AllWhitespace(newPassword) && fault != ReadFails && i.Some? && GivesOldPassword(oldPassword)
            && HasCredentials(docs[i.value]) && AllLineTerminators(docs[i.value].salt)
          ==> o.result == ChangeResult(false, MsgError))
      && (!AllWhitespace(newPassword) && fault != ReadFails && i.Some? && GivesOldPassword(oldPassword)
            && HasCredentials(docs[i.value]) && !AllLineTerminators(docs[i.value].salt)
            && !Accepts(kdf, docs[i.value], oldPassword.value)
          ==> o.result == ChangeResult(false, MsgWrongPassword))
      && (!AllWhitespace(newPassword) && fault != ReadFails && i.Some? && !GivesOldPassword(oldPassword)
            && !IsAdminSession(session)
          ==> o.result == ChangeResult(false, MsgAdminOnly))
  {
    TrimSpec(newPassword);
  }

  /** A change succeeds exactly when the new password is not blank, the store
      works, the identity exists, hashing succeeds, and either the given old
      password verifies against its salt and hash or, with no old password, the
      acting session is an admin's; and then it writes the pair into that
      identity. */
  lemma ChangeSucceedsIff(store: Store, session: Session, kdf: KeyDerivation, userId: string, userType: Role,
                          newPassword: string, oldPassword: Option<string>, rotated: Option<(string, string)>,
                          fault: DocFault)
    ensures var o := ChangeOn(store, session, kdf, userId, userType, newPassword, oldPassword, rotated, fault);
      var docs := Collection(store, userType);
      var i := FindById(docs, userId);
      o.result.success <==>
        && !AllWhitespace(newPassword) && fault == NoDocFault && rotated.Some? && i.Some?
        && (if GivesOldPassword(oldPassword) then Accepts(kdf, docs[i.value], oldPassword.value)
            else IsAdminSession(session))
  {
    TrimSpec(newPassword);
  }

  /** A successful change is the update of the identity the id names with the pair. */
  lemma ChangeSuccessShape(store: Store, session: Session, kdf: KeyDerivation, userId: string, userType: Role,
                           newPassword: string, oldPassword: Option<string>, rotated: Option<(string, string)>,
                           fault: DocFault)
    requires ChangeOn(store, session, kdf, userId, userType, newPassword, oldPassword, rotated, fault).result.success
    ensures FindById(Collection(store, userType), userId).Some? && rotated.Some?
    ensures var i := FindById(Collection(store, userType), userId).value;
      ChangeOn(store, session, kdf, userId, userType, newPassword, oldPassword, rotated, fault)
        == ChangeOutcome(ChangeResult(true, MsgChanged), UpdateCredentials(store, userType, i, rotated.value.0, rotated.value.1))
  {
  }

  /** A successful change writes a fresh salt made of the random bytes and a hash
      the new password verifies against, into that identity only, and every
      other identity keeps its record. */
  lemma ChangeSuccessRotates(store: Store, session: Session, kdf: KeyDerivation, userId: string, userType: Role,
                             newPassword: string, oldPassword: Option<string>, random: seq<byte>, fault: DocFault)
    requires ChangeStep(store, session, kdf, userId, userType, newPassword, oldPassword, random, fault).result.success
    ensures var o := ChangeStep(store, session, kdf, userId, userType, newPassword, oldPassword, random, fault);
      var docs := Collection(store, userType);
      var i := FindById(docs, userId).value;
      var updated := Collection(o.store, userType);
      && o.result == ChangeResult(true, MsgChanged)
      && random != []
      && |updated| == |docs|
      && updated[i] == docs[i].(salt := GenerateSalt(random), passwordHash := updated[i].passwordHash)
      && Accepts(kdf, updated[i], Trim(newPassword))
      && (forall k :: 0 <= k < |docs| && k != i ==> updated[k] == docs[k])
      && (userType == Driver ==> o.store.admins == store.admins)
      && (userType == Admin ==> o.store.drivers == store.drivers)
  {
    var rotated := RotatedCredentials(kdf, newPassword, random);
    ChangeSuccessShape(store, session, kdf, userId, userType, newPassword, oldPassword, rotated, fault);
    GenerateSaltIsBufferToHex(random);
  }

  /** After a change, a password whose derived key under the new salt differs
      from the new password's no longer verifies. */
  lemma OtherPasswordStopsVerifying(store: Store, session: Session, kdf: KeyDerivation, userId: string, userType: Role,
                                    newPassword: string, oldPassword: Option<string>, random: seq<byte>, fault: DocFault,
                                    other: string)
    requires ChangeStep(store, session, kdf, userId, userType, newPassword, oldPassword, random, fault).result.success
    requires kdf(Pbkdf2Params("SHA-256", random, Iterations), other)
          != kdf(Pbkdf2Params("SHA-256", random, Iterations), Trim(newPassword))
    ensures var o := ChangeStep(store, session, kdf, userId, userType, newPassword, oldPassword, random, fault);
      !Accepts(kdf, Collection(o.store, userType)[FindById(Collection(store, userType), userId).value], other)
  {
    var o := ChangeStep(store, session, kdf, userId, userType, newPassword, oldPassword, random, fault);
    var rotated := RotatedCredentials(kdf, newPassword, random);
    ChangeSuccessShape(store, session, kdf, userId, userType, newPassword, oldPassword, rotated, fault);
    var doc := Collection(o.store, userType)[FindById(Collection(store, userType), userId).value];
    assert doc.salt == rotated.value.0 && doc.passwordHash == rotated.value.1;
    HashWithGeneratedSalt(kdf, other, random);
    HashWithGeneratedSalt(kdf, Trim(newPassword), random);
    if Accepts(kdf, doc, other) {
      BufferToHexInjective(kdf(Pbkdf2Params("SHA-256", random, Iterations), other),
                           kdf(Pbkdf2Params("SHA-256", random, Iterations), Trim(newPassword)));
    }
  }

  lemma {:induction false} FindByNameSameNames(a: seq<Identity>, b: seq<Identity>, name: string)
    requires |a| == |b| && forall k :: 0 <= k < |a| ==> a[k].name == b[k].name
    ensures FindByName(a, name) == FindByName(b, name)
  {
    if a != [] {
      FindByNameSameNames(a[1..], b[1..], name);
    }
  }

  /** A store whose drivers keep their names, and whose admins are unchanged,
      still finds the same driver first by name; when that driver accepts the
      password and no admin has the name, the login query accepts it. */
  lemma SameNamesDriverAccepted(before: Store, after: Store, kdf: KeyDerivation, key: string, pwd: string, i: nat)
    requires after.admins == before.admins && FindByName(before.admins, key).None?
    requires |after.drivers| == |before.drivers|
    requires forall k :: 0 <= k < |before.drivers| ==> after.drivers[k].name == before.drivers[k].name
    requires FindByName(before.drivers, key) == Some(i)
    requires i < |after.drivers| && Accepts(kdf, after.drivers[i], pwd)
    ensures CheckCredentials(after, kdf, key, pwd, NoQueryFault).DriverAccepted?
  {
    FindByNameSameNames(before.drivers, after.drivers, key);
  }

  /** A driver whose password was changed logs in with it, typed with or without
      surrounding whitespace, when the name is theirs alone, not locked, and the
      store answers. */
  lemma ChangedPasswordLogsIn(store: Store, session: Session, kdf: KeyDerivation, userId: string, newPassword: string,
                              oldPassword: Option<string>, random: seq<byte>,
                              attempts: Table, session2: Session, t: Try)
    requires ChangeStep(store, session, kdf, userId, Driver, newPassword, oldPassword, random, NoDocFault).result.success
    requires FindByName(store.drivers, Normalize(t.username)) == FindById(store.drivers, userId)
    requires FindByName(store.admins, Normalize(t.username)).None?
    requires Trim(t.password) == Trim(newPassword) && t.fault == NoQueryFault
    requires !AllWhitespace(t.username) && Normalize(t.username) !in attempts
    ensures LoginStep(attempts, session2,
                      ChangeStep(store, session, kdf, userId, Driver, newPassword, oldPassword, random, NoDocFault).store,
                      kdf, t).ok
  {
    var o := ChangeStep(store, session, kdf, userId, Driver, newPassword, oldPassword, random, NoDocFault);
    var key := Normalize(t.username);
    ChangeSuccessRotates(store, session, kdf, userId, Driver, newPassword, oldPassword, random, NoDocFault);
    var i := FindById(store.drivers, userId).value;
    assert forall k :: 0 <= k < |store.drivers| ==> o.store.drivers[k].name == store.drivers[k].name;
    SameNamesDriverAccepted(store, o.store, kdf, key, Trim(t.password), i);
    ChangeSucceedsIff(store, session, kdf, userId, Driver, newPassword, oldPassword,
                      RotatedCredentials(kdf, newPassword, random), NoDocFault);
    TrimSpec(newPassword);
    TrimSpec(t.password);
    LoginOkIff(attempts, session2, o.store, kdf, t);
  }

  // ---------------------------------------------------------------------------
  // The rotation as written: the new password is hashed untrimmed

  /** The credentials changePassword writes as written (hash of the untrimmed new
      password) reject that same password at login, which compares the trimmed
      one, whenever the two derive different keys, which requires the new
      password to have surrounding whitespace. */
  lemma AsWrittenRotationRejectsLogin(kdf: KeyDerivation, newPassword: string, random: seq<byte>)
    requires random != []
    requires kdf(Pbkdf2Params("SHA-256", random, Iterations), newPassword)
          != kdf(Pbkdf2Params("SHA-256", random, Iterations), Trim(newPassword))
    ensures newPassword != Trim(newPassword)
    ensures var r := RotatedCredentialsAsWritten(kdf, newPassword, random).value;
      VerifyPassword(kdf, Trim(newPassword), r.0, r.1) == Some(false)
  {
    HashWithGeneratedSalt(kdf, newPassword, random);
    HashWithGeneratedSalt(kdf, Trim(newPassword), random);
    var r := RotatedCredentialsAsWritten(kdf, newPassword, random).value;
    if VerifyPassword(kdf, Trim(newPassword), r.0, r.1) == Some(true) {
      BufferToHexInjective(kdf(Pbkdf2Params("SHA-256", random, Iterations), newPassword),
                           kdf(Pbkdf2Params("SHA-256", random, Iterations), Trim(newPassword)));
    }
  }

  /** A successful change as written writes a fresh salt made of the random
      bytes and a hash the new password, exactly as given, verifies against,
      into that identity only; every other identity keeps its record. */
  lemma ChangeAsWrittenRotates(store: Store, session: Session, kdf: KeyDerivation, userId: string, userType: Role,
                               newPassword: string, oldPassword: Option<string>, random: seq<byte>, fault: DocFault)
    requires ChangeStepAsWritten(store, session, kdf, userId, userType, newPassword, oldPassword, random, fault).result.success
    ensures var o := ChangeStepAsWritten(store, session, kdf, userId, userType, newPassword, oldPassword, random, fault);
      var docs := Collection(store, userType);
      var i := FindById(docs, userId).value;
      var updated := Collection(o.store, userType);
      && o.result == ChangeResult(true, MsgChanged)
      && random != []
      && |updated| == |docs|
      && updated[i] == docs[i].(salt := GenerateSalt(random), passwordHash := updated[i].passwordHash)
      && Accepts(kdf, updated[i], newPassword)
      && (forall k :: 0 <= k < |docs| && k != i ==> updated[k] == docs[k])
      && (userType == Driver ==> o.store.admins == store.admins)
      && (userType == Admin ==> o.store.drivers == store.drivers)
  {
    var rotated := RotatedCredentialsAsWritten(kdf, newPassword, random);
    ChangeSuccessShape(store, session, kdf, userId, userType, newPassword, oldPassword, rotated, fault);
    GenerateSaltIsBufferToHex(random);
    HashWithGeneratedSalt(kdf, newPassword, random);
  }

  /** After a change as written, a password whose derived key under the new salt
      differs from that of the new password, as given, no longer verifies. */
  lemma OtherPasswordStopsVerifyingAsWritten(store: Store, session: Session, kdf: KeyDerivation, userId: string,
                                             userType: Role, newPassword: string, oldPassword: Option<string>,
                                             random: seq<byte>, fault: DocFault, other: string)
    requires ChangeStepAsWritten(store, session, kdf, userId, userType, newPassword, oldPassword, random, fault).result.success
    requires kdf(Pbkdf2Params("SHA-256", random, Iterations), other)
          != kdf(Pbkdf2Params("SHA-256", random, Iterations), newPassword)
    ensures var o := ChangeStepAsWritten(store, session, kdf, userId, userType, newPassword, oldPassword, random, fault);
      !Accepts(kdf, Collection(o.store, userType)[FindById(Collection(store, userType), userId).value], other)
  {
    var o := ChangeStepAsWritten(store, session, kdf, userId, userType, newPassword, oldPassword, random, fault);
    var rotated := RotatedCredentialsAsWritten(kdf, newPassword, random);
    ChangeSuccessShape(store, session, kdf, userId, userType, newPassword, oldPassword, rotated, fault);
    var doc := Collection(o.store, userType)[FindById(Collection(store, userType), userId).value];
    assert doc.salt == rotated.value.0 && doc.passwordHash == rotated.value.1;
    HashWithGeneratedSalt(kdf, other, random);
    HashWithGeneratedSalt(kdf, newPassword, random);
    if Accepts(kdf, doc, other) {
      BufferToHexInjective(kdf(Pbkdf2Params("SHA-256", random, Iterations), other),
                           kdf(Pbkdf2Params("SHA-256", random, Iterations), newPassword));
    }
  }

  /** The corrected rotation: whatever whitespace surrounds the new password, the
      credentials written accept it as login compares it. */
  lemma RotationMatchesLogin(kdf: KeyDerivation, newPassword: string, typed: string, random: seq<byte>)
    requires random != [] && Trim(typed) == Trim(newPassword)
    ensures var r := RotatedCredentials(kdf, newPassword, random).value;
      VerifyPassword(kdf, Trim(typed), r.0, r.1) == Some(true)
  {
  }
}
