/** Session manager (context/SessionContext.tsx): login with the attempt
    tracker's lockout and throttle, the expiry check, logout, password change
    and the current driver id.

    Each operation is given twice: as a function from the old state and the
    inputs to the outcome (LoginStep, CheckExpiry, ChangeStep), about which
    SessionProperties proves what the source promises, and as a method of the
    class SessionProvider that updates the provider's fields step by step as
    the source does and is proved to agree with that function. LoginStep and
    ChangeStep are LoginOn and ChangeOn applied to what the store and the
    hasher answer; most properties are proved for every such answer.

    The clock, the random bytes of a new salt, the Web Crypto key derivation
    and the database's failures are inputs. */
module SessionContext {
  import opened Wrappers
  import opened JsString
  import opened Crypto
  import opened CredentialStore
  import opened AttemptTracker

  const SessionTtlMs := 8 * 60 * 60 * 1000
  const BlankInputWaitMs := 300
  const LockedWaitMs := 500
  const StoreErrorWaitMs := 400
  const AdminSuffix := " (Admin)"

  datatype User = User(name: string, role: Role, driverId: Option<string>, userId: string)

  /** `{ user, expiresAt? }`. */
  datatype Session = Session(user: Option<User>, expiresAt: Option<Millis>)

  /** `{ user: null }`. */
  const SignedOut := Session(None, None)

  /** The session grants access at time `now`. */
  predicate IsAuthenticated(s: Session, now: Millis)
  {
    s.user.Some? && s.expiresAt.Some? && now < s.expiresAt.value
  }

  /** `(username || '').trim().toUpperCase()`: the lookup name and the attempt table key. */
  function Normalize(username: string): (key: string)
    ensures |key| <= |username|
  {
    ToUpperCase(Trim(username))
  }

  /** The key is empty exactly for a blank name, and otherwise neither starts nor ends with white space. */
  lemma NormalizeSpec(username: string)
    ensures Normalize(username) == [] <==> AllWhitespace(username)
    ensures var key := Normalize(username);
      key != [] ==> !IsWhitespace(key[0]) && !IsWhitespace(key[|key| - 1])
  {
    var t := Trim(username);
    TrimSpec(username);
    ToUpperCaseChars(t);
    if t != [] {
      UpperCharKeepsWhitespace(t[0]);
      UpperCharKeepsWhitespace(t[|t| - 1]);
    }
  }

  // ---------------------------------------------------------------------------
  // login

  /** Where the database fails during login, if it does. */
  datatype QueryFault = NoQueryFault | AdminQueryFails | DriverQueryFails

  /** One call of login: the two arguments, the clock when the call starts
      (`now`), the clock when a session is minted (`later`, a second reading
      of `Date.now()`), and the database's behaviour. */
  datatype Try = Try(username: string, password: string, now: Millis, later: Millis, fault: QueryFault)

  /** The identity has a salt and a hash and the password verifies against them. */
  predicate Accepts(kdf: KeyDerivation, identity: Identity, pwd: string)
  {
    HasCredentials(identity) && VerifyPassword(kdf, pwd, identity.salt, identity.passwordHash) == Some(true)
  }

  /** What asking one collection for a name and verifying the password gives:
      the identity, no identity (none with that name, one without salt or hash,
      or a password that does not verify), or an exception from the hasher. */
  datatype Answer = Match(identity: Identity) | NoMatch | Throws

  /** The first identity of the collection with that name, checked against the password. */
  function Ask(kdf: KeyDerivation, docs: seq<Identity>, uname: string, pwd: string): (r: Answer)
    ensures r.Match? ==> r.identity in docs && r.identity.name == uname && Accepts(kdf, r.identity, pwd)
    ensures r.Match? <==> FindByName(docs, uname).Some? && Accepts(kdf, docs[FindByName(docs, uname).value], pwd)
    ensures r.Throws? <==>
      FindByName(docs, uname).Some? && HasCredentials(docs[FindByName(docs, uname).value])
      && AllLineTerminators(docs[FindByName(docs, uname).value].salt)
  {
    match FindByName(docs, uname)
    case None => NoMatch
    case Some(i) =>
      if !HasCredentials(docs[i]) then NoMatch
      else match VerifyPassword(kdf, pwd, docs[i].salt, docs[i].passwordHash)
        case None => Throws
        case Some(ok) => if ok then Match(docs[i]) else NoMatch
  }

  datatype Verdict = AdminAccepted(admin: Identity) | DriverAccepted(driver: Identity) | Rejected | StoreFailed
  {
    predicate Accepted() { AdminAccepted? || DriverAccepted? }
  }

  /** The admins are asked first, then the drivers; a query or a hash that throws
      ends the search in the `catch` block. */
  function CheckCredentials(store: Store, kdf: KeyDerivation, uname: string, pwd: string, fault: QueryFault): (v: Verdict)
    ensures v.AdminAccepted? <==> fault != AdminQueryFails && Ask(kdf, store.admins, uname, pwd).Match?
    ensures v.AdminAccepted? ==> v.admin in store.admins && v.admin.name == uname && Accepts(kdf, v.admin, pwd)
    ensures v.DriverAccepted? <==>
      fault == NoQueryFault && Ask(kdf, store.admins, uname, pwd).NoMatch? && Ask(kdf, store.drivers, uname, pwd).Match?
    ensures v.DriverAccepted? ==> v.driver in store.drivers && v.driver.name == uname && Accepts(kdf, v.driver, pwd)
    ensures v.StoreFailed? <==>
      || fault == AdminQueryFails
      || Ask(kdf, store.admins, uname, pwd).Throws?
      || (Ask(kdf, store.admins, uname, pwd).NoMatch?
          && (fault == DriverQueryFails || Ask(kdf, store.drivers, uname, pwd).Throws?))
  {
    if fault == AdminQueryFails then StoreFailed
    else match Ask(kdf, store.admins, uname, pwd)
      case Match(a) => AdminAccepted(a)
      case Throws => StoreFailed
      case NoMatch =>
        if fault == DriverQueryFails then StoreFailed
        else
          assert fault == NoQueryFault;
          match Ask(kdf, store.drivers, uname, pwd)
          case Match(d) => DriverAccepted(d)
          case Throws => StoreFailed
          case NoMatch => Rejected
  }

  /** The session a successful login sets, lasting SessionTtlMs from `later`. */
  function MintSession(v: Verdict, later: Millis): (s: Session)
    requires v.Accepted()
    ensures IsAuthenticated(s, later) && s.expiresAt == Some(later + SessionTtlMs)
    ensures v.AdminAccepted? ==> s.user == Some(User(v.admin.name + AdminSuffix, Admin, None, v.admin.id))
    ensures v.DriverAccepted? ==> s.user == Some(User(v.driver.name, Driver, Some(v.driver.id), v.driver.id))
  {
    var user := match v
      case AdminAccepted(a) => User(a.name + AdminSuffix, Admin, None, a.id)
      case DriverAccepted(d) => User(d.name, Driver, Some(d.id), d.id);
    Session(Some(user), Some(later + SessionTtlMs))
  }

  /** What one call of login returns, the artificial waits it makes, in order,
      and the session and attempt table it leaves. */
  datatype LoginOutcome = LoginOutcome(ok: bool, waits: seq<nat>, session: Session, attempts: Table)

  /** The table as the attempt's own failure would leave it: a stale record is
      restarted first, then the failure is recorded over whatever the key holds. */
  function TableAfterFailure(attempts: Table, uname: string, now: Millis): Table
  {
    var rec := Get(attempts, uname);
    var data := if rec.Some? && IsStale(rec.value, now) then attempts[uname := Restarted(now)] else attempts;
    data[uname := NextFailure(Get(data, uname), now)]
  }

  /** `uname` has a record that is locked at `now`. */
  predicate IsLockedOut(attempts: Table, uname: string, now: Millis)
  {
    uname in attempts && IsLocked(attempts[uname], now)
  }

  /** login once the name is normalised and the password trimmed, with `v` the
      verdict the store gives on them. The guards come first: a blank input or a
      locked name ends the call before the throttle and before `v` is looked at. */
  function LoginOn(attempts: Table, session: Session, uname: string, pwd: string,
                   now: Millis, later: Millis, v: Verdict): LoginOutcome
  {
    if |uname| == 0 || |pwd| == 0 then
      LoginOutcome(false, [BlankInputWaitMs], session, attempts)
    else if IsLockedOut(attempts, uname, now) then
      LoginOutcome(false, [LockedWaitMs], session, attempts)
    else
      var throttle := ThrottleMs(Get(attempts, uname));
      if v.Accepted() then
        LoginOutcome(true, [throttle], MintSession(v, later), attempts - {uname})
      else
        var waits := if v.StoreFailed? then [throttle, StoreErrorWaitMs] else [throttle];
        LoginOutcome(false, waits, session, TableAfterFailure(attempts, uname, now))
  }

  /** login(username, password) from the given session and attempt table. */
  function LoginStep(attempts: Table, session: Session, store: Store, kdf: KeyDerivation, t: Try): LoginOutcome
  {
    var uname := Normalize(t.username);
    var pwd := Trim(t.password);
    LoginOn(attempts, session, uname, pwd, t.now, t.later, CheckCredentials(store, kdf, uname, pwd, t.fault))
  }

  // ---------------------------------------------------------------------------
  // session expiry, current driver

  /** The expiry effect at time `now`: a session whose deadline has passed is
      replaced by `{ user: null }`; a session without a user or without a
      (truthy) deadline is left alone. */
  function CheckExpiry(s: Session, now: Millis): (r: Session)
    ensures r == s || r == SignedOut
    ensures r.user.Some? && s.expiresAt.Some? && s.expiresAt.value != 0 ==> now < s.expiresAt.value
    ensures IsAuthenticated(s, now) ==> r == s
  {
    if s.user.None? || s.expiresAt.None? || s.expiresAt.value == 0 then s
    else if s.expiresAt.value <= now then SignedOut
    else s
  }

  /** `session.user?.driverId || null`. */
  function DriverIdOf(s: Session): (r: Option<string>)
    ensures r.Some? ==> r.value != "" && s.user.Some? && s.user.value.driverId == r
    ensures r.None? ==> s.user.None? || s.user.value.driverId.None? || s.user.value.driverId == Some("")
  {
    if s.user.Some? && s.user.value.driverId.Some? && s.user.value.driverId.value != "" then s.user.value.driverId
    else None
  }

  // ---------------------------------------------------------------------------
  // changePassword

  const MsgEmptyPassword := "A nova senha não pode ser vazia."
  const MsgNotFound := "Usuário não encontrado."
  const MsgLegacyAccount := "Conta de usuário antiga. Contate um administrador para resetar sua senha."
  const MsgWrongPassword := "Senha atual incorreta."
  const MsgAdminOnly := "Apenas administradores podem resetar senhas."
  const MsgChanged := "Senha alterada com sucesso!"
  const MsgError := "Ocorreu um erro ao alterar a senha."

  /** Where the database fails during a password change, if it does. */
  datatype DocFault = NoDocFault | ReadFails | UpdateFails

  datatype ChangeResult = ChangeResult(success: bool, message: string)

  /** What changePassword returns and the store it leaves. */
  datatype ChangeOutcome = ChangeOutcome(result: ChangeResult, store: Store)

  /** `if (oldPassword)`: an old password was given and is not empty. */
  predicate GivesOldPassword(oldPassword: Option<string>)
  {
    oldPassword.Some? && oldPassword.value != ""
  }

  /** `session.user?.role === 'admin'`. */
  predicate IsAdminSession(s: Session)
  {
    s.user.Some? && s.user.value.role == Admin
  }

  /** The new salt and the hash of the new password as changePassword writes them
      (lines 162-163), hashing the password exactly as given. */
  function RotatedCredentialsAsWritten(kdf: KeyDerivation, newPassword: string, random: seq<byte>): (r: Option<(string, string)>)
    ensures r.Some? <==> random != []
    ensures r.Some? ==> r.value.0 == GenerateSalt(random) && HashPassword(kdf, newPassword, r.value.0) == Some(r.value.1)
  {
    var salt := GenerateSalt(random);
    assert random != [] ==> DecodeSalt(salt).Some? by {
      if random != [] {
        GeneratedSaltDecodes(random);
      }
    }
    match HashPassword(kdf, newPassword, salt)
    case None => None
    case Some(hash) => Some((salt, hash))
  }

  /** The new salt and hash, hashing the password as login will compare it:
      trimmed. This is the rotation the rest of the model uses. */
  function RotatedCredentials(kdf: KeyDerivation, newPassword: string, random: seq<byte>): (r: Option<(string, string)>)
    ensures r.Some? <==> random != []
    ensures r.Some? ==> r.value.0 == GenerateSalt(random)
    ensures r.Some? ==> VerifyPassword(kdf, Trim(newPassword), r.value.0, r.value.1) == Some(true)
  {
    RotatedCredentialsAsWritten(kdf, Trim(newPassword), random)
  }

  function Failed(message: string, store: Store): ChangeOutcome
  {
    ChangeOutcome(ChangeResult(false, message), store)
  }

  /** changePassword(userId, userType, newPassword, oldPassword?), acting under
      `session`, with `rotated` the new salt and hash it computes once every
      check has passed (None where hashing throws). */
  function ChangeOn(store: Store, session: Session, kdf: KeyDerivation, userId: string, userType: Role,
                    newPassword: string, oldPassword: Option<string>, rotated: Option<(string, string)>,
                    fault: DocFault): ChangeOutcome
  {
    if Trim(newPassword) == [] then Failed(MsgEmptyPassword, store)
    else if fault == ReadFails then Failed(MsgError, store)
    else
      var docs := Collection(store, userType);
      match FindById(docs, userId)
      case None => Failed(MsgNotFound, store)
      case Some(i) =>
        if GivesOldPassword(oldPassword) && !HasCredentials(docs[i]) then Failed(MsgLegacyAccount, store)
        else if GivesOldPassword(oldPassword)
                && VerifyPassword(kdf, oldPassword.value, docs[i].salt, docs[i].passwordHash).None? then
          Failed(MsgError, store)
        else if GivesOldPassword(oldPassword) && !Accepts(kdf, docs[i], oldPassword.value) then
          Failed(MsgWrongPassword, store)
        else if !GivesOldPassword(oldPassword) && !IsAdminSession(session) then Failed(MsgAdminOnly, store)
        else if rotated.None? || fault == UpdateFails then Failed(MsgError, store)
        else ChangeOutcome(ChangeResult(true, MsgChanged), UpdateCredentials(store, userType, i, rotated.value.0, rotated.value.1))
  }

  /** changePassword as written, with `random` the bytes the new salt is made
      of: the new password is hashed as given. */
  function ChangeStepAsWritten(store: Store, session: Session, kdf: KeyDerivation, userId: string, userType: Role,
                               newPassword: string, oldPassword: Option<string>, random: seq<byte>,
                               fault: DocFault): ChangeOutcome
  {
    ChangeOn(store, session, kdf, userId, userType, newPassword, oldPassword,
             RotatedCredentialsAsWritten(kdf, newPassword, random), fault)
  }

  /** changePassword corrected to hash the trimmed new password, the one login
      compares; the rest of the model uses this one. */
  function ChangeStep(store: Store, session: Session, kdf: KeyDerivation, userId: string, userType: Role,
                      newPassword: string, oldPassword: Option<string>, random: seq<byte>, fault: DocFault): ChangeOutcome
  {
    ChangeOn(store, session, kdf, userId, userType, newPassword, oldPassword,
             RotatedCredentials(kdf, newPassword, random), fault)
  }

  // ---------------------------------------------------------------------------
  // The provider

  /** The session provider: the persisted session, the persisted attempt table,
      the credential store it talks to and the key derivation it uses. */
  class SessionProvider {
    var session: Session
    var attempts: Table
    var store: Store
    const kdf: KeyDerivation

    /** Starts with the persisted session, or `{ user: null }` when there is none. */
    constructor (persisted: Option<Session>, table: Table, store: Store, kdf: KeyDerivation)
      ensures session == (if persisted.Some? then persisted.value else SignedOut)
      ensures attempts == table && this.store == store && this.kdf == kdf
    {
      session := if persisted.Some? then persisted.value else SignedOut;
      attempts := table;
      this.store := store;
      this.kdf := kdf;
    }

    /** `currentDriverId`. */
    function CurrentDriverId(): Option<string>
      reads this
    {
      DriverIdOf(session)
    }

    /** The expiry effect, run whenever the session changes and when its timer fires. */
    method ExpireIfDue(now: Millis)
      modifies this
      ensures session == CheckExpiry(old(session), now)
      ensures attempts == old(attempts) && store == old(store)
    {
      if session.user.None? || session.expiresAt.None? || session.expiresAt.value == 0 {
        return;
      }
      if session.expiresAt.value <= now {
        session := SignedOut;
      }
    }

    method Logout()
      modifies this
      ensures session == SignedOut
      ensures attempts == old(attempts) && store == old(store)
    {
      session := SignedOut;
    }

    /** Records a failed attempt in `data` and persists it. */
    method RecordFailure(data: Table, uname: string, now: Millis)
      modifies this`attempts
      ensures attempts == data[uname := NextFailure(Get(data, uname), now)]
    {
      var rec2 := Get(data, uname);
      attempts := data[uname := NextFailure(rec2, now)];
    }

    /** The `try` block of login: the admins are queried first, then the
        drivers; a query that throws ends the search with StoreFailed. */
    method QueryCredentials(uname: string, pwd: string, fault: QueryFault) returns (v: Verdict)
      ensures v == CheckCredentials(store, kdf, uname, pwd, fault)
    {
      if fault == AdminQueryFails {
        return StoreFailed;
      }
      var a := FindByName(store.admins, uname);
      if a.Some? && HasCredentials(store.admins[a.value]) {
        var admin := store.admins[a.value];
        var isValid := VerifyPassword(kdf, pwd, admin.salt, admin.passwordHash);
        if isValid.None? {
          return StoreFailed;
        }
        if isValid.value {
          return AdminAccepted(admin);
        }
      }
      if fault == DriverQueryFails {
        return StoreFailed;
      }
      var d := FindByName(store.drivers, uname);
      if d.Some? && HasCredentials(store.drivers[d.value]) {
        var driver := store.drivers[d.value];
        var isValid := VerifyPassword(kdf, pwd, driver.salt, driver.passwordHash);
        if isValid.None? {
          return StoreFailed;
        }
        if isValid.value {
          return DriverAccepted(driver);
        }
      }
      return Rejected;
    }

    method Login(username: string, password: string, now: Millis, later: Millis, fault: QueryFault)
      returns (ok: bool, waits: seq<nat>)
      modifies this
      ensures var o := LoginStep(old(attempts), old(session), store, kdf, Try(username, password, now, later, fault));
              ok == o.ok && waits == o.waits && session == o.session && attempts == o.attempts
      ensures store == old(store)
    {
      var uname := Normalize(username);
      var pwd := Trim(password);
      if |uname| == 0 || |pwd| == 0 {
        return false, [BlankInputWaitMs];
      }
      var rec := Get(attempts, uname);
      if rec.Some? && IsLocked(rec.value, now) {
        return false, [LockedWaitMs];
      }
      ok, waits := PastGuards(uname, pwd, now, later, fault);
    }

    /** The rest of login once the input is not blank and the name not locked:
        restart a stale record, wait the throttle, query, then either mint the
        session and clear the record or record the failure. */
    method PastGuards(uname: string, pwd: string, now: Millis, later: Millis, fault: QueryFault)
      returns (ok: bool, waits: seq<nat>)
      requires uname != [] && pwd != [] && !IsLockedOut(attempts, uname, now)
      modifies this
      ensures var o := LoginOn(old(attempts), old(session), uname, pwd, now, later,
                               CheckCredentials(store, kdf, uname, pwd, fault));
              ok == o.ok && waits == o.waits && session == o.session && attempts == o.attempts
      ensures store == old(store)
    {
      var data := attempts;
      var rec := Get(data, uname);
      if rec.Some? && IsStale(rec.value, now) {
        data := data[uname := Restarted(now)];
      }
      assert data - {uname} == attempts - {uname};
      var throttle := ThrottleMs(rec);
      var v := QueryCredentials(uname, pwd, fault);
      ghost var o := LoginOn(attempts, session, uname, pwd, now, later, v);
      if v.Accepted() {
        session := MintSession(v, later);
        attempts := data - {uname};
        assert o == LoginOutcome(true, [throttle], session, attempts);
        return true, [throttle];
      }
      ghost var failed := TableAfterFailure(attempts, uname, now);
      RecordFailure(data, uname, now);
      assert attempts == failed;
      assert o.session == session && o.attempts == attempts;
      if v.StoreFailed? {
        return false, [throttle, StoreErrorWaitMs];
      }
      return false, [throttle];
    }

    /** changePassword, with `random` the bytes `crypto.getRandomValues` fills the new salt with. */
    method ChangePassword(userId: string, userType: Role, newPassword: string, oldPassword: Option<string>,
                          random: seq<byte>, fault: DocFault) returns (r: ChangeResult)
      requires |random| == SaltBytes
      modifies this
      ensures var o := ChangeStep(old(store), session, kdf, userId, userType, newPassword, oldPassword, random, fault);
              r == o.result && store == o.store
      ensures session == old(session) && attempts == old(attempts)
    {
      ghost var rotated := RotatedCredentials(kdf, newPassword, random);
      ghost var o := ChangeOn(store, session, kdf, userId, userType, newPassword, oldPassword, rotated, fault);
      if Trim(newPassword) == [] {
        return ChangeResult(false, MsgEmptyPassword);
      }
      if fault == ReadFails {
        return ChangeResult(false, MsgError);
      }
      var docs := Collection(store, userType);
      var i := FindById(docs, userId);
      if i.None? {
        return ChangeResult(false, MsgNotFound);
      }
      var userToUpdate := docs[i.value];
      if GivesOldPassword(oldPassword) {
        if !HasCredentials(userToUpdate) {
          return ChangeResult(false, MsgLegacyAccount);
        }
        var isMatch := VerifyPassword(kdf, oldPassword.value, userToUpdate.salt, userToUpdate.passwordHash);
        if isMatch.None? {
          return ChangeResult(false, MsgError);
        }
        if !isMatch.value {
          return ChangeResult(false, MsgWrongPassword);
        }
      } else if !IsAdminSession(session) {
        return ChangeResult(false, MsgAdminOnly);
      }
      var newSalt := GenerateSalt(random);
      GenerateSaltIsBufferToHex(random);
      var newHash := HashPassword(kdf, Trim(newPassword), newSalt);
      assert rotated == Some((newSalt, newHash.value));
      if fault == UpdateFails {
        return ChangeResult(false, MsgError);
      }
      store := UpdateCredentials(store, userType, i.value, newSalt, newHash.value);
      return ChangeResult(true, MsgChanged);
    }
  }
}
