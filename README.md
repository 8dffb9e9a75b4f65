# Driver trip log: session, credentials and trip list

A Dafny model of the authentication core of a React trip-logging application
for drivers and administrators, and of the list that shows trips to them.

- **Session manager** (`context/SessionContext.tsx`). `login` normalises the name
  (trimmed, upper case) and trims the password. It refuses blank input. It also
  refuses a name locked by the attempt table. Otherwise it waits a throttle delay
  that grows with earlier failures and asks the `admins` collection, then the
  `drivers` collection. A success mints an eight-hour session and clears the
  name's record. A failure (rejected password, unknown name, store error) counts
  in a 15-minute window, and the fifth failure locks the name for 15 minutes.
  There is also an expiry effect that signs an expired session out, `logout`,
  `changePassword` (old-password check or admin reset, new salt and hash) and
  `currentDriverId`.
- **Credential hasher** (`utils/crypto.ts`): `bufferToHex`, `generateSalt`,
  `hashPassword` (PBKDF2-HMAC-SHA-256, 100,000 iterations, 256 bits, over the salt
  decoded from hexadecimal) and `verifyPassword`.
- **Trip list** (`components/trip/TripList.tsx`): a driver sees only their own
  trips, then a date filter or an inclusive month-range filter applies, and
  "clear filters" resets both.

Files:
- `wrappers.dfy`: Option.
- `js_string.dfy`: `trim`, `toUpperCase` and string `<`.
- `crypto.dfy`: the hasher.
- `credential_store.dfy`: the two collections as sequences of identities.
- `attempt_tracker.dfy`: the attempt record rules.
- `session_context.dfy`: the session manager.
- `session_properties.dfy`: what the manager promises.
- `trip_list.dfy`: the trip list.

The session manager is written twice:
- as pure functions (`LoginOn`/`LoginStep`, `CheckExpiry`, `ChangeOn`/`ChangeStep`)
  from the old state and the inputs to the outcome;
- as the class `SessionProvider`, whose fields (`session`, `attempts`, `store`)
  the methods update step by step as the source does. Each method's
  postcondition says its new state and result are those of the function.

`LoginStep` is `LoginOn` applied to the normalised name, the trimmed password and
the verdict the store gives. `ChangeStepAsWritten` is `ChangeOn` applied to the
salt and hash changePassword computes from the random bytes, hashing the new
password as given. `ChangeStep` is the corrected change, which hashes the trimmed
new password (see Findings); the class and the later lemmas use it. Most
properties are proved for every verdict, or every salt and hash pair, so they
hold for those in particular.

## Model

| member | source | states |
|---|---|---|
| `JsString.IsWhitespace` | context/SessionContext.tsx:49-50 | the ECMAScript WhiteSpace and LineTerminator code points, which `trim` removes |
| `JsString.Trim` | context/SessionContext.tsx:50 | `trim` returns no more characters than it is given; its meaning is stated by `TrimSpec` |
| `JsString.TrimTail` | context/SessionContext.tsx:49-50 | what `trim` keeps is the text after the leading white space, followed only by white space, and does not end with white space |
| `JsString.TrimSpec` | context/SessionContext.tsx:49-50 | `trim` keeps a contiguous slice of the input and drops only white space before and after it; the result is empty exactly when the input is all ECMAScript white space; otherwise it neither starts nor ends with white space |
| `JsString.TrimIdempotent` | context/SessionContext.tsx:50 | trimming twice is trimming once |
| `JsString.UpperChar` | context/SessionContext.tsx:49 | the upper case of one character (ASCII and Latin-1 letters); its properties are in `UpperCharKeepsWhitespace` |
| `JsString.ToUpperCase` | context/SessionContext.tsx:49 | `toUpperCase` keeps the length; `ToUpperCaseChars` states it character by character |
| `JsString.ToUpperCaseChars` | context/SessionContext.tsx:49 | `toUpperCase` maps the string character by character |
| `JsString.UpperCharKeepsWhitespace` | context/SessionContext.tsx:49 | upper-casing neither creates nor removes white space |
| `JsString.ToUpperCaseIdempotent` | context/SessionContext.tsx:49 | an upper-cased string is its own upper case |
| `JsString.LessThan` | components/trip/TripList.tsx:52 | string `<`: code unit by code unit, a proper prefix first; ordered by the three lemmas below |
| `JsString.AtMost` | components/trip/TripList.tsx:52 | string `<=`: the second string is not below the first |
| `JsString.LessThanIrreflexive` | components/trip/TripList.tsx:52 | no string is below itself under `<` |
| `JsString.LessThanTransitive` | components/trip/TripList.tsx:52 | string `<` is transitive |
| `JsString.LessThanTotal` | components/trip/TripList.tsx:52 | any two different strings are ordered one way or the other |
| `JsString.EmptyRange` | components/trip/TripList.tsx:52 | with the upper bound below the lower bound, no string passes `>= start && <= end` |
| `Crypto.ToHex` | utils/crypto.ts:4 | `n.toString(16)` has at least one digit, one below 16 and two from 16 to 255 |
| `Crypto.PadStart2` | utils/crypto.ts:4 | `padStart(2, '0')`: zeros in front up to two characters |
| `Crypto.SliceLast2` | utils/crypto.ts:16 | `slice(-2)`: the last two characters, or the whole string when shorter |
| `Crypto.ByteToHex` | utils/crypto.ts:4 | `toString(16).padStart(2,'0')` writes a byte as its high and low hexadecimal digit |
| `Crypto.SaltByteToHex` | utils/crypto.ts:16 | `('0' + toString(16)).slice(-2)` writes the same two digits as bufferToHex's padding |
| `Crypto.BufferToHex` | utils/crypto.ts:2-6 | the encoding has two characters per byte |
| `Crypto.BufferToHexSpec` | utils/crypto.ts:2-6 | the encoding is lower-case hexadecimal, byte k at characters 2k and 2k+1 |
| `Crypto.GenerateSalt` | utils/crypto.ts:13-17 | generateSalt over the random bytes; `GeneratedSaltDecodes` states its length and that it decodes to them |
| `Crypto.GenerateSaltIsBufferToHex` | utils/crypto.ts:13-17 | a generated salt is bufferToHex of the random bytes |
| `Crypto.IsLineTerminator` | utils/crypto.ts:37 | the characters `.` does not match without the `s` flag: \n, \r, U+2028, U+2029 |
| `Crypto.Matchable` | utils/crypto.ts:37 | the characters `.` can match: the string without its line terminators, never longer than it |
| `Crypto.MatchChunks` | utils/crypto.ts:37 | the successive matches of `/.{1,2}/g`, where `.` does not match a line terminator; there are none exactly when the string is empty or only line terminators |
| `Crypto.MatchChunksConcat` | utils/crypto.ts:37 | the matches put back together are the string without its line terminators |
| `Crypto.MatchChunksShape` | utils/crypto.ts:37 | each match has one or two characters and no line terminator |
| `Crypto.MatchPairs` | utils/crypto.ts:37 | `match` gives `null` exactly when nothing matches (an empty salt or one made only of line terminators), and the matches otherwise |
| `Crypto.HexValue` | utils/crypto.ts:37 | the value of a hexadecimal digit of either case, below 16; none for other characters |
| `Crypto.LeadingHexDigits` | utils/crypto.ts:37 | the length of the run of hexadecimal digits `parseInt(_, 16)` reads: no longer than the chunk, every character in it a digit |
| `Crypto.DigitsValue` | utils/crypto.ts:37 | the number a run of hexadecimal digits denotes; below 16 for one digit and below 256 for two |
| `Crypto.HasHexPrefix` | utils/crypto.ts:37 | the chunk starts with `0x` or `0X`, which `parseInt` skips for radix 16 |
| `Crypto.ParseIntHex` | utils/crypto.ts:37 | `parseInt(_, 16)` skips a leading `0x`/`0X`; it is NaN exactly when no hexadecimal digit follows, otherwise the value of the leading digits |
| `Crypto.PrefixOnlyChunk` | utils/crypto.ts:37 | the chunks `0x` and `0X` parse to NaN, while `0` parses to zero |
| `Crypto.ToUint8` | utils/crypto.ts:37 | storing into a Uint8Array turns NaN into 0 and keeps a value below 256 |
| `Crypto.ChunkBytes` | utils/crypto.ts:37 | one byte per match |
| `Crypto.DecodeSalt` | utils/crypto.ts:37 | the salt decode fails (`.map` on `null`) exactly when the salt is empty or made only of line terminators |
| `Crypto.LineBreakInSalt` | utils/crypto.ts:37 | a line break inside a salt is skipped (`ab\ncd` decodes to 0xab, 0xcd); a salt that is only a line break, or empty, fails |
| `Crypto.MatchAcrossLineBreak` | utils/crypto.ts:37 | the matches of `ab\ncd` are `ab` and `cd` |
| `Crypto.ParseHexPair` | utils/crypto.ts:37 | two hexadecimal digits parse to the byte they denote |
| `Crypto.HashPassword` | utils/crypto.ts:25-42 | hashing fails exactly when the salt is empty or made only of line terminators, and otherwise gives 64 characters |
| `Crypto.VerifyPassword` | utils/crypto.ts:51-54 | fails exactly when the salt is empty or made only of line terminators; true exactly when the recomputed hash equals the stored one |
| `Crypto.ParseByteHex` | utils/crypto.ts:37 | `parseInt(_, 16)` reads a byte's two-digit encoding back as the byte |
| `Crypto.MatchChunksOfHex` | utils/crypto.ts:37 | the matches in a buffer's encoding are the per-byte encodings |
| `Crypto.ByteChunk` | utils/crypto.ts:37 | the two-digit chunk that encodes a byte is stored back as that byte |
| `Crypto.ChunkBytesOfHex` | utils/crypto.ts:37 | converting the per-byte encodings with `parseInt` into a Uint8Array gives the bytes back |
| `Crypto.DecodeEncode` | utils/crypto.ts:37 | round trip: decoding the encoding of a non-empty buffer gives the buffer |
| `Crypto.GeneratedSaltDecodes` | utils/crypto.ts:13-17 | a generated salt has two characters per byte and decodes to the random bytes |
| `Crypto.HashWithGeneratedSalt` | utils/crypto.ts:34-41 | with a generated salt, PBKDF2 gets exactly the random bytes, SHA-256 and 100,000 iterations |
| `Crypto.HashIsLowerHex` | utils/crypto.ts:40-41 | a hash is 64 lower-case hexadecimal digits |
| `Crypto.VerifyOwnHash` | utils/crypto.ts:51-54 | a password verifies against its own hash |
| `Crypto.BufferToHexInjective` | utils/crypto.ts:2-6 | different derived keys give different hashes |
| `CredentialStore.Collection` | context/SessionContext.tsx:132 | `userType === 'driver' ? 'drivers' : 'admins'` |
| `CredentialStore.HasCredentials` | context/SessionContext.tsx:79 | `salt && passwordHash`: both are non-empty |
| `CredentialStore.FindByName` | context/SessionContext.tsx:75-77 | `where('name','==',_).limit(1)` finds the first document with that name, or reports that none has it |
| `CredentialStore.FindById` | context/SessionContext.tsx:139-141 | `doc(id).get()` finds the document with that id, or reports that none exists |
| `CredentialStore.UpdateCredentials` | context/SessionContext.tsx:165 | `update` sets salt and hash of that one document; every other document, and the other collection, is unchanged |
| `AttemptTracker.IsLocked` | context/SessionContext.tsx:63 | a record is locked while `now` is before a (non-zero) `lockUntil`; `LockedIff` says when that happens |
| `AttemptTracker.IsStale` | context/SessionContext.tsx:67 | a record is stale when more than 15 minutes passed since its last failure |
| `AttemptTracker.Restarted` | context/SessionContext.tsx:67-69 | a stale record restarts at count 0, unlocked and inside the window |
| `AttemptTracker.ThrottleMs` | context/SessionContext.tsx:70 | the delay is 300 ms plus 150 ms per counted failure below ten, and 1800 ms from ten on; 300 ms without a record |
| `AttemptTracker.NextFailure` | context/SessionContext.tsx:118-121 | a failure sets `last` to now; the count restarts at 1 outside the window and grows by one inside it; five or more lock until now + 15 min; fewer keep the old lock |
| `AttemptTracker.LockedIff` | context/SessionContext.tsx:63 | in a record the tracker wrote, a lock is active exactly within 15 min of the fifth-or-later failure |
| `AttemptTracker.NextFailureWellFormed` | context/SessionContext.tsx:110-113 | the record a failure writes keeps the table invariant |
| `SessionContext.IsAuthenticated` | context/SessionContext.tsx:36-38 | the session has a user and a deadline that lies after `now` |
| `SessionContext.Normalize` | context/SessionContext.tsx:49 | the key is no longer than the name |
| `SessionContext.NormalizeSpec` | context/SessionContext.tsx:49-51 | the key is empty exactly for a blank name, and otherwise has no white space at either end |
| `SessionContext.Accepts` | context/SessionContext.tsx:79-81 | an identity accepts a password when it has salt and hash and the password verifies against them |
| `SessionContext.Ask` | context/SessionContext.tsx:76-81 | asking one collection matches exactly when the first document with the name accepts the password, and throws exactly when that document has salt and hash and the salt cannot be decoded |
| `SessionContext.CheckCredentials` | context/SessionContext.tsx:73-107 | admins are asked first, then drivers; each verdict holds exactly in its case; a query that throws, or a verification that throws, ends the search as a store failure |
| `SessionContext.TableAfterFailure` | context/SessionContext.tsx:67-69 | the table after the attempt's own failure: a stale record restarted, then the next failure recorded; its properties are in `FailedLoginRecord` |
| `SessionContext.IsLockedOut` | context/SessionContext.tsx:62-63 | the name has a record locked at `now` |
| `SessionContext.LoginOn` | context/SessionContext.tsx:51-123 | login's decision from the normalised inputs and the store's verdict; `LoginOkIff`, `FailedLoginRecord` and `SuccessfulLogin` state it |
| `SessionContext.LoginStep` | context/SessionContext.tsx:48-50 | login of the raw inputs: the name normalised, the password trimmed, the store's verdict on them |
| `SessionContext.GivesOldPassword` | context/SessionContext.tsx:146 | `if (oldPassword)`: an old password was passed and is not the empty string |
| `SessionContext.IsAdminSession` | context/SessionContext.tsx:157 | `session.user?.role === 'admin'` |
| `SessionContext.ChangeOn` | context/SessionContext.tsx:135-171 | changePassword's decision for a given new salt and hash; `ChangeFailureReasons` and `ChangeSucceedsIff` state it |
| `SessionContext.ChangeStepAsWritten` | context/SessionContext.tsx:130-172 | changePassword as written: the new password is hashed as given; `ChangeAsWrittenRotates` states what it writes |
| `SessionContext.ChangeStep` | context/SessionContext.tsx:162-163 | the corrected changePassword, hashing the trimmed new password; `ChangeSuccessRotates` states what it writes |
| `SessionContext.MintSession` | context/SessionContext.tsx:82-83 | the minted session is authenticated and expires eight hours after minting, as `name (Admin)` with no driver id or as the driver with its id |
| `SessionContext.CheckExpiry` | context/SessionContext.tsx:35-46 | the effect either keeps the session or signs it out; a kept user's deadline lies ahead; a live session is kept |
| `SessionContext.DriverIdOf` | context/SessionContext.tsx:174 | `currentDriverId` is the user's non-empty driver id, or null |
| `SessionContext.RotatedCredentialsAsWritten` | context/SessionContext.tsx:162-163 | as written: the new salt is generated from the random bytes and the hash is of the untrimmed new password |
| `SessionContext.RotatedCredentials` | context/SessionContext.tsx:162-163 | corrected: the new salt is generated from the random bytes and the trimmed new password verifies against the pair |
| `SessionContext.SessionProvider.constructor` | context/SessionContext.tsx:32 | the provider starts from the persisted session, or `{ user: null }` |
| `SessionContext.SessionProvider.ExpireIfDue` | context/SessionContext.tsx:35-46 | the session becomes `CheckExpiry` of the old one; nothing else changes |
| `SessionContext.SessionProvider.Logout` | context/SessionContext.tsx:126-128 | the session becomes `{ user: null }`; nothing else changes |
| `SessionContext.SessionProvider.RecordFailure` | context/SessionContext.tsx:118-122 | the table becomes the working copy with the name's record replaced by the next failure |
| `SessionContext.SessionProvider.QueryCredentials` | context/SessionContext.tsx:73-106 | the imperative queries give the `CheckCredentials` verdict |
| `SessionContext.SessionProvider.Login` | context/SessionContext.tsx:48-124 | result, waits, new session and new table are those of `LoginStep`; the store is unchanged |
| `SessionContext.SessionProvider.PastGuards` | context/SessionContext.tsx:67-123 | past the guards: result, waits, new session and new table are those of `LoginOn` with the store's verdict; the store is unchanged |
| `SessionContext.SessionProvider.CurrentDriverId` | context/SessionContext.tsx:174 | `currentDriverId` is `DriverIdOf` the current session |
| `SessionContext.SessionProvider.ChangePassword` | context/SessionContext.tsx:130-172 | result and new store are those of `ChangeStep`; session and table are unchanged |
| `SessionProperties.NormalizeIdempotent` | context/SessionContext.tsx:49 | normalising an already normalised key gives the key back, so the key a record is stored under is the key a later login looks up |
| `SessionProperties.BlankLoginChangesNothing` | context/SessionContext.tsx:51-54 | blank name or password: false after 300 ms, session and table unchanged |
| `SessionProperties.LockedLoginRefused` | context/SessionContext.tsx:62-66 | a locked name: false after 500 ms, nothing written; the outcome does not depend on password, store, hasher or faults |
| `SessionProperties.ThrottleBeforeQuery` | context/SessionContext.tsx:70 | past the guards the first wait is the throttle of the record as read, between 300 and 1800 ms |
| `SessionProperties.LoginOkIff` | context/SessionContext.tsx:48-124 | login returns true exactly when neither input is blank, the name is not locked and an identity accepts the password |
| `SessionProperties.FailedLoginRecord` | context/SessionContext.tsx:107-123 | a failed attempt writes only the name's record (count, last, lock as the rules say); waits add 400 ms on a store error; session unchanged |
| `SessionProperties.SuccessfulLogin` | context/SessionContext.tsx:79-103 | success mints the eight-hour session of the accepting identity and deletes only the name's record |
| `SessionProperties.LoginKeepsTableWellFormed` | context/SessionContext.tsx:61-123 | login keeps the table invariant |
| `SessionProperties.RejectedAttemptCounts` | context/SessionContext.tsx:118-121 | a rejected attempt within the window adds one to the count, locking at five |
| `SessionProperties.RejectedRunPrefix` | context/SessionContext.tsx:118-121 | a prefix of a run of rejected attempts is one too |
| `SessionProperties.FailuresAccumulate` | context/SessionContext.tsx:58-121 | n <= 5 rejected attempts in a row, each within the window, leave count n at the last time, locked from the fifth |
| `SessionProperties.FiveFailuresLockOut` | context/SessionContext.tsx:58-66 | after five rejected attempts in the window, every login on that name fails at once for 15 minutes, whatever the password, and changes nothing |
| `SessionProperties.LockExpiresThenLoginClears` | context/SessionContext.tsx:63-103 | once the lock expires, an accepted password logs in and clears the record |
| `SessionProperties.SessionLifetime` | context/SessionContext.tsx:35-46 | a minted session is kept before its eight hours end and signed out from then on |
| `SessionProperties.ExpiryLeavesNoStaleUser` | context/SessionContext.tsx:35-46 | after the expiry check, a session with a deadline that still has a user is authenticated |
| `SessionProperties.LoginDriverScope` | context/SessionContext.tsx:174 | an admin login gives no current driver id; a driver login gives the driver's id |
| `SessionProperties.LoginScopesTripList` | components/trip/TripList.tsx:40-62 | after a driver login the list holds only that driver's trips; after an admin login the cleared list holds every trip |
| `SessionProperties.ChangeFailureLeavesStore` | context/SessionContext.tsx:136-171 | a failed change writes nothing |
| `SessionProperties.ChangeFailureReasons` | context/SessionContext.tsx:136-160 | each refusal has its message, checked in order: blank, read error, not found, legacy account, a stored salt that makes the old-password check throw (error), wrong password, not an admin |
| `SessionProperties.ChangeSucceedsIff` | context/SessionContext.tsx:130-172 | a change succeeds exactly when the password is not blank, the store works, the identity exists, hashing succeeds, and the old password verifies or the session is an admin's |
| `SessionProperties.ChangeSuccessShape` | context/SessionContext.tsx:162-166 | a successful change writes the new pair into the identity the id names |
| `SessionProperties.ChangeSuccessRotates` | context/SessionContext.tsx:162-166 | corrected change: the new salt comes from the random bytes, the trimmed new password verifies, and every other identity is unchanged |
| `SessionProperties.ChangeAsWrittenRotates` | context/SessionContext.tsx:162-166 | change as written: the new salt comes from the random bytes, the new password as given verifies, and every other identity is unchanged |
| `SessionProperties.OtherPasswordStopsVerifying` | context/SessionContext.tsx:162-166 | after a corrected change, a password with a derived key different from the trimmed new password's no longer verifies |
| `SessionProperties.OtherPasswordStopsVerifyingAsWritten` | context/SessionContext.tsx:162-166 | after a change as written, a password whose derived key differs from that of the new password as given no longer verifies |
| `SessionProperties.FindByNameSameNames` | context/SessionContext.tsx:92 | the name lookup depends only on the names |
| `SessionProperties.SameNamesDriverAccepted` | context/SessionContext.tsx:91-100 | when names are unchanged and no admin has the name, a driver who accepts the password is the login verdict |
| `SessionProperties.ChangedPasswordLogsIn` | context/SessionContext.tsx:162-165 | a changed driver password logs in, typed with or without surrounding space |
| `SessionProperties.AsWrittenRotationRejectsLogin` | context/SessionContext.tsx:163 | as written, a new password with surrounding space whose derived key differs from the trimmed one never verifies at login |
| `SessionProperties.RotationMatchesLogin` | context/SessionContext.tsx:162-163 | the corrected rotation accepts every spelling login trims to the same password |
| `TripList.Filter` | components/trip/TripList.tsx:41 | `filter` keeps exactly the accepted elements, each as often as the input holds it, in order |
| `TripList.FilterKeepsAll` | components/trip/TripList.tsx:45-55 | a filter accepting everything returns the list |
| `TripList.VisibleTo` | components/trip/TripList.tsx:40-42 | a trip is visible when no driver is signed in or it is that driver's |
| `TripList.DisplayedTrips` | components/trip/TripList.tsx:40-42 | the displayed trips are exactly the visible ones, each as often as in the input, in order; with a driver signed in, all are that driver's |
| `TripList.YearValue` | components/trip/TripList.tsx:50-51 | the year the four leading digits of a date denote |
| `TripList.IsIsoDate` | components/trip/TripList.tsx:50 | the dates `new Date(d + 'T00:00:00')` accepts: `YYYY-MM-DD` naming a day of the calendar, leap years included |
| `TripList.DecimalText` | components/trip/TripList.tsx:51 | `String` of a whole number is never empty; `FourDigitYear` and `ShortYear` state its digits |
| `TripList.PadTwo` | components/trip/TripList.tsx:51 | `padStart(2, '0')` of the month number; `YearMonthSpec` shows it gives back the month's two digits |
| `TripList.YearMonth` | components/trip/TripList.tsx:50-51 | the `YYYY-MM` of a trip date, from `getFullYear` and the padded month; stated by `YearMonthSpec` |
| `TripList.AppendDigit` | components/trip/TripList.tsx:51 | the decimal text of `10 * q + e` is that of `q` followed by the digit `e` |
| `TripList.FourDigitYear` | components/trip/TripList.tsx:51 | a year from 1000 on prints as its four digits |
| `TripList.ShortYear` | components/trip/TripList.tsx:51 | a year before 1000 prints with at most three digits |
| `TripList.YearMonthSpec` | components/trip/TripList.tsx:50-51 | a valid date from the year 1000 on gives its first seven characters; a valid date before 1000 gives a shorter string ending in its `-MM` (no zero padding of the year); an invalid one gives `NaN-NaN` |
| `TripList.InMonthRange` | components/trip/TripList.tsx:52 | `tripYearMonth >= startMonth && tripYearMonth <= endMonth` under string order |
| `TripList.KeepTrip` | components/trip/TripList.tsx:45-55 | the date filter compares the start date, the month filter the range, and otherwise every trip is kept |
| `TripList.FilteredTrips` | components/trip/TripList.tsx:45-55 | the displayed trips `KeepTrip` accepts; `FilteredTripsSpec` states it |
| `TripList.FilterActive` | components/trip/TripList.tsx:46-49 | the date filter is on with a date, or the month filter is on with both months |
| `TripList.ClearFilters` | components/trip/TripList.tsx:57-62 | after clearing, no filter is active |
| `TripList.FilteredTripsSpec` | components/trip/TripList.tsx:40-55 | the list is exactly the visible trips the filters keep, each as often as in the input, in order; a driver sees no other driver's trip |
| `TripList.NoDriverShowsAll` | components/trip/TripList.tsx:40-42 | with no driver signed in, every trip is displayed |
| `TripList.InactiveFiltersKeepAll` | components/trip/TripList.tsx:45-55 | a filter that is off or not filled in keeps every displayed trip |
| `TripList.DateFilterExact` | components/trip/TripList.tsx:46-48 | the date filter keeps exactly the trips starting on that date |
| `TripList.MonthFilterRange` | components/trip/TripList.tsx:49-53 | the month filter keeps exactly the trips whose month is in the inclusive range, and none when the range is reversed |
| `TripList.ClearedFiltersShowAllVisible` | components/trip/TripList.tsx:57-62 | after clearing, every visible trip is listed |

## Left out

- Key derivation: the Web Crypto PBKDF2 primitive is a function-valued parameter `kdf`. The model does not compute HMAC-SHA-256; it gets only determinism and the 32-byte length.
- Random salt bytes: `crypto.getRandomValues` is replaced by an input sequence. Properties that hold only with high probability, such as distinct salts, are not stated.
- Clocks and timers: `Date.now()` is an input. Login reads it twice (`now`, then `later` when minting). The `setTimeout` waits are returned as a list of delays. The expiry timer is modelled by calling `ExpireIfDue` at the firing time; timer cancellation is not modelled.
- Persistence and concurrency: `localStorage` JSON, React state updates and concurrent logins are not modelled. The table is a map field. The persisted session enters through the constructor.
- Database: the database is two sequences of identities. `limit(1)` takes the first match in sequence order. Failures are the explicit inputs `QueryFault` and `DocFault`. Network behaviour is not modelled.
- Spread override: when a document has its own `id` field, `{ id, ...data() }` would use that field instead of the document id. The model takes the document id.
- `currentDriver`: the `getDriver` lookup in the trip context is not part of this model.
- `toUpperCase`: modelled for ASCII and Latin-1 letters only. Multi-character mappings such as `ß` and scripts beyond Latin-1 are not modelled.
- String order: strings are compared code unit by code unit as Dafny `char`s. Characters outside the Basic Multilingual Plane are not split into UTF-16 surrogates.
- MatchChunks: counts Unicode characters, where `/.{1,2}/g` without the `u` flag counts UTF-16 code units. A stored salt with a character outside the Basic Multilingual Plane is cut differently: for `"a😀"` the source matches `"a\uD83D"` and `"\uDE00"` (bytes 10, 0), the model one chunk (byte 10). Generated salts are hexadecimal and never contain such characters.
- ParseIntHex: `parseInt(_, 16)` is modelled as the value of the hexadecimal digits that lead the chunk after an optional `0x`/`0X`, NaN when there are none. It does not skip leading white space or read a sign, so a stored salt with a chunk such as `" a"`, `"-1"` or `"+f"` decodes to 0 where `parseInt` gives 10, -1 (byte 255) and 15. Generated salts never contain such chunks.
- Web Crypto failures: `importKey` or `deriveBits` throwing (for instance with no `crypto.subtle` outside a secure context) is not computed. In login it would take the same catch path as a query that throws, which the `QueryFault` inputs produce. In changePassword it gives the same error message, with nothing written, as the `DocFault` inputs do.
- Database handle: `getFirebaseDb()` (SessionContext.tsx line 71) and `collection(...).doc(userId)` (lines 131-133) run outside the `try`. If they threw, login and changePassword would reject their promise instead of taking the failure path. The model has them never throw.
- Dates: `YearMonth` treats a well-formed `YYYY-MM-DD` calendar date as valid and everything else as invalid. JavaScript's lenient roll-over of other strings, and expanded six-digit years, are not modelled.
- `SessionProvider.Login`: its postcondition is stated through `LoginStep`, which gets the store's verdict up front. The method queries the store only past the guards, and the lemmas show the guarded outcomes do not depend on the verdict.
- `SessionProvider.ChangePassword`: requires the 16 random bytes `generateSalt()` always draws. It hashes the trimmed password (see Findings).
- ChangeStep: hashes the trimmed new password, where line 163 hashes it as given (see Findings). The source's own behaviour is `ChangeStepAsWritten`, and `ChangeAsWrittenRotates` states what it writes.
- ChangeSuccessRotates: is about the corrected `ChangeStep`, so the password that verifies is the trimmed one. For the change as written see `ChangeAsWrittenRotates`.
- OtherPasswordStopsVerifying: is about the corrected `ChangeStep`, where the new pair is the hash of the trimmed password.
- ChangedPasswordLogsIn: is about the corrected `ChangeStep`. As written, `AsWrittenRotationRejectsLogin` shows the opposite for a password with surrounding white space.

## Findings

| source | as written | input that shows it | evidently intended | confidence | as-written member | corrected member |
|---|---|---|---|---|---|---|
| context/SessionContext.tsx:163 | `changePassword` hashes `newPassword` as given, but `login` compares the trimmed password (line 50) | new password `" secret "`: the stored hash is of `" secret "`, every login tries `"secret"`, so the account is locked out of password login whenever the two derive different keys | hash the trimmed password, as the blank check at line 136 and login both trim | medium, not executed | `SessionContext.RotatedCredentialsAsWritten`, `SessionContext.ChangeStepAsWritten`, `SessionProperties.ChangeAsWrittenRotates`, `SessionProperties.AsWrittenRotationRejectsLogin` | `SessionContext.RotatedCredentials`, `SessionContext.ChangeStep`, `SessionProperties.RotationMatchesLogin`, `SessionProperties.ChangedPasswordLogsIn` |
