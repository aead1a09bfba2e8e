# A verified model of tiBackup's daemon and web layer

tiBackup is a backup daemon with a web interface. This project models the parts of it whose meaning
is a statement about whole histories or about strings that stand for structure, and proves those
statements for every input and every run:

- `SessionHistory`, `LoginThrottle`, `LoginGuesses`, `Sessions`: web sessions with sliding expiry and
  lazy deletion, and the per-client lockout. The store is a class; a ghost history of calls says what
  its tables must answer.
- `Cookies`, `ApiAuth`: reading the session cookie, the guard before every write, setup, login, logout.
- `Bits`, `PasswordHash`, `PasswordRuns`: the stored password, its two formats, migration, and which
  passwords are accepted after any run.
- `Scheduler`, `SlotGuarantees`: the minute check with its persisted last runs, with a crash possible
  after any effect, and when exactly a slot launches.
- `LogLines`, `LogTail`, `RunLog`: the daemon log from writer to browser, and viewing and polling a
  run's log while it grows.
- `JsonMap`, `ServerStore`: jobs and servers through JSON, secrets kept across updates, and host-key
  pinning against concurrent updates.
- `BrowsePath`: confinement of directory browsing, going up and down, breadcrumbs, remote paths.
- `Text`, `Wrappers`: splitting, trimming and searching strings; optional values.

Code that updates state is a class or a method with its loops; each is tied to a function of the old
state, and the lemmas are about those functions and about runs of them. What such a function means is
stated apart from it: by history, by position in a sequence, by the calendar, or by the text itself.

Choices that matter for reading the statements:

- The clock is a parameter of each call, in seconds since the epoch. Fresh tokens, salts and uuids are
  parameters. PBKDF2, SHA-256 and the UTF-8 encoding are uninterpreted functions.
- A store method is one critical section of the store's mutex. Requests run one at a time on the main
  thread; SSH connection tests end on worker threads.
- `shouldRun` is in a library that is not part of this model's sources; the scheduler states it from
  its unit tests: a slot today, slot <= now <= slot + grace, last run before the slot. Grace and the
  calendar are parameters, times are local seconds.
- Text is a sequence of characters. File content read as bytes is not decoded.
- JSON keys are constructors of a datatype instead of spelled strings, which keeps distinct keys
  distinct; numbers are reals, so fractions and out-of-range integers meet the same defaults.

Where code and documentation disagree the code is followed:

- The header of the session store says the CSRF lookup is empty for an expired session. The lookup
  reads no clock; `CsrfForIsEmptyUnlessLiveIff` says when the promise holds. The composed guard is
  not affected (`WritePassesIff`, `CsrfAfterValidate`).
- A host key once pinned is meant to stay. An update that read the record before the pin and saves
  after it removes the key again: `LostPin`, `PinSurvivesIff`.
- A rotated log is meant to be followed from its start. If it has grown past the old cursor before the
  next notification, its start is skipped, and what was unread of the old file is gone:
  `MissedRotation`, `UnreadEndIsLost`, `NothingLostIff`.
- Each recorded slot is meant to run. A crash between record and launch loses it: `CrashLosesSlot`.
- A saved update is meant to stay. A connection test that started before it saves its old snapshot when
  it ends: `TestUndoesUpdate`, `LastUpdateStandsIff`.
- The pattern for server ids is meant to admit hexadecimal digits and dashes only. Its end mark also
  matches before a closing line end: `ValidUuidIff`.
- The local mkdir answers `//name` for a directory made under `/`: `MkdirPathIsCanonicalIff`.

## Model

| member | source | states |
|---|---|---|
| `Sessions.SessionStore.constructor` | webserver/auth/sessionstore.cpp:34-37 | A new store has no sessions and no gates, and its table agrees with the empty history. |
| `Sessions.SessionStore.CreateSession` | webserver/auth/sessionstore.cpp:46-60 | Expired rows are purged, the new row is stored with its CSRF token and the clock, everything else is untouched, and the table still agrees with the history of calls. |
| `Sessions.SessionStore.Validate` | webserver/auth/sessionstore.cpp:62-81 | The answer is true exactly when the token is live by the history of calls; a success slides the expiry, an expired row is deleted, other rows stay. |
| `Sessions.SessionStore.GetCsrf` | webserver/auth/sessionstore.cpp:83-90 | The row's CSRF token, or empty without a row; no clock is read. |
| `Sessions.SessionStore.DropSession` | webserver/auth/sessionstore.cpp:92-96 | Exactly the token's row goes, and the drop enters the history. |
| `Sessions.SessionStore.PurgeExpired` | webserver/auth/sessionstore.cpp:135-145 | The erase-while-iterating loop leaves exactly the rows touched within the TTL, unchanged. |
| `Sessions.SessionStore.LoginAllowed` | webserver/auth/sessionstore.cpp:98-112 | False exactly while the client's lock lasts; an elapsed lock is forgotten, nothing else changes. |
| `Sessions.SessionStore.LoginFailed` | webserver/auth/sessionstore.cpp:114-127 | One more failure is counted, the fifth sets a 300 s lock and restarts the count, and during a lock nothing moves; counts stay below five. |
| `Sessions.SessionStore.LoginSucceeded` | webserver/auth/sessionstore.cpp:129-133 | The client's gate is forgotten, the others stay. |
| `SessionHistory.TableDecidesLiveness` | webserver/auth/sessionstore.cpp:46-96 | After any calls in clock order the table accepts a token exactly when the history says created, not dropped since, and every gap between touches up to now within the TTL. |
| `SessionHistory.PurgingIsInvisible` | webserver/auth/sessionstore.cpp:135-145 | A store that purges and one that never does give the same `validate` answers on every call sequence. |
| `SessionHistory.PurgedIsNeverAccepted` | webserver/auth/sessionstore.cpp:135-145 | From any table: a row a purge removes could never have been accepted later, whatever is called, unless the token is minted again. |
| `SessionHistory.OnlyLiveRowsAfterCreate` | webserver/auth/sessionstore.cpp:46-60 | Right after a session is created the table holds its token and, of all others, exactly the live ones, so the purge removes every dead row and no live one. |
| `SessionHistory.CsrfAfterValidate` | webserver/auth/sessionstore.cpp:62-90 | Asked right after a validation, as the guard does, the CSRF lookup gives the minted token of a live session and nothing otherwise; an expired row is gone by then. |
| `SessionHistory.DeadStaysDead` | webserver/auth/sessionstore.cpp:62-81 | A token that is dead at some time is dead at every later time, whatever is called, unless it is minted again. |
| `SessionHistory.AcceptsIffLive` | webserver/auth/sessionstore.cpp:67-80 | In a table that agrees with its history the lookup decides liveness, and an accepted row holds the CSRF token minted with the session. |
| `SessionHistory.CsrfForIsEmptyUnlessLiveIff` | webserver/auth/sessionstore.cpp:83-90 | The CSRF lookup alone keeps its header comment's promise (empty when expired) exactly when the token has no expired row waiting for deletion. |
| `SessionHistory.CsrfForIgnoresExpiry` | webserver/auth/sessionstore.h:47-48 | An expired session whose CSRF token the lookup alone still returns. |
| `LoginThrottle.GuessRateIsBounded` | webserver/apirouter.cpp:434-453 | N wrong guesses by one client with no success in between take at least 300 * ((N - 1) / 5) seconds, anywhere in a longer run, whatever other clients do and whatever the gates held at the start. |
| `LoginThrottle.FailuresAreThrottled` | webserver/auth/sessionstore.cpp:98-127 | The same for any two failed checks i < j of a run: they are at least 300 * ((j - i) / 5) seconds apart. |
| `LoginThrottle.FailsStayBelowMax` | webserver/auth/sessionstore.cpp:98-133 | No order of gate calls, from any number of handlers, lets a failure count reach five. |
| `LoginThrottle.RetriesKeepTheLock` | webserver/auth/sessionstore.cpp:114-127 | Until a lock ends, any calls but a recorded success leave the client's gate exactly as it was, so retries never move the end. |
| `LoginGuesses.GateFollowsHistory` | webserver/apirouter.cpp:434-453 | From a new store, after any run of logins with any passwords and stored credentials: a client is refused exactly when its wrong passwords since its last right one are a multiple of five and the last of them is less than 300 s old. |
| `LoginGuesses.GuessesAreThrottled` | webserver/apirouter.cpp:434-453 | Wrong passwords of one client (a hash is stored and does not accept them) that got past the gate, with no right one of that client between: any two are at least 300 s apart for every five from one to the other, from any gates, whatever other clients do and however the stored password changes. |
| `Cookies.CookieValue` | webserver/apirouter.cpp:313-325 | The loop returns the value of the first piece of the header that is a pair of that name. |
| `Cookies.ReadsFirstCookie` | webserver/apirouter.cpp:313-325 | For every header written as section 4.2.1 of RFC 6265 describes, the result is the value of the first cookie of that name (empty when there is none); values may contain equals signs. |
| `Cookies.FirstPairWins` | webserver/apirouter.cpp:313-325 | For any pieces at all, well formed or not: the value of the first piece that is, white space around it apart, the name, an equals sign and a value; empty when there is none. |
| `ApiAuth.ApiRouter.Guard` | webserver/apirouter.cpp:351-362 | `isAuthed` then `csrfOk`: the verdict is the one the history of the store demands, and the request counts as a touch of its session. |
| `ApiAuth.WritePassesIff` | webserver/apirouter.cpp:351-362 | A write is unauthorized exactly when the first session cookie names no live session; otherwise it passes exactly when the header equals the nonempty CSRF token minted with that very session, and is forbidden if not. |
| `ApiAuth.ApiRouter.Setup` | webserver/apirouter.cpp:410-431 | Refused once a hash is stored or for a short password; otherwise fresh salt, hash and session are stored. |
| `ApiAuth.ApiRouter.Login` | webserver/apirouter.cpp:434-471 | Refused while the gate is shut, sent to setup without a hash, rejected for a password the stored hash does not accept, accepted otherwise; gate, credentials, migration and new session change as the models say. |
| `ApiAuth.LoginMovesGate` | webserver/apirouter.cpp:434-453 | What a login does to the gates, by what the password check says: nothing while locked; before setup an elapsed lock is forgotten; a wrong password is one more failure and the fifth a 300 s lock; a right one clears the gate; other clients are untouched. |
| `ApiAuth.ApiRouter.Logout` | webserver/apirouter.cpp:474-481 | The session is dropped exactly when the guard passes. |
| `ApiAuth.LogoutIsFinal` | webserver/apirouter.cpp:474-481 | After a logout no later request with that token gets past the guard unless the token is minted again. |
| `Bits.DifferenceAccumulates` | webserver/auth/passwordhash.cpp:41-44 | Or-ing one more exclusive-or into the difference leaves it zero exactly when it was zero and the two bytes are equal. |
| `PasswordHash.ConstTimeEqual` | webserver/auth/passwordhash.cpp:37-45 | The comparison without early exit decides equality of the two byte strings. |
| `PasswordHash.LegacyHashHex` | webserver/auth/passwordhash.cpp:48-56 | The loop computes the hexadecimal end of the digest chain: 100000 digests, the first of salt and password, each other one of salt and the digest before it. |
| `PasswordHash.LegacyDigestEndsChain` | webserver/auth/passwordhash.cpp:48-56 | The legacy digest is the last element of every such chain. |
| `PasswordHash.LegacyChainExists` | webserver/auth/passwordhash.cpp:48-56 | There is such a chain for every password and salt. |
| `PasswordHash.Verify` | webserver/auth/passwordhash.cpp:77-103 | The method with its early exits decides the `Verifies` predicate, which the next two rows pin down for every stored text. |
| `PasswordHash.NewFormatAcceptsIff` | webserver/auth/passwordhash.cpp:83-98 | Of all texts that start with the scheme prefix, malformed ones included, exactly those accept a password that are the prefix, a positive 32-bit count, a dollar sign and the hexadecimal of the PBKDF2 key with that count. |
| `PasswordHash.LegacyAcceptsIff` | webserver/auth/passwordhash.cpp:100-102 | Any other text accepts a password exactly when it is the hexadecimal end of that password's digest chain. |
| `PasswordHash.VerifiesOwnFormat` | webserver/auth/passwordhash.cpp:67-103 | For every password pair, nonempty salt and positive 32-bit count: a hash made from p1 accepts p2 exactly when their derived keys agree, and it needs no upgrade. |
| `PasswordHash.VerifiesLegacyFormat` | webserver/auth/passwordhash.cpp:100-108 | A legacy hash accepts a password exactly when the digest chains of the two passwords end alike, and is always told apart from the new format. |
| `PasswordHash.HashFields` | webserver/auth/passwordhash.cpp:67-75 | A stored hash is the scheme, the count and the hexadecimal PBKDF2 key of 32 bytes, joined by dollar signs, and splits back into these three. |
| `PasswordHash.HexRoundTrip` | webserver/auth/passwordhash.cpp:60-69 | Decoding the hexadecimal of any bytes gives the bytes back, so a generated salt reaches the key derivation unchanged. |
| `PasswordHash.ToHexAt` | webserver/auth/passwordhash.cpp:60-75 | Each byte is written as two lower-case digits, the high one first. |
| `PasswordHash.PrintIntRoundTrip` | webserver/auth/passwordhash.cpp:89-91 | Parsing a printed 32-bit integer of either sign gives it back. |
| `PasswordHash.PrintOneMoreDigit` | webserver/auth/passwordhash.cpp:73-74 | The count is printed most significant digit first. |
| `PasswordHash.ToIntIff` | webserver/auth/passwordhash.cpp:89-91 | The texts read as a count: digits of a 32-bit value with an optional sign, and white space around; nothing else. |
| `PasswordRuns.SetupAndMigrationHappenOnce` | webserver/apirouter.cpp:410-463 | Over any run of setups, logins and command-line resets: the hash never becomes empty again, setup succeeds at most once and only from an empty start, and a legacy hash is migrated at most once and never returns. |
| `PasswordRuns.AcceptedAfterRun` | webserver/apirouter.cpp:455-463 | After any run the store accepts exactly the passwords whose 210000-round key under the stored salt is that of the password last set up, migrated or reset, so the migrating password still works. |
| `PasswordRuns.WrittenIff` | webserver/apirouter.cpp:410-463 | A run rewrites the stored credentials exactly when it holds a setup of eight characters or more with no hash stored, a reset of eight or more, or an allowed login whose password a legacy hash accepts; so that login migrates, and one on the new format writes nothing. |
| `PasswordRuns.FreshIsNewFormat` | main.cpp:56-60 | What setup, migration and the command line store: scheme, 210000 rounds and the key under the fresh salt. |
| `Scheduler.ParseTime` | tests/tst_prio1.cpp:320-326 | A well-formed time is a whole minute within the day; anything else is no time. |
| `Scheduler.TimeRoundTrip` | tests/tst_prio1.cpp:271-293 | Every time of day written as hours and minutes, two digits each, is read as that many seconds. |
| `Scheduler.TimeRead` | tests/tst_prio1.cpp:320-326 | Only such texts are read as a time at all. |
| `Scheduler.DiskMain.SetLastRun` | diskmain.cpp:128-129 | The row is on disk before the next effect. |
| `Scheduler.DiskMain.StartBackup` | diskmain.cpp:130 | Launching is one effect and leaves the state file alone. |
| `Scheduler.DiskMain.OnTaskCheck` | diskmain.cpp:98-133 | One check performs exactly the specified effects in order, each launch right after its own record, and leaves the table those effects make. |
| `Scheduler.LaunchedSlotsIncrease` | diskmain.cpp:107-132 | Over any run of checks, job edits, restarts and crashes after any effect, slots launched for a name strictly increase; this holds without any assumption about the clock. |
| `Scheduler.SlotLaunchesAtMostOnce` | diskmain.cpp:107-132 | No (name, slot) pair launches twice in the life of the state file. |
| `Scheduler.OneLaunchPerCheck` | diskmain.cpp:115-132 | One check launches a name at most once, even if the job list holds the name several times. |
| `Scheduler.RecordedSlotIsSpent` | diskmain.cpp:115-132 | From a table with a run recorded at or after a slot, no launch of any life that follows is for that slot or an earlier one. |
| `Scheduler.TraceIsDisciplined` | diskmain.cpp:118-131 | In every run each record moves the last run forward and each launch directly follows its record for a slot later than the previous last run. |
| `SlotGuarantees.SlotTodayIff` | tests/tst_prio1.cpp:271-326 | A job has a slot today exactly if its interval is daily, weekly on this weekday or monthly on this day of the month, and its time is well formed; the slot is that time today. |
| `SlotGuarantees.NeverMadeUp` | diskmain.cpp:104-107 | In every life at all, with crashes, edits and any clock: each launch happens at a check within the window of its slot (grace, and before midnight), for a job of that name in that check's list whose calendar has that slot: weekday for weekly, day of month for monthly, and the time of day; a slot whose window passed is never made up. |
| `SlotGuarantees.OpenSlotLaunchesIff` | diskmain.cpp:124-131 | In every life whose checks within the window hold no other job of that name: the slot launches exactly when the first of them that records the job also performs its next effect, that is, does not die between record and launch. |
| `SlotGuarantees.CrashLosesSlot` | diskmain.cpp:126-130 | A check at the slot that dies after its first effect leaves only the record, and the slot launches in no continuation whatever. |
| `SlotGuarantees.LaunchedIffCheckedInWindow` | diskmain.cpp:115-132 | On a clock that does not go back, if the checks within the window complete and hold the job unchanged: the slot launches exactly when some check falls into its window. Checks outside the window may crash and see any list. |
| `SlotGuarantees.EverySlotLaunchesOnce` | diskmain.cpp:59-64 | If checks are at most 60 s apart while the daemon is up around the slot and grace is at least 59 s, exactly one position of the whole life launches the slot, one at 23:59 included; before that period there may be crashes, edits and downtime, after it anything. |
| `LogTail.Logger.LogMessage` | logging.cpp:82-109 | A message appends its whole record or, for a debug message with debugging off, nothing. |
| `LogTail.RecordOf` | logging.cpp:86-104 | What a message adds is empty or ends in a newline, and is empty exactly for a suppressed debug message. |
| `LogTail.RecordIsOneLine` | logging.cpp:82-104 | A message without line ends is one line of the log: the stamp, its level's mark and its text. |
| `LogTail.WsHub.constructor` | webserver/wshub.cpp:119-120 | Watching starts at the current end of the file. |
| `LogTail.WsHub.EmitLogTail` | webserver/wshub.cpp:176-203 | The cursor and the broadcast lines after one notification, for any size seen and any content read. |
| `LogTail.CursorMovesByChunk` | webserver/wshub.cpp:185-187 | The cursor moves by exactly what was read, to the end of the file or stays past it, and what was read stood there. |
| `LogTail.DeliveryIsExact` | webserver/wshub.cpp:182-187 | Under any interleaving of appends, notifications and growth between size and read, what was read of the present file is exactly the file from the start position to the cursor, as long as every rotation is noticed; then reading restarts at byte 0. |
| `LogTail.NothingLostIff` | webserver/wshub.cpp:182-187 | Across any number of rotations: all that was ever written is read, once and in order, or still waits to be read, exactly when each rotation found the cursor at the end of the file and was noticed at the next notification. |
| `LogTail.RunConserves` | webserver/wshub.cpp:182-187 | In every run the bytes read, the bytes still unread and the bytes lost at rotations add up to the bytes written. |
| `LogTail.UnreadEndIsLost` | webserver/wshub.cpp:182-187 | A noticed rotation that loses the unread end of the old file. |
| `LogTail.AppendOnlyDelivery` | webserver/wshub.cpp:119-187 | For an append-only log the chunks read are the appended text up to the cursor, and all of it after a notification. |
| `LogTail.RotatedContentDeliveredIff` | webserver/wshub.cpp:182-186 | After a rotation the next notification reads the whole new content exactly when the file is then still shorter than the cursor (or the cursor was 0). |
| `LogTail.MissedRotation` | webserver/wshub.cpp:182-186 | A rotated log that has already grown past the cursor: its beginning is never sent. |
| `LogTail.BroadcastsEachLineOnce` | webserver/wshub.cpp:192-202 | With whole records and noticed rotations, the whole broadcast sequence is the nonblank lines of all that was read, none torn, and its last part the lines of the present file up to the cursor. |
| `LogTail.EveryLineBroadcast` | webserver/wshub.cpp:192-202 | If each rotation also found everything read: once the reader has caught up, the broadcast sequence is the nonblank lines of all that was ever written, in order, once each. |
| `LogTail.EveryMessageBroadcast` | logging.cpp:82-109 | From the message handler to the socket: each one-line message that is not suppressed is broadcast as one line, in order, once. |
| `LogTail.BrowserShowsTheLog` | var/www/js/app.js:182-183 | From writer to browser, across such rotations: a client present from the start shows the last 1000 nonblank lines of everything written once the reader has caught up. |
| `LogLines.LinesSplitIff` | webserver/wshub.cpp:192-202 | Reading in two chunks gives the lines of the whole text exactly when one half of the line around the cut is empty or both halves are blank. |
| `LogLines.LogPane.PushLog` | var/www/js/app.js:516-522 | One push appends its nonblank lines and keeps the last 1000, the newest last. |
| `LogLines.BufferIsLastLines` | var/www/js/app.js:516-522 | After any series of pushes the buffer is, position by position, the last 1000 of all nonblank lines pushed. |
| `LogLines.JsNonBlankKeeps` | var/www/js/app.js:517-520 | The lines kept are exactly those with a character that is not white space, unchanged and in order. |
| `RunLog.ReadLogForView` | webserver/apirouter.cpp:75-88 | Seek, skip a line, read: the text from the view's start, the size measured, and the truncation flag. |
| `RunLog.ViewIsLongestAlignedSuffix` | webserver/apirouter.cpp:75-88 | The whole file when it fits; otherwise the longest suffix shorter than the cap that starts at a line start, empty exactly when there is none. |
| `RunLog.SmallerViewIsSuffix` | webserver/apirouter.cpp:66-88 | A smaller cap shows a suffix of what a larger cap shows. |
| `RunLog.PreviewIsSuffixOfFull` | webserver/apirouter.cpp:66-68 | The 2 MB preview is a suffix of the 64 MB view of the same file. |
| `RunLog.Serve` | webserver/apirouter.cpp:673-694 | A valid offset gives the bytes from there, anything else the capped view; the reported offset is the size taken first. |
| `RunLog.ServedIs` | webserver/apirouter.cpp:673-694 | With no usable offset: the whole file if it fits 2 MB, or 64 MB when the full log is asked for, and else, marked truncated, its longest suffix below that cap that starts a line; with a usable one all from there, never marked. |
| `RunLog.RunViewer.OpenRun` | var/www/js/app.js:567-583 | The state after opening is the client update the run model starts from, for an answer and for a failure. |
| `RunLog.RunViewer.TickRunTail` | var/www/js/app.js:584-594 | The state after a poll is the client update the run model takes at each poll, answered or failed. |
| `RunLog.PollingLosesNothing` | webserver/apirouter.cpp:673-694 | After any number of answered and failed polls of an append-only file, whatever grows during requests, every byte from the start of the view to the offset is in the client's text, in order. |
| `RunLog.TextIsSlices` | webserver/apirouter.cpp:673-694 | The client's text is a concatenation of slices of the file, each starting at the offset reported before and ending at or past the one reported with it. |
| `RunLog.MarkedTruncatedIff` | var/www/js/app.js:567-594 | Over a whole run of polls the truncation mark is set exactly when the file exceeded 2 MB when opened, and without it the text starts at the first byte. |
| `RunLog.PollingIsExactIff` | var/www/js/app.js:567-594 | The client's text is exactly the file from its start to its offset exactly when nothing was appended inside an answered poll and the opening request failed, saw nothing appended inside it, or sent a view that starts at the end of the file. |
| `JsonMap.JobToJson` | webserver/jsonmap.cpp:33-98 | The mapper writes some JSON the job may have: every field under its key, maps listed in some order, no other key. |
| `JsonMap.JobFromJson` | webserver/jsonmap.cpp:100-160 | The loops and field assignments compute the job the object stands for, defaults and later-entry-wins included. |
| `JsonMap.DirsToJson` | webserver/jsonmap.cpp:40-47 | Walking the hash map in any order lists every directory exactly once. |
| `JsonMap.DirsFromJson` | webserver/jsonmap.cpp:107-112 | The insert loop computes the map the list stands for. |
| `JsonMap.TargetsFromJson` | webserver/jsonmap.cpp:144-157 | The nested loops compute the SSH targets the list stands for. |
| `JsonMap.LastEntryWins` | webserver/jsonmap.cpp:107-112 | A source is in the map exactly when some entry has it, with the destination of the last such entry. |
| `JsonMap.StringsOfAt` | webserver/jsonmap.cpp:138-142 | No entry of a list of strings is dropped; one of another type is read as empty. |
| `JsonMap.EmptyGivesDefaults` | webserver/jsonmap.cpp:100-160 | The empty object gives the default job, with only the unmount flag set. |
| `JsonMap.MistypedIsMissing` | webserver/jsonmap.cpp:100-160 | A value of the wrong type, a fractional or oversized number, and any key a job does not have might as well be missing; a mistyped unmount flag alone is read as false. |
| `JsonMap.JobRoundTrip` | webserver/jsonmap.cpp:33-160 | Reading back any JSON a job may be written as gives the job, for every job and every iteration order of the outer and nested maps. |
| `JsonMap.FirstReadingSettles` | webserver/jsonmap.cpp:100-160 | Read, write, read equals read, on arbitrary input; a missing unmount flag is then written as true. |
| `JsonMap.JobJsonIdentifiesJob` | webserver/jsonmap.cpp:33-98 | Two jobs that can be written as the same JSON are the same job. |
| `ServerStore.Servers.PutPbs` | webserver/apirouter.cpp:1018-1033 | Status and store after an update; only the named record changes, with left-out secrets taken from it. |
| `ServerStore.Servers.PutSshRead` | webserver/apirouter.cpp:1165-1177 | The record an SSH update is going to save, from the record as it is when read. |
| `ServerStore.Servers.PutSsh` | webserver/apirouter.cpp:1165-1180 | Status and store after an SSH update with nothing in between. |
| `ServerStore.Servers.TestDone` | webserver/apirouter.cpp:1217-1232 | The store after a connection test is the one the interleaving model steps to: a captured key of a stored server is saved with the snapshot, anything else changes nothing. |
| `ServerStore.SavingBackPbsChangesNothing` | webserver/jsonmap.cpp:162-196 | Sending a GET body back leaves the PBS record identical, ports above 2^31 included. |
| `ServerStore.SavingBackSshChangesNothing` | webserver/jsonmap.cpp:198-230 | The same for SSH records, pinned key included. |
| `ServerStore.ValidUuidIff` | webserver/apirouter.cpp:126-130 | The ids let through: 8 to 64 hexadecimal digits and dashes, and such a text with one line end after it, which the pattern's end mark admits. |
| `JsonMap.PbServerShown` | webserver/jsonmap.cpp:162-178 | A GET shows each visible field under its own key, a port above the signed range as a negative number, and does not depend on the secrets. |
| `JsonMap.SshServerShown` | webserver/jsonmap.cpp:198-214 | The same for SSH servers; of the host key only whether there is one. |
| `JsonMap.PbServerRoundTrip` | webserver/jsonmap.cpp:162-196 | With its secrets a PBS server survives the trip through JSON; without a uuid it gets the new one; the empty object gives the defaults. |
| `JsonMap.SshServerRoundTrip` | webserver/jsonmap.cpp:198-230 | An SSH server too, but for its host key, which is never written. |
| `ServerStore.PbsPutsKeepSecrets` | webserver/apirouter.cpp:1027-1031 | After any sequence of updates visible fields come from the last body; a secret is that of the last body that holds a nonempty one, by position, and the original when all are empty. |
| `ServerStore.SshPutsKeepSecrets` | webserver/apirouter.cpp:1174-1178 | The same for the SSH key password and host key. |
| `ServerStore.PinSurvivesIff` | webserver/apirouter.cpp:1165-1232 | A pinned host key survives every interleaving of update halves, tests and new records exactly when no update that read the record before it was pinned is still to save. |
| `ServerStore.PinnedStaysPinned` | webserver/apirouter.cpp:1165-1232 | The invariant behind it, over every run. |
| `ServerStore.LostPin` | webserver/apirouter.cpp:1171-1229 | A run that loses a pinned key: an update reads, a test pins on the worker thread, the update saves. |
| `ServerStore.LastUpdateStandsIff` | webserver/apirouter.cpp:1198-1229 | After an update is saved and until the next one, the record holds its fields at every moment exactly when no test of that server that started before it, from other field values, ends with a captured key. |
| `ServerStore.TestUndoesUpdate` | webserver/apirouter.cpp:1217-1229 | A run that undoes an update: a test starts, an update is saved, the test ends; the old record with the key is left, so visible fields and a replaced key password are lost. |
| `BrowsePath.TextTestDecidesInside` | webserver/apirouter.cpp:249-252 | The string test holds exactly when the base's segments are a prefix of the target's, for every pair of canonical paths and with `/` as base. |
| `BrowsePath.ResolveBrowseTarget` | webserver/apirouter.cpp:201-260 | Every refusal and, otherwise, the canonical base with the target clamped to it. |
| `BrowsePath.TargetIsConfined` | webserver/apirouter.cpp:246-259 | The clamped target is inside the base, and is the directory asked for whenever that is inside. |
| `BrowsePath.ResolvedIsConfined` | webserver/apirouter.cpp:201-260 | For every resolver that gives canonical paths or nothing: each successful result is a canonical path inside the script directory, the mounted partition or `/`, by the kind of browse, whatever was asked for; a directory outside or one that does not exist gives that base itself. |
| `BrowsePath.RefusedIff` | webserver/apirouter.cpp:201-243 | When a browse is refused, and with which answer. |
| `BrowsePath.ParentIsOneUp` | webserver/apirouter.cpp:789-792 | From inside the base the parent is one segment up (the base stays), is inside, and the clamp never fires. |
| `BrowsePath.UpReachesBaseIff` | webserver/apirouter.cpp:789-792 | Going up reaches the base after exactly depth(target) - depth(base) steps, not before, and stays. |
| `BrowsePath.EnterAddsSegment` | var/www/js/app.js:727 | The picker's child path is the canonical path of the child, from the root too. |
| `BrowsePath.ParentUndoesEnter` | var/www/js/app.js:727 | The parent of an entered child is where one came from. |
| `BrowsePath.PickerCrumbs` | var/www/js/app.js:766-776 | The getter computes the specified crumbs: the base, and below it one per name of the current path. |
| `BrowsePath.PushSegments` | var/www/js/app.js:771-773 | The loop adds one crumb per name, each path one name longer. |
| `BrowsePath.CrumbsAreTheChain` | var/www/js/app.js:766-776 | The crumbs lead from the base to the current path, each the browse parent of the next, each labelled with its own directory's name, the base included. |
| `BrowsePath.CrumbsReachPathIff` | var/www/js/app.js:766-776 | For any two canonical paths the crumbs end at the current one exactly when it is inside the base; a path that merely continues the base's text gets crumbs to somewhere else. |
| `BrowsePath.MkdirPathIsCanonicalIff` | webserver/apirouter.cpp:1315 | The path the local mkdir reports is canonical except directly under `/`, where it has two slashes. |
| `BrowsePath.ComposeRemotePath` | webserver/apirouter.cpp:1335-1338 | The chop loop removes the trailing slashes before the name is added. |
| `BrowsePath.RemoteParentOfComposed` | webserver/apirouter.cpp:1266-1276 | For every input path: the composed path is the name below the path given without its trailing slashes, and that is its remote parent. |
| `BrowsePath.ComposedIsChild` | webserver/apirouter.cpp:1335-1338 | Composing below a canonical path with any number of slashes after it gives the canonical path of the child. |
| `BrowsePath.RemoteParentIsOneUp` | webserver/apirouter.cpp:1266-1276 | On a canonical remote path the parent is one segment up, and the root stays. |

## Left out

- HTTP and TLS serving, response headers, static files: input and output of the web server library.
- PBS, SSH and SMTP calls, mounting, LUKS, udev and what a started backup does: a launch is one event.
- Randomness, base64 and real cryptography: parameters and uninterpreted functions.
- Text decoding and newline translation on reading: a chunk is taken character by character.
- Several WebSocket clients: the model has one broadcast sequence; a client that joins later gets what
  is sent after it joined.
- The log level the page derives from each line, filtering and colouring.
- `loadLogs` and `loadFullLog` overlapping with live messages or a running poll: the page does not
  protect against either.
- Time zones and daylight saving; the scheduler's grace default, which its sources do not show.
- Rotation of run logs, which are written once; the poll statements are about append-only files.
- Name and backup-id patterns, which are single expressions; mkdir names enter as path segments.
- Server JSON mappers as step-by-step methods: they have no loops and are modelled as functions.
- Deleting server records and posting over an existing uuid: both remove a pinned key by intent.
- LoginThrottle.GuessRateIsBounded: assumes one request at a time and a clock that does not go back and
  is not before the epoch, which is how the handlers run; `FailsStayBelowMax` and `RetriesKeepTheLock`
  need no such order.
- LoginGuesses.GateFollowsHistory: the same.
- SlotGuarantees.EverySlotLaunchesOnce: assumes that the checks within the window complete; otherwise
  `OpenSlotLaunchesIff` says exactly when the slot launches and `CrashLosesSlot` shows one that does not.
- SessionHistory.TableDecidesLiveness: assumes a clock that does not go back.
- The QSettings file encoding of keys: a job's key is its name with a fixed suffix, which is injective.
