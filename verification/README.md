# Helmly agent: a model of its state machines and validators

`helmly-agent` is a daemon that runs as root on a managed server. It takes signed commands from a
dashboard, keeps an audit log as a hash chain, guards its own nftables table, updates its own binary
and validates what tenants ask it to deploy. This project models the decisions behind that I/O and
proves what they guarantee over whole runs, under failures and under a hostile environment.

One module stands for one component:

| module | component |
|---|---|
| `Basics`, `Text` | options, results, runs of machines and what holds since when; the string operations of Rust's standard library that the parsers use |
| `Audit`, `Sync`, `Utf8` | the append-only hash chain, its replication through a timestamp cursor, and the replies that replication does not survive |
| `Auth`, `Replay` | verification of one command, and replay safety of concurrent verifications over two clocks |
| `AgentState`, `RateLimit`, `System`, `Admission` | lockdown and rate limiter, admission over HTTP and WebSocket, dispatch, audit, watchdogs; what they do to commands over whole runs |
| `Nftables`, `NftablesCommands` | apply, restore, accept, divergence tick, emergency rules and reload at startup; their effect field by field |
| `SetupPort`, `Reopening` | closing the setup port: list, delete by handle, list again; and what the control loop does to it |
| `Update` | release keyring, binary swap, startup health guard |
| `Compose`, `Documents`, `Paths` | the compose deny-list walker with its volume guard, also stated over the nodes of the document, and what paths contain |
| `LineRules`, `Nginx`, `NginxLines` | the nginx line scanner, and what it reads of the text of a line |
| `Subid` | allocation of subordinate id ranges |

Code that changes state is a class or a method with loops, tied by its contract to a function of the
old state; what is promised is then proved about that function, over runs where the promise is about
runs. Everything foreign is a parameter: SHA-256 (FIPS 180-4, section 6.2) is a function to 64
lower-case hexadecimal digits and never assumed to be injective, Ed25519 (RFC 8032, section 5.1.7) is
a predicate, base64url, JSON and UUID parsing are functions, YAML starts from the parsed tree, and
clocks, failures of the database, of `nft`, of the file system and of `usermod`, and edits by others
are inputs of each step.

## Step granularity

Each watchdog tick, heartbeat, command, divergence check, file-system step and subid allocation is one
atomic step, except that a command verification in `Replay` is split into freshness check, purge and
insert, which interleave freely with those of other commands and with the hourly cleanup; that a sync
is split into reading and answering, with appends in between; that every row the conflict check and the
nginx watchdog log is a step of its own; and that an update or a health guard can
stop after any of its file operations.

## Where the code and its documentation disagree

The model follows the code. Each difference is a theorem.

- Freshness compares whole seconds, so a command stays fresh for just under 61 seconds. With clock skew
  `D` and delay `L`, replay is impossible exactly when 61 s + 2D + L is at most the retention of 300 s
  plus one microsecond (`Replay.NoReplayIffTheWindowFits`).
- A comment says that nonces stop replays of heartbeat acknowledgements, which skip the freshness
  check. They do for five minutes only (`Replay.HeartbeatAcksCanRepeat`).
- `audit::append` says that it detects tampering with previous entries. It looks at the last row only,
  and only whether the stored hash belongs to it (`Audit.AppendNoticesIff`). The hash has no key, so an
  edit that also rewrites `entry_hash` passes, and of the last row it passes a walk over all rows too
  (`Audit.ResealedRowIsNotNoticed`, `Audit.FullWalkNoticesIff`); so do rows missing at the end
  (`Audit.TruncationIsNotNoticed`). Even with the stored hash kept, the hashed bytes have no separators
  and `previous_hash` may hold any text: moving the end of that column by one byte, with the ids behind
  it, goes unnoticed (`Audit.ShiftIsNotNoticed`). Only a head kept elsewhere commits to the log
  (`Audit.HeadCommitsToLog`).
- A removal of conflicting software that fails is logged as a success, with the failure in its error
  text, just before the lockdown (`System.FailedRemovalLogsASuccess`).
- After a 422 the sync cursor is meant to be reset. When byte 200 of the reply's body is inside a
  character, taking the first 200 bytes for the log panics, and that ends the sync loop until the
  agent restarts (`Sync.PanicEndsSync`).
- The compose deny-list is meant for any nesting depth. Below a tag nothing is read
  (`Compose.NothingForbiddenIff`, `Compose.TaggedValueIsNotWalked`).
- A `proxy_pass` to a container socket is meant to be refused. A socket in the `server` of an upstream or
  in a block on one line is not read (`Nginx.SocketRefusedIff`, `Nginx.UpstreamServerIsAllowed`,
  `Nginx.InlineBlockIsAccepted`).
- A closed setup port is meant to stay closed. The close changes the live table without telling the
  control loop, which loads the last ruleset again, with whatever it accepts (`Reopening.PortReopensIff`).
- Sync is meant to resume after the last row delivered. The cursor is a timestamp: a row is left behind
  whenever a committed batch moves the cursor to or past it without containing it, be it by a tie at
  the end of a full batch, by an insert while the batch is under way, or by a clock that steps back
  (`Sync.SkippedIffPassedOver`, `Sync.SeenRowIsPassedOverByATie`, `Sync.RowInFlightIsSkipped`).
- The table's CHECK constraint does not admit `rejected_rate_limit`, so refusals by the rate limiter are
  never logged (`System.RateLimitedCommandsAreNotLogged`).
- The rate limiter is described as a sliding window of 100 a minute. It is a fixed window, and some
  minutes admit 199 (`RateLimit.MinuteBoundIsSharp`, `Admission.AMinuteOf199`).
- Lockdown is documented for a restore and an emergency ruleset that both fail. The code locks whenever
  the restore fails (`Nftables.FailedRestoreLocks`).
- A divergence is documented to be restored in all cases. That needs a checksum and a ruleset to put
  back (`Nftables.TickRestoresIffGuarded`). After `nftables.accept` the last ruleset is the empty text,
  and the next divergence is taken as the new baseline instead (`Nftables.AcceptBlanksTheRuleset`). A
  startup whose load works and whose listing fails sets no checksum, and no divergence is seen until
  the next apply, restore or accept (`Nftables.StartupWithoutListingIsUnguarded`,
  `Nftables.ChecksumSetIff`).
- Closing the setup port is meant to leave no rule that accepts it. The filter sees rules that name the
  port as a single `dport`; a rule for a set of ports stays (`SetupPort.CleanMeansClosedIff`,
  `SetupPort.SetOfPortsIsNotSeen`).
- Volumes are meant to stay under the project, the webroot or `/tmp`. The guard compares texts of absolute
  paths and accepts every relative one (`Compose.VolumeOkIff`). A source stays inside exactly when its
  path, from where it parts with one of these directories, names again all that its `..` give up of it
  (`Compose.ContainedIff`, `Compose.VolumeEscapesIff`); for a source that begins with an allowed
  directory, and for a relative one, this is spelt out in `Compose.AbsoluteStaysBelowIff` and
  `Compose.RelativeStaysInProjectIff`. Plain paths get out only beside the project or the webroot under
  a longer name (`Compose.PlainVolumeOkIff`).
- The rows of `nftables_state` are meant to reproduce the rules after a restart. A failed apply leaves
  the new values in memory but not in the rows (`Nftables.ApplyStaysInStepIff`,
  `Nftables.FailedApplyShowsAtRestart`).
- The `.prev` copy is meant to be a way back. A copy that fails half-way leaves a torn file that a later
  health guard installs (`Update.SafeIffTheBackupIsGood`, `Update.CutShortBackupIsUnsafeUntilTheNextUpdate`).
- nginx directives on the deny-list should never appear, nor those that are not on the allow-list. The
  scanner reads the first directive of a line only (`Nginx.OnlyTheFirstDirectiveCounts`). In that
  place a denied one is refused when the line opens a block or, without braces, follows one that does;
  later on the line it is never read (`Nginx.DeniedDirectiveRefusedIff`,
  `Nginx.DeniedDirectiveAccepted`).

## Model

| member | source | states |
|---|---|---|
| Audit.ComputeEntryHash | internal/audit/mod.rs:41-61 | the step-by-step hasher digests previous hash, three ids (absent as zero), command type, result and error in that order with no separators |
| Audit.PreimageDecodes | internal/audit/mod.rs:41-61 | two rows have the same preimage exactly when they agree on previous hash, id, agent, org-or-zero, user-or-zero and the joined text of command type, result and error |
| Audit.HeadCommitsToLog | internal/audit/mod.rs:41-61 | two verified logs without hash collisions among their rows have the same head exactly when they have equal length and agree at every row |
| Audit.LinkDeterminesPrefix | internal/audit/mod.rs:87-122 | equal links at any two positions of two verified logs force equal positions and equal prefixes; a genesis link is never a digest |
| Audit.ResultColumnIsNotCommitted | internal/audit/mod.rs:57-59 | for every hash, a failed and a success row exist with the same head, because the joined text hides where the result ends |
| Audit.AuditLog.Append | internal/audit/mod.rs:69-146 | append checks the last row, links to it and inserts, or fails and leaves the table alone, also when the CHECK constraint or the database refuses; a lost acknowledgement inserts and still fails |
| Audit.AppendsKeepTheChain | internal/audit/mod.rs:63-146 | any calls on a verified log, failing or not, only extend it and leave it verified |
| Audit.AgreementIsEqualPreimages | internal/audit/mod.rs:41-61 | for rows with any texts in them, agreement on the committed fields is equality of the hashed bytes together with equal lengths of the previous hash |
| Audit.ShiftIsNotNoticed | internal/audit/mod.rs:51-60 | for every hash, moving the end of the previous hash and of every id one byte on gives a row that does not agree with the old one and that append accepts |
| Audit.FullWalkNoticesIff | internal/audit/mod.rs:41-61 | after any edit of a row of a verified log, the log verifies as a whole exactly when the row's stored hash is that of its data, its link is unchanged and, unless it is the last, its stored hash is unchanged |
| Audit.KeptHashCommits | internal/audit/mod.rs:41-61 | where an edit keeps the stored hash and does not collide, the row passes exactly when the hashed bytes are the same, and with the link kept exactly when all committed fields agree |
| Audit.ResealedRowIsNotNoticed | internal/audit/mod.rs:87-107 | a row edited at will and given its own hash is never noticed by append, and by a walk over all rows only when its link differs or a later row links to another hash |
| Audit.TruncationIsNotNoticed | internal/audit/mod.rs:87-107 | a verified log cut anywhere is verified and takes appends |
| Audit.EarlierTamperingIsNotNoticed | internal/audit/mod.rs:63-68 | an edit before the last row changes neither the outcome of an append nor what it writes |
| Audit.AppendNoticesIff | internal/audit/mod.rs:63-107 | after any edit of a row of a verified log, a healthy append fails exactly when the row is the last and its stored hash is not that of its data |
| Audit.BrokenHeadFreezesTheLog | internal/audit/mod.rs:99-107 | once the last row fails its check, no sequence of appends succeeds or changes the log |
| Audit.AppendWritesTheEntry | internal/audit/mod.rs:69-146 | an append adds a row exactly when the stored hash of the last one is that of its columns, the result is not `rejected_rate_limit` and the database works; the row holds the columns of the entry, the last row's hash or `genesis`, and the hash of its own columns one after the other |
| Sync.SyncTask.SyncBatch | internal/sync/mod.rs:59-134 | one batch is a read of at most 100 rows after the cursor, any appends meanwhile, and the answer: advance, reset on 422, or leave |
| Sync.SyncDeliversAChainPrefix | internal/sync/mod.rs:59-134 | in every interleaving of appends, successes, failures, lost updates and resets, what was delivered since the last reset is exactly the rows up to the cursor, in order, without gap or duplicate |
| Sync.DrainTakesCeilSyncs | internal/sync/mod.rs:20-28 | n pending rows are gone after k successful syncs exactly when k is at least ceil(n / 100) |
| Sync.PanicEndsSync | internal/sync/mod.rs:96-123 | after a reply whose log text ends inside a character, nothing is delivered or reset until a restart |
| Utf8.RejectionPanicsIff | internal/sync/mod.rs:96-123 | for every text, a rejection with it for a body panics exactly when its UTF-8 form is longer than 200 bytes and no character of it ends there |
| Utf8.BoundaryIff | internal/sync/mod.rs:102 | in the UTF-8 form of any text a position is where some number of characters ends exactly when no continuation byte stands there |
| Utf8.AsciiNeverPanics | internal/sync/mod.rs:96-123 | an ASCII body of any length does not end the loop, nor does a success or a missing reply |
| Sync.SkippedIffPassedOver | internal/sync/mod.rs:59-134 | in every run, with any timestamps after the epoch, a row is skipped exactly when since the last reset some committed cursor update has moved to or past it while it was outside the batch |
| Sync.SkippedUntilReset | internal/sync/mod.rs:96-113 | a skipped row stays undelivered until a reset |
| Sync.SeenRowIsPassedOverByATie | internal/sync/mod.rs:64-85 | a row that the query could see is left out only by a full batch, and passed over only when its timestamp is that of the last row in it |
| Sync.RowInFlightIsSkipped | internal/sync/mod.rs:84-130 | a row inserted with the same timestamp while its predecessor is being sent is skipped without any tie in the batch |
| Sync.NothingIsSkippedIffNoTieAtTheCut | internal/sync/mod.rs:64-85 | of the rows that one query could see, advancing the cursor leaves none behind exactly when the batch does not end inside a group of equal timestamps |
| Auth.TryVerifyKeys | internal/auth/mod.rs:199-216 | the loop succeeds exactly when some key verifies, and otherwise names the failure |
| Auth.VerifyRing | internal/auth/mod.rs:90-113 | the ring is accepted exactly when some well-formed slot verifies; otherwise the error is the last malformed slot, if any |
| Auth.RingErrorNamesTheLastMalformedSlot | internal/auth/mod.rs:90-113 | the error names a slot exactly when it is malformed and all later ones are well-formed, and without such a slot says that no key has verified |
| Auth.RingOrderIsIrrelevant | internal/auth/mod.rs:83-106 | reordering the ring changes no decision |
| Auth.FreshIsTheWindow | internal/auth/mod.rs:133-139 | 64-bit wrap-around included, a timestamp is fresh exactly within 30 seconds of the clock, apart from the one wrapped difference |
| Auth.CheckAndConsumeNonce | internal/auth/mod.rs:153-177 | purge then insert; a nonce still on record is refused, and a failed query refuses the command |
| Auth.VerifyCommand | internal/auth/mod.rs:65-150 | the checks in order, with the error of the first that fails, and the nonce table afterwards |
| Auth.AcceptedIffAdmissible | internal/auth/mod.rs:65-150 | a command is accepted exactly when it decodes, from an object or from an array, some key of the ring verifies it, it is addressed to this agent, it is fresh or a heartbeat acknowledgement, and its nonce is new; the verified fields are those of the signed payload |
| Auth.ArrayFormDecodesAlike | internal/auth/mod.rs:31-40 | the array of all seven fields in order decodes to the same as the object with them |
| Auth.PayloadDecodesIff | internal/auth/mod.rs:31-40 | an object decodes to a payload exactly when nonce, timestamp, agent, user, permission and command stand under their own names, and the organization under its own unless it is missing or null |
| Auth.TypeFieldIff | internal/handlers/system.rs:96-101 | the type of a command is the text in its field `type` |
| Auth.RefusalTellsWhy | internal/auth/mod.rs:65-150 | a refusal names a fault that the command has; a genuine command is refused only by the nonce check, and any other leaves the nonces as they are |
| Replay.NoReplayIffTheWindowFits | internal/auth/mod.rs:127-176 | over all runs of concurrent verifications and purges, no command other than an acknowledgement is accepted twice if and only if 61 s + 2D + L fits the retention |
| Replay.NoncesAreSpaced | internal/main.rs:265-283 | with purges by anyone at any time, two acceptances of one nonce lie more than the retention apart |
| Replay.VerificationIsARun | internal/auth/mod.rs:153-177 | an undisturbed verification past its freshness check leaves the nonces and accepts as the two statements of the nonce check say, failing ones included |
| Replay.UnsafeWhenTheWindowDoesNotFit | internal/auth/mod.rs:154-156 | otherwise there is a valid run that accepts a command twice |
| Replay.HeartbeatAcksCanRepeat | internal/auth/mod.rs:124-139 | every heartbeat acknowledgement can be accepted twice, however good the clocks |
| AgentState.AppState.SetLockdown | internal/state.rs:65-68 | flag and reason are set together, replacing any earlier reason |
| AgentState.AppState.ClearLockdownIfHeartbeat | internal/state.rs:73-82 | flag and reason are cleared for no reason or Heartbeat; every other reason stays |
| AgentState.AppState.CheckCmdRate | internal/state.rs:85-101 | the fixed-window counter: new window, count, or refuse |
| AgentState.AppState.RecordRateRejection | internal/state.rs:104-117 | rejections are counted per minute, starting at one |
| RateLimit.MinuteBoundIsSharp | internal/state.rs:85-101 | for non-decreasing clocks no half-open minute of any run admits more than 199 exactly when the first call is not within the first minute of the epoch, and 199 is reached |
| RateLimit.WindowAdmitsTheFirstHundred | internal/state.rs:85-101 | the calls inside one window are admitted exactly until the hundredth |
| RateLimit.NinetyNinePlusHundred | internal/state.rs:92-97 | from every clock after the first minute of the epoch a run admits 199 commands within a minute |
| System.Agent.CommandDispatch | internal/handlers/system.rs:164-214 | an acknowledgement resets the timer and clears a Heartbeat lockdown; other types leave this state alone |
| System.Agent.RunVerifiedCommand | internal/handlers/system.rs:43-137 | rate limit, verification, dispatch and audit in order, with the entry each outcome leaves and the reply |
| Admission.AtMost199AMinute | internal/handlers/system.rs:43-66 | in every run from a fresh limiter with a clock that does not go back, all entrances together, at most 199 commands of any half-open minute get past the limiter |
| Admission.ExactlyTheFirstHundred | internal/handlers/system.rs:43-66 | within one window a command gets past the limiter exactly when fewer than a hundred have been charged to that window before it |
| Admission.AMinuteOf199 | internal/state.rs:85-101 | some run of requests does get 199 past it in one minute, whatever they carry |
| Admission.RunChargesItsCalls | internal/handlers/system.rs:47 | along every run the limiter is the one charged with exactly the commands that reached it, and lets past what it admits of them |
| Admission.RefusedCommandLeavesNoTrace | internal/handlers/system.rs:47-66 | a command over the limit is answered as such and changes nothing, not even the nonces or the log |
| Admission.RowTellsTheCommand | internal/handlers/system.rs:96-137 | with a healthy log a verified command is answered by its own handler, and its one new row names this agent, the user, the organization, the type, `success`, `rejected` or `failed`, and the error text |
| Admission.RowTellsTheRefusal | internal/handlers/system.rs:77-93 | a command that does not verify adds one row with this agent, nobody, the type `unknown`, `rejected` and the reason |
| Admission.UnwrittenRowFailsTheCommand | internal/handlers/system.rs:120-136 | when its row is not written, a verified command is answered with an internal error, and any other is refused |
| System.Agent.ExecuteCommand | internal/handlers/system.rs:140-162 | over HTTP lockdown and the bearer token are checked first |
| System.Agent.HandleCommandMessage | internal/ws_client.rs:170-224 | over WebSocket only what peeks as an acknowledgement passes a lockdown |
| Admission.TheGate | internal/handlers/system.rs:140-162 | what a lockdown or a wrong token turns away changes nothing, and everything else runs; over WebSocket what peeks as an acknowledgement runs in a lockdown too |
| Admission.PeekReads | internal/ws_client.rs:226-237 | peeking reads the type of the command in the object behind the payload, and nothing of any other document |
| System.Agent.HeartbeatHandler | internal/main.rs:396-441 | a verified acknowledgement resets the timer and clears a Heartbeat lockdown; anything else does not |
| Admission.HeartbeatPathTakesAcksOnly | internal/main.rs:396-441 | the path takes exactly verified acknowledgements; they reset the timer and clear a lockdown for a missed heartbeat only, and nothing sent there is charged or logged |
| Admission.NoncesAreSpacedOverRuns | internal/auth/mod.rs:153-177 | over runs through all three entrances a nonce is accepted twice only if more than five minutes lie between the insert of the first and the purge of the second |
| System.Agent.HeartbeatWatchdogTick | internal/main.rs:326-343 | more than 300 whole seconds without a heartbeat lock an unlocked agent |
| System.Agent.PostgresWatchdogTick | internal/main.rs:285-303 | an unreachable database locks an unlocked agent |
| Admission.UnreachableDatabaseLocksForGood | internal/main.rs:285-303 | an unreachable database locks an unlocked agent, and no event in the rest of the run unlocks it; a reachable one changes nothing |
| Admission.MissedHeartbeatLocksIff | internal/main.rs:326-343 | in every run the tick locks exactly an unlocked agent whose last accepted acknowledgement, by any path, is more than 300 seconds old, for a reason that an acknowledgement clears |
| Admission.TimerIsTheLastAck | internal/main.rs:396-441 | along every run the timer shows the moment of the last accepted acknowledgement |
| System.PeekAgreesWithDispatch | internal/ws_client.rs:226-237 | for every command that verifies, the peeked type is the one dispatched, or none when the payload is an array; so what is peeked as an acknowledgement is dispatched as one |
| System.ArrayAckIsHeldBack | internal/ws_client.rs:191-202 | an acknowledgement written as an array does not pass a lockdown by WebSocket, and does by the heartbeat path |
| System.Agent.CheckAndRemove | internal/conflict.rs:53-80 | one round of the conflict check is the run of its rows, up to the first failed removal and its lockdown |
| System.FailedRemovalLogsASuccess | internal/conflict.rs:66-75 | a failed removal adds two failed rows and one success row and locks the agent |
| Admission.RemovalIsTold | internal/conflict.rs:53-80 | with a healthy log a software that is there adds three rows, that it was detected, what became of it, and that as a removal, with these texts, and a failure locks the agent |
| Admission.RoundLocksIff | internal/conflict.rs:53-80 | a round of the conflict check locks the agent exactly when some removal in it fails |
| Admission.NothingBehindAFailure | internal/conflict.rs:66-76 | what comes after the first failed removal is neither looked for nor logged |
| System.LockdownMachine | internal/handlers/system.rs:145-147 | in every run the flag is set exactly when a reason is recorded, a reason other than Heartbeat is never cleared or replaced by it, and while locked only acknowledgements reach dispatch |
| System.LockdownEndsExactlyByAck | internal/state.rs:70-82 | a step ends a lockdown exactly when the reason is Heartbeat and the step is an accepted acknowledgement |
| System.AuditConservation | internal/handlers/system.rs:43-137 | in every run the success rows added are the Ok replies, plus the commands whose acknowledgement was lost, plus the successes logged by the conflict check and the nginx watchdog |
| System.BrokenLogFreezesTheAgent | internal/audit/mod.rs:99-107 | once the last row fails its check, no event of any run changes the log and no command returns Ok |
| System.LogStaysVerified | internal/handlers/system.rs:120-134 | the log verifies and only grows at every moment of every run |
| System.RateLimitedCommandsAreNotLogged | migrations/001_init.sql:9 | a command refused by the rate limiter leaves the log unchanged |
| Nftables.LoadReplacesTheTable | internal/nftables/mod.rs:63-79 | loading a text onto two live tables leaves the same rules exactly unless the text is blank and they differed before: a total replacement, never incremental |
| Nftables.WithoutDestroyRulesPileUp | internal/nftables/mod.rs:95-98 | without its first command a script would leave its own rules exactly on an empty or missing table |
| Nftables.Controller.ApplyCurrentRuleset | internal/handlers/nftables.rs:67-92 | checksums and last ruleset are set only after load and listing succeeded |
| Nftables.Controller.HandleNftablesApply | internal/handlers/nftables.rs:5-65 | a chain update or a full apply changes memory first, then the table, then the rows, stopping where a step fails |
| NftablesCommands.UpdateSetsOneChain | internal/handlers/nftables.rs:15-36 | a chain update sets the rules of the named chain and of no other, whether or not the load works; an unknown chain changes nothing and is refused |
| NftablesCommands.FullApplySetsThePort | internal/handlers/nftables.rs:47-54 | a full apply sets the port modulo 2^16, or 51820 without one, and no rules |
| NftablesCommands.ApplyLoadsTheRuleset | internal/handlers/nftables.rs:67-92 | an apply succeeds exactly when the command is known and load and listing work; then the table holds the ruleset of the new memory, remembered as the last, with the checksum of the table and of each of three chains under its own name |
| NftablesCommands.RowsFollowTheApply | internal/handlers/nftables.rs:36-64 | after a successful apply the row of the chain has the new rules and the port, or all rows have the new port; a database failure leaves all rows |
| Nftables.Controller.HandleNftablesRestore | internal/handlers/nftables.rs:94-119 | the last ruleset is loaded again and becomes the baseline |
| NftablesCommands.RestoreLoadsTheLast | internal/handlers/nftables.rs:94-119 | a restore succeeds exactly when there is a last ruleset and load and listing work; then that ruleset is live and its checksums are the baseline |
| Nftables.Controller.HandleNftablesAccept | internal/handlers/nftables.rs:121-136 | the live table becomes the baseline and the last ruleset becomes blank |
| NftablesCommands.AcceptTakesTheLiveTable | internal/handlers/nftables.rs:121-136 | an accept changes the checksum and the last ruleset and nothing else |
| Nftables.Controller.CheckOnce | internal/nftables/divergence.rs:52-178 | one tick: nothing, a restore, or emergency rules with lockdown; the dashboard is told the first diverged chain in the order base, global, local |
| NftablesCommands.EditIsReported | internal/nftables/divergence.rs:52-104 | after an edit the tick names the first of base, global and local whose listing differs from the one at the baseline, and otherwise says unknown |
| Nftables.Controller.StartupReload | internal/main.rs:168-228 | the rows are folded into bodies and port, loaded, and taken as the baseline |
| NftablesCommands.StartupLoadsTheRows | internal/main.rs:168-228 | with one row for each chain a startup takes each chain's rules from its own row and the port from the last one, and loads and remembers them |
| Nftables.ControllerBaseline | internal/handlers/nftables.rs:81-89 | in every run with edits and failures anywhere, the expected checksum is unset or is that of a table made by loading the last ruleset, until an accept blanks it |
| Nftables.ChecksumSetIff | internal/main.rs:211-226 | in every run a checksum is set exactly when, since the last restart, some apply, restore, accept or startup has got as far as its listing |
| Nftables.OneTickRestores | internal/nftables/divergence.rs:52-178 | after every run, one tick with working nft leaves the last ruleset live, with baseline and lockdown as they should be, exactly when a checksum is set and the ruleset is there and not blank; every tick after it changes nothing |
| Nftables.FailedRestoreLocks | internal/nftables/divergence.rs:104-117 | a divergence whose restore fails locks the agent whether or not the emergency rules load, and keeps baseline and last ruleset for the next tick |
| Nftables.TickRestoresIffGuarded | internal/nftables/divergence.rs:64-79 | from any state with other rules live, a working tick puts the last ruleset back exactly when a checksum is set and the ruleset is there and not blank; without a checksum it does nothing |
| Nftables.StartupWithoutListingIsUnguarded | internal/main.rs:211-222 | after a startup whose load works and whose listing fails, whatever others make of the table stays |
| Nftables.AcceptBlanksTheRuleset | internal/handlers/nftables.rs:131-133 | after an accept, whatever others edit stays and becomes the baseline |
| Nftables.ApplyStaysInStepIff | internal/handlers/nftables.rs:15-64 | rows and memory agree after an apply exactly when every step completed or the command asked for nothing new |
| Nftables.RestartReadsTheMemory | internal/main.rs:169-208 | when rows and memory agree, startup renders the ruleset in memory |
| Nftables.RestartEquivalence | internal/main.rs:167-208 | in every run whose applies complete, a restart renders the same ruleset as the one applied last |
| Nftables.FailedApplyShowsAtRestart | internal/handlers/nftables.rs:54-64 | after a failed port change, a completed chain update loads the new port, and a restart keeps it only if the updated chain is the last one read |
| SetupPort.CloseSetupPort | internal/handlers/nginx_cmd.rs:316-366 | the loop over handles, with the failure of every call, equals the recursive protocol |
| SetupPort.OkMeansNoneListed | internal/handlers/nginx_cmd.rs:349-365 | for any behaviour of nft, Ok means the listing taken last shows no accepting rule |
| SetupPort.CleanMeansClosedIff | internal/handlers/nginx_cmd.rs:368-384 | for any vocabulary of rules and the policy to drop, a listing without accepting rules means that no packet to the port gets in exactly when the filter sees every rule of the vocabulary that lets one in |
| SetupPort.SetOfPortsIsNotSeen | internal/handlers/nginx_cmd.rs:375-378 | a rule that accepts a set of ports with this one in it is not seen |
| SetupPort.ListingRoundTrip | internal/handlers/nginx_cmd.rs:374-384 | printing any chain and reading it gives exactly the handles of the rules that name the port and contain the word accept, in order |
| SetupPort.FaithfulCloseSucceeds | internal/handlers/nginx_cmd.rs:302-366 | with a faithful nft and unique handles the reply is Ok with the number deleted, and the chain is the original minus exactly the accepting rules, in order |
| SetupPort.NamesAcceptIff | internal/handlers/nginx_cmd.rs:374-384 | the filter selects exactly the texts with `dport 19443` in them in which `accept` stands alone between spaces or the ends |
| SetupPort.RuleStaysIff | internal/handlers/nginx_cmd.rs:316-366 | with a faithful nft a rule is in the chain afterwards exactly when it was there and its text is not such; a rule that only names the port stays |
| SetupPort.ReadersCannotClose | internal/handlers/nginx_cmd.rs:316-333 | a command with read permission does nothing and is the only one that is forbidden |
| SetupPort.ClosingKeepsOtherVerdicts | internal/handlers/nginx_cmd.rs:302-315 | every packet matched by no deleted rule keeps its first-match verdict |
| SetupPort.AppendingAfterADropIsVoid | internal/handlers/nginx_cmd.rs:304-311 | rules appended after one that decides the packet change no verdict |
| Reopening.PortReopensIff | internal/nftables/divergence.rs:52-130 | after any run and a close that shows in the checksum, one working tick brings accepting rules back exactly when checksum and non-blank ruleset are there and the ruleset has such rules |
| Update.VerifySignatureWith | internal/update/mod.rs:253-287 | accepted exactly when the signature has 64 bytes and some non-zero well-formed slot verifies; otherwise the error is that of the last slot that was not skipped |
| Update.AcceptedIffSomeKeyVerifies | internal/update/mod.rs:253-287 | a release is accepted exactly when its signature has 64 bytes and verifies under some well-formed key that is not all zeros |
| Update.ErrorNamesTheLastKey | internal/update/mod.rs:259-286 | the error names the last slot that is not all zeros, and says whether it was malformed or did not verify |
| Update.RingIsAnUnorderedSet | internal/update/mod.rs:220-241 | neither the order of slots nor any number of added zero slots changes a decision |
| Update.RotationNeverStrandsAnAgent | internal/update/mod.rs:220-229 | through any number of rotations an agent that takes releases in order ends on the last one |
| Update.SkippingOneReleaseIff | internal/update/mod.rs:225-229 | an agent that skips one release accepts the next unless it skipped exactly the one that announced the new key and that key now signs |
| Update.Installation.Update | internal/update/mod.rs:50-83 | write, mode, backup and rename in order, stopping at any of them |
| Update.UpdateInstallsIff | internal/update/mod.rs:50-83 | the new binary is installed exactly when the release is signed and every file operation works, with the old one as the backup; otherwise the old one stays, and an unsigned release touches no file |
| Update.Installation.RunStartupHealthCheck | internal/update/mod.rs:133-180 | a healthy answer clears the critical file, if it can be removed; otherwise the backup is copied and renamed over the binary and the critical file is written |
| Update.HealthyStartKeepsTheBinary | internal/update/mod.rs:144-151 | when one of the first fifteen probes is good, the reply is Ok and every file stays but the critical one, which goes if it can be removed |
| Update.FifteenFailuresRollBack | internal/update/mod.rs:153-180 | after fifteen failures the backup is put back if it is there and copy and rename work, the reply says whether, and later probes do not count |
| Update.InstalledBinaryIsAlwaysGood | internal/update/mod.rs:50-83 | over any updates, guards and crashes outside the backup copy, the installed binary is complete and is the first one or passed verification |
| Update.SafeIffTheBackupIsGood | internal/update/mod.rs:144-180 | a state is safe in all its futures with intact backups exactly when the backup is absent or good |
| Update.CutShortBackupIsUnsafeUntilTheNextUpdate | internal/update/mod.rs:71-74 | a backup cut short leaves the binary good but the future unsafe, until the next complete update |
| Update.FailedGuardIsAFixedPoint | internal/update/mod.rs:153-180 | a second failed guard changes nothing: no oscillation between two binaries |
| Update.GuardUndoesUpdate | internal/update/mod.rs:71-77 | after a swap a failed guard with a working file system reinstates the old binary |
| Compose.WalkReports | internal/handlers/validate.rs:77-100 | the walker finds nothing exactly when no reachable entry is forbidden, and otherwise the first one in pre-order with its path and reason |
| Compose.CheckFollowsTheRules | internal/handlers/validate.rs:102-169 | an entry is refused exactly when one of the rules for keys, modes, user namespaces, capabilities or security options applies |
| Compose.VolumesReport | internal/handlers/validate.rs:175-237 | a volume is reported exactly when some service volume names an absolute path whose text begins with none of project, webroot and /tmp/ and is not /tmp, and it is the first such volume |
| Documents.SourceIff | internal/handlers/validate.rs:188-222 | the source of a volume is the first `source` of a mapping or the text before the first colon |
| Compose.PlainVolumeOkIff | internal/handlers/validate.rs:226-237 | an absolute path of plain names is accepted exactly when it lies below project, webroot or /tmp, or beside project or webroot under a longer name |
| Compose.VolumeOkIff | internal/handlers/validate.rs:226-237 | every source is accepted exactly when it is relative or its components begin with project, webroot or /tmp, or lie beside project or webroot under a longer name |
| Compose.ContainedIff | internal/handlers/validate.rs:62-67 | every source names a place below project, webroot or /tmp exactly when from where its path parts with one of them it comes back to it |
| Compose.VolumeEscapesIff | internal/handlers/validate.rs:226-237 | a source is accepted and names a place outside exactly when its text passes and its path comes back to none of the three |
| Compose.AbsoluteStaysBelowIff | internal/handlers/validate.rs:228-232 | any continuation of an allowed directory is accepted, and stays below it exactly when it names again what its `..` give up |
| Compose.RelativeStaysInProjectIff | internal/handlers/validate.rs:233-236 | any relative source is accepted, and stays in the project exactly when it names again what its `..` give up |
| Compose.DottedVolumeIsAccepted | internal/handlers/validate.rs:226-237 | behind each of the three directories as many `..` as it has names lead to any place at the root |
| Paths.InsideIffItComesBack | internal/handlers/validate.rs:226-237 | where a path with any `.`, `..` and empty components leads is below a directory exactly when the walk from their common part comes back |
| Compose.RelativeVolumeIsAccepted | internal/handlers/validate.rs:233-236 | a relative path one level up and down leaves the project exactly when it does not name it again |
| Paths.TextPrefixIff | internal/handlers/validate.rs:228-230 | the text of one path, of any components, begins with that of another exactly when it lies inside it or beside it under a longer name |
| Compose.ComposeAcceptedIff | internal/handlers/validate.rs:68-74 | a document is accepted exactly when no reachable entry is forbidden and no service volume is disallowed |
| Documents.AcceptedIffCleanAndContained | internal/handlers/validate.rs:68-74 | over the nodes of the document: accepted exactly when no reachable mapping has an entry whose key is a text, tagged or not, that is forbidden with its value, and every path that a service mounts in the short or the long form is allowed |
| Documents.PrivilegedIsRefused | internal/handlers/validate.rs:102-118 | a document with a reachable key `privileged` is refused, whatever its value |
| Documents.KeyReads | internal/handlers/validate.rs:81 | a key reads as its text below any tags, and one that is no text as a question mark |
| Documents.PathIsSpeltOut | internal/handlers/validate.rs:82-95 | the path in a rejection has dots between keys and the position in a sequence in brackets |
| Compose.RejectionNamesTheFirstEntry | internal/handlers/validate.rs:77-100 | the path in the rejection leads to the first forbidden entry in pre-order |
| Compose.NothingForbiddenIff | internal/handlers/validate.rs:18-22 | the walker finds nothing exactly when every forbidden entry at any depth lies below a tag |
| Compose.TaggedValueIsNotWalked | internal/handlers/validate.rs:97 | a document of one tagged value is accepted whatever is in it |
| Nginx.CheckLeaf | internal/handlers/validate.rs:362-398 | a leaf passes exactly when it is allowed under the block, not denied and not a denied upstream; otherwise the fault is true of it |
| Nginx.ScanLine | internal/handlers/validate.rs:334-403 | one turn of the loop keeps the knowledge about the lines passed or finds the first bad line |
| Nginx.ValidateNginx | internal/handlers/validate.rs:331-411 | accepted exactly when every opener is an allowed block, every leaf is allowed under the block opened last before it, and braces balance; a rejection names the first bad line and a true fault, or the final depth |
| Nginx.ConfigsCompose | internal/handlers/validate.rs:331-411 | two balanced configurations, the second starting with a block, are accepted joined exactly when both are accepted |
| Nginx.ClosersOnlyCount | internal/handlers/validate.rs:344-346 | a closing line may be moved anywhere without changing the decision: it never brings back the rules of an outer block |
| Nginx.OnlyTheFirstDirectiveCounts | internal/handlers/validate.rs:347-398 | the verdict on a line under its block is that on the first of its directives, split at semicolons and braces, and on the target of a `proxy_pass` |
| Nginx.LaterDirectivesAreNotRead | internal/handlers/validate.rs:364-398 | what follows the first word of a leaf, other directives included, changes nothing in its verdict |
| Nginx.DeniedDirectiveRefusedIff | internal/handlers/validate.rs:303-320 | a line with a denied directive at any position is refused exactly when, in first position, it opens a block or is a leaf under one, and in a later position its first directive is refused |
| Nginx.DeniedDirectiveAccepted | internal/handlers/validate.rs:303-320 | any denied directive behind any allowed one on a line of any block but events makes an accepted configuration |
| Nginx.LoadModuleAccepted | internal/handlers/validate.rs:309 | one such configuration, with `load_module` |
| Nginx.SocketRefusedIff | internal/handlers/validate.rs:386-398 | a denied socket is a reason to refuse a line exactly in the target of a `proxy_pass` that comes first on a line without braces under an opener |
| NginxLines.ProxyPassRefusedIff | internal/handlers/validate.rs:392-404 | a `proxy_pass` without braces outside of an events block is refused exactly when what follows the word contains one of the two sockets |
| NginxLines.ProxyBlockAcceptedIff | internal/handlers/validate.rs:331-411 | so is the configuration of one block around it |
| NginxLines.SocketBlocksRefused | internal/handlers/validate.rs:322-324 | for each socket the configurations that proxy to it, with any text around it, are refused |
| NginxLines.LeafAllowedIff | internal/handlers/validate.rs:247-324 | a directive with arguments is allowed under a block exactly when it is one of the listed leaves or blocks, of events only its own, is not one of the denied, and proxies to no socket |
| NginxLines.LoadModuleRefused | internal/handlers/validate.rs:305-309 | `load_module` in first position under `http` is refused |
| NginxLines.CleanIs | internal/handlers/validate.rs:418-427 | indentation, trailing space and comment are taken off a line, and nothing else |
| Nginx.UpstreamServerIsAllowed | internal/handlers/validate.rs:322-324 | a `server` line of an upstream is allowed with any address |
| Nginx.InlineBlockIsAccepted | internal/handlers/validate.rs:347-372 | a block of an allowed name on one line is accepted with anything in it |
| LineRules.LinesCompose | internal/handlers/validate.rs:332-403 | for any rules of this shape, the line rules of a concatenation are those of its parts when the second part starts with a block |
| LineRules.InertLine | internal/handlers/validate.rs:340-342 | a line that opens nothing and is constrained by nothing can be put in or taken out anywhere |
| Subid.SubidFiles.Add | internal/podman/mod.rs:311-326 | start is chosen from the readable files, then both files are extended in order; a failure in the second leaves the first extended |
| Subid.UsermodAddsOneRange | internal/podman/mod.rs:332-345 | reading a file after usermod gives the ranges read before plus the new one |
| Subid.LineParses | internal/podman/mod.rs:340-344 | a line with two colons is read as the numbers in its second field and behind the second colon, and as no range if one of them is no `u64` |
| Subid.EveryCountIsRead | internal/podman/mod.rs:340-344 | the line of any user with any start and any count is read as that start and that count |
| Subid.FewColonsParseToNothing | internal/podman/mod.rs:340-344 | a line with fewer than two colons holds no range |
| Subid.RangesInIff | internal/podman/mod.rs:337-347 | the ranges of a file are exactly those that its lines hold |
| Subid.StartClearsEveryLine | internal/podman/mod.rs:330-351 | the start lies at or above the end of every range on any line of both files, whoever wrote it and whatever its count, and at or above 100000 |
| Subid.StartIsTheLeast | internal/podman/mod.rs:348-350 | a start other than 100000 is the end of some range on file |
| Subid.AllocationWritesBothFiles | internal/podman/mod.rs:311-326 | an allocation adds the same line of 65536 ids to the first file and, if that worked, to the second, and succeeds when both worked |
| Subid.StartClearsReadableFiles | internal/podman/mod.rs:330-351 | the start is at least 100000 and no range of a readable file reaches it |
| Subid.FilesFollowTheLedger | internal/podman/mod.rs:311-351 | over any run the texts of both files hold exactly the ranges of an abstract ledger |
| Subid.AllocationsAreDisjoint | internal/podman/mod.rs:311-351 | over any run, also with allocations that fail half-way, each new range starts at 100000 or above and is disjoint from every range on record and every earlier allocation |
| Subid.StartClearsBothFilesIff | internal/podman/mod.rs:333-350 | the start is clear of everything on record in both files, whatever that is, exactly when both can be read |
| Subid.UnreadableFileIsIgnored | internal/podman/mod.rs:333-336 | when a file cannot be read, a range that is taken in it can be given out again |

## Left out

- Sync.SyncDeliversAChainPrefix: requires strictly increasing `created_at`; what happens with any others is stated by `Sync.SkippedIffPassedOver`.
- Sync.SkippedIffPassedOver: rows with equal `created_at` are returned in the order of their insertion, and all are later than the epoch.
- Audit.AuditLog.Append: appends are serial and the row fetched as the last is the one inserted last; concurrent appends, which read and insert without a transaction, are not modelled.
- Nftables.OneTickRestores: the live table must not hash like the last ruleset without being it; the checksum is not assumed to be injective anywhere else.
- Nftables.Execute: the three commands of a script, with what it adds kept as one block; the text of the rendered template, the persisted configuration file, the dashboard host and the organisation networks, which are always empty, are not spelled out.
- Subid.AllocationsAreDisjoint: assumes readable files (`Subid.StartClearsBothFilesIff` shows that this is needed), sums below 2^64, files that end in a newline and user names without `:` and line breaks; usermod adds one line for the range or fails without changing the file.
- Replay.NoReplayIffTheWindowFits: the database clock never goes backwards, agent and database clocks differ by at most D at every moment, and freshness check and insert lie at most L apart.
- Compose.ValidateCompose: starts from the parsed tree; duplicate keys and tags are the YAML library's matter, except that the accessors look through tags.
- Nginx.ValidateNginx: braces are counted without the 32-bit limit of the depth counter.
- Nginx.Pieces: directives are split at every semicolon and brace, quoted ones too, and none runs over the end of a line.
- Audit.ShiftIsNotNoticed: columns are byte strings; that PostgreSQL refuses text that is not UTF-8 is not modelled.
- Compose.Contained: symbolic links are not followed, and the project's own path is one of plain names.
- System.Notice: which software is present and what becomes of its removal are inputs of the conflict check; container and configuration checks of the nginx watchdog are left out.
- Reopening.PortReopensIff: how a table's base chain reads rule by rule is a parameter.
- Auth.VerifyCommand: duplicate keys in the JSON payload are the JSON library's matter.
- Between the load of a ruleset and the listing that is hashed, nobody edits the table.
- The two writes of `set_lockdown` and the check-then-set of the watchdogs are atomic steps; thread-level races are not modelled.
- The handlers behind dispatch have no effect on the modelled state except the acknowledgement; the nftables commands are modelled on their own in `Nftables`.
- Permission gates of the single handlers, URL and address checks, semantic versions, reconnect backoff, metrics, logging, certificates and installer scripts: short decisions or plumbing.
- Downloads and the install-method check in front of an update are one input that says whether they went well.
