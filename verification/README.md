# Verified model of the auth example application

A Dafny model of the parts of the application that carry logic of their own: the audit log
readers, the realtime fan-out, the user repository, the one-time-code pages, the header and
URL parsers, the edge gate, and the audit table. The authentication library the application
is built around is not part of this model; its answers (a verified token, a redeemed ticket,
a response) are inputs.

`dafny verify dfyconfig.toml` checks everything.

| file | models |
|---|---|
| `AuditLog.dfy` | the append-only `audit_log` table and the query both readers share |
| `AuditPages.dfy` | `GET /audit/logs` and the client walk that follows `nextCursor` |
| `AuditFacets.dfy` | what the page shows of the log, facet by facet |
| `EventId.dfy` | the decimal event id and the `Last-Event-ID` cursor |
| `AuditTail.dfy` | `GET /audit/stream`, the browser hook, and the resumable protocol between them |
| `AuditHooks.dfy` | the lifecycle hooks, which publish, await an insert, and overlap in any way |
| `Fanout.dfy` | the bounded broadcast ring, the per-socket forward loop, any number of sockets |
| `SessionAlerts.dfy` | the hooks and the sockets as one system |
| `UserRepository.dfy` | the `users` table as a state machine, its error mapping, tenant isolation |
| `AuditAggregate.dfy` | the three rates of the auth-health roll-up |
| `OtpInput.dfy` | the segmented code input |
| `AuthPages.dfy` | the expiry pill, the MFA challenge page, the verify-email page |
| `OAuthHosts.dfy` | the host parser and the redirect allow-list derived with it |
| `Credentials.dfy` | the bearer and cookie readers |
| `EdgeGate.dfy` | the protected path patterns and the gate's decisions |
| `Redaction.dfy` | recursive JSON redaction and the leak badge |
| `AuditWindow.dfy` | the virtual-scroll window and follow mode |
| `Options.dfy`, `Numbers.dfy`, `Text.dfy`, `Collections.dfy` | shared vocabulary |

## How the model is built

Code that updates state in place is a class or a loop whose methods are proved equal to a
specification function; the theorems are about that function over every input or every
finite run. A query is its meaning over an abstract table. Concurrency is a sequence of
steps: everything that may interleave is a constructor of one `Step` or `Event` datatype,
and a theorem quantifies over all sequences of them. An async function is cut at its awaits.

The two audit readers are stated against one abstract object, `AuditLog.Filtered`: the page
walk is that sequence backwards, the live tail is a prefix of it. The wire protocol of the
tail is server-sent events, section 9.2 of the WHATWG HTML Standard; the shape of an
authority is section 3.2 of RFC 3986.

Assumptions taken from the repository: row ids become visible in increasing order
(`apps/api/src/audit/routes.rs:63`), ids are positive `BIGSERIAL` values, and the schema of
`apps/api/migrations/0001_init.sql` is enforced by the database.

## Where the code is not what it is said to be

Each is stated as an exact condition with a concrete input.

- `host_of` is documented to read a protocol-relative URL. It looks for `://` anywhere first,
  so `//a:80/x://b` yields `b`. `OAuthHosts.ProtocolRelativeRoundTrip` gives the exact
  condition on the text, `OAuthHosts.EmbeddedUrlWins` the failing family.
- The audit table always renders what is visible, except after it was paused, emptied (by a
  facet nothing matches, say) and filled again: the new container is at the top, the window
  at the old offset (`AuditWindow.RefilledTable`, `AuditWindow.RefilledTableExample`).
- Tenant isolation needs generated ids to be fresh: a primary key is global, so an id already
  held by another tenant's row turns an insert into a conflict
  (`UserRepository.IsolationNeedsFreshIds`, `UserRepository.ForeignClashExample`).
- The audit trail is described as the durable record behind the realtime alerts. An event is
  published before its row is inserted, and two sessions of one user can overlap. For a user
  whose sessions come from different addresses, every alert is among the user's rows exactly
  when no insert of a session somebody heard has failed or is pending, and the rows have the
  alerts' order exactly when those inserts also succeeded in the order of publishing
  (`AuditHooks.TrailIsDurable`, `AuditHooks.AlertWithoutRow`, `AuditHooks.OvertakenExample`).

## Model

| member | source | states |
|---|---|---|
| `AuditLog.WhereIsSelection` | apps/api/src/audit/routes.rs:157-165 | the query returns exactly the log rows that satisfy its facets and keyset bounds, in id order, none missing, extra or repeated |
| `AuditLog.WhereIsSlice` | apps/api/src/audit/routes.rs:224-232 | the rows between two keyset cursors are one contiguous slice of the filtered log |
| `AuditLog.ShownActorFindsRow` | apps/api/src/audit/routes.rs:83-89 | the actor a row shows is its email, else its id, else `system`; filtering on what is shown finds the row unless it is the system actor |
| `AuditPages.LimitIsNearest` | apps/api/src/audit/routes.rs:156 | the limit used lies between the one asked for and any limit in 1..200, so one in range is kept and any other becomes the nearer end |
| `AuditPages.PageContents` | apps/api/src/audit/routes.rs:175-199 | a page is the next clamped-limit rows of what remains below its cursor; it has more, and a next cursor, exactly when more rows remain |
| `AuditPages.PageCursor` | apps/api/src/audit/routes.rs:189-193 | the next cursor is the id of a log row and leaves exactly the rows after this page |
| `AuditPages.AppendIsInvisible` | apps/api/src/audit/routes.rs:161 | rows appended later never show below a cursor a walk holds |
| `AuditPages.WalkFrom` | apps/api/src/audit/routes.rs:156-193 | from any cursor a walk can stand at, with appends between requests, the pages deliver exactly what remained when it got there |
| `AuditPages.WalkReadsTheFilteredLog` | apps/api/src/audit/routes.rs:131-200 | the concatenated pages are the rows present at the first request, newest first, each once, whatever is appended and whatever limits are used; every page but the last is full; more requests than rows always finish |
| `AuditPages.QuietWalk` | apps/api/src/audit/routes.rs:156-193 | a walk of a quiet log with one limit finishes in exactly the rounded-up number of pages |
| `AuditFacets.PageShowsColumns` | apps/api/src/audit/routes.rs:178-188 | without facets a client reads every row of the log, newest first, each shown column equal to the stored one and the actor its email, else its id, else `system` |
| `AuditFacets.TenantFacet` | apps/api/src/audit/routes.rs:164 | whatever the other facets, asking for a tenant keeps exactly the rows that show that tenant |
| `AuditFacets.EventFacet` | apps/api/src/audit/routes.rs:163 | whatever the other facets, asking for an event keeps exactly the rows that show that event |
| `AuditFacets.ActorFacet` | apps/api/src/audit/routes.rs:162 | whatever the other facets, asking for an actor keeps exactly the rows with that actor id or email |
| `EventId.EventIdRoundTrip` | apps/api/src/audit/routes.rs:215-219 | the event id printed for any `i64` row id is non-empty and resumes at that same row |
| `EventId.PrintsWithoutZeros` | apps/api/src/audit/routes.rs:260 | ids are printed in plain decimal, without leading zeros |
| `EventId.ParsesSpellings` | apps/api/src/audit/routes.rs:218 | a header is read as a number exactly when it is an optional sign, any zeros and the printed number, and the number fits an `i64` |
| `EventId.UnreadableStartsOver` | apps/api/src/audit/routes.rs:215-219 | a missing or unreadable header starts the stream from zero, any other at its number |
| `AuditTail.YieldRows` | apps/api/src/audit/routes.rs:248-263 | the row loop emits one frame per row in order and leaves the cursor on the last of them |
| `AuditTail.StreamLogs` | apps/api/src/audit/routes.rs:208-265 | the polling loop, over any outcomes of its polls, computes the specified cursor and frames; a failed poll changes nothing |
| `AuditTail.PollIsProtocolSteps` | apps/api/src/audit/routes.rs:222-264 | one iteration of the loop is the protocol's poll step followed by one yield step for each fetched row |
| `AuditTail.StreamIsExactlyOnce` | apps/api/src/audit/routes.rs:215-264 | from any resume header, over any successful and failed polls of a growing log, the frames are exactly the matching rows between the first and the last cursor |
| `AuditTail.QuietStreamCompletes` | apps/api/src/audit/routes.rs:37 | the tail of a quiet log is complete after n/100 polls rounded up, and not before |
| `AuditTail.AuditTailHook.HandleMessage` | apps/web/hooks/use-audit-tail.ts:52-60 | the handler appends the row and counts it only while paused; a malformed frame changes no rows |
| `AuditTail.AuditTailHook.ChangeFollowing` | apps/web/hooks/use-audit-tail.ts:42-46 | state and ref change together; following again clears the pending count |
| `AuditTail.MalformedIsSkipped` | apps/web/hooks/use-audit-tail.ts:53-59 | a payload that does not parse leaves rows and count alone, and the stream still resumes after its id |
| `AuditTail.StepKeepsInvariant` | apps/web/hooks/use-audit-tail.ts:48-63 | the rows received, in flight and fetched stay three consecutive stretches of the filtered log through every protocol step |
| `AuditTail.TailIsExactlyOnce` | apps/api/src/audit/routes.rs:202-265 | after any interleaving of appends, polls, failed polls, yields, deliveries, lossy disconnects and reconnects, the browser holds exactly the matching rows up to the last id it received, in order, without gap or duplicate |
| `AuditTail.SurroundingsDo` | apps/web/hooks/use-audit-tail.ts:6-8 | a disconnect takes the server loop and everything in flight, and a reconnect resumes after the last id received |
| `AuditTail.PendingCountsMissedRows` | apps/web/hooks/use-audit-tail.ts:24-25 | while paused the pending count grows by exactly the number of rows that arrive |
| `AuditTail.TailCatchesUp` | apps/api/src/audit/routes.rs:221-264 | from every connected reachable state and under every schedule in which the log does not grow and the connection holds, the browser's copy is complete if and only if the loop made n/100 (rounded up) further successful polls and nothing fetched is left to yield or deliver |
| `AuditTail.CatchUpSchedule` | apps/api/src/audit/routes.rs:222-264 | from every such state a schedule with exactly that many polls completes the copy |
| `AuditTail.PagesAndTailAgree` | apps/api/src/audit/routes.rs:141-268 | what a complete tail emits from the start is, event by event, a finished page walk reversed, whatever its limits |
| `AuditHooks.AuditAuthHooks.OnNewSession` | apps/api/src/hooks/audit.rs:194-209 | up to its await the hook has published its event, kept only for a live subscriber, and stored nothing |
| `AuditHooks.AuditAuthHooks.Record` | apps/api/src/hooks/audit.rs:54-74 | when a begun hook's insert settles, whatever hooks began and settled in between, the log is still the rows of the successful inserts in the order they settled, the caller is told success exactly when its row is stored, and then the first page shows a row with the hook's name, actor, tenant and address under any facets that describe it |
| `AuditHooks.SettledCallIsShown` | apps/api/src/hooks/audit.rs:118-212 | from hook to page, for every hook: once its insert succeeds the newest row shown has its own name, the context's email else the actor id else `system`, the context's tenant and address, and is found by any facets of those |
| `AuditHooks.TrailRecordsAlerts` | apps/api/src/hooks/audit.rs:200-211 | at any moment of any interleaving of hooks and inserts a user's rows and alerts (of sessions from different addresses) read the same if and only if exactly the heard sessions are stored and their inserts succeeded in the order of publishing |
| `AuditHooks.TrailIsDurable` | apps/api/src/realtime.rs:14-16 | at any moment of any interleaving, for a user whose sessions come from different addresses: every alert is among the user's rows if and only if no insert of a heard session has failed or is pending, and in order if and only if, besides, those inserts succeeded in the order of publishing |
| `AuditHooks.NothingPending` | apps/api/src/hooks/audit.rs:210-211 | once none of the user's inserts is pending, that condition is that none of a heard session has failed |
| `AuditHooks.HeardTrail` | apps/api/src/hooks/audit.rs:203-211 | while all of a user's sessions are heard, from whatever addresses, rows and alerts are the same, each as often, if and only if no insert has failed or is pending |
| `AuditHooks.OvertakenExample` | apps/api/src/hooks/audit.rs:203-211 | two overlapping sessions whose inserts both succeed and leave the rows out of the alerts' order |
| `AuditHooks.AlertWithoutRow` | apps/api/src/hooks/audit.rs:200-211 | a failed insert leaves a published alert without a row |
| `AuditHooks.RowWithoutAlert` | apps/api/src/hooks/audit.rs:200-209 | with nobody listening a stored session leaves no alert |
| `Fanout.Broadcast.Send` | apps/api/src/hooks/audit.rs:203-209 | the ring keeps the last 256 events in place; without a receiver nothing is stored |
| `Fanout.Broadcast.Subscribe` | apps/api/src/ws/mod.rs:51 | a new receiver sees only what is published after it subscribed |
| `Fanout.Broadcast.Recv` | apps/api/src/realtime.rs:17 | reading the ring gives what the full history gives: the next event, a lag to the oldest retained one, closed, or nothing yet |
| `Fanout.HandleReception` | apps/api/src/ws/mod.rs:127-141 | one turn of the loop body does to the loop's variables what the socket's specified turn does |
| `Fanout.ForwardSessionEvents` | apps/api/src/ws/mod.rs:109-143 | the loop over the real ring sends exactly the frames its socket has in the run of the whole system, stops exactly when that socket does, and leaves no subscription behind when it has stopped |
| `Fanout.EverySocketIsFaithful` | apps/api/src/ws/mod.rs:109-143 | every step of every schedule keeps, for every socket, the account of what it handled, skipped, failed to send and sent |
| `Fanout.FanoutDelivers` | apps/api/src/ws/mod.rs:93-96 | for any number of sockets and any schedule a socket's frames are its own subject-and-tenant events, in order, each at most once; each event it passed unhandled was in a stretch skipped when 256 newer ones had been published, or is the one whose send failed; a socket that never lagged, running or stopped, sent exactly its filtered stream up to there |
| `Fanout.StoppedSocketIsSilent` | apps/api/src/ws/mod.rs:125-134 | after the peer leaves, a send fails or the channel closes, the socket never sends again |
| `Fanout.WakeReads` | apps/api/src/ws/mod.rs:115-141 | a wake of an open socket waits or stops with nothing to read, goes on at the 256th newest event when fallen behind, and otherwise passes one event, sending its address if subject and tenant are the socket's own and stopping exactly if that send fails; nothing else changes |
| `Fanout.OtherStepsDo` | apps/api/src/ws/mod.rs:122-126 | a peer that leaves stops its socket without another frame; an event is kept exactly when a publisher lives and a socket listens; a socket joins at the newest event |
| `Fanout.TurnConservesOwed` | apps/api/src/ws/mod.rs:127-138 | a turn of the loop moves alerts from retained to sent, losing none, and shrinks the backlog by one |
| `Fanout.LoopDrainsAndStops` | apps/api/src/ws/mod.rs:139-140 | with every publisher gone and the peer up, under every schedule of all sockets: the loop has stopped if and only if it had more turns than its backlog, and has then sent each retained matching event |
| `Fanout.ShutdownDrains` | apps/api/src/ws/mod.rs:139-140 | the same from the moment the publishers are dropped |
| `SessionAlerts.FramesAreStoredRows` | apps/api/src/hooks/audit.rs:194-212 | a socket joins at any moment of any run in which hooks begin, inserts settle and sockets move in any order: while it is open and never lagged, its frames with the alerts it has still to read are its user's rows of the sessions begun since, each as often, if and only if none of those inserts has failed or is pending, and (different addresses) in the same order if and only if they also succeeded in the order of publishing |
| `SessionAlerts.SinceRows` | apps/api/src/audit/routes.rs:224-232 | the rows of the sessions begun since a moment are rows of the log, in its order |
| `SessionAlerts.ActKeepsInStep` | apps/api/src/hooks/audit.rs:200-211 | every hook that begins, every insert that settles and every socket step keeps the channel's history equal to the events of the heard calls, every insert settled at most once after its call began, and every socket's account |
| `SessionAlerts.ActionsDo` | apps/api/src/hooks/audit.rs:203-211 | a hook begins heard exactly when a socket is open, a pending insert settles into a row or a failure, and a socket moves as it would alone |
| `UserRepository.SqlxUserRepository.FetchOptional` | apps/api/src/repository/user.rs:74-116 | a lookup returns the matching row of its scope, or none |
| `UserRepository.SqlxUserRepository.FetchOne` | apps/api/src/repository/user.rs:118-139 | an insert stores the new row or leaves the table as it was, and keeps every schema constraint |
| `UserRepository.SqlxUserRepository.Execute` | apps/api/src/repository/user.rs:141-195 | an update changes its row only, an unknown id is no error, and every schema constraint is kept |
| `UserRepository.LookupIsUnique` | apps/api/migrations/0001_init.sql:37-45 | a lookup can match one row at most, so its answer does not depend on a choice |
| `UserRepository.LookupsAreExact` | apps/api/src/repository/user.rs:74-219 | by id and scope, by email or by identity, a lookup finds a user exactly when the table holds that user with those columns |
| `UserRepository.RunKeepsConsistent` | apps/api/migrations/0001_init.sql:19-45 | in every reachable state the schema holds: no two users of a tenant share an email or a complete OAuth identity |
| `UserRepository.ApplyIsLocal` | apps/api/src/repository/user.rs:118-267 | a refused operation changes nothing; no operation touches a row other than its target, or any row's id, tenant, email or creation time |
| `UserRepository.InsertConflicts` | apps/api/src/repository/error.rs:12-27 | an insert succeeds exactly when its key is new and the table with the row in it still satisfies the schema, conflicts exactly when the key is taken or the row would break a uniqueness rule, and is a backend failure exactly when only its tenant is unknown |
| `UserRepository.ConflictNames` | apps/api/src/repository/user.rs:118-139 | from what was sent: an insert conflicts on the key exactly when the id is taken, else on the email exactly when the tenant has it, else on the identity exactly when the tenant has it, and succeeds exactly when nothing is taken and the tenant exists |
| `UserRepository.ConflictsAreUniqueViolations` | apps/api/src/repository/error.rs:20-27 | an error is a conflict exactly when it is SQLSTATE 23505, and names its constraint, or `unique` without one |
| `UserRepository.InsertFillsColumns` | apps/api/src/repository/user.rs:118-139 | a created user has the columns sent, role `user`, status `active` and unverified by default, and no MFA, login or (without OAuth) identity |
| `UserRepository.UpdateReadsBack` | apps/api/src/repository/user.rs:141-237 | after an update the user is found with exactly that update's columns at the values sent and every other column as before; an unknown id changes nothing and is no error |
| `UserRepository.InsertReadsBack` | apps/api/src/repository/user.rs:239-267 | a created user is found under its email, its id and its OAuth identity, within its own tenant only |
| `UserRepository.LinkReadsBack` | apps/api/src/repository/user.rs:221-237 | linking succeeds exactly when no other user of the tenant holds the identity, which then finds the linked user, otherwise unchanged |
| `UserRepository.UpdatesCommute` | apps/api/src/repository/user.rs:141-195 | updates of different columns commute, tables and replies, for equal and for different users |
| `UserRepository.StepInView` | apps/api/src/repository/user.rs:74-268 | one operation on a tenant acts on that tenant's rows as if they were alone; one on another tenant is invisible |
| `UserRepository.OtherTenantsAreInvisible` | apps/api/src/repository/user.rs:74-268 | purge theorem: removing every operation on other tenants and every row of theirs changes no reply to the tenant's own operations and lookups, nor its final rows |
| `UserRepository.ReplyNeedsFreshId` | apps/api/src/repository/error.rs:20-27 | one reply differs from what the tenant alone would get exactly when a generated id is another tenant's key |
| `UserRepository.IsolationNeedsFreshIds` | apps/api/src/repository/user.rs:118-139 | over any run the tenant gets the replies it would get alone if and only if none of its inserts draws another tenant's key |
| `UserRepository.ForeignClashExample` | apps/api/migrations/0001_init.sql:20 | an insert that fails only because of another tenant's row |
| `AuditAggregate.RatesAreShares` | apps/api/src/audit/routes.rs:312-334 | all three rates lie in 0..1 for every table, take their defaults when it is empty, and otherwise reach 1 exactly when all users qualify and 0 exactly when none does |
| `AuditAggregate.UpdateMovesRates` | apps/api/src/audit/routes.rs:351-376 | a first login raises the login rate by one user's share, switching verification or MFA moves its own rate by that share, and no update moves any other rate |
| `OtpInput.HandleKeepsWellFormed` | apps/web/components/auth/otp-input.tsx:54-107 | no event puts anything but one digit in a cell, reports a partial code, or reports more than one |
| `OtpInput.ReportsTheCells` | apps/web/components/auth/otp-input.tsx:59-64 | a code is reported exactly when an entry leaves every cell filled, once, and reads cell by cell what they hold |
| `OtpInput.ChangeKeepsLastDigit` | apps/web/components/auth/otp-input.tsx:66-75 | a change leaves the last digit of the raw text in its cell, the others alone, and moves on to the next cell |
| `OtpInput.ChangeWithoutDigit` | apps/web/components/auth/otp-input.tsx:66-75 | a change without a digit empties its cell and leaves the focus |
| `OtpInput.KeysMove` | apps/web/components/auth/otp-input.tsx:77-94 | Backspace empties its cell, or from an empty one the cell before, where it moves; the arrows move one cell back and on, within the cells |
| `OtpInput.PasteIsTyping` | apps/web/components/auth/otp-input.tsx:97-107 | pasting any text over any state is typing its first digits into blank cells, in cells, focus and reported codes, whenever there is a cell; as functions they differ without one, where the component renders no input to paste into |
| `OtpInput.PasteFillsCells` | apps/web/components/auth/otp-input.tsx:97-107 | a paste puts the first digits of the text into the cells from the left, empties the rest and moves to the cell after, or the last |
| `OtpInput.TypeHolds` | apps/web/components/auth/otp-input.tsx:66-75 | typing digits through the auto-advance fills the cells from the left, stops at the last, and reports the code once |
| `OtpInput.EraseUndoesTyping` | apps/web/components/auth/otp-input.tsx:77-88 | k Backspaces undo k typed digits, focus included |
| `OtpInput.OtpInputComponent.Change` | apps/web/components/auth/otp-input.tsx:66-75 | the handler updates cells, focus and reported codes as specified |
| `OtpInput.OtpInputComponent.KeyDown` | apps/web/components/auth/otp-input.tsx:77-94 | Backspace clears the focused or the previous cell; arrows move only within the cells |
| `OtpInput.OtpInputComponent.Paste` | apps/web/components/auth/otp-input.tsx:97-107 | the handler distributes the digits, moves focus and reports as specified |
| `AuthPages.PillFiresOnce` | apps/web/components/auth/expiry-pill.tsx:47-75 | whatever times the interval observes, the pill fires at most once per expiry value, and has fired exactly when some observed time was expired |
| `AuthPages.PillShowsSeconds` | apps/web/components/auth/expiry-pill.tsx:51-62 | the countdown shows the whole seconds left, rounded down, and none once passed |
| `AuthPages.ExpiryPillComponent.Interval` | apps/web/components/auth/expiry-pill.tsx:60-69 | the callback clears the interval before firing, and a cleared interval does nothing |
| `AuthPages.MfaPageIsGuarded` | apps/web/app/(public)/auth/mfa-challenge/page.tsx:68-102 | over every interleaving of input events, responses, refreshes and ticks: the guard is set exactly while a challenge or the session refresh after it is in flight, at most one of either is, each challenge carries six digits, expiry is reported at most once and no challenge starts after it |
| `AuthPages.ChallengeCarriesCells` | apps/web/app/(public)/auth/mfa-challenge/page.tsx:68-74 | over every run: an input event starts a challenge if and only if it completes the code, the page has not expired and nothing is in flight, and the challenge carries what the six cells hold then |
| `AuthPages.MfaSettles` | apps/web/app/(public)/auth/mfa-challenge/page.tsx:74-85 | a refusal ends a challenge, an acceptance turns it into a session refresh, and the refresh ends |
| `AuthPages.MfaExpiresWhen` | apps/web/app/(public)/auth/mfa-challenge/page.tsx:97 | over every run the page has expired if and only if it opened, or a tick came, with less than a second left |
| `AuthPages.MfaChallengePage.HandleInput` | apps/web/app/(public)/auth/mfa-challenge/page.tsx:102 | the page with its real input and pill follows the guarded machine: a challenge goes out exactly when the event completes the code on a page neither expired nor submitting, with what the cells hold |
| `AuthPages.MfaChallengePage.BeginSubmit` | apps/web/app/(public)/auth/mfa-challenge/page.tsx:68-74 | a challenge goes out exactly when the page is neither expired nor submitting, and every invariant of the machine is kept |
| `AuthPages.MfaChallengePage.ChallengeSettled` | apps/web/app/(public)/auth/mfa-challenge/page.tsx:74-85 | a failed challenge releases the guard, an accepted one keeps it through the session refresh |
| `AuthPages.MfaChallengePage.RefreshSettled` | apps/web/app/(public)/auth/mfa-challenge/page.tsx:77-85 | the guard is released when the refresh settles |
| `AuthPages.MfaChallengePage.PillTicks` | apps/web/app/(public)/auth/mfa-challenge/page.tsx:97 | the page expires exactly at the tick at which its pill fires |
| `AuthPages.VerifyPageIsGuarded` | apps/web/app/(public)/auth/verify-email/page.tsx:81-134 | each guard is set exactly while its request is in flight or, for resend, cooling down; at most one of either is in flight; two resends start at least 30 000 ms apart |
| `AuthPages.StartsWhenFree` | apps/web/app/(public)/auth/verify-email/page.tsx:81-122 | over every run: a click with an email starts a resend if and only if every earlier one was answered and its timer went off, a completed code a verification if and only if the earlier ones were answered; without an email nothing starts |
| `AuthPages.ResendComesBack` | apps/web/app/(public)/auth/verify-email/page.tsx:126-133 | from every reachable state, answering, waiting 30 000 ms and the timer make the next click send |
| `AuthPages.TimersAndAnswers` | apps/web/app/(public)/auth/verify-email/page.tsx:102-104 | the timer goes off when due and not before, and an answer ends a verification |
| `AuthPages.VerifyEmailPage.BeginVerify` | apps/web/app/(public)/auth/verify-email/page.tsx:81-96 | a verify request goes out exactly when the guard is clear and the session has an email |
| `AuthPages.VerifyEmailPage.BeginResend` | apps/web/app/(public)/auth/verify-email/page.tsx:107-122 | a resend goes out exactly when the guard is clear and the session has an email |
| `AuthPages.VerifyEmailPage.FinishResend` | apps/web/app/(public)/auth/verify-email/page.tsx:126-133 | settlement arms the cooldown and leaves the guard set; the page stays in a guarded state |
| `AuthPages.VerifyEmailPage.CooldownElapsed` | apps/web/app/(public)/auth/verify-email/page.tsx:130-132 | the elapsed timer releases the guard only |
| `OAuthHosts.AuthorityRoundTrip` | apps/api/src/engine/oauth.rs:101-120 | the host is read back from any printed authority: optional userinfo, host or bracketed literal, optional port, any delimiter-led tail |
| `OAuthHosts.HostIsNamed` | apps/api/src/engine/oauth.rs:101-120 | for every text and every host the parser reads that host if and only if, up to the first delimiter and after the last `@`, the text is the host followed by nothing, a colon, or anything after a closing bracket |
| `OAuthHosts.AbsoluteRoundTrip` | apps/api/src/engine/oauth.rs:96-121 | the host is read back from any absolute URL |
| `OAuthHosts.PathHasNoHost` | apps/api/src/engine/oauth.rs:97-100 | a text without a scheme separator that does not start with `//` has no host |
| `OAuthHosts.ProtocolRelativeRoundTrip` | apps/api/src/engine/oauth.rs:97-100 | a protocol-relative URL is read back exactly when no scheme separator follows, or the text after the first one names the same host again |
| `OAuthHosts.EmbeddedUrlWins` | apps/api/src/engine/oauth.rs:97-98 | whenever the first scheme separator stands after the real authority, ports and bracketed literals included, the URL embedded there decides the host |
| `OAuthHosts.EmbeddedUrlExample` | apps/api/src/engine/oauth.rs:92-95 | a concrete protocol-relative URL with a port attributed to another host |
| `OAuthHosts.AddHost` | apps/api/src/engine/oauth.rs:81-87 | a host is added unless already listed in some casing; nothing else is |
| `OAuthHosts.RedirectAllowlist` | apps/api/src/engine/oauth.rs:78-90 | the list allows the hosts of both URLs, holds nothing else, and has no case-insensitive duplicate |
| `OAuthHosts.RedirectKeepsHost` | apps/api/src/engine/oauth.rs:37-41 | for every origin that names a host, trimming its slashes and appending a redirect path names the same host |
| `OAuthHosts.OauthConfigured` | apps/api/src/engine/oauth.rs:33-45 | for every host-bearing origin all three redirect URLs stay on that host and on the allow-list, and so does a host-bearing callback |
| `Credentials.BearerRoundTrip` | apps/api/src/guards/mod.rs:34-46 | any casing of the scheme and any padding: the token is read back, an empty one is none |
| `Credentials.BearerIsCarried` | apps/api/src/guards/mod.rs:34-46 | on every header text: a token is read if and only if the header is readable, its first six characters spell the scheme in some casing, a space follows, and the rest is that non-empty token between white space |
| `Credentials.CookieRoundTrip` | apps/api/src/guards/mod.rs:51-62 | from any printed cookie header the first cookie of that exact name is read; a blank one hides later ones and counts as absent |
| `Credentials.CookieIsCarried` | apps/api/src/guards/mod.rs:51-62 | on every header text: a value is read if and only if it is not blank, the header is readable, and the first of its pieces that names the cookie gives that value |
| `Credentials.AccessTokenRoundTrip` | apps/api/src/guards/mod.rs:69-71 | a readable bearer token wins over any cookie; without one the cookie is the credential |
| `Credentials.AccessTokenIsCarried` | apps/api/src/guards/mod.rs:69-71 | on every pair of headers: the credential is the bearer token if the authorization header carries one, else what the cookie header carries under the name, and nothing else is |
| `Text.CaseIsIgnored` | apps/api/src/guards/mod.rs:37 | two characters agree up to case exactly when they are equal or the two cases of one ASCII letter |
| `EdgeGate.ProtectedIsSegmentRule` | apps/web/proxy.ts:48 | for every path string the two regular expressions are exactly the segment rule |
| `EdgeGate.GateIsFailClosed` | apps/web/proxy.ts:72-112 | a protected page passes exactly on a verified token of its own domain; otherwise that domain's login, with a reason exactly for a valid token of another type |
| `EdgeGate.OutsideThePages` | apps/web/proxy.ts:75-81 | exactly the paths under `/api/auth/` go to the auth proxy, and every other unprotected path passes |
| `EdgeGate.OneHop` | apps/web/proxy.ts:58-62 | every redirect target passes through, whatever session comes with it |
| `Redaction.RedactValue` | apps/web/components/audit/AuditTable.tsx:88-98 | the accumulating traversal computes the specified redaction |
| `Redaction.PublicPathKept` | apps/web/components/audit/AuditTable.tsx:87-98 | along any path without secret keys the same things are reachable, with the same leaf, length or keys |
| `Redaction.SecretPathRedacted` | apps/web/components/audit/AuditTable.tsx:93 | at the outermost secret key of any path there is the marker, and nothing beneath it |
| `Redaction.IdentityWithoutSecrets` | apps/web/components/audit/AuditTable.tsx:152 | a value without secret keys is left exactly as it is, so the drawer may skip redaction |
| `Redaction.RedactIdempotent` | apps/web/lib/trigger-actions.ts:49-66 | redacting twice is redacting once |
| `Redaction.StrongerAbsorbs` | apps/web/lib/trigger-actions.ts:56-66 | redacting with more keys after fewer is redacting with more |
| `Redaction.RedactHidesExactlySecrets` | apps/web/components/audit/AuditTable.tsx:100-107 | two values look alike after redaction exactly when they differ only beneath secret keys |
| `Redaction.BadgeSurvivesRedaction` | apps/web/components/audit/AuditTable.tsx:69-77 | the leak badge is the same before and after redaction |
| `Redaction.CleanBadgeIsSound` | apps/web/components/audit/AuditTable.tsx:79-85 | without the badge no path of the value, at any depth, ends in a secret key |
| `Redaction.RaisedBadgeHasPath` | apps/web/components/audit/AuditTable.tsx:69-77 | with the badge some path does |
| `Redaction.ShownDetails` | apps/web/components/audit/AuditTable.tsx:129-157 | what the drawer shows is the redacted value, whether or not it took the redacting branch |
| `Redaction.SetKeysMatchPattern` | apps/web/lib/trigger-actions.ts:34-44 | every key the playground strips is one the drawer's pattern recognises |
| `Redaction.SecretKeysAre` | apps/web/components/audit/AuditTable.tsx:66 | a key is secret-shaped exactly when it contains one of the six words in any casing, or `code` standing alone |
| `Redaction.CodeIsWholeWord` | apps/web/components/audit/AuditTable.tsx:66 | `code` counts exactly when no digit, letter or underscore touches it |
| `Redaction.PlaygroundStrips` | apps/web/lib/trigger-actions.ts:34-66 | the playground strips exactly its nine keys, in their exact spelling |
| `Redaction.PlaygroundThenDrawer` | apps/web/components/audit/AuditTable.tsx:66 | the drawer's redaction after the playground's shows what the drawer's alone would |
| `AuditWindow.WindowCovers` | apps/web/components/audit/AuditTable.tsx:191-195 | every row that shows a pixel in the viewport is rendered, also when the container sits up to a row above the computed offset |
| `AuditWindow.WindowIsBounded` | apps/web/components/audit/AuditTable.tsx:193-194 | at most eighteen rows are rendered however many there are |
| `AuditWindow.ScrollsFollow` | apps/web/components/audit/AuditTable.tsx:197-201 | a scroll shows its offset, and the table follows exactly when at most one row of 44 pixels is left below the viewport; starting to follow pins the bottom |
| `AuditWindow.RowsFollow` | apps/web/components/audit/AuditTable.tsx:175-181 | new rows take a followed table to the new bottom and leave a paused one where it is while it fits |
| `AuditWindow.EveryVisibleRowIsRendered` | apps/web/components/audit/AuditTable.tsx:170-201 | in every state with rows reached by scrolling, growing, shrinking, emptying and jumping: all visible rows are rendered if and only if the table follows, or the container is at the offset the component holds, or that offset is within the first five rows; at most eighteen rows are rendered, and a followed table renders its last |
| `AuditWindow.RowsAreMissingWhen` | apps/web/components/audit/AuditTable.tsx:170-201 | over any run that ends with rows, some visible row is not rendered if and only if the table was emptied while paused at 220 pixels or more and has since been neither scrolled nor sent to the latest rows |
| `AuditWindow.NeverEmptiedIsCovered` | apps/web/components/audit/AuditTable.tsx:183-195 | a table that never loses all its rows always renders every visible one |
| `AuditWindow.RefilledTable` | apps/web/components/audit/AuditTable.tsx:175-191 | a paused table emptied and filled again shows its top while the window stays at the old offset, so the visible rows are rendered if and only if that offset was within the first five rows |
| `AuditWindow.RefilledTableExample` | apps/web/components/audit/AuditTable.tsx:183-191 | a concrete run after which the first row is visible and not rendered |
| `AuditWindow.AuditTable.OnScroll` | apps/web/components/audit/AuditTable.tsx:197-201 | a scroll copies the offset, decides follow mode by one row's tolerance, and re-pins when it starts to follow |
| `AuditWindow.AuditTable.SetRows` | apps/web/components/audit/AuditTable.tsx:175-189 | new rows re-pin a followed view, a shrunk table is clamped as a scroll, no rows unmount the container and keep the component's offset, the first rows mount one at the top |

## Left out

- The authentication library: token verification, session rotation, TOTP, ticket redemption and role checks are inputs; so are the guards and hooks that only call it, `force_lockout` and the OAuth callback.
- SQL text, PostgreSQL, Redis, tokio and axum: a query is its meaning over an abstract table, the channel is a ring with one cursor per receiver. Rows committed out of id order are not modelled.
- Repository outages: a transport error reaches `MapSqlxError` as a backend error but no step of the table fails for that reason.
- Serialization: rendering a row as JSON is total, timestamps and detail payloads are the rendered text, the realtime frame is determined by its ip.
- `AuditTail.StreamLogs`: the endless loop is cut after an arbitrary finite number of polls; the one-second pause between them is not modelled.
- `AuditTail.TailIsExactlyOnce`: one EventSource lifetime. Toggling Live opens a fresh source, and the audit page's concatenation of page rows with tail rows can repeat a row; neither is part of the claim.
- `AuditAggregate.RatesAreShares`: shares are exact rationals; floating-point rounding, the count of recent sessions and its time window are not modelled.
- `AuditHooks.TrailRecordsAlerts`: whether a socket listens when a call begins is an input (`SessionAlerts` takes it from the hub); rows become visible in the order their inserts settle; that the context carries the user's own tenant, and no one else's email equal to the user's id, is what the library passes; it is a precondition.
- `AuditHooks.TrailIsDurable`: an alert carries only an address, so two sessions from one address cannot be told apart by it; the only-if halves assume different ones, the other halves (`AuditHooks.TrailKeepsAlerts`) do not.
- `OtpInput`: browser default key actions; a cell's `maxLength`; paste is allowed on any cell, which the page offers on the first only.
- `AuthPages`: React rendering, StrictMode double effects and unmounting; state updates are synchronous. The challenge page without a temp token renders no form and is not modelled; error messages are not either.
- `AuditWindow.EveryVisibleRowIsRendered`: the race between a scroll event and a render with new rows; the facet filter is an arbitrary row count at each render.
- `Redaction`: JavaScript object oddities such as a `__proto__` key or the reordering of integer keys; objects are ordered lists of entries.
- `EdgeGate.OneHop`: the `/api/auth/` middleware behind the gate, the matcher configuration and query strings.
- `OAuthHosts.OauthConfigured`: the disabled configuration without Google credentials, and the credentials themselves.
- `Credentials`: a duplicated header (the first value is the one read), non-ASCII white space in a value.
- Email transports and templates, the TLS client, settings, telemetry, seeding, API client wrappers, UI primitives and error tables: I/O or one-branch code.
