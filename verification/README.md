# Attendance server: a verified model

This project models the parts of the attendance server whose correctness depends on state, order and
arithmetic, and proves what they are for. `dafny verify dfyconfig.toml` checks all of it. Each module
stands for one component; code that changes state is modelled by a class or a method with the same
branches and loops, proved equal to a step function, and the theorems speak about every run of those
steps or every input.

- `HandoffStore`, `HandoffPolling`: the ticket store that carries a LINE login from LINE's own browser
  back to the browser that began it, and the long-poll that waits on it, with any number of handlers.
- `OAuthState`: the one-time OAuth state tokens.
- `LinkRateLimit`: the two sliding windows, the lockout and the per-code counter around link-account.
- `MenuSync`: the rich-menu reconciler working against the LINE channel, one API call at a time.
- `SnapshotGate`: the pre-migration backup protocol with crashes, retries and damaged files.
- `EmployeeMerge`: merging one employee record into another.
- `Attendance`: one day of an employee on the by-date page and in the monthly report, and the totals.
- `RoundedMask`, `TextWrap`: the rounded-corner mask and the Thai line wrapper.
- `ReaderStores`: card taps, claims, self-login and elevate tickets, and the pollers on them.
- `LeaveNote`, `OnDuty`: the half-day marker in leave notes, and the on-duty rule for housekeeping.
- `Wrappers`: optional values and results.

Clock readings, random tokens, database rows, digests, fonts and the Unicode category are parameters.
Tokens are assumed fresh where a theorem needs it, and the clock is assumed not to run backwards where a
theorem says so. Functions named ...Step, ...After or ...At are the specification the methods are proved
against; variables described as history exist only to state theorems.

## What the code does that its comments do not say

- A non-ASCII secret after a live ticket id makes `hmac.compare_digest` raise, so the promise that all
  refusals of the hand-off store look alike holds exactly for the other cookies (`RefusalsLookAlike`,
  `AccentedSecretRaises`).
- After the pruning at its head, `_enforce_link_rate_limit` can never reach the branch that drops a
  lockout that is over; the model asserts that the branch is dead.
- The fifth wrong guess takes a code only from an inactive employee: an active one's code is not a wrong
  guess, so it is never invalidated (`InvalidatedAtFifth`).
- A link of a user whom the assignments no longer mention is left alone and dangles afterwards unless its
  menu is listed before the run and is foreign or the last listed one under the name of a deployable
  variant (`UnassignedDangles`, `OutdatedLinkDangles`).
- Attendance records are listed among the tables without a UNIQUE constraint on the badge, but have one:
  merging two badges that hold the same punch fails and is rolled back (`OnlySharedPunchesRefuse`,
  `SharedPunchRefused`).
- Every row of the old badge is to be renamed, but the merge does not list the two staff-leave tables: their
  rows, and no others, keep naming the old badge (`SourceGoneExactly`, `LeaveDayLeft`).
- The two pages can disagree about lateness on shifts of at most two hours (`LatenessAgreesExactly`), and
  about absence when the monthly fetch misses the end of an overnight shift that ends after 22:00 on the
  month's last day (`RangeCovers`, `ViewsAgreeExactly`).
- Removing the half-day markers can leave one behind a newline (`RemovalIsFree`, `NewlineExposes`), and
  trimming can expose one at the end (`EndsExactly`, `RoundTripExactly`, `TrimmingExposes`).

## Model

| member | source | states |
|---|---|---|
| `HandoffStore.SplitCookieInverse` | app/services/line_handoff_store.py:393-400 | a cookie splits into an id and a secret exactly when it is the string handed out for them |
| `HandoffStore.RefusalsLookAlike` | app/services/line_handoff_store.py:403-420 | exactly the issued string of a live ticket is let in; a cookie raises exactly when it joins a live id with a non-ASCII secret; all others are refused alike |
| `HandoffStore.AccentedSecretRaises` | app/services/line_handoff_store.py:403-420 | an instance: with one live ticket, a wrong secret finds nothing and an accented one raises |
| `HandoffStore.Store.PruneLocked` | app/services/line_handoff_store.py:290-293 | the loop leaves exactly the unexpired tickets, unchanged |
| `HandoffStore.Store.CreateTicket` | app/services/line_handoff_store.py:296-335 | the new table and answer are those of the create step: pruned first, refused at 500 |
| `HandoffStore.Store.ResolveTicket` | app/services/line_handoff_store.py:338-390 | the resolve step; any refusal leaves the table unchanged |
| `HandoffStore.Store.PeekStatus` | app/services/line_handoff_store.py:423-436 | the status behind an authentic cookie |
| `HandoffStore.Store.TakeResolved` | app/services/line_handoff_store.py:439-462 | pops and returns a resolved ticket for its cookie, else leaves the table unchanged |
| `HandoffStore.PrunedIsLive` | app/services/line_handoff_store.py:315-323 | after pruning the capacity test counts exactly the live tickets |
| `HandoffStore.Simulation` | app/services/line_handoff_store.py:290-462 | in every run the table mirrors an archive that never forgets |
| `HandoffStore.PruningUnobservable` | app/services/line_handoff_store.py:290-335 | every create, resolve, peek and take is answered as the archive answers it, and the table never exceeds 500 |
| `HandoffStore.HistoryExplained` | app/services/line_handoff_store.py:338-390 | what is known of a ticket is its create, the first matching resolve and the take, whatever else was called |
| `HandoffStore.CreateExactly` | app/services/line_handoff_store.py:296-335 | a create is refused exactly while 500 issued tickets are neither expired nor taken, and else answered with id, dot and secret |
| `HandoffStore.ResolveExactly` | app/services/line_handoff_store.py:338-390 | the answer to every resolve of an issued id, on the raw addresses: unknown once expired or taken, already after the first from the creator's address, raising outside ASCII, mismatch from any other address, else ok |
| `HandoffStore.ResolvedFromCreator` | app/services/line_handoff_store.py:374-390 | a resolve that succeeds comes in time from the very address of the create that issued the id, and is the first that does |
| `HandoffStore.CreatorResolves` | app/services/line_handoff_store.py:374-390 | the converse: the first resolve in time from the creator's ASCII address succeeds |
| `HandoffStore.PeekShows` | app/services/line_handoff_store.py:423-436 | the cookie of an outstanding ticket is shown whether it has been resolved |
| `HandoffStore.PeekHides` | app/services/line_handoff_store.py:423-436 | any other cookie is never shown a status |
| `HandoffStore.DeliveredOnlyToHolder` | app/services/line_handoff_store.py:439-462 | a delivery goes to a poll with exactly the cookie a create returned, in time, with the identity given by the first resolve that came in time from the very address of that create |
| `HandoffStore.OwedIsDelivered` | app/services/line_handoff_store.py:439-462 | the converse: whenever that is owed, the poll receives it |
| `HandoffStore.DeliveredAtMostOnce` | app/services/line_handoff_store.py:448-451 | no two deliveries of a run present the same cookie |
| `HandoffStore.HandOffWorks` | app/services/line_handoff_store.py:296-462 | for any tokens, address and person there is such a run: create, resolve from the same address and a poll in time deliver that identity |
| `HandoffPolling.WaitersAreParked` | app/services/line_handoff_store.py:465-480 | in every interleaving the counter is the number of parked handlers, at most 32, and positive whenever one releases |
| `HandoffPolling.HandOverIsOwed` | app/api/line_auth.py:1042-1077 | a handler is handed an identity only as its cookie is owed it |
| `HandoffPolling.OwedIsHandedOver` | app/api/line_auth.py:1042-1077 | the converse: a woken handler, or an arriving one that finds a free slot, answers with the record its cookie is owed at its turn |
| `HandoffPolling.HandedOverOnce` | app/api/line_auth.py:1060-1077 | no interleaving hands one ticket to two handlers |
| `HandoffPolling.ArrivalAnswered` | app/api/line_auth.py:1042-1077 | an arriving handler is answered 404, 503 while 32 others sleep, the identity, 500 or 204, or sleeps with its cookie until its timeout, exactly as the store and the sleepers say |
| `HandoffPolling.WakeAnswered` | app/api/line_auth.py:1060-1077 | a woken handler is answered the identity, 500, or 204 from its deadline on, and else sleeps on; other happenings answer nobody |
| `HandoffPolling.NotFoundHasNone` | app/api/line_auth.py:1050-1054 | nobody with an outstanding ticket's cookie is answered 404 |
| `HandoffPolling.ParkedCookieArrived` | app/api/line_auth.py:1042-1066 | a sleeping handler works with the cookie its request brought, until its timeout after that |
| `OAuthState.StateStore.CleanupExpiredStates` | app/services/line_auth_service.py:461-471 | the sweep keeps exactly the states not older than 600 seconds |
| `OAuthState.StateStore.GenerateAuthorizationUrl` | app/services/line_auth_service.py:172-179 | inserts the state, then sweeps |
| `OAuthState.StateStore.ValidateState` | app/services/line_auth_service.py:251-277 | the validate step: swept, checked, removed |
| `OAuthState.TableHolds` | app/services/line_auth_service.py:143-277 | the store holds only unused latest insertions and every one that has not expired |
| `OAuthState.ValidExactly` | app/services/line_auth_service.py:251-277 | a state is accepted if and only if its latest insertion is unused and at most 600 seconds old, with that insertion's hint |
| `LinkRateLimit.Limiter.PruneState` | app/api/line_auth.py:74-108 | the three loops leave exactly the entries that still matter |
| `LinkRateLimit.Limiter.Enforce` | app/api/line_auth.py:133-182 | the decision and the new dictionaries of the enforce step; the branch for a lockout that is over is dead |
| `LinkRateLimit.Limiter.RecordFailure` | app/api/line_auth.py:185-198 | appends, prunes and locks out at the twentieth |
| `LinkRateLimit.Limiter.RecordCodeFailure` | app/api/line_auth.py:209-219 | counts a code's failures |
| `LinkRateLimit.Limiter.LinkAccount` | app/api/line_auth.py:1466-1544 | the link-account step: enforce before record, for every state of the code's row, and with the database failing at the lookup, at the commit or afterwards |
| `LinkRateLimit.Limiter.RejectCode` | app/api/line_auth.py:1477-1505 | the wrong-code step: both counters grow, and at the fifth a row that holds the code loses it and the code's counter is dropped |
| `LinkRateLimit.LinksExactly` | app/api/line_auth.py:1466-1544 | a link is granted exactly to an admitted request whose code an active employee's row holds, in time and not yet linked, while the database works |
| `LinkRateLimit.HistoryExactly` | app/api/line_auth.py:1477-1544 | what each request leaves of a key's failures: one more with a missing, inactive, expired or linked code, none after a committed link, else the same |
| `LinkRateLimit.EnforceJudges` | app/api/line_auth.py:133-182 | the pruned dictionaries decide as the full history of the key, Retry-After included |
| `LinkRateLimit.DecidedByHistory` | app/api/line_auth.py:74-182 | in every run every request is decided by the complete unpruned failure history |
| `LinkRateLimit.RefusedExactly` | app/api/line_auth.py:133-182 | a request is refused exactly within 300 seconds of a failure that was the twentieth in 300 seconds, or with five failures in the last 60 |
| `LinkRateLimit.HistorySpaced` | app/api/line_auth.py:1468-1528 | in every run any six failures span a minute, any twenty-one span five, and a lockout is followed by a pause |
| `LinkRateLimit.FailuresBounded` | app/api/line_auth.py:57-61 | at most 5 failures in any minute and 20 in any five minutes, per key since its last link |
| `LinkRateLimit.LockoutPauses` | app/api/line_auth.py:185-198 | a lockout is set by exactly the twentieth failure in five minutes, the next recorded failure comes 300 seconds later at the earliest, and no counted one survives the lockout |
| `LinkRateLimit.LockoutHolds` | app/api/line_auth.py:146-154 | in every run, while the lockout of the latest failure lasts, every request of the key is answered 429 and its history stays as it is, so that no link intervenes |
| `LinkRateLimit.LockoutReached` | app/api/line_auth.py:185-198 | an instance for any key: five wrong guesses at each of 0, 60, 120 and 180 seconds are let through and set the lockout, and until 480 seconds guesses are refused and leave the history as it is |
| `LinkRateLimit.RetryAfterHonest` | app/api/line_auth.py:148-182 | with no failure meanwhile, attempts are refused exactly until the release time, and Retry-After covers it with at most one second more |
| `LinkRateLimit.InvalidatedAtFifth` | app/api/line_auth.py:1477-1500 | a code is taken from the row that holds it exactly by an admitted guess, with the row an inactive employee's and no database failure, that brings an unbroken chain of wrong guesses to five |
| `LinkRateLimit.CodeHistoryExactly` | app/api/line_auth.py:1477-1544 | how a code's chain grows, ends and is broken by an hour without a wrong guess |
| `LinkRateLimit.ChainsStopAtFive` | app/api/line_auth.py:1481-1500 | while no commit fails, a chain never goes beyond four, so the guess that invalidates is the fifth |
| `MenuSync.NamesAreInjective` | app/services/staff_oa_menu.py:231-239 | names tell the variants apart whatever the signatures, and carry the prefix |
| `MenuSync.Channel.BulkLink` | app/services/staff_oa_service.py:218-252 | these users relinked, with exactly one recorded state for every chunk of at most 500 |
| `MenuSync.Channel.CreateRichMenu` | app/services/staff_oa_service.py:121-128 | a new menu under a fresh id, nothing else |
| `MenuSync.Channel.DeleteRichMenu` | app/services/staff_oa_service.py:140-145 | that menu gone, nothing else |
| `MenuSync.Run.EnsureVariants` | scripts/staff_oa_sync.py:134-208 | the plan: ids, names, skipped and created variants, and only the missing menus created |
| `MenuSync.Run.LinkUsers` | scripts/staff_oa_sync.py:238-294 | every group linked to its own menu, else base, else unlinked, in single recorded calls |
| `MenuSync.Run.DeleteStale` | scripts/staff_oa_sync.py:317-326 | exactly the stale menus deleted, one by one, each at a moment when nothing refers to it |
| `MenuSync.Run.Sync` | scripts/staff_oa_sync.py:91-326 | a dry run changes nothing and reports the same creates, deletes and skips; an applied run ends in the synced state; what it records are single calls, each after the other: a create, a switch of the default or a link to an existing menu, or the deletion of a staffhub menu nothing refers to; and from a safe channel every single state is safe, with foreign menus untouched |
| `MenuSync.KeptMeaning` | scripts/staff_oa_sync.py:317-323 | the ids kept are exactly the last listed menus of desired names |
| `MenuSync.DeletedWasUnreferenced` | scripts/staff_oa_sync.py:296-316 | whatever menu disappears at some call of a run is a staffhub menu that neither the default nor any assigned user's link names at that moment, and it disappears alone |
| `MenuSync.ForeignMenusStay` | app/services/staff_oa_menu.py:238-239 | menus whose names lack the prefix neither come nor go at any call of a run |
| `MenuSync.PlanDistinct` | scripts/staff_oa_sync.py:56-73 | the plan names no variant twice |
| `MenuSync.SurvivorsConverged` | scripts/staff_oa_sync.py:317-326 | afterwards the staffhub menus are exactly one per deployable variant |
| `MenuSync.SyncedConverges` | scripts/staff_oa_sync.py:120-326 | the default is base and every assigned user is on their own variant, else base, else nothing; nobody else's link changes |
| `MenuSync.MenusShowContent` | scripts/staff_oa_sync.py:120-326 | every staffhub menu a run leaves is named after a deployed variant and the signature of its present content; the default is base's, and every assigned user has their own variant's, else base's, else none |
| `MenuSync.ChangeIsRedeployed` | scripts/staff_oa_sync.py:192-326 | when a later run finds a deployed variant's content changed, it creates the new menu and deletes the one that the default or the variant's users have |
| `MenuSync.ConvergedIsFixed` | scripts/staff_oa_sync.py:120-326 | on a converged channel a run creates and deletes nothing and changes nothing |
| `MenuSync.SecondRun` | scripts/staff_oa_sync.py:120-326 | a second run over the same assignments creates and deletes nothing and leaves the channel as the first left it, wherever that started |
| `MenuSync.UnassignedDangles` | scripts/staff_oa_sync.py:296-326 | an unmentioned user's link is left alone, and afterwards names a menu exactly when in the listing before the run that menu is foreign or the last listed one of a desired name |
| `MenuSync.OutdatedLinkDangles` | scripts/staff_oa_sync.py:296-326 | an instance: a safe channel on which a run leaves an unmentioned user with a deleted menu |
| `SnapshotGate.StagingIsNoRun` | app/services/deploy_backup.py:26-26 | a staging name is never a deployment run's name |
| `SnapshotGate.RunMeaning` | app/services/deploy_backup.py:26-26 | a run's name is up to 20 digits, a hyphen and up to 6 digits, neither number beginning with a zero |
| `SnapshotGate.CommitMeaning` | app/services/deploy_backup.py:27-27 | a commit is 40 lower-case hexadecimal digits |
| `SnapshotGate.InspectMeaning` | app/services/deploy_backup.py:64-82 | inspection succeeds exactly for a database whose integrity check says ok, with the three tables, and in DELETE mode where that is asked |
| `SnapshotGate.VerifyMeaning` | app/services/deploy_backup.py:98-116 | a snapshot verifies exactly when its manifest names the format, run and commit and the size, checksum and schema of a sound database |
| `SnapshotGate.HolderIsAlone` | app/services/deploy_backup.py:141-152 | only the holder of the lock is between taking it and leaving |
| `SnapshotGate.Reachable` | app/services/deploy_backup.py:119-195 | every sequence of attempts, crashes, damage and application writes keeps the protocol's invariant |
| `SnapshotGate.MigratesBehindSnapshot` | app/services/deploy_backup.py:153-193 | whoever may migrate holds the lock behind a snapshot for the run and commit that is a sound database with the manifest describing it, and without checksum collisions it is the backup of the database from before the run's first migration step, files being damaged only while nobody holds the lock |
| `SnapshotGate.BegunMeaning` | app/services/deploy_backup.py:193-193 | the recorded runs are those of attempts that took a migration step |
| `SnapshotGate.NeverReplaced` | app/services/deploy_backup.py:154-155 | a run's snapshot keeps its manifest for ever, and its database unless a file was damaged |
| `SnapshotGate.RetriesShareSnapshot` | app/services/deploy_backup.py:1-7 | a retry that gets through works behind the first attempt's snapshot, for the same commit |
| `SnapshotGate.Volume.FillStaging` | app/services/deploy_backup.py:161-186 | a verified staging copy, or nothing left of it; a run of protocol steps |
| `SnapshotGate.Volume.TakeSnapshot` | app/services/deploy_backup.py:156-186 | the rename adds exactly the run's snapshot; a failure before it leaves the folder as it was |
| `SnapshotGate.Volume.Reuse` | app/services/deploy_backup.py:154-155 | an existing snapshot is verified, never changed |
| `SnapshotGate.Volume.Gate` | app/services/deploy_backup.py:119-195 | an attempt opens the gate if and only if run and commit are well formed, the source is not empty, the lock is free, and either the run's snapshot is sound or the source is (in DELETE mode where asked) and its copy is and nothing fails; then the run's snapshot is sound; a failed one holds no lock and leaves nothing; all of it is a run of protocol steps |
| `EmployeeMerge.Registry.MoveAll` | app/api/admin_employees.py:227-235 | moves every row of the source, refused exactly when a UNIQUE key would clash |
| `EmployeeMerge.Registry.MoveOrDropDuplicates` | app/api/admin_employees.py:238-258 | the loop's table and its counters: moved and dropped rows are all the source's rows |
| `EmployeeMerge.MergeIsUnion` | app/api/admin_employees.py:241-243 | by key the target ends with its own row where it had one and the source's elsewhere, the source with none, others unchanged |
| `EmployeeMerge.MergeKeepsUnique` | app/api/admin_employees.py:248-257 | UNIQUE(badge, key) holds afterwards although the queries read the table as it was |
| `EmployeeMerge.QueriesAgree` | app/api/admin_employees.py:248-252 | every collision query answers as one on the current rows would |
| `EmployeeMerge.MergeCounts` | app/api/admin_employees.py:245-258 | no row is lost or invented, and none names the source |
| `EmployeeMerge.MoveAllFits` | app/api/admin_employees.py:310-318 | a bulk move respects the constraint exactly when the badges share no key, and then it is the merge |
| `EmployeeMerge.TableMerged` | app/api/admin_employees.py:38-53 | every constrained table the merge lists ends as the right-biased union |
| `EmployeeMerge.SourceGoneExactly` | app/api/admin_employees.py:262-281 | no row of any table names the source after a merge that goes through, exactly when the source has no staff-leave request and no staff-leave day, the two tables the merge does not list |
| `EmployeeMerge.LeaveDayLeft` | app/models/staff_leave.py:51-58 | an instance: a badge with one day of leave is renamed, nothing refuses it, and the day keeps the old badge |
| `EmployeeMerge.OnlySharedPunchesRefuse` | app/api/admin_employees.py:38-43 | merging into an existing employee fails in the database exactly when both hold a punch of the same time and type |
| `EmployeeMerge.SharedPunchRefused` | app/api/admin_employees.py:38-43 | an instance: two badges with one and the same punch cannot be merged |
| `EmployeeMerge.ColumnsStayUnique` | app/api/admin_employees.py:327-343 | the four UNIQUE employee columns stay unique |
| `EmployeeMerge.DeleteBeforeCopy` | app/api/admin_employees.py:327-340 | copying before deleting would break them exactly when one of them is copied |
| `EmployeeMerge.IdentityKept` | app/api/admin_employees.py:293-304 | a column of the target that holds more than the empty text stays, another takes the source's, and no LINE account is lost |
| `EmployeeMerge.Registry.FieldsToCopy` | app/api/admin_employees.py:332-337 | exactly the fields filled in the source and empty in the target |
| `EmployeeMerge.StripMeaning` | app/api/admin_employees.py:281-282 | stripping takes spaces off both sides and nothing else |
| `EmployeeMerge.Registry.Merge` | app/api/admin_employees.py:281-374 | the error of each refusal with everything rolled back, or the merged employees and tables, the log entry, and a summary that accounts for every source row |
| `Attendance.EndsAgree` | app/services/shift_service.py:289-340 | the window's end and the report's end agree unless the shift starts and ends within one minute |
| `Attendance.BuildMonthDay` | app/api/consolidated_attendance.py:708-853 | the loop over the punches gives the specified day row |
| `Attendance.SplitPunches` | app/api/consolidated_attendance.py:803-814 | the loop puts each punch on the side the shift's middle and the punch type say |
| `Attendance.PresentDay` | app/api/consolidated_attendance.py:816-853 | the row of a day with punches, from the earliest in and the latest out, with assumed sides |
| `Attendance.PunchesPartition` | app/api/consolidated_attendance.py:803-814 | every punch in the window is on exactly one side |
| `Attendance.OrderFree` | app/api/consolidated_attendance.py:529-853 | neither view depends on the order of punches or on duplicates |
| `Attendance.ByDateMeaning` | app/api/consolidated_attendance.py:599-631 | the by-date row shows the first and last punch that counts, in numbers, is late exactly when the first is, and the span between |
| `Attendance.PresentMeaning` | app/api/consolidated_attendance.py:765-853 | present exactly with a punch in the window; the check-in is the earliest of its side, the check-out the latest of the other |
| `Attendance.DayInNumbers` | app/api/consolidated_attendance.py:765-853 | the monthly day of a working employee in numbers: absent or pending without a punch that counts, else the earliest check-in, the latest check-out, the whole minutes late with their grade, and the hours between, assumed sides included |
| `Attendance.StatusExactly` | app/api/consolidated_attendance.py:708-790 | future days, public holidays except for reception, leave, days off and untracked days, exactly, and days off on the by-date page |
| `Attendance.LateInNumbers` | app/api/consolidated_attendance.py:131-157 | minutes late are whole minutes, and the tier is theirs at 5, 15 and 30 |
| `Attendance.PresentBounds` | app/api/consolidated_attendance.py:799-853 | bounds of check-in, check-out and lateness around the middle of the shift, assumed sides, positive hours, and pending only today |
| `Attendance.RangeCovers` | app/api/consolidated_attendance.py:890-905 | the fetched range covers a shift's window exactly unless it is overnight, ends after 22:00 and lies on the last day |
| `Attendance.ViewsAgree` | app/api/consolidated_attendance.py:529-631 | off, absent and present mean the same on both pages for a tracked employee on every day that has come and that the month's fetch covers |
| `Attendance.ViewsAgreeExactly` | app/api/consolidated_attendance.py:890-905 | the pages agree on a shift day for all punches exactly when the fetch covers its window |
| `Attendance.LatenessAgreesExactly` | app/api/consolidated_attendance.py:778-814 | monthly lateness, computed from the fetched punches, implies by-date lateness for all punches exactly when the shift is longer than two hours |
| `Attendance.TotalsConserve` | app/api/consolidated_attendance.py:931-969 | the totals and the excluded days add up to the days of the month |
| `Attendance.TotalsSum` | app/api/consolidated_attendance.py:931-969 | the totals count the days at least 5 and at least 30 minutes late and add up the former's minutes and the time of all days |
| `Attendance.TotalsGrade` | app/api/consolidated_attendance.py:131-157 | severe ≤ late ≤ worked, and late minutes at least 5 per late and 25 more per severe day |
| `Attendance.Month` | app/api/consolidated_attendance.py:931-972 | one row for each day in order, totals that conserve the days and sum the rows, pending only today, and no report exactly when no day that has come is tracked |
| `RoundedMask.RoundMeaning` | scripts/split_staff_oa_icon_sheet.py:124-124 | rounding gives the nearest integer, on a tie the even one |
| `RoundedMask.CountInside` | scripts/split_staff_oa_icon_sheet.py:116-123 | the sample loops count what the row-by-row count says |
| `RoundedMask.RowsCount` | scripts/split_staff_oa_icon_sheet.py:116-123 | that count is the number of sample points in the disc |
| `RoundedMask.Mask` | scripts/split_staff_oa_icon_sheet.py:94-125 | every pixel of the buffer is the specified one |
| `RoundedMask.PixelMeaning` | scripts/split_staff_oa_icon_sheet.py:94-125 | outside the corners 255; in a corner 255 times the part of the pixel's samples whose real distance to the corner's centre is at most the radius, to the nearest integer |
| `RoundedMask.FourFold` | scripts/split_staff_oa_icon_sheet.py:102-124 | the mask is symmetric in both axes, for every size, radius and rate with 2·radius ≤ both sides |
| `RoundedMask.GrowsInward` | scripts/split_staff_oa_icon_sheet.py:102-124 | toward the middle it never darkens |
| `RoundedMask.PixelIsByte` | scripts/split_staff_oa_icon_sheet.py:124-124 | pixels are at most 255 |
| `TextWrap.Cluster` | app/services/staff_leave_image.py:29-34 | the loop gives the specified clusters |
| `TextWrap.ClustersMeaning` | app/services/staff_leave_image.py:29-34 | joined they are the text with newlines as spaces and control characters dropped, cut before every character that is no mark and nowhere else |
| `TextWrap.Wrap` | app/services/staff_leave_image.py:28-42 | the lines are the greedy layout's, or the dash |
| `TextWrap.Lossless` | app/services/staff_leave_image.py:28-42 | nothing is lost or reordered, every line is one cluster or fits, and only the first can begin with a mark |
| `TextWrap.GreedyIsOptimal` | app/services/staff_leave_image.py:35-42 | with a monotone width no admissible split has fewer lines |
| `ReaderStores.Memory.PruneLocked` | app/api/reader.py:250-259 | the loops leave exactly the unexpired entries of all four stores |
| `ReaderStores.Memory.StashPendingTap` | app/api/reader.py:262-272 | prunes, then replaces the reader's tap |
| `ReaderStores.Memory.ConsumePendingTap` | app/api/reader.py:275-290 | removes the reader's tap and returns it if still alive |
| `ReaderStores.Memory.CreateClaim` | app/api/reader.py:293-304 | prunes, then adds the claim for 10 minutes |
| `ReaderStores.Memory.CreateSelfLoginTicket` | app/api/reader.py:320-334 | prunes, then adds the self-login ticket |
| `ReaderStores.Memory.CreateElevateTicket` | app/api/reader.py:350-370 | prunes, then adds the ticket, pending and undecided |
| `ReaderStores.Memory.ResolveElevateTicket` | app/api/reader.py:388-406 | the one-time decision of a live pending ticket |
| `ReaderStores.Memory.TakeResolvedElevateTicket` | app/api/reader.py:409-424 | pops a live decided ticket, else changes nothing |
| `ReaderStores.Memory.ContinueElevateAfterLine` | app/api/reader.py:1250-1320 | the ticket's fate and the page for every kind of visitor |
| `ReaderStores.LedgerHolds` | app/api/reader.py:262-290 | in every run the taps stashed are exactly the delivered, overwritten, expired and pending ones, each one of these |
| `ReaderStores.TapDeliveredOnce` | app/api/reader.py:275-287 | no tap is handed out twice, whichever pollers tick |
| `ReaderStores.ElevationMoves` | app/api/reader.py:388-424 | a ticket is created pending and decided once, while alive, by a completion for its app; it disappears only when taken after its decision, or after it has expired |
| `ReaderStores.AssertionsAreEarned` | app/api/reader.py:856-877 | an assertion reaches only a poller whose own claim or ticket asked for its app, for an employee whose grants contain it, who tapped in time on the claimed reader, or who as an approved active employee completed the scan of that ticket after it was offered and before it expired |
| `ReaderStores.TicketTakenOnce` | app/api/reader.py:943-955 | a decided ticket is handed to at most one caller |
| `ReaderStores.PruningUnobservable` | app/api/reader.py:250-259 | with a clock that never runs backwards every request is answered as by stores that never prune |
| `ReaderStores.TickAnswered` | app/api/reader.py:856-877 | what a tick answers and leaves: a live tap is taken and answered by the grant or the login, a live decided ticket by its assertion, else the handler goes on or gives up |
| `ReaderStores.WaitAnswered` | app/api/reader.py:843-853 | a handler waits exactly with a live claim or ticket, for what that says, and else gets a 404 |
| `LeaveNote.NoneLeft` | app/api/leaves.py:37-37 | what removal leaves of a marker's text is followed by a character that is no bar, and by a final newline only where the note hides a marker |
| `LeaveNote.PortionMeaning` | app/api/leaves.py:101-103 | the portion is that of the first match of the pattern, full without one |
| `LeaveNote.CleaningMeaning` | app/api/leaves.py:106-120 | cleaning takes away exactly what matches cover, then spaces and bars on both sides; nothing left is None; a half day's note is the cleaned one and its marker |
| `LeaveNote.RemovalIsFree` | app/api/leaves.py:106-111 | removal leaves no marker exactly unless a marker's text stands before a newline with markers and nothing else after it |
| `LeaveNote.NewlineExposes` | app/api/leaves.py:106-111 | a note where it does |
| `LeaveNote.EndsExactly` | app/api/leaves.py:106-111 | the cleaned note ends with a marker exactly when in the raw note a marker's text stands before a space, with nothing but spaces, bars and markers after it and something else before it; with a marker and a newline, the same for a newline that is not the last character |
| `LeaveNote.CleanedIsFree` | app/api/leaves.py:106-111 | a cleaned note has no marker exactly when the raw note exposes none in either way |
| `LeaveNote.RoundTripExactly` | app/api/leaves.py:101-120 | portion and cleaned note come back from the stored note exactly when the raw note exposes no marker before a space nor, for a full day, before a newline |
| `LeaveNote.CleaningIsIdempotent` | app/api/leaves.py:106-111 | cleaning twice is cleaning once exactly when the raw note exposes no marker |
| `LeaveNote.TrimmingExposes` | app/api/leaves.py:106-120 | a note whose round trip fails |
| `OnDuty.BangkokDayBounds` | app/services/hk_escalation_service.py:86-104 | exactly 24 hours between Bangkok midnights, containing now |
| `OnDuty.QueryMeaning` | app/services/hk_escalation_service.py:165-181 | the rows are the day's punches of these badges, ascending by time and id |
| `OnDuty.PassDecides` | app/services/hk_escalation_service.py:183-201 | what the pass has collected decides the rule for each candidate |
| `OnDuty.OnDutyMaids` | app/services/hk_escalation_service.py:116-201 | exactly the eligible employees, in order, with a check-in-type punch today on a device of the branch and a greatest punch today that is no check-out; none for an unknown branch |

## Left out

- The HTTP layer, pages, cookies' transport, LINE, Slack and Cloudflare calls, JWT and password hashing, environment switches and logging.
- Where the LINE callback finds the hand-off hint; the hand-off theorems are about the store and its pollers.
- ORM mechanics: identity map, flush order and the delete cascades declared on employees; the merge is modelled by its intended SQL effects, moves visible before the source row is deleted.
- The merge's summary labels and timestamps, and the rows' other columns beyond one opaque value.
- What an API error does inside a rich-menu call, and the image upload after a create; a run cut short ends in one of the recorded states. Button tables, signatures and rendering are parameters.
- SnapshotGate.Volume.Lock: does not model the timed retry for the lock; a lock that stays taken ends the attempt, and a later grant is the step `Acquire`.
- SnapshotGate.MigratesBehindSnapshot: does not promise anything about files damaged while an attempt holds the lock; damage strikes only while nobody works under it.
- File modes, symbolic links beyond "no folder", fsync durability and the manifest's size limit and other keys.
- Attendance.BuildMonthDay: hours are exact microseconds, because the code's rounding to hundredths is presentation; formatted times, day names and notes are left out.
- The resolution of an employee's effective shift, half-day leave options, exports and the calendar view.
- Attendance.Month: the total of hours is the exact sum, without the code's rounding after each day.
- RoundedMask.Mask: arithmetic is exact on scaled integers; the code's floating point agrees with it for its rate of four, and other rates could round differently.
- Font metrics: `TextWrap.GreedyIsOptimal` assumes only that a part of a text is no wider than the whole.
- ReaderStores.Memory.StashPendingTap: the arrival time is read before the lock in the code; the model's order of steps is the order of the clock readings where a theorem needs it.
- The database checks behind a self-login session (a parameter of a tick), reader secrets and card resolution.
- The upsert loop that stores employee leaves, the public-holiday table and leave statistics.
- The haversine distance, device cache, admin sessions and lockout, manager directory, scheduler, quality gate and grants diff: easier members of their components.
