# Verified model of mgate-cloud

mgate-cloud is a Go server that queues commands for remote devices, delivers them over WebSocket or HTTPS Pull, and
collects the results. This project models its stateful parts in Dafny 4.11 and proves what they promise over whole
runs. `dafny verify dfyconfig.toml` checks everything.

| part | files |
|---|---|
| command queue: tables, statements, use cases | `CommandTypes`, `CommandStore`, `CommandReaper`, `CommandService` |
| command queue as a state machine, and its theorems | `CommandMachine`, `CommandSafety`, `CommandTiming`, `CommandFairness`, `CommandDeadline`, `CommandPull` |
| every step in columns; orders, messages, results and endings told by the steps of a run | `CommandColumns`, `CommandOrigin` |
| runs that reach the bounds of these theorems | `CommandStories`, `CommandExamples`, `CommandEndless` |
| text limits | `Utf8Truncate` |
| login throttle | `ThrottleRules`, `ThrottleHistory`, `LoginThrottle` |
| configuration file | `YamlQuoting`, `ConfigFile`, `ConfigRoundTrip`, `ConfigByHand` |
| connection registry | `Hub`, `HubRuns`, `HubHeartbeat` |
| device enrolment | `DeviceEnroll`, `EnrollHistory`, `EnableRace` |
| schema migration | `Migrator` |

## How the queue is modelled

Every change of a command is one guarded `UPDATE`. `CommandTypes.Op` lists these statements, `Guard` is the WHERE
clause and `Effect` the SET clause. The methods of `CommandStore.Store` and `CommandService.Service` have the form of
the Go code and are proved against these functions. `CommandMachine` interleaves the five parties (WebSocket dispatch,
Pull, agent, admin, reaper) freely; a step is one statement or one transaction. `Perform` carries out each step by the
methods of `Store` and `Service` and proves that both tables and all messages come out as the machine says.
`CommandColumns` states each step once more, column by column, and `CommandOrigin` says what devices are told, in which
order, and what ends up in the tables, in terms of the steps of a run alone. `TryDeliver` is three steps:
lease, deliver, mark sent or release. A delivery that stays on its way for ever stands for a crash.

The reaper's pass is either one step (`Reap`) or, as in the code, a scan of the active rows, an update for each, a scan
of the expired rows, an update for each and the end of the pass, with other parties acting in between. The theorems on
attempts, results and deliveries hold for every such interleaving. Those on time ask that a pass ends less than one
retry backoff after its scan (`AllPrompt`). That bound is sharp for each of them: with a pass of one backoff leases are
not apart (`SlowPassBreaksSpacing`), a delivery acts on another's lease (`SlowPassBreaksOwnLease`), an attempt is ended
on account of the one before (`SlowPassBreaksFairness`) and the deadline is missed (`SlowPassesMissDeadline`). Each row
carries a history of its leases, releases, retries and acknowledgements, which no statement reads.

Times are integers in nanoseconds. A step's clock reading is the moment it takes effect, so readings never decrease
along a run; the updates of a split pass carry the reading of its scan.

## Findings

Statements one could expect from the code or its documentation and that do not hold, with what holds instead:

- `docs/agent-pull.md:124` calls the default of `max_attempts` the largest number of delivery attempts. The column
  `attempts` can exceed it: a failed WebSocket write gives the lease back but keeps the attempt. The bound is
  `max_attempts` plus the number of releases (`AttemptsLedger`), and it is reached for every limit and every number of
  releases (`LedgerBoundReached`). What does hold: a command is written without an error at most `max_attempts` times
  (`HandOversExact`), and that often for every limit (`CleanWritesReachLimit`). A write that returned an error, for
  instance after its five seconds, may have reached the device all the same.
- `docs/agent-pull.md:13` says a command is never delivered twice by WebSocket and Pull. Each attempt is handed over at
  most once (`EachAttemptHandedOnce`), but a command that is retried can be delivered by both (`DeliveredByBothChannels`)
  or twice by Pull (`PulledTwice`). It is handed over once for each attempt that is not still on its way; with nothing
  on its way, more than once if and only if its `attempts` are at least two, and without an error at most once more
  than it is retried (`HandOversExact`).
- An attempt that is sent or acknowledged does not always get its timeout, for two reasons. A retry keeps `acked_at`,
  and the reaper prefers it to `sent_at`: in `CutShort` an attempt with a minute is timed out after a second. And the
  reaper acts on the row as it has scanned it: in `SentDuringPass` a row read as leased is put back at the instant it is
  sent. An attempt is sure of its timeout, whatever the parties do from now on, if and only if it has had it already, or
  no earlier attempt was acknowledged and no pass under way has read the row as stuck (`FullTimeoutIff`).
- Every command is closed by its deadline if the passes come at intervals shorter than the retry backoff
  (`EveryCommandEnds`). The defaults have both at ten seconds, and an interval of one backoff is not enough: releases
  after the expiry can keep a command open past its deadline (`LateReleasesMissDeadline`). Without such releases, prompt
  passes are enough at any interval.
- `MarkSent` and `ReleaseLease` do not check who holds the lease. A delivery that ends within one backoff of its lease
  acts on its own (`OwnLeaseOnly`); one that ends exactly then may not (`LateEndHitsOthers`).
- `EnableDevice` counts credentials and writes the status in two statements. If the device enrols in between, and only
  then, the write breaks "pending means no credential" (`FirstRaceBreaks`), and a second code gives it a second
  credential (`RaceEnrolsTwice`).
- `docs/commands.md:113` says truncation stops at a UTF-8 boundary. The code looks at three bytes only and so cuts into
  a complete four-byte character; `TruncatedText` and `TruncatedEndsOnCharacter` say exactly when.
- A configuration survives saving and loading exactly if no value has a line break and every line fits the scanner
  (`SaveLoadRoundTrip`).
- Ban durations double in 64 bits. All bans follow min(base * 2^(level-1), max) if and only if `base` is zero, or
  below 2^62 with `max` not above its doubling between 2^62 and 2^63; otherwise some ban comes out negative
  (`BansRuledIffFits`). Two settings below 2^62 ns always qualify.

## Model

| member | source | states |
|---|---|---|
| CommandTypes.ReportedStatus | internal/command/service.go:290-294 | an agent's status text is kept if it is one of the three legal ones and read as a failure otherwise |
| CommandStore.Store.Insert | internal/command/store.go:36-49 | adds a row; a duplicate key changes nothing |
| CommandStore.Store.Lease | internal/command/store.go:125-131 | takes a pending row whose backoff is over, and only such a row; whole new table and return value |
| CommandStore.Store.ReleaseLease | internal/command/store.go:169-175 | a leased row goes back to the queue with its backoff |
| CommandStore.Store.MarkSent | internal/command/store.go:178-184 | only a leased row becomes sent |
| CommandStore.Store.RetryToPending | internal/command/store.go:187-194 | any active row goes back to the queue with backoff and reason; its other time stamps stay |
| CommandStore.Store.MarkAcked | internal/command/store.go:197-204 | a taken row is acknowledged; the first acknowledgement time is kept |
| CommandStore.Store.ApplyResultStatus | internal/command/store.go:208-216 | closes an open row as reported and never touches a closed one |
| CommandStore.Store.Cancel | internal/command/store.go:219-227 | closes an open row and never touches a closed one |
| CommandStore.Store.MarkTimeout | internal/command/store.go:230-237 | closes an active row |
| CommandStore.Store.MarkExpired | internal/command/store.go:240-246 | closes a pending row |
| CommandStore.Store.InsertIfAbsent | internal/command/result.go:23-35 | the first result of a command stays, later ones are dropped |
| CommandStore.Store.FindActive | internal/command/store.go:249-253 | every active row once |
| CommandStore.Store.FindExpiredPending | internal/command/store.go:261-264 | every pending row past its expiry once |
| CommandStore.Store.ListPending | internal/command/store.go:157-166 | the first `limit` eligible rows of the device, lower priority value first and older before newer |
| CommandStore.Store.LeasePendingCommands | internal/command/store.go:136-154 | leases exactly the listed rows and returns them with corrected status and attempts |
| CommandReaper.SweepRow | internal/command/reaper.go:65-116 | what one pass does to a row, case by case; a retry due for expiry expires in the same pass |
| CommandReaper.SweepComplete | internal/command/reaper.go:62-117 | after a pass nothing is stuck or overdue, other rows are untouched, timeouts only at the attempt limit, a second pass at that instant does nothing |
| CommandService.Service.TakeLease | internal/command/dispatcher.go:42-52 | first step of a delivery, on any table |
| CommandService.Service.Finish | internal/command/dispatcher.go:60-66 | last step of a delivery, on any table: sent, or back in the queue with the backoff of its own clock reading |
| CommandService.Service.TryDeliver | internal/command/dispatcher.go:42-67 | undisturbed: lease, send the order, then sent or back in the queue; true exactly if the row was leased and the write returned no error |
| CommandService.Service.CreateCommand | internal/command/service.go:107-161 | of an accepted command: the device is sent the order as given; sent or still queued according to the hint; no other row changes |
| CommandService.Service.DispatchPending | internal/command/service.go:164-183 | undisturbed: sends for the first fifty eligible commands of the device, one after the other, in order, and nothing else |
| CommandService.Service.LeaseForPull | internal/command/service.go:188-222 | answers with the first eligible commands, in order, and marks exactly them sent |
| CommandService.Service.HandleAck | internal/command/service.go:225-272 | obeys only the owning device; a rejection fails the command and stores one result |
| CommandService.Service.HandleResult | internal/command/service.go:275-337 | obeys only the owning device; stores the first result, closes the command if open |
| CommandService.Service.CancelCommand | internal/command/service.go:340-357 | three outcomes: unknown, already closed, canceled |
| CommandService.Service.ReapSeen | internal/command/reaper.go:69-97 | decides on the row as it was scanned and acts on the row as it is |
| CommandService.Service.ReapOnce | internal/command/reaper.go:62-117 | undisturbed: two scans and their updates amount to one sweep of every row |
| CommandService.PullTwoPhases | internal/command/service.go:200-216 | leasing all and then marking all sent is the same as treating row after row |
| CommandService.ResultRecordFits | internal/command/service.go:296-315 | stored texts are within their limits and complete unless the flag says otherwise |
| CommandMachine.StepsAreMethods | internal/command/store.go:125-246 | each step changes the `commands` table as the statements of `Store` and `Service` do |
| CommandMachine.Perform | internal/command/service.go:188-357 | each step carried out by these methods leaves both tables and the messages sent as the machine says, the steps of a split pass included |
| CommandColumns.StepInColumns | internal/command/store.go:125-246 | each step changes each row to exactly these columns, spelled out with their times and texts |
| CommandColumns.CreatedInColumns | internal/command/service.go:114-132 | a new row column by column |
| CommandColumns.TriedInColumns | internal/command/dispatcher.go:42-67 | an undisturbed delivery column by column |
| CommandOrigin.OrderIsKept | internal/command/service.go:114-132 | at any later time a row is what its creating step ordered |
| CommandOrigin.ToldAsOrdered | internal/command/service.go:209-214 | whatever is sent for a command, by either channel, is the action, parameters and timeout that were ordered, to the device they were ordered for |
| CommandOrigin.OldestFirst | internal/command/store.go:157-166 | in every reachable state a device is handed no command while an older one waits, unless that one comes first |
| CommandOrigin.PullOldestFirst | internal/command/service.go:188-222 | the same for every Pull of a run |
| CommandOrigin.PullAnswers | internal/command/service.go:188-222 | a Pull returns waiting commands of that device only, none twice, as many as asked for within the cap, or all there are |
| CommandOrigin.ResultIsFirstAnswer | internal/command/service.go:225-337 | a command has a result if and only if its device has answered, and it is what the first answer said, field by field |
| CommandOrigin.RowEnded | internal/command/store.go:208-246 | a closed row was closed by one step: at that statement's clock reading if by the server, with the device's times if by the device |
| CommandSafety.AttemptsLedger | internal/command/store.go:115-194 | attempts = leases = releases + retries + 1 if the row is active or was when it was closed; retries stay below the limit even if others act between the reaper's scan and its updates; when exactly attempts exceed the limit |
| CommandSafety.RetryCount | internal/command/reaper.go:71-84 | only the reaper raises the retry count, and never to the limit |
| CommandSafety.ReachableTablesAgree | internal/command/service.go:225-337 | in every reachable state a result means a closed command of the same device, success and failure mean a result that says so, open commands have neither result nor start nor end time, `running` never occurs |
| CommandSafety.ClosedForever | internal/command/types.go:58-67 | a closed row never changes in any column, a stored result never changes, orders are never rewritten, the first acknowledgement time stays |
| CommandSafety.EndOfRow | internal/command/service.go:317-329 | success and failure come only from the owning agent's message, which is obeyed while the command is open |
| CommandSafety.EachAttemptHandedOnce | internal/command/dispatcher.go:21-24 | no attempt is handed to two channels or twice to one |
| CommandSafety.HandOversExact | internal/command/dispatcher.go:54-66 | hand-overs + deliveries on their way = attempts; nothing on its way, two hand-overs exactly from two attempts on; written without an error at most once more than retried, so at most `max_attempts` times |
| CommandTiming.LeasesApart | internal/command/store.go:125-175 | two successive leases of a command are at least one backoff apart, whatever the channels and whoever disturbs the passes |
| CommandTiming.OwnLeaseOnly | internal/command/dispatcher.go:45-66 | a delivery that ends within one backoff of its lease acts on its own attempt only, although the statement checks no holder |
| CommandTiming.TimeoutFairness | internal/command/reaper.go:119-149 | the reaper moves a row it read as leased only after its lease, one it read as sent or acknowledged only after its timeout, unless an earlier attempt was acknowledged |
| CommandFairness.FullTimeoutIff | internal/command/reaper.go:119-149 | no continuation with prompt passes cuts the attempt short of its timeout if and only if it has had it already, or no earlier attempt was acknowledged and the pass under way has not read the row as stuck |
| CommandFairness.FinishPass | internal/command/reaper.go:65-116 | a pass under way can be carried out to its end at once, and leaves a sent row alone that it has not read as stuck |
| CommandExamples.PulledTwice | internal/command/service.go:188-222 | a run in which Pull returns one command twice |
| CommandExamples.DeliveredByBothChannels | internal/command/dispatcher.go:42-67 | a run in which one command is delivered by WebSocket and by Pull |
| CommandExamples.CutShort | internal/command/reaper.go:138-149 | a run in which an attempt with a minute is timed out a second after its lease |
| CommandExamples.SentDuringPass | internal/command/reaper.go:69-85 | a run in which a row is taken out of `sent` at the instant it is sent, a minute after its lease and whatever its timeout |
| CommandExamples.SlowPassBreaksSpacing | internal/command/reaper.go:62-85 | a run with a pass of one backoff in which a command is leased twice at one instant |
| CommandExamples.SlowPassBreaksOwnLease | internal/command/reaper.go:62-85 | a run with such a pass in which a delivery that ends at once marks another lease as sent |
| CommandExamples.SlowPassBreaksFairness | internal/command/reaper.go:62-85 | a run with such a pass in which a row is taken out of an attempt at the instant of its lease |
| CommandExamples.LateEndHitsOthers | internal/command/store.go:178-184 | a run in which a delivery of one backoff marks another lease as sent |
| CommandExamples.LedgerBoundReached | internal/command/dispatcher.go:60-63 | for every limit and number of failed writes a run with limit + failed writes attempts |
| CommandExamples.CleanWritesReachLimit | internal/command/reaper.go:69-84 | for every limit a run with as many hand-overs without an error |
| CommandDeadline.PassKeepsBound | internal/command/reaper.go:62-117 | an undisturbed pass leaves no stuck row, returns a row to the queue only before its expiry, and keeps every open row within the bound |
| CommandDeadline.EveryCommandEnds | internal/command/reaper.go:39-149 | with a pass in every interval `gap`, disturbed or not, a command is closed by expiry + lease + 2 timeouts + 4 gaps, if `gap` is below the backoff, or else if passes are prompt and no release takes effect at or after expiry |
| CommandEndless.LateReleasesMissDeadline | internal/command/dispatcher.go:60-63 | for any settings with a backoff a run with undisturbed passes every backoff in which a command is open past its deadline |
| CommandEndless.SlowPassesMissDeadline | internal/command/reaper.go:62-116 | a run without releases, with passes of one backoff, in which a command is open past its deadline, if the limit allows enough retries |
| CommandPull.PullsDrainInOrder | internal/command/service.go:188-222 | successive Pulls at one instant are disjoint and together are the head of the queue, each command handed over once, other rows unchanged |
| CommandPull.AnswerIsPrefix | internal/command/store.go:161-165 | without ties a shorter answer is a prefix of a longer one |
| CommandPull.ChunkingIrrelevant | internal/command/service.go:188-222 | the order of commands does not depend on how the agent sizes its requests |
| Utf8Truncate.IsUtf8Boundary | internal/command/result.go:78-97 | true exactly for a complete ending of one to three bytes |
| Utf8Truncate.Truncate | internal/command/result.go:62-75 | a prefix within the limit, at most three bytes short of it, flagged exactly if the input was longer |
| Utf8Truncate.TruncatedText | internal/command/result.go:62-97 | exact result on valid UTF-8 (section 4 of RFC 3629), including the broken four-byte character |
| Utf8Truncate.TruncatedEndsOnCharacter | internal/command/result.go:59-75 | ends on a character boundary if and only if the cut does not fall less than three bytes after a whole four-byte character |
| Utf8Truncate.TruncatedIsLongest | internal/command/result.go:59-75 | then it is the longest run of whole characters within the limit |
| Utf8Truncate.ShortCharactersNeverBreak | internal/command/result.go:59-75 | for characters of one to three bytes it is always the longest run of whole characters |
| Utf8Truncate.FourByteCharacterBroken | internal/command/result.go:78-97 | a cut right after a four-byte character keeps one stray byte of it |
| LoginThrottle.Throttle.constructor | internal/auth/throttle.go:110-115 | a limit below one counts as one |
| LoginThrottle.Throttle.Allow | internal/auth/throttle.go:120-133 | refuses exactly while the latest ban in the address's history runs, and says for how long |
| LoginThrottle.Throttle.RecordFailure | internal/auth/throttle.go:136-172 | one address follows its history; reports a ban exactly if the history now ends with one, and its length |
| LoginThrottle.Throttle.RecordSuccess | internal/auth/throttle.go:175-180 | forgets one address and no other |
| ThrottleRules.BanDuration | internal/auth/throttle.go:183-198 | the doubling loop with 64-bit wrap-around, and the values it forms |
| ThrottleRules.FormedStaysSmall | internal/auth/throttle.go:182-198 | where no doubling overflows, no value formed is above twice the larger setting |
| ThrottleRules.BansRuledIffFits | internal/auth/throttle.go:182-198 | for non-negative settings every ban is min(base * 2^(level-1), max) if and only if no doubling overflows before it reaches `max`; settings below 2^62 qualify |
| ThrottleRules.BansGrow | internal/auth/throttle.go:182-198 | then bans never get shorter, never exceed `max` and are never shorter than the first one |
| ThrottleHistory.BansIffChainMultiple | internal/auth/throttle.go:146-167 | a failure bans exactly if its longest chain of failures within the window has a length divisible by the limit |
| ThrottleHistory.LevelCountsBans | internal/auth/throttle.go:152-166 | the level is the number of bans since the last success or long pause |
| ThrottleHistory.BannedUntilLatestBan | internal/auth/throttle.go:161-165 | the ban ends at the latest ban's time plus that ban's length |
| ThrottleHistory.NotBannedWithoutBan | internal/auth/throttle.go:136-180 | without a ban since the last success there is no ban date |
| ThrottleHistory.RateBound | internal/auth/throttle.go:117-172 | any `MaxFailures + 1` consecutive failures take at least the shorter of window and shortest ban |
| ThrottleHistory.KthBanTime | internal/auth/throttle.go:152-198 | the k-th ban of a series, since the start, the last success or the last long pause, comes no sooner than all earlier bans of the series together |
| YamlQuoting.UnquoteQuote | internal/config/file.go:178-197 | unquoting undoes quoting for every string |
| ConfigFile.Builder.WriteStr | internal/config/file.go:152-157 | an empty value prints nothing, any other one quoted line |
| ConfigFile.Builder.WriteBool | internal/config/file.go:159-164 | an unset flag prints nothing |
| ConfigFile.SaveFile | internal/config/file.go:112-137 | the text is the printed form of every item in order |
| ConfigFile.LoadFile | internal/config/file.go:66-107 | line by line: comments and lines without colon skipped, later keys win, too long lines are an error |
| ConfigRoundTrip.LineParses | internal/config/file.go:75-86 | each printed line is read as the key and value it was printed from |
| ConfigRoundTrip.ScanItems | internal/config/file.go:73-91 | printed items are read back one by one, up to the first line that is too long |
| ConfigRoundTrip.SaveLoadRoundTrip | internal/config/file.go:66-176 | a saved configuration loads as itself without the plain password if and only if it has no line break and its lines fit |
| ConfigByHand.SavedLines | internal/config/file.go:112-137 | the saved text line by line, with the names, in the order of the code |
| ConfigByHand.EscapeIsEscaped | internal/config/file.go:178-183 | quotes and backslashes get a backslash, other characters stay |
| ConfigByHand.ReadsPair | internal/config/file.go:75-86 | a name, a colon and a bare or quoted value with any white space around them |
| ConfigByHand.ReadsNothing | internal/config/file.go:76-82 | blank lines, remarks and lines without a colon |
| ConfigByHand.LoadsLastSaid | internal/config/file.go:66-107 | any file of lines that fit: each field is what the last line about its name says, flags by the words for true and false |
| ConfigByHand.TooLongLine | internal/config/file.go:88-90 | a line of more than 65535 bytes spoils the file |
| Hub.Connection.Close | internal/hub/connection.go:82-86 | however often it is called, the socket is closed once |
| Hub.Hub.Register | internal/hub/hub.go:40-46 | the new connection takes the entry; the replaced one is returned |
| Hub.Hub.Unregister | internal/hub/hub.go:52-58 | removes the entry only if this connection holds it |
| Hub.Hub.IsOnline | internal/hub/hub.go:69-77 | an entry with a recent heartbeat |
| Hub.Hub.SnapshotConns | internal/hub/hub.go:94-102 | every registered connection once |
| Hub.Hub.ReapOnce | internal/hub/heartbeat.go:35-45 | closes the stale connections and no others, removes no entry |
| Hub.Hub.Stop | internal/hub/hub.go:105-112 | the first call closes every registered connection, later calls do nothing |
| HubRuns.RegistryIsCurrent | internal/hub/hub.go:36-58 | in every interleaving the entry of a device is its latest connection, unless that one has unregistered |
| HubRuns.AtMostOneOpen | internal/agent/ws.go:90-126 | connections of one device that nobody is about to close are at most one |
| HubHeartbeat.OnlySilentOnesAreClosed | internal/hub/heartbeat.go:35-44 | the reaper closes a connection only if it was not heard from within the threshold before the pass |
| HubHeartbeat.SilentOnesAreClosed | internal/hub/heartbeat.go:35-44 | a connection that was silent for longer is closed by the check of a pass, any other is left alone |
| HubHeartbeat.PassChecksAll | internal/hub/heartbeat.go:35-44 | a pass checks every connection registered when it starts |
| HubHeartbeat.OnlineIffHeard | internal/hub/hub.go:69-77 | a device is online exactly if its latest connection has not unregistered and was heard from within the threshold |
| DeviceEnroll.Service.GeneratePairingCode | internal/device/service.go:170-211 | only pending devices get a code; a new unused code with its expiry |
| DeviceEnroll.Service.MarkUsedIfUnused | internal/device/pairing.go:133-148 | flips an unused code, and only an unused one |
| DeviceEnroll.Service.CountActiveByDevice | internal/device/credential.go:32-43 | the number of active credentials of the device |
| DeviceEnroll.Service.Enroll | internal/device/service.go:257-342 | every refusal in its order; on success code, credential and status change together |
| DeviceEnroll.Service.DisableDevice | internal/device/service.go:214-223 | idempotent; keeps credentials |
| DeviceEnroll.Service.UpdateStatus | internal/device/service.go:214-243 | writes the status of one known device, whatever it was |
| EnrollHistory.EnrollAfter | internal/device/service.go:257-342 | after any calls a code enrols if and only if it was given out for a device that is pending, its lifetime is not over and nobody has enrolled with it; otherwise which refusal |
| EnrollHistory.StatusIsByCalls | internal/device/service.go:167-342 | a device has the status that the latest call about it has left |
| DeviceEnroll.Service.EnableDevice | internal/device/service.go:228-243 | undisturbed: enabled with a credential, pending without |
| DeviceEnroll.ReachableConserved | internal/device/service.go:167-342 | in every reachable state a device has as many credentials as used codes, at most one, none while pending, one while enabled |
| DeviceEnroll.CodeConsumedOnce | internal/device/pairing.go:133-148 | a code that enrolled once is refused for ever after and changes nothing |
| DeviceEnroll.DisableEnableRestores | internal/device/service.go:213-243 | disabling and enabling again restores the earlier state |
| EnableRace.AlwaysBalanced | internal/device/service.go:167-342 | with the reads and writes of the admin calls as separate statements, in every interleaving credentials = used codes and an enabled device has a credential |
| EnableRace.FirstRaceBreaks | internal/device/service.go:234-242 | all of the above is conserved up to the first write that follows an enrolment of its device since the count, and exactly such a write breaks it |
| EnableRace.RaceEnrolsTwice | internal/device/service.go:257-342 | a run with such a write in which a device gets two credentials |
| Migrator.MigrationFiles | internal/db/migrate.go:79-93 | the file names of the directory, without sub-directories, each name less than the next, character by character |
| Migrator.AscendingIsUnique | internal/db/migrate.go:79-93 | so the list does not depend on the order in which the directory is read |
| Migrator.Migration.ApplyMigration | internal/db/migrate.go:99-127 | script and version record together or not at all |
| Migrator.Migration.Migrate | internal/db/migrate.go:18-42 | applies the missing scripts of the directory in ascending order, up to the point of interruption |
| Migrator.RunExtendsPrefix | internal/db/migrate.go:33-40 | an interrupted run extends the executed prefix, a completed one reaches the whole list |
| Migrator.RecoversFromInterruptions | internal/db/migrate.go:13-127 | after any interrupted runs and one completed one, each script was executed exactly once in order, and later runs change nothing |
| Migrator.OnlyPrefixesRecover | internal/db/migrate.go:33-40 | a completed run yields the scripts in order if and only if the start was a prefix of them |

## Left out

- SQL text, drivers and row scanning: tables are maps and statement and transaction atomicity is taken as given.
- Database errors, audit writes and the throttle's fail-open branches: store calls succeed.
- HTTP handlers, sessions, routing, the frontend, self-update and the simulator: plumbing or I/O.
- Hashing, signatures, JSON, random ids and address parsing: hashes and ids are distinct opaque values, `bannable` and the decoded pairing code are parameters.
- Validation in `CreateCommand` (device gate, allowlist, parameters, timeout limit): the command arrives checked, with its timeout in seconds.
- CommandService.Service.CreateCommand: the checks before it (device gate, allowlist, parameters, timeout limit), as above.
- CommandService.Service.TryDeliver: no other party acts between its statements; `TakeLease` and `Finish` hold on any table and the state machine interleaves them.
- CommandService.Service.DispatchPending: states the outcome when no other party interferes; interference is the subject of the state machine.
- CommandService.Service.ReapOnce: no other party acts during the pass; the state machine also has the pass statement by statement.
- CommandMachine: the two clock readings at the end of a failed delivery are one instant.
- CommandTiming.LeasesApart: for passes that end within one backoff of their scan; `SlowPassBreaksSpacing` shows why.
- CommandTiming.OwnLeaseOnly: for passes that end within one backoff of their scan; `SlowPassBreaksOwnLease` shows why.
- CommandTiming.TimeoutFairness: for passes that end within one backoff of their scan; `SlowPassBreaksFairness` shows why.
- EnableRace: the later writes of `GeneratePairingCode` and `DisableDevice` may happen whatever was read, which is more than the code allows.
- LoginThrottle.Throttle: the read and the write of a row are one step, since the code does not put them in a transaction.
- ConfigFile: texts are sequences of Unicode characters (invalid UTF-8 is not modelled); the six fixed comment lines are a parameter; directory creation, permissions and the atomic rename are left out.
- Hub: the write lock, message handling and timers; shutdown appears in the runs as closes from outside at any time.
- DeviceEnroll.Service.EnableDevice: its read and its write are one step here; `EnableRace` separates them.
- DeviceEnroll.ReachableConserved: for runs in which enabling is one step; `EnableRace` has the exact condition for the split one.
- DeviceEnroll.Service.Enroll: the descriptive columns and the returned addresses.
- Migrator: `sort.Strings` is a library, so the names are put in order by insertion while the directory is read.
