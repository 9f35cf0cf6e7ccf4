# nmc: BMC observer and client core

This project models the crash-tolerant BMC observer of nmc (`nmc_bmc_observer`) and the parts of the
client (`nmc_client`) that parse, print, poll and keep local state, and proves what they promise.

## The observer

The observer keeps, per controller, a counter of accepted push events, a first-in first-out window of the
512 newest event keys, the last diagnostic and an enrollment. It writes a rotated journal and replaces
`state.json` atomically.

- `BmcState`, `Durability`, `Regions`: the values, durable storage as a power loss sees it, and every critical
  section of the program as a function on memory and disk. Each commit inside a section takes a *fate*:
  failed before the rename (its journal line present or not), renamed but not synced, or complete.
- `ObserverStore`: the `Store` object over its directory. Its methods fail after any number of filesystem
  steps and are proved equal to the functions of `Regions`, so every failure of theirs is one of the fates.
- `Machine`: ticks, any number of observers in flight (one per controller), event posts, scrapes and
  restarts, interleaved wherever the store lock is free. There are two kinds of restart, and each may bring
  another configuration. A process restart reads what `state.json` shows; start-up syncs nothing, so older
  versions that no directory sync has ruled out stay recoverable. A power loss brings back any one of the
  recoverable versions, which is then the only one. An end inside a critical section is a failing fate
  followed by a restart.
- `MachineInvariant`, `MachineSafety`, `ObserverTheorems`: the inductive invariant, its preservation step by
  step, and the theorems for every run. `Counters`: event counters across restarts. `Redelivery`,
  `RedeliveryRuns`: resending interrupted batches. `ConcreteRuns`: runs given step by step.
- `Replay`: memory is at every moment what a replay of the history gives, every recoverable document what a
  replay of some beginning of it gives. On this rest `Evidence` (what is claimed and shown goes back to replies,
  posts, checks and answers), `Identity` (what the stored identity flag is worth) and `Journal` (every record
  is true). `ConfigCheck`, `InventoryCheck` and `Events` say what a configuration must be, and what a check and
  an event post do in terms of inventory rows and of the events as posted.
- `Metrics`, `Exposition`, `RateLimit`, `Envelope`: the scrape body, label escaping, the request window,
  response envelopes.

`ControllerState.accepted`, `Disk.written`, `Sys.known` and `Sys.history` are history variables: every counted
key, every journal record, every controller ever configured, every inventory, check, reply, request, answer,
post, scrape and restart. No branch reads them.

## The client

`Shell` prints command lines and reads them by IEEE Std 1003.1-2017, Shell Command Language, sections 2.2,
2.3 and 2.9.1. `CliGlobals` takes global flags off the line; `Cli` and `CliGrammar` hold `parseFlags` and a
grammar of the argument lists it accepts. `Connections` is the connection registry with its file and process
restarts, `Query` builds query strings and reads them by RFC 3986 sections 2.1, 2.3 and 3.4, `JobPolling` is the
provider job wait, `Versions` the release comparison. `Text` and `Sequences` are shared vocabulary.

## Where the code does not meet the promise

- The scraped event counter can go back. A push commit stopped between the rename and the directory sync, a
  process restart and a power loss bring back the smaller counter after the larger one was scraped
  (`ACounterGoesBack`). It needs exactly this: the run left an older version of `state.json` that would show
  less of the controller, which is so if and only if the last process restart found such a version and no
  commit has completed since, and the controller is configured before and after (`ExposedIff`,
  `PowerLossTurnsBackIff`).
- Start-up refuses files the observer itself wrote: a state longer than 4 MiB, which nothing prevents
  (`LongNamesRefuseStart`), and entries of more than 32 controllers, which a changed configuration
  accumulates because entries are never removed (`FormerControllersRefuseStart`). Nothing else is refused
  (`StartUpAcceptsIff`, `SameControllersStart`).
- Between the adoption of an inventory and the check of a controller its old identity verdict counts, for
  host lines and for event posts (`AnUncheckedInventoryCounts`). The gap opens exactly when the verdict was
  true (`AdoptionOutdatesIff`) and the check closes it (`FlagIsLastCheck`, `ShownHostsWereChecked`,
  `AllowedPostsWereChecked`).
- With a sudo password the recruit environment is assigned to `printf` and not to the artifact
  (`EnvironmentReachesArtifactIff`).
- An event that arrives when the counter is at its limit is pushed into the window and then refused without
  rollback, so the window no longer is the recent past (`WindowKeptIffCounterHasRoom`,
  `ExhaustedCounterCorruptsWindow`).
- A duplicate does not refresh its place in the window, so resending a batch can count an old entry again
  (`ResendAddsNothingIff`, `OldestEntryIsCountedAgain`); a batch without repetitions can be resumed
  anywhere without harm if and only if it never pushes out a key of its own (`ResumingIsHarmlessIff`).
- A job poll answered with a 2xx status other than 200 is reported as success although no job state was seen
  (`SuccessIff`, `NoContentCountsAsSuccess`).
- A bare `--` names a flag when some flag of the command has an empty short name (`DoubleDashIsAFlagIff`).
- The documented token precedence has no scan over active connections, the code has one; it never matters
  in a reachable state (`ScanNeverMatters`).
- `makeConnection` accepts an empty name, which breaks the registry; the command line refuses it first
  (`MakeKeepsIff`).

## Model

| member | source | states |
|---|---|---|
| ObserverTheorems.SendsAreDurable | nmc_bmc_observer/src/main.rs:68-80 | whenever a subscribe request is about to be sent, every version of state.json a power loss could leave names its id and revision, still to be confirmed |
| ObserverTheorems.SendsFollowMints | nmc_bmc_observer/src/main.rs:174-210 | over every run, a request was minted before it is sent, a later send is never for an older request, and it is the same pair unless its own request was minted in between |
| ObserverTheorems.MintsFollowConfirmations | nmc_bmc_observer/src/main.rs:90-96 | over every run, after a request was sent none is minted for its controller until an answer has confirmed the one sent, whatever answers, commits and restarts are lost |
| ObserverTheorems.DifferentSendsAreConfirmed | nmc_bmc_observer/src/main.rs:179-199 | between two different requests sent for a controller the first was confirmed and then the second minted, in this order |
| ObserverTheorems.WindowIsTheRecentPast | nmc_bmc_observer/src/lib.rs:435-456 | in memory and in every recoverable document the counter is the length of the accepted history, any 513 consecutive accepted keys differ, and below the limit the window is exactly its last 512 keys |
| ObserverTheorems.WindowKeptIffCounterHasRoom | nmc_bmc_observer/src/lib.rs:439-449 | accepting a key keeps the window exact if and only if it is a duplicate or the counter has room |
| ObserverTheorems.ExhaustedCounterCorruptsWindow | nmc_bmc_observer/src/lib.rs:442-449 | the failing case: after 2^64-1 distinct events the next one is refused but stays in the window |
| ObserverTheorems.CountedEventsAreJournaled | nmc_bmc_observer/src/lib.rs:236-252 | at every crash point the events a recoverable document counts appear in order among the push_event records written, so the counter is at most their number |
| Counters.ExposedIff | nmc_bmc_observer/src/lib.rs:236-252 | however counters are read, exactly or rounded, a recoverable version is behind memory in a controller's counter if and only if the last process restart found a version behind the newest one and no commit or power loss has settled it since; the newest version never is behind |
| Counters.MemoryGoesBackIff | nmc_bmc_observer/src/lib.rs:190-208 | a step turns a counter in memory back exactly when it is a power loss whose survivor is behind memory |
| Counters.PowerLossTurnsBackIff | nmc_bmc_observer/src/lib.rs:247-250 | after any run, some power loss between two scrapes makes the second counter line of a controller smaller than the first if and only if the run left a version that would show less, and the controller is configured before and after |
| Counters.ScrapedCounterIsMonotone | nmc_bmc_observer/src/main.rs:235-252 | the push_events_total lines of a controller never decrease across failed commits, process restarts and power losses, unless power is lost in that condition |
| Counters.CounterLine | nmc_bmc_observer/src/lib.rs:597-636 | a scrape holds a counter line of a controller if and only if it is configured, and its value is the stored counter rounded to a double |
| ConcreteRuns.ACounterGoesBack | nmc_bmc_observer/src/lib.rs:249-250 | the failing case: a commit stopped after the rename, a process restart, a scrape, a power loss, and the counter line of the next scrape is smaller |
| ObserverTheorems.StartUpAcceptsIff | nmc_bmc_observer/src/lib.rs:190-203 | start-up accepts what a run can leave if and only if the file is within 4 MiB and names at most 32 controllers; with at most 32 ever configured the length decides alone |
| ObserverTheorems.SameControllersStart | nmc_bmc_observer/src/lib.rs:190-203 | with the same controllers at every restart only a file over 4 MiB is refused |
| ConcreteRuns.LongNamesRefuseStart | nmc_bmc_observer/src/lib.rs:299-304 | the failing case: under a valid configuration three replies with slot names of 1.5 million characters leave only a state.json that start-up refuses |
| ConcreteRuns.FormerControllersRefuseStart | nmc_bmc_observer/src/main.rs:138-143 | the failing case: thirty-two controllers, a restart with another one, both configurations valid, and the only state.json names thirty-three |
| ConfigCheck.Validate | nmc_bmc_observer/src/lib.rs:64-107 | the loops over controllers and hosts accept exactly 1 to 32 controllers with distinct well-formed names, a known protocol, bounded endpoints and hosts, and intervals in range |
| ConfigCheck.ValidConfigIff | nmc_bmc_observer/src/lib.rs:64-107 | the machine restarts with exactly the configurations that pass for some polling interval |
| InventoryCheck.CheckInventory | nmc_bmc_observer/src/lib.rs:275-298 | the search for the controller's row, the two sorted host lists and the device loop answer yes if and only if the inventory is current and in time, its first row with that id has the configured endpoint, protocol and hosts, each as often, and every managed host has a device row naming the controller |
| InventoryCheck.MatchesIff | nmc_bmc_observer/src/main.rs:137-138 | the check of a running observer asks for exactly that |
| InventoryCheck.SortedListsAgreeIff | nmc_bmc_observer/src/lib.rs:283-288 | two lists of hosts are equal once sorted if and only if they hold the same hosts equally often |
| Replay.MemoryIsReplayed | nmc_bmc_observer/src/main.rs:132-220 | after every run each entry in memory is what replaying the recorded checks, replies, mints, answers, posts and reloads gives |
| Replay.VersionsAreFromThePast | nmc_bmc_observer/src/lib.rs:210-252 | every version of state.json a power loss could leave is what replaying some beginning of the history gives |
| Identity.FlagIsLastCheck | nmc_bmc_observer/src/main.rs:137-143 | in every run the identity flag is the outcome of the controller's last check or came with a reloaded document; a controller checked since the last adoption has a true flag exactly if the inventory adopted last agrees with its configuration in endpoint, protocol, hosts and devices |
| Identity.ChecksDecide | nmc_bmc_observer/src/main.rs:137-158 | a check sets the flag exactly if the controller agrees with the inventory of the tick, withdraws availability and changes nothing else |
| Identity.ShownHostsWereChecked | nmc_bmc_observer/src/main.rs:114-143 | a detail line is shown only for a controller whose configured endpoint, protocol, hosts and devices are those of the inventory adopted last, or whose true flag an adoption or a restart has outdated without a check since, and never both |
| Identity.AllowedPostsWereChecked | nmc_bmc_observer/src/lib.rs:403-413 | the same of every event post that is let in |
| Identity.AdoptionOutdatesIff | nmc_bmc_observer/src/main.rs:104-117 | between ticks of any run, some inventory accepted as current leaves a true flag for a controller it does not match, unchecked, if and only if the flag is true before |
| ConcreteRuns.AnUncheckedInventoryCounts | nmc_bmc_observer/src/main.rs:114-143 | the failing case: right after an adoption a host is shown and a post accepted for a controller that does not match the inventory in use |
| ObserverTheorems.UnwrapsNeverFail | nmc_bmc_observer/src/main.rs:164-173 | nothing an observer in flight unwraps is missing, under any interleaving |
| Evidence.AvailableIsEarned | nmc_bmc_observer/src/main.rs:159-167 | available is claimed, in memory or on disk, only with a valid identity and with the reading and time of a recorded reply of that controller which said its inventory was current and was looked at within 120000 ms of its observation |
| Evidence.RepliesDecide | nmc_bmc_observer/src/main.rs:159-167 | and after a diagnosis the stored reading is the reply's, and available holds exactly if the reply was such |
| Evidence.OtherRepliesDoNot | nmc_bmc_observer/src/main.rs:159-162 | no reply, or one of another controller or protocol, leaves the stored state alone, commits a notice and ends the observer |
| Evidence.DetailsAreNeverStale | nmc_bmc_observer/src/lib.rs:585-724 | host, system, firmware, fault and sensor lines appear only for a configured controller with valid identity, from a recorded prompt reply observed at most staleSeconds ago, under an inventory in use of at most the configured age |
| Evidence.DetailsAreTheReading | nmc_bmc_observer/src/lib.rs:651-724 | a detail line is shown if and only if it tells a managed host or one entry of the reading of a controller that is identified, available and fresh throughout |
| Evidence.GaugesTellTheHistory | nmc_bmc_observer/src/lib.rs:597-650 | every status gauge of a scrape has the value the history gives it, controller by controller |
| Evidence.GaugesAreShown | nmc_bmc_observer/src/lib.rs:597-650 | and for every configured controller each of them is there |
| Evidence.InventoryIsShown | nmc_bmc_observer/src/lib.rs:576-580 | every scrape has the inventory line, which is 1 exactly if the inventory in use is recent |
| Evidence.InventoriesDecide | nmc_bmc_observer/src/main.rs:104-131 | a tick works from the inventory it got exactly if that is current and of at most the configured age; if not, while it is fetched and after a failed tick no post is let in and no detail shown |
| Evidence.EnrollmentsAreOnRecord | nmc_bmc_observer/src/main.rs:81-99 | every stored enrollment, in memory or on disk, is a request minted, or one answered with the stored outcome at the stored time |
| Evidence.MintsAreDue | nmc_bmc_observer/src/main.rs:174-199 | a request is minted only right after a reply of its controller that offers event push, with a token, the setting and the inventory row allowing it, for the revision of the inventory adopted last, and only if none is stored or the stored one was confirmed at least 900000 ms before |
| Evidence.EnrollsExactlyWhenDue | nmc_bmc_observer/src/main.rs:174-210 | a diagnosis goes on to a request exactly when its commits complete, push is wanted all round, and the stored request is unconfirmed or a new one is due and the inventory names a revision |
| Evidence.DiagnosisIsJournaled | nmc_bmc_observer/src/main.rs:168-207 | it journals nothing if a due request cannot be named, else the observation, and only after that commit the intent of a request that is due or unconfirmed |
| Evidence.AnswersSettle | nmc_bmc_observer/src/main.rs:81-99 | an answer leaves the request it answers as configured or unknown with the time of the answer, commits that, changes nothing else and ends the observer |
| Journal.JournalIsTruthful | nmc_bmc_observer/src/lib.rs:236-240 | over every run each journal record but the gap notices tells a recorded post, reply or answer, with the event's own id and texts, the reply's reading, the answer's outcome |
| Journal.CountedEventsWerePosted | nmc_bmc_observer/src/lib.rs:391-456 | every event that memory or a recoverable document counts was posted for that controller under its id and texts |
| Events.KeysTellEvents | nmc_bmc_observer/src/lib.rs:433-441 | two events have the same key if and only if their ids are equal and their timestamps, types, severities and message ids agree on the first 128 characters |
| Events.PostsAreLetInIff | nmc_bmc_observer/src/lib.rs:391-433 | a post is let in exactly for a configured, known and identified controller, an inventory and a poll that are recent enough, its own context text, and one to 32 well-formed events; otherwise nothing changes |
| Events.NewEventsAreCounted | nmc_bmc_observer/src/lib.rs:414-456 | an accepted post of pairwise different events that are not in the window raises the counter by their number, journals each under its own id and texts in order, and leaves one state.json that shows it |
| Events.KnownEventsAreNot | nmc_bmc_observer/src/lib.rs:439-441 | an accepted post of events all in the window changes nothing but the time of the last post |
| ConcreteRuns.TwoRequestsAreSent | nmc_bmc_observer/src/main.rs:68-99 | a concrete run of two ticks fifteen minutes apart sends two different requests, one after the other |
| MachineSafety.RunKeepsInvariant | nmc_bmc_observer/src/main.rs:132-220 | the inductive invariant behind these theorems holds after every run |
| MachineSafety.DiagnosisKeeps | nmc_bmc_observer/src/main.rs:159-210 | the diagnosis section keeps it, whichever of its branches and fates occur |
| MachineInvariant.AcceptAllKeeps | nmc_bmc_observer/src/lib.rs:435-456 | so does an event batch cut off at any commit, and no other controller's request is disturbed |
| MachineInvariant.SendKeepsOrder | nmc_bmc_observer/src/main.rs:69-80 | sending what every document names keeps the order of sends |
| RedeliveryRuns.RedeliveryConverges | nmc_bmc_observer/src/lib.rs:391-464 | from any run whose recoverable versions agree on the window, after any continuation of the whole machine in which posts for the controller carry the same batch, an accepted post leaves the window and count of one uninterrupted delivery |
| Redelivery.AcceptedDeliveryFeeds | nmc_bmc_observer/src/lib.rs:435-456 | an accepted delivery, whatever was a duplicate, has the effect the redelivery theorems name |
| Redelivery.ResumingIsHarmlessIff | nmc_bmc_observer/src/lib.rs:439-449 | for a batch without repetitions, stopping anywhere and sending it again leaves what one attempt leaves if and only if no prefix loses one of its own keys |
| Redelivery.SafeResendAddsNothing | nmc_bmc_observer/src/lib.rs:439-441 | resending a finished batch adds nothing when none of its keys lay where the batch could push it out |
| Redelivery.ResendAddsNothingIff | nmc_bmc_observer/src/lib.rs:439-445 | it adds nothing if and only if no key was an old entry pushed out and not counted again |
| Redelivery.OldestEntryIsCountedAgain | nmc_bmc_observer/src/lib.rs:439-445 | a full window and a batch whose duplicate is its oldest entry: the resend counts it again |
| Redelivery.FeedAllSlides | nmc_bmc_observer/src/lib.rs:442-449 | a delivery leaves the last 512 of the old window followed by the newly counted keys |
| ObserverStore.Store.Commit | nmc_bmc_observer/src/lib.rs:210-252 | whatever filesystem step fails, memory is untouched and the disk is as the returned fate says; with no failing step it completes; at most the oldest journal file goes, and only when the live one is over the limit |
| ObserverStore.Store.Rotate | nmc_bmc_observer/src/lib.rs:216-233 | rotation, even stopped midway and resumed later, renames only onto free names, loses nothing but the oldest file, moves every file up one place when it completes, and keeps at most four files that are an in-order suffix of all records |
| ObserverStore.Store.Append | nmc_bmc_observer/src/lib.rs:236-240 | one line is appended as a whole or not at all: to the live file while that is within 16 MiB, else to a new one after a rotation |
| ObserverStore.ShiftKeepsOrder | nmc_bmc_observer/src/lib.rs:226-233 | moving a journal file up into a free slot keeps the order of the retained records |
| ObserverStore.JournalIsBounded | nmc_bmc_observer/src/lib.rs:216-233 | the journal holds at most four files of the limit plus one line each |
| ObserverStore.Store.AcceptEvents | nmc_bmc_observer/src/lib.rs:391-464 | the checks in order, the validate-and-project loop and the deliveries: a post is refused exactly for an unknown or unreconciled controller, an inventory or reply that is too old, a foreign context, or a batch out of bounds or with one malformed event, and then nothing has changed; otherwise the effect is the one the theorems are about |
| ObserverStore.Store.AcceptOne | nmc_bmc_observer/src/lib.rs:436-455 | one event: counted and committed, recognised, refused at the limit, or rolled back |
| ObserverStore.Store.RecordDiagnostic | nmc_bmc_observer/src/main.rs:162-207 | the section after a diagnostics reply, including minting and its early exits |
| ObserverStore.Store.RecordEnrollment | nmc_bmc_observer/src/main.rs:81-99 | the section after the answer to a subscribe request |
| ObserverStore.Store.SetIdentity | nmc_bmc_observer/src/main.rs:138-143 | identity is set and availability withdrawn, for new and known controllers |
| RateLimit.Limiter.Admit | nmc_bmc_observer/src/main.rs:273-285 | one request updates only its own controller's bucket and is admitted within the limit |
| RateLimit.BucketIsTheWindow | nmc_bmc_observer/src/main.rs:273-285 | with windows read off the request times alone (the first request opens one, then the first request a minute or more after the opening), the bucket holds the opening time and the number of requests of the window in force, under any clock |
| RateLimit.PassesIff | nmc_bmc_observer/src/main.rs:281-283 | a request passes if and only if fewer than 120 came before it in its window |
| RateLimit.NextWindowOpens | nmc_bmc_observer/src/main.rs:276-280 | a request a minute or more after the opening of the last window passes and opens the next |
| RateLimit.RefusedOnlyWhenFull | nmc_bmc_observer/src/main.rs:276-283 | a request is refused only after 120 others within the same minute |
| RateLimit.AtMostLimitPerWindow | nmc_bmc_observer/src/main.rs:273-285 | at most 120 requests of a window pass, at every moment |
| RateLimit.AtMostTwiceLimitPerInterval | nmc_bmc_observer/src/main.rs:273-285 | at most 240 pass in any half-open 60000 ms interval |
| RateLimit.TableIsPerController | nmc_bmc_observer/src/main.rs:274-276 | controllers do not share a budget |
| Metrics.DetailMeansFresh | nmc_bmc_observer/src/lib.rs:585-724 | a detail line names a configured controller that is fresh throughout |
| Metrics.FreshIsShown | nmc_bmc_observer/src/lib.rs:651-660 | a fresh controller's managed hosts are all shown, and its event counter always |
| Metrics.DetailsShownIff | nmc_bmc_observer/src/lib.rs:651-724 | a detail line is shown if and only if it describes a host or an entry of the reading of a configured controller that is fresh |
| Metrics.SummariesAreShown | nmc_bmc_observer/src/lib.rs:597-650 | the other lines are exactly the summaries of the configured controllers |
| Metrics.CounterShownIsStored | nmc_bmc_observer/src/lib.rs:636-636 | every counter line carries the double nearest to the stored counter |
| Metrics.CounterIsRoundedToNearest | nmc_bmc_observer/src/lib.rs:636-636 | no double is nearer to the counter than the one shown, and of two equally near the one with the even last digit is |
| Metrics.RoundingIsMonotone | nmc_bmc_observer/src/lib.rs:636-636 | rounding the counter to a double keeps the order and is exact below 2^53 |
| Exposition.LabelReadsBack | nmc_bmc_observer/src/lib.rs:465-477 | a reader of the exposition format gets back the value without control characters other than line feeds, and stops where the label ends |
| Exposition.EscapedByCharacter | nmc_bmc_observer/src/lib.rs:470-476 | the three replacements in a row equal one map per character |
| Exposition.CleanKeepsRest | nmc_bmc_observer/src/lib.rs:466-469 | every character outside U+0000-U+001F and U+007F-U+009F, and every line feed, is kept as often as it occurs, and no other is |
| Exposition.CleanKeepsOrder | nmc_bmc_observer/src/lib.rs:466-469 | and their order is kept |
| Envelope.Unwrap | nmc_bmc_observer/src/lib.rs:254-274 | returns the plain object under fewer than eight successful envelopes, and nothing exactly when there is none |
| Shell.RunReadsArgumentsIffNulFree | nmc_client/src/Commands/NodeCommands.cpp:162-170 | the command line handed to popen is read as exactly the arguments plus the redirection if and only if no argument holds a NUL |
| Shell.CommandRoundTrip | nmc_client/src/Commands/NodeCommands.cpp:149-160 | tokenizing a printed argument list gives the list back, for all strings |
| Shell.QuotedReads | nmc_client/src/Commands/NodeCommands.cpp:135-147 | a quoted value is one word or extends the word before it, whatever it contains |
| Shell.RemoteCommandReads | nmc_client/src/Commands/NodeCommands.cpp:800-846 | the remote command line is read as the listed words and operators for every path, environment value, password and argument |
| Shell.EnvironmentReachesArtifactIff | nmc_client/src/Commands/NodeCommands.cpp:816-846 | the last simple command of the line runs the artifact, and the recruit environment is assigned to it if and only if there is none or no sudo password |
| Shell.NestedQuotingSurvives | nmc_client/src/Commands/NodeCommands.cpp:843-846 | quoting nested in another quoted command survives the local and the remote shell |
| Shell.Quote | nmc_client/src/Commands/NodeCommands.cpp:123-147 | the loop computes the quoted form the theorems read |
| Shell.PrintCommand | nmc_client/src/Commands/NodeCommands.cpp:149-160 | so does the loop over the arguments |
| Cli.Command.ParseFlags | nmc_client/src/CLI/CLIParser.cpp:124-220 | the index loop over flag objects parses as specified, refusals included |
| Cli.Flag.SetValue | nmc_client/src/CLI/Command.cpp:10-36 | a value is stored according to the flag's type, an unusable integer changes nothing |
| Cli.StoiReadsBack | nmc_client/src/CLI/Command.cpp:19-33 | an optional sign and a decimal print, after blanks, read as that integer |
| Cli.StoiAcceptsOnly | nmc_client/src/CLI/Command.cpp:19-33 | and every accepted text is blanks, a sign or none, and digits of the integer read |
| Cli.Command.GetFlag | nmc_client/src/CLI/Command.cpp:120-127 | finds the first flag with the name as long or short name |
| CliGlobals.GlobalFlags.TakeOff | nmc_client/src/CLI/CLIParser.cpp:30-46 | the erasing walk over the vector strips as specified, refusals included |
| CliGlobals.GlobalFlagsAnywhere | nmc_client/src/CLI/CLIParser.cpp:30-46 | wherever global flags stand, the command's own tokens remain in order, the last output format wins and any version flag counts |
| CliGlobals.RefusedIff | nmc_client/src/CLI/CLIParser.cpp:32-39 | a line is refused if and only if it ends in an output flag without a value |
| CliGrammar.AcceptsExactlyTheGrammar | nmc_client/src/CLI/CLIParser.cpp:124-220 | an argument list is accepted with a result if and only if it is the token list of well-formed items that say so; dropped tokens are flags or their values |
| CliGrammar.InterleavingDoesNotMatter | nmc_client/src/CLI/CLIParser.cpp:129-219 | the same flag groups and the same positionals parse alike in every interleaving |
| CliGrammar.PositionalsAreASubsequence | nmc_client/src/CLI/CLIParser.cpp:214-218 | what remains is a subsequence of the arguments |
| CliGrammar.SpellingsAreRecognised | nmc_client/src/CLI/CLIParser.cpp:133-185 | each spelling of a flag is recognised as that flag, and no token without a dash is |
| CliGrammar.RecognisedIsASpelling | nmc_client/src/CLI/CLIParser.cpp:133-185 | and whatever is recognised spells a name of the flag and the value read |
| CliGrammar.DoubleDashIsAFlagIff | nmc_client/src/CLI/CLIParser.cpp:133-146 | a bare double dash is a flag if and only if some short name is empty |
| CliGrammar.RepeatsAreJoined | nmc_client/src/CLI/CLIParser.cpp:168-176 | a String flag holds under its name the comma join of its values since the last empty one |
| CliGrammar.LastValueWins | nmc_client/src/CLI/CLIParser.cpp:168-176 | any other flag holds its last value |
| CliGrammar.RepeatedFlagSurvivesSplitting | nmc_client/src/Commands/NodeCommands.cpp:404-419 | splitting what the parser stored for a repeated flag returns the values in order |
| CliGrammar.PaddedItemsAreTrimmed | nmc_client/src/Commands/NodeCommands.cpp:404-419 | items padded with blanks come back without them, and empty ones do not come back |
| CliGrammar.SplitCommaSeparated | nmc_client/src/Commands/NodeCommands.cpp:404-419 | the loop keeps the non-empty trimmed items in order |
| Text.TrimOfPadded | nmc_client/src/Core/VersionCheck.cpp:106-113 | trimming takes off exactly the blanks around a text, for every text and every padding |
| Text.GetlineOfJoin | nmc_client/src/Commands/NodeCommands.cpp:410-418 | reading a joined list item by item returns the list |
| Text.JoinOfGetline | nmc_client/src/Commands/NodeCommands.cpp:410-418 | joining what is read of any text gives the text back, up to a delimiter at its end |
| Connections.HistoryStaysConsistent | nmc_client/src/Core/CloudAPIClient.cpp:2101-2261 | over every history of commands, failed or torn saves and new processes, names are distinct and the active entry is exactly the default |
| Connections.RestartLosesNothing | nmc_client/src/Core/CloudAPIClient.cpp:2247-2358 | when every save is written, a new process finds the registry the last one left |
| Connections.MakeStores | nmc_client/src/Core/CloudAPIClient.cpp:2101-2126 | a new entry has its own endpoint and token, an existing one and all others are left alone, and the default moves only if asked |
| Connections.DropRemoves | nmc_client/src/Core/CloudAPIClient.cpp:2128-2148 | dropping removes that entry alone and clears the default exactly if it was that entry |
| Connections.SelectMovesDefault | nmc_client/src/Core/CloudAPIClient.cpp:2170-2192 | selecting moves the default exactly to a known name and changes no endpoint or token |
| Connections.UnsetClearsDefault | nmc_client/src/Core/CloudAPIClient.cpp:2194-2217 | unsetting clears the default and changes no endpoint or token |
| Connections.SetTokenStores | nmc_client/src/Core/CloudAPIClient.cpp:2219-2245 | setting a token changes that entry's token and nothing else |
| Connections.EndpointsAreKept | nmc_client/src/Core/CloudAPIClient.cpp:2101-2261 | over every history from a file whose entries have endpoints every entry has one |
| Connections.PrecedenceIs | nmc_client/src/Core/CloudAPIClient.cpp:2366-2393 | the documented precedence, variable by variable |
| Connections.StatusRepairs | nmc_client/src/Core/CloudAPIClient.cpp:1980-1997 | on any registry the status command would clear exactly a default that names no entry |
| Connections.StatusNeverRepairs | nmc_client/src/Core/CloudAPIClient.cpp:1980-1997 | the inconsistency branch of the status command is unreachable |
| Connections.ScanNeverMatters | nmc_client/src/Core/CloudAPIClient.cpp:2366-2393 | in every reachable state token resolution is the documented precedence |
| Connections.MakeKeepsIff | nmc_client/src/Core/CloudAPIClient.cpp:2101-2126 | making a connection keeps the registry consistent if and only if its name is not empty |
| Connections.Client.MakeConnection | nmc_client/src/Core/CloudAPIClient.cpp:2101-2126 | registry and file after a make, with the default moved if asked |
| Connections.Client.DropConnection | nmc_client/src/Core/CloudAPIClient.cpp:2128-2148 | registry and file after a drop, with the default cleared if it was dropped |
| Connections.Client.SelectConnection | nmc_client/src/Core/CloudAPIClient.cpp:2170-2192 | registry and file after a select |
| Connections.Client.UnsetDefault | nmc_client/src/Core/CloudAPIClient.cpp:2194-2217 | registry and file after unsetting the default |
| Connections.Client.SetConnectionToken | nmc_client/src/Core/CloudAPIClient.cpp:2219-2245 | registry and file after setting or clearing a token |
| Query.EncodingReadsBack | nmc_client/src/Core/CloudAPIClient.cpp:44-56 | percent-decoding an encoded value returns it |
| Query.EncodeQueryValue | nmc_client/src/Core/CloudAPIClient.cpp:44-56 | the loop computes the encoding |
| Query.EncodingIsInert | nmc_client/src/Core/CloudAPIClient.cpp:43-56 | an encoded value holds only unreserved characters and percent signs |
| Query.EncodingKeepsIff | nmc_client/src/Core/CloudAPIClient.cpp:48-53 | a value is sent as it is if and only if it holds letters, digits and -._~ alone |
| Query.QueryReadsBack | nmc_client/src/Core/CloudAPIClient.cpp:35-41 | splitting a path built on a plain base returns the parameters with non-empty values in order |
| JobPolling.WaitForJob | nmc_client/src/Core/CloudAPIClient.cpp:1210-1277 | between one and 453 polls, each before the deadline, every one but the last a 200 reply with a queued or running job; then the last reply fixes the verdict (503 none, 502 malformed or unsupported, the job's status or 500 for one that did not succeed, no code for another refusal), or it is still running, the deadline has passed and the verdict is 504 |
| JobPolling.DelayIsCappedDoubling | nmc_client/src/Core/CloudAPIClient.cpp:1211-1269 | the i-th delay is min(250 * 2^i, 2000) milliseconds |
| JobPolling.SuccessIff | nmc_client/src/Core/CloudAPIClient.cpp:1222-1248 | success needs a 200 poll of a succeeded job with a successful result, or another 2xx reply whose body is empty or JSON |
| JobPolling.NoContentCountsAsSuccess | nmc_client/src/Core/CloudAPIClient.cpp:1222-1227 | the failing case: an empty 204 reply to a poll is reported as success |
| Versions.NumericVersionsAreOrdered | nmc_client/src/Core/VersionCheck.cpp:146-166 | on numeric versions the comparison is sign-antisymmetric and transitive; ties are lists equal up to trailing zeros, and the smaller list has the smaller number, or none against a positive one, at the first place where they do not tie |
| Versions.CompareIsLexicographic | nmc_client/src/Core/VersionCheck.cpp:154-165 | the loop decides the lexicographic order of the zero-padded lists |
| Versions.TextDecidesOtherwise | nmc_client/src/Core/VersionCheck.cpp:150-152 | when one version is not numeric the sign is that of the order of the two normalized texts, antisymmetric and zero only on equal ones |
| Versions.NormalizedIs | nmc_client/src/Core/VersionCheck.cpp:106-121 | normalizing takes off the blanks around a text and then one leading v |
| Versions.NotNumericIff | nmc_client/src/Core/VersionCheck.cpp:123-144 | exactly which texts parse to no numbers |
| Versions.PrintReadsBack | nmc_client/src/Core/VersionCheck.cpp:123-144 | parsing a dotted print of parts below 10^9 returns them, with or without blanks, a leading v and a suffix |
| Versions.PartsFitInInt | nmc_client/src/Core/VersionCheck.cpp:137-141 | the nine-digit cap keeps every part within 32 bits |
| Versions.ParseVersionParts | nmc_client/src/Core/VersionCheck.cpp:123-144 | the loop parses as specified, one bad token emptying the list |
| Versions.CompareVersions | nmc_client/src/Core/VersionCheck.cpp:146-166 | the loop compares as specified |

## Left out

- File permissions, locks and symbolic links of private files: a filesystem step succeeds or fails.
- The length of a serialized document is an arbitrary function of it; that it grows with the names it holds is an assumption of `LongNamesRefuseStart`. A document start-up refuses ends the observer, while the machine goes on with it, so it allows more runs.
- Journal files: renames, creation and synced lines count as durable at once; only state.json has versions that a power loss may bring back.
- Temporary files a failed commit leaves behind, and reading the journal back, which the program never does.
- SHA-256, UUIDs, JSON text and regular expressions: a projected event is its own key, request ids are fresh numbers, replies are values.
- String lengths in bytes: bounds on event fields are stated in characters.
- `now()`: the calls inside one critical section are one instant; `project` has its own. No clock is assumed to be monotone except in `RateLimit`.
- The asynchronous tasks: their interleaving, `inventory_at` and the steps between critical sections are modelled on values in `Machine`; the sections themselves are the methods of `ObserverStore.Store`.
- `tick` observes at most two controllers at a time and stops after a failing pair; the machine allows any number, so it allows more runs.
- Authentication, body limits, timeouts and HTTP status codes of the event endpoint; the 32-bit width of the request count within one window.
- `project`: its freshness verdict and what is kept of a reply are modelled, not how the entries of a reading are parsed from the protocol texts; HELP and TYPE lines of the scrape are constant text.
- Journal.JournalIsTruthful: identity_gap and collection_gap records carry nothing but an id and a time, and are not traced back.
- `--once` mode; the listener, the paths and the name of the token variable of a configuration.
- Timestamps and sensor values of a scrape are printed as reals; only the counter is rounded to a double. The protocol label of the lines.
- The rest of `parseAndExecute`, and `parseArguments`: subcommand descent, help and argument counts.
- Shell expansions, double quotes, patterns, comments and line ends: the reader covers what the printed commands use and refuses the rest; reserved words and the grammar above tokens are not modelled. The Windows branch of quoting.
- The HTTP client a connection operation re-points, the status probes and the output messages.
- A connection file whose JSON parses but has members of the wrong type; a file that does not parse loads as empty, as its comment says.
- Job submissions that are not answered with 202, job id validation and message texts.
- Versions.CompareVersions: for versions that are not both numeric only the sign of the string comparison is modelled; over mixed versions no transitivity is claimed.
- Command classes per resource, cluster status mapping, subprocesses and the server.
