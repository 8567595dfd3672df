# Verification of the team message bus

A Dafny model of the `team` bus: a local server that connects agent sessions over
WebSockets, its message log, its naming rules, and the monitor process each session runs.
The model follows the code; where code and comments disagree, the code wins (see the last
paragraph of this section).

**The bus.** Many connection handlers share one registry map. `Registry.dfy` and
`Resolve.dfy` give every section the server runs under `registryMu` as a function on
registry values, with objects compared by identity: `R` is the type of object references.
`Bus.dfy` is the machine built from them. What happens under a lock is one step; every
unlocked counter update, clock reading, log append and frame write is a step of its own, and
the steps of all handlers interleave freely. `Server.dfy` runs the same sections as the code
does, on client objects, an updatable map and loops that take the map's keys in any order,
and proves each method equal to its function. The theorems about whole runs are in
`BusRuns.dfy`, for the life of one message frame in `Frames.dfy`, and for hellos, renames and
what clients are made of in `Sessions.dfy`; `Ledgers.dfy` and `Deliveries.dfy` hold the
invariants under them. `Witnesses.dfy` has runs in which the
surprising outcomes happen.

**The limiter.** `Limiter.dfy` prunes a slice in place over its own backing array, and
relates the stored window to the full list of broadcasts ever admitted, with a term for a
clock that steps back.

**The log.** `LogFile.dfy` rotates a chain of files and appends lines; the reference is the
whole history cut into chunks. `Tail.dfy` scans the live file back through a ring buffer,
with the scanner's limit on a line.

**Names, monitors, identities.** `Naming.dfy` has the least-free-name search and the name
derived from a directory; `Client.dfy` the reconnect loop and its exchange with the server;
`Monitors.dfy` the per-ppid lock and the state file, written in several steps any of which
may fail or be the last before a crash; `Identity.dfy` the endpoint records;
`Ancestor.dfy` the walk up a possibly cyclic process table. `Text.dfy` has decimal numerals.

What the proofs found, stated exactly:

- A hello that reclaims its session id with its nonce and is then refused with `name_taken`
  has lost its own earlier entry; no other refused hello changes the registry
  (`Registry.RefusedHelloEffect`; it happens in `Witnesses.NameTakenDropsOwnEntry`).
- A failed welcome write leaves an entry no handler will unregister; only a hello with the
  same session id and nonce takes it away, so one registered with an empty nonce stays for
  good (`BusRuns.FailedEntryStep`, `BusRuns.FailedWelcomeWithoutNonceStays`; it happens in
  `Witnesses.WelcomeFails`).
- A control whose listener left counts as alive again when anyone registers that session id,
  whatever the nonce (`BusRuns.StaleControlRevives`; it happens in
  `Witnesses.ControlOutlivesListener`); its nonce is its listener's as long as the session id
  has stayed registered (`BusRuns.ControlMatchesListener`).
- `sessionID[:8]` is out of range for some registered session ids, which nothing keeps from
  being shorter. `Resolve.PanicsExactlyWhen` says when, and `Witnesses.ShortSidsPanic` has a
  run; such a send is in no counter, the one correction term of `BusRuns.MessageTotals`,
  which is nil when all session ids have 8 bytes (`BusRuns.LongSidsNeverPanic`).
- A run with a collision limit of 1 gives up before trying the candidate it was handed
  (`Client.TakenNameConverges`).
- One logged line of 16 MB or more makes reading the log back fail until it is rotated away,
  and nothing else does while the file can be read (`Tail.TailOfLogIsTailOfHistory`, with an
  example in `Tail.LongLineIsAnError`).
- The comment on `WriteSessionState` holds for what readers see, but temporary files are not
  always removed: exactly those of a failed rename, a failed removal or a crash in the middle
  stay (`Monitors.TempsAreInHandOrAbandoned`).
- The comment on `AutoNameFromCwd` says the cap may leave an invalid name; it never does
  (`Naming.AutoNameMeaning`), but it may leave a trailing dash (`Naming.AutoNameFixedPoint`,
  with an example in `Naming.CapAfterDash`). The comment on `Rotate` says "under maxBytes"; a
  file of exactly maxBytes is not rotated either.

Strings are byte strings, as Go's are. Times are nanoseconds.

## Model

| member | source | states |
|---|---|---|
| Naming.ValidNameIsPattern | internal/validate/name.go:13-19 | Valid names are the texts of the pattern: one of [a-z0-9], then at most 39 of [a-z0-9-]. |
| Naming.NextAvailableName | internal/validate/name.go:56-72 | The counting loop terminates for every base and taken set and computes `NextFree`. |
| Naming.NextFreeIsLeast | internal/validate/name.go:53-72 | The base if free; else the least numbered free candidate, every lower one taken; "" exactly for an empty base or when every candidate of at most 40 characters is taken. |
| Naming.LeastFreeUnique | internal/validate/name.go:53-72 | That description fixes the answer: two least free candidates are equal. |
| Naming.FirstSuggestion | internal/validate/name.go:63-72 | The suggestion for a taken name is the name with "-2", when that is free and fits. |
| Naming.SearchIsShort | internal/validate/name.go:63-72 | Candidates being distinct, among n taken names the suggestion for a taken base is numbered n + 1 at most. |
| Naming.NextFreeKeepsValidity | internal/validate/name.go:13-19 | A suggestion for a valid name is itself a valid name. |
| Naming.AutoName | internal/validate/name.go:28-51 | The builder loop, trim, cap and validity test compute `NameOf`. |
| Naming.AutoNameMeaning | internal/validate/name.go:21-51 | The result is the alphanumeric runs joined by single dashes, cut at 40; "" exactly when there is no such character; otherwise valid, no two dashes adjacent. |
| Naming.AutoNameFixedPoint | internal/validate/name.go:28-51 | Deriving again gives the same name if and only if it does not end in a dash, which happens exactly when the cap cut just after one. |
| Naming.CapAfterDash | internal/validate/name.go:43-48 | A base whose 40th derived character is a dash: its name is not a fixed point. |
| Limiter.BroadcastWindows.Prune | internal/bus/server.go:258-265 | Writing the survivors over the slice being read leaves exactly the entries after the cutoff, in order. |
| Limiter.BroadcastWindows.Consume | internal/bus/server.go:253-273 | One charge: verdict and new window of this listener from its old window; every other listener's window unchanged although arrays are reused. |
| Limiter.WindowTracksHistory | internal/bus/server.go:257-272 | Past any instant pruning left alone, the stored window equals the full admission history. |
| Limiter.AtMostSixtyPerWindow | internal/bus/server.go:250-273 | If no reading lags an earlier one by more than d, every interval (x, x + 1 min - d] holds at most 60 admissions. |
| Limiter.AdmitsByHistory | internal/bus/server.go:257-272 | With a non-decreasing clock, admitted if and only if fewer than 60 were admitted in the minute before. |
| Limiter.RefusalLeavesNoTrace | internal/bus/server.go:266-269 | A refused charge changes no later verdict and no later window, whatever the clock does. |
| Limiter.StoredWindowShape | internal/bus/server.go:257-272 | The stored window has at most 60 entries and stays sorted with the clock. |
| LogFile.LogDir.Rotate | internal/logfile/rotate.go:19-47 | The downward rename loop shifts every file one number up and drops the oldest, gaps included, exactly when the live file exceeds the cap. |
| LogFile.LogDir.AppendJSONL | internal/logfile/rotate.go:52-68 | One line and a newline at the end of the live file, created when missing; no other file changes. |
| LogFile.LogDir.LogMessage | internal/bus/ops.go:288-309 | Rotate, then append. |
| LogFile.LogRunHoldsChunks | internal/logfile/rotate.go:19-68 | After any sequence of messages the files are exactly the newest backups + 1 chunks of the history. |
| LogFile.ChunksPartition | internal/logfile/rotate.go:19-68 | The chunks put end to end are the history: nothing lost, moved or repeated. |
| LogFile.LogIsSuffixOfHistory | internal/logfile/rotate.go:15-68 | Read oldest to newest the files are a suffix of the history; once anything is dropped all slots are full and hold more than backups * maxBytes bytes. |
| LogFile.LogFileSizes | internal/logfile/rotate.go:27-46 | Every backup exceeds the cap; the live file is at most the cap plus its last line. |
| LogFile.ServerLogKeepsNewest | internal/protocol/protocol.go:37-38 | With the server's own settings nothing is lost while the history is within 250 MiB, and more than that is kept afterwards. |
| Tail.ScanWrittenLines | internal/inspect/messages.go:43-50 | Scanning what was appended line by line gives the lines back. |
| Tail.ScanOtherEnds | internal/inspect/messages.go:43-50 | A carriage return before the newline is no part of the line, and a last line needs no newline. |
| Tail.WrittenLinesFit | internal/inspect/messages.go:44-45 | The scan comes to its end if and only if every appended line is shorter than the scanner's buffer. |
| Tail.TailJSONL | internal/inspect/messages.go:30-74 | For every n and every mix of good and malformed lines: the last min(n, k) of the k well-formed records, in file order; an error exactly when the file cannot be opened or read, or a line fills the 16 MB buffer. |
| Tail.LongLineIsAnError | internal/inspect/messages.go:44-63 | A file that starts with a line of 16 MB cannot be read, whatever follows. |
| Tail.ReadOut | internal/inspect/messages.go:65-73 | The second loop reads the ring from its oldest cell. |
| Tail.TailOfLogIsTailOfHistory | internal/inspect/messages.go:30-74 | Log any records, tail the live file: the answer is the last of the records logged since the last rotation, all of them within the cap, or an error exactly when one of these is a line of 16 MB or more. |
| Paths.PathEscapeInjective | internal/paths/paths.go:46 | Percent escaping is injective whatever bytes are left alone, the percent sign excepted. |
| Paths.FileNames | internal/paths/paths.go:40-55 | The file names of the default endpoint, and of a host that needs no escape. |
| Paths.StemInjective | internal/paths/paths.go:40-47 | Two endpoints share a file stem if and only if port and host agree, the empty host being 127.0.0.1. |
| Paths.NamesInjective | internal/paths/paths.go:49-55 | The same for the pidfile and for the metadata file. |
| Paths.PidAndMetaDisjoint | internal/paths/paths.go:49-55 | A pidfile is never some endpoint's metadata file. |
| Identity.DataDir.WriteServerIdentity | internal/auth/identity.go:43-66 | What is written before the first failure and nothing else; success exactly without one. |
| Identity.DataDir.VerifyServerIdentity | internal/auth/identity.go:85-126 | The chain of checks decides `Verifies`. |
| Identity.FilesShowLastWrite | internal/auth/identity.go:43-66 | An endpoint's two files always show what its own writes, failed ones included, last left there, whatever other endpoints wrote. |
| Identity.VerifiesLastWrite | internal/auth/identity.go:68-126 | An endpoint verifies if and only if the pidfile and metadata its writes left name one positive live pid whose command line matches or cannot be fetched: the last write's pid if that succeeded, and never without a write. |
| Identity.VerifiesIff | internal/auth/identity.go:85-126 | Whatever the files hold, an endpoint verifies if and only if they name one positive pid and this very endpoint, and that process is alive and has "team server" in its command line, or none that can be fetched. |
| Identity.FailedWriteVerifies | internal/auth/identity.go:43-66 | What a write that fails leaves verifiable: nothing once the metadata is cut short, only metadata that already named the new pid when it could not be replaced, what verified before when nothing was touched. |
| Identity.LooksLikeServerIff | internal/auth/identity.go:119-125 | The command line has "team server" in it, or cannot be fetched. |
| Identity.TeamServerPasses | internal/auth/identity.go:125 | A program named team at any path, given the argument server, passes. |
| Ancestor.FindCCAncestorPid | internal/procutil/cc_ancestor.go:55-70 | Terminates on every finite table, cycles included; returns the nearest match met before a pid <= 1, and -1 exactly when there is none at any distance. |
| Ancestor.ClaudeProcessIff | internal/procutil/cc_ancestor.go:72-95 | A command line matches if and only if by the name after its last slash, its path, or its arguments when it is node; every path ending in "/claude" does, and an empty command line does not. |
| Registry.KeysDoNotShareObjects | internal/bus/server.go:66-67 | No two registry keys share one client object. |
| Registry.AgentHelloKeeps | internal/bus/handler.go:150-186 | An agent hello, accepted or refused, keeps keys, name validity and name uniqueness. |
| Registry.ControlHelloKeeps | internal/bus/handler.go:224-249 | So does a control hello. |
| Registry.RenameKeeps | internal/bus/ops.go:255-275 | So does an in-place rename. |
| Registry.UnregisterKeeps | internal/bus/handler.go:312-320 | So does unregister. |
| Registry.RenameOnlyListener | internal/bus/ops.go:250-275 | A rename changes names only, and no other agent's; a refused one changes nothing. |
| Registry.RefusedHelloEffect | internal/bus/handler.go:150-191 | A refused hello adds no entry and touches no other session id; it leaves the registry alone if and only if its session id is free or not reclaimed by a non-empty matching nonce. |
| Registry.AcceptedIff | internal/bus/handler.go:150-186 | An agent hello gets in if and only if its session id is free or reclaimed by a non-empty matching nonce and no other agent bears its name. |
| Registry.AgentRefusals | internal/bus/handler.go:151-182 | `unauthorized` when the session id is in use; else `name_taken` with the least free numbered name, or none when all that fit are taken. |
| Registry.ControlAcceptedIff | internal/bus/handler.go:225-235 | A control hello gets in if and only if it names a registered agent and bears its non-empty nonce; else `unknown_peer`, then `unauthorized`. |
| Registry.ControlInherits | internal/bus/handler.go:236-249 | An admitted control has its listener's name, label and directory, and its own pid and nonce; nothing else changes. |
| Registry.RenameAcceptedIff | internal/bus/ops.go:245-275 | For agents and controls, a rename gets in if and only if the name is empty or valid, the listener is registered, and no other agent bears the name; else `invalid_name`, `unknown_peer`, `name_taken`, in this order. |
| Registry.CandidateIsAccepted | internal/bus/handler.go:175-181 | The suggested candidate is accepted when tried next. |
| Registry.NoCollisionWithSelf | internal/bus/handler.go:151-182 | Reconnecting with the same session id, nonce and name is accepted. |
| Resolve.ExactMatchesAreUnique | internal/bus/ops.go:83-104 | In a consistent registry an exact session id or name has one owner. |
| Resolve.DeliveryIsSound | internal/bus/ops.go:67-164 | A resolved target is a registered agent, never a control, never the sender's own listener, and matches by one of the four rules alone. |
| Resolve.ReachableBySid | internal/bus/ops.go:83-93 | Every other agent is reached by its session id. |
| Resolve.ReachableByName | internal/bus/ops.go:94-104 | A name reaches its bearer if and only if no other agent's session id is that text. |
| Resolve.ExactMatchIsReached | internal/bus/ops.go:83-104 | An exact session id, then an exact name, goes to its agent, or is refused when that is the sender's own listener. |
| Resolve.UniqueNamePrefixIsReached | internal/bus/ops.go:105-119 | With no exact match, the one agent whose name has the prefix is reached. |
| Resolve.SharedNamePrefixIsAmbiguous | internal/bus/ops.go:120-131 | A name prefix several agents share is answered `ambiguous` with exactly these. |
| Resolve.UniqueSidPrefixIsReached | internal/bus/ops.go:133-147 | With no match so far, the one agent whose session id has the prefix of 4 bytes or more is reached. |
| Resolve.SharedSidPrefixIsAmbiguous | internal/bus/ops.go:148-159 | A shared session id prefix is answered `ambiguous` with exactly its agents, or panics when one of their session ids is shorter than 8 bytes. |
| Resolve.NoMatchExactlyWhen | internal/bus/ops.go:67-164 | `unknown_peer` for want of a match if and only if no agent matches by any rule; `unauthorized` if and only if the listener is gone. |
| Resolve.PanicsExactlyWhen | internal/bus/ops.go:133-159 | Exactly when slicing a session id to 8 bytes is out of range; never if all have 8 bytes. |
| Resolve.ListingsAgree | internal/bus/ops.go:121-132 | Any two orders of iteration list the same texts, as multisets. |
| Resolve.UniqueNameIsOrderFree | internal/bus/ops.go:94-104 | While names are unique the exact-name loop finds the same agent in every order. |
| Resolve.SharedNameDependsOnOrder | internal/bus/ops.go:94-104 | Were a name shared, two orders would find different agents. |
| Server.Server.NamesInUse | internal/bus/handler.go:163-174 | The loop over the map, in any order, collects the agents' names. |
| Server.Server.HelloAgent | internal/bus/handler.go:123-186 | The locked section refines `AgentVerdict` and `AgentHello`. |
| Server.Server.HelloControl | internal/bus/handler.go:217-249 | The locked section refines `ControlVerdict` and `ControlHello`, which `ControlAcceptedIff` and `ControlInherits` pin down; a refusal changes nothing. |
| Server.Server.HandleRename | internal/bus/ops.go:245-275 | Renames the listener's object, and the requester's, in place, and answers, as `RenameAcceptedIff` says. |
| Server.Server.UnregisterClient | internal/bus/handler.go:312-327 | Deletes by identity; counts and announces a leave exactly for an agent that still owned its entry. |
| Server.Server.ListenerAliveLocked | internal/bus/server.go:235-248 | Decides `ListenerAlive`. |
| Server.Server.CollectAgents | internal/bus/ops.go:76-82 | Every registered agent once, in whatever order, no control. |
| Server.Server.CountConnected | internal/bus/server.go:169-177 | Counts the connected agents. |
| Server.Server.ListAgents | internal/bus/server.go:190-210 | One record for every session id registered as an agent, with its current fields, and no other. |
| Server.Server.BroadcastSnapshot | internal/bus/ops.go:200-216 | Liveness, and every agent but the sender's listener, each once. |
| Server.Server.ResolveSendTarget | internal/bus/ops.go:53-164 | For every order of iteration, the declarative outcome, its error code, and as matches exactly the names, or the first 8 bytes of the session ids, of the ambiguous agents. |
| Server.Server.MatchesAgree | internal/bus/ops.go:121-158 | Two runs with one outcome list equal multisets of matches. |
| Bus.FirstFaultGivesCode | internal/bus/handler.go:98-120 | The first thing wrong with a hello, of token, name, label and role or session named, gives its code. |
| Sessions.TurnedAwayAtTheDoor | internal/bus/handler.go:98-120 | A hello with a bad token, name, label or role, or a control that names no session, changes nothing. |
| Sessions.AgentHelloOutcome | internal/bus/handler.go:123-191 | Any other agent hello is welcomed and registered with its own fields, or refused with its code, exactly by session id, nonce and name. |
| Sessions.ControlHelloOutcome | internal/bus/handler.go:217-265 | Any other control hello is welcomed if it proves its listener, and changes nothing otherwise. |
| Sessions.EveryClientSaidHello | internal/bus/handler.go:98-149 | Over every run: each client object was created by its handler's own hello, which bore the server's token and passed every check, and whose fields it has. |
| Sessions.WhoMayAct | internal/bus/server.go:235-248 | In every reachable state an agent may act, replaced or not, and a control exactly as long as anyone is registered under the session it named. |
| Sessions.ControlKeepsLabel | internal/bus/handler.go:236-247 | However long it lives, a control has the label and directory its listener had at the control's hello: still the listener's while that is not replaced. |
| Sessions.ControlSendsAsListener | internal/bus/ops.go:178-189 | Over every run, a control's record is logged under its listener's session id and label. |
| Sessions.RenameOutcome | internal/bus/ops.go:245-275 | A rename step gives requester and listener the name and changes nothing else, exactly when the listener may bear it; otherwise it changes nothing. |
| Sessions.StepsLeadOn | internal/bus/handler.go:50-327 | Where every other step of a connection leads, and what it counts. |
| BusRuns.StepKeepsInv | internal/bus/handler.go:50-327 | Every step of every handler keeps all invariants and ledgers. |
| BusRuns.RegistryAlwaysConsistent | internal/bus/handler.go:150-186 | In every reachable state keys are session ids, objects are not shared, names are valid and unique. |
| BusRuns.MembershipTotals | internal/bus/handler.go:202-215 | Leaves never exceed joins; when no agent's handler is behind with its counter, joins less leaves = connected + replaced - failed welcomes. |
| BusRuns.MessageTotals | internal/bus/ops.go:166-243 | Between operations the three message counters add up to the frames and refused hellos handled, panicked sends aside, and two of them to the records of the log, by kind. |
| BusRuns.LongSidsNeverPanic | internal/bus/ops.go:149-153 | In a run whose agents all come with session ids of 8 bytes or more no send is lost to a panic, and the message totals close without a correction. |
| BusRuns.EachRecipientOnce | internal/bus/ops.go:189-242 | Every recipient of a logged message is an agent other than the sender's listener and is written to exactly once; nobody else is. |
| Frames.FrameStaysUnderway | internal/bus/ops.go:166-243 | Whatever other handlers do, a frame keeps its text and its targets from its arrival to its last write, and its record says so. |
| Frames.SendReachesItsTarget | internal/bus/ops.go:172-191 | Over every run: an accepted send is logged with its text, its sender and the agent it resolved to, and written once to that agent and to nobody else. |
| Frames.BroadcastReachesEveryOtherAgent | internal/bus/ops.go:200-242 | Over every run: an admitted broadcast is written once to every agent registered when it was read, the sender's listener excepted, and to nobody else. |
| Frames.SendOutcome | internal/bus/ops.go:166-177 | A send over 10 MiB is refused as too long, one without a target with the resolution's code; any other goes on to its target. |
| Frames.RefusedFrameRests | internal/bus/ops.go:166-221 | In every run a refused frame goes nowhere: its handler does nothing but count the refusal. |
| Frames.ChargedAtItsReading | internal/bus/server.go:253-273 | Whoever charges in between, a broadcast is charged to its listener at the instant its handler read off the clock, and admitted exactly if it goes on. |
| Frames.NobodyIsStuck | internal/bus/handler.go:50-327 | In every reachable state every handler that has not ended can take its next step, and every frame can be taken by one that serves. |
| BusRuns.AtMostSixtyBroadcasts | internal/bus/server.go:250-273 | Over every run, the bound per listener across connections, controls and reconnects, with clock skew d. |
| BusRuns.ChargeDecidesByHistory | internal/bus/ops.go:222-228 | With a non-decreasing clock each charge is decided by the listener's last minute of admitted broadcasts. |
| BusRuns.RefusedBroadcastChargesNothing | internal/bus/ops.go:194-221 | Over every run the charges are exactly the broadcast frames not refused before the limiter, bar those on their way to it; too long ones and those of dead listeners are the refused ones. |
| BusRuns.LoggedBroadcastsWereAdmitted | internal/bus/ops.go:222-242 | The logged broadcasts of a listener are its admitted charges. |
| BusRuns.SessionContinuity | internal/bus/handler.go:151-162 | While a session id stays registered as an agent its role and nonce never change. |
| BusRuns.ControlMatchesListener | internal/bus/handler.go:225-247 | A control's nonce is its listener's as long as the session id has stayed registered. |
| BusRuns.StaleControlRevives | internal/bus/server.go:239-248 | Otherwise it revives with any agent that takes the session id, exactly when that hello is accepted. |
| BusRuns.RemovedNeverReturns | internal/bus/handler.go:183-185 | A client object once out of the registry never re-enters it. |
| BusRuns.UnregisterRemovesOnlyOwn | internal/bus/handler.go:312-320 | Unregister removes its own entry and no other. |
| BusRuns.ReplacedHandlerLeavesSilently | internal/bus/handler.go:312-327 | A replaced connection's later unregister changes and announces nothing. |
| BusRuns.FailedEntryStep | internal/bus/handler.go:207-209 | An entry whose welcome failed goes away in a step if and only if the step reclaims its session id. |
| BusRuns.FailedWelcomeWithoutNonceStays | internal/bus/handler.go:155-161 | With an empty nonce it stays for every later run. |
| BusRuns.RetryIsWelcomed | internal/bus/handler.go:98-210 | A hello refused with a candidate passes every check and is registered when sent again under it. |
| Client.Monitor.HandleHelloError | internal/client/client.go:328-339 | Adopts the first candidate of a `name_taken` that has one; stops on anything else. |
| Client.Monitor.Run | internal/client/client.go:159-197 | Gives up exactly at the maxCollisions-th collision (the first, if that is not positive); name, collision count and backoff after any sequence of attempts; nothing tried after a final one. |
| Client.TakenNameConverges | internal/client/client.go:166-176 | The candidate adopted is accepted next; the client gets to send it if and only if maxCollisions is at least 2. |
| Client.BackoffGrowsToCeiling | internal/client/client.go:193-196 | The delay never shrinks, never exceeds four seconds, and is there after four drops. |
| Client.BackoffDelays | internal/client/client.go:193-196 | A quarter, a half, one, two, then four seconds. |
| Monitors.ClientsDir.Acquire | internal/flock/flock.go:23-36 | Succeeds exactly when nobody holds the lock, and touches no file; a step of the interleaved machine. |
| Monitors.AcquiresExactlyIfFree | internal/flock/flock.go:23-36 | In every interleaving a monitor that tries gets the lock if and only if no other is between acquire and close. |
| Monitors.ClientsDir.WriteSessionState | internal/client/state.go:31-68 | Whatever fails, a run of the monitor's own steps; the state file ends as the new record or as it was, and a temporary file stays exactly on a failed rename or a failed removal. |
| Monitors.ReadersSeeWholeRecords | internal/client/state.go:28-31 | In every interleaving, crashes in the middle of a write included, the state file is absent or one whole record, and a step leaves it, removes it or puts the writer's record there. |
| Monitors.TempsAreInHandOrAbandoned | internal/client/state.go:37-67 | The temporary files are exactly those being written and those left by a failed rename, a failed removal or a crash in the middle of a write. |
| Monitors.ClientsDir.DeleteSessionState | internal/client/state.go:89-95 | The deferred delete step of the interleaved machine; a missing file is no error. |
| Monitors.ClientsDir.CloseLock | internal/client/client.go:149 | The deferred close step: the lock is free. |
| Monitors.ClientsDir.UnlinkIfMatches | internal/client/state.go:118-134 | The file is gone exactly if it was missing or a record with that session id and nonce, otherwise as it was; nothing else changes. |
| Monitors.HelperRemovesItsSession | internal/client/state.go:118-134 | The same of a helper's step in every reachable state. |
| Monitors.MonitorsCanMove | internal/client/client.go:141-150 | A monitor can always go on, fail at what it is doing, or crash, until it is gone. |
| Monitors.MutualExclusion | internal/client/client.go:141-150 | At most one monitor is between acquire and close, in every interleaving. |
| Monitors.DeleteRemovesOwnOrCrashed | internal/client/client.go:149-150 | A monitor's delete hits its own record or a crashed predecessor's; a clean exit leaves none of its own. |
| Monitors.LiveRecordStays | internal/client/state.go:111-134 | A live monitor's record survives everything but its own steps and a helper naming its very session. |
| Monitors.HelperSparesOtherSessions | internal/client/state.go:130-132 | A helper acting on one session never removes another's record. |
| Witnesses.ShortSidsPanic | internal/bus/ops.go:149-153 | A run after which one send has panicked. |
| Witnesses.WelcomeFails | internal/bus/handler.go:207-209 | A run that leaves an entry without a nonce whose welcome failed. |
| Witnesses.NameTakenDropsOwnEntry | internal/bus/handler.go:159-181 | A reachable state in which a refused hello removes the caller's own entry. |
| Witnesses.ControlOutlivesListener | internal/bus/server.go:239-248 | A run after which a control with one nonce is alive over an agent with another. |

## Left out

- WebSocket and HTTP transport, timeouts and JSON decoding: a frame arrives decoded, a write succeeds or fails. Error frames and pings change no state and have no step.
- `peer_joined`, `peer_left` and `renamed` events: they are sent outside the lock and change no state.
- Random identifiers: a new control's session id is assumed not to be registered, because the server inserts it unchecked; monitors are assumed to draw distinct (session id, nonce) pairs.
- Concurrent log writes: `logMessage` runs under no lock, while its package assumes one writer; here a record is logged in one step, its file operations succeeding, and `LogFile` proves what a sequence of such steps leaves.
- LogFile.LogRunHoldsChunks: needs at least one backup; with none, `Rotate` never shrinks the live file, as `LogFile.Rotated` says.
- Tail.TailOfLogIsTailOfHistory: takes the JSON encoding as a round trip whose lines contain no newline and do not end in a carriage return.
- Lower-casing, NFC normalisation, `validate.Label`, `filepath.Base` of the working directory and the sanitising of `cwd`: inputs arrive with these applied, or with their verdict.
- Paths.PathEscapeInjective: takes the escape table as a parameter; what it needs is that the percent sign is escaped and that codes are two characters and distinct.
- Monitors.ClientsDir.UnlinkIfMatches: the read, the comparison and the removal are one step, although they are several system calls.
- Client.Monitor.Run: what happened inside an attempt is its result; jitter, printing and the parent watch are left out, the latter appearing only as a cancelled run.
- `SanitizeForStdout`, `TruncateForStdout` and `FormatMsg`: text filters on one string, with no protocol behind them.
- Token minting, constant-time comparison (taken as equality), `cmd`, `internal/service` and the inspect HTTP API.
