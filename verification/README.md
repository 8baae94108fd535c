# soul-mesh: a verified model

soul-mesh joins a few machines into a cluster: one node is the hub, every other node runs an agent
that sends heartbeats to it, and the hub sends shell commands back over the same WebSocket. This
project models the state machines under that I/O and proves what they keep over every run. It follows
the code; where a docstring says something else, the difference is listed below.

`dafny verify dfyconfig.toml` checks everything.

## Layout

| file | content |
|---|---|
| `Options` | a value that may be missing |
| `TextOrder`, `Timestamps` | SQLite's text order, the proleptic Gregorian calendar, the `%Y-%m-%dT%H:%M:%SZ` format (RFC 3339 sections 5.1 and 5.6): text order is time order |
| `Capability`, `Election` | the three scoring formulas; the pure election, order independence, hysteresis and the bound on transfers |
| `Tables`, `Database` | the two node tables, one function a SQL statement; the same statements as methods of a mutable `MeshDB` |
| `Registry` | registrations, heartbeats, sweeps and elections as a machine over single statements, all interleaved |
| `Succession` | whole histories of elections over the registry: how often the hub can change, how good it is |
| `Detector` | the failure detector on a microsecond clock that the tables keep only to the second |
| `HubControl`, `HubRoles` | `Hub`, the sweep loop, `HubElection.elect` and `send_to_hub` as code against those tables |
| `CommandRelay` | the relay's connection table and pending futures as mutable classes, and the life of one future |
| `RelayProtocol`, `RelaySafety`, `RelayLatency`, `RelayProgress`, `RelayConnections` | hub, agents and callers as a step relation over two FIFO channels a session; invariants over every interleaving; the exact wait of a command; a schedule that completes it; who is connected, and the round trip of a command |
| `AgentLoop`, `Server`, `SessionMeaning` | the agent's loop and the hub's session loop as code, tied to the protocol; heartbeat rows across all sessions; what a session comes to, read off its messages alone |
| `Linking`, `RateLimit`, `LinkCodes`, `LinkRuns` | link codes, the attempt table and the sliding window; garbage collection; whole calls one after the other |
| `Alerts` | the dashboard's alerts over a run of polls |

A class is proved against functions on immutable tables (`Tables`, `RelayTables`, `Linking.Redeem`,
`SessionLoop.Handle`); the theorems are about those functions, and say what each comes to without
naming it. Automatic induction is switched off on
every lemma, so each proof says what it recurses on.

## Assumptions

- The clock does not go back between the statements a theorem compares, and it reads a year from 1000
  to 9999. Theorems that need this say so (`InOrder`, `Ticks`, `Writable`, `InRange`).
- Command ids, session numbers and link codes are fresh when drawn. The ids of the nodes in one
  election are distinct, as the table's primary key makes them; the bound on transfers also takes them
  to be non-empty. Distinctness is stated as `Identified`: an id names one node.
- In the relay protocol agents are honest: an agent answers only a command it has read, under that
  command's id. `SessionLoop` and `HeartbeatIntegrity` take arbitrary messages instead.
- One session carries one node id, the one in its token.
- The body of the role transaction is one step. In the sliding window a redemption's counts and insert
  are one step too, but its clock may tick between them. Everywhere else single SQL statements
  interleave.
- One sweep loop runs per hub.
- Sizes are not negative. Scores are exact: `round(x, 2)` is any value within half a hundredth of `x`
  (`Rounds`); `Hundredths` is the instance with ties to even.

## Where code and documentation differ

- `soul_mesh/election.py:3-5` says a challenger must lead by at least 20%; the code requires strictly
  more than 20% (line 71). The model does what the code does.
- `soul_mesh/server.py:170-172`: a session whose first snapshot names another node is closed and
  returns without unregistering, since only a disconnect does that (lines 179-180). The relay keeps the
  entry, and so does `SessionLoop.WebsocketHeartbeat`.
- `soul_mesh/linking.py:72-82` looks a code up and deletes it in two statements. "Each code redeems
  once" therefore holds for redemptions that do not overlap (`LinkRuns.OnceOnly`); a second one succeeds
  exactly if its lookup comes before any delete of the code and before the code expires
  (`LinkCodes.TwoSuccessesOverlap`; `LinkCodes.OverlappingRedemptions` is such a run).
- An election without a named hub depends on the order of its list exactly when two nodes are flagged as
  hub and one of the flagged could keep the role: it has a non-empty id, is not the top-ranked node, and
  is not beaten by the margin (`Election.OrderIndependentExactly`; `Election.TwoHubsDisagree` is such a
  list). The registry never has two hubs (`Registry.HubUniqueness`).
- "Came online minus went stale" balances exactly while statuses are online or stale, which is what the
  hub assigns to a registered node. With other statuses it is off by the changes `Unannounced` counts.
- Heartbeat replies, result replies and commands share one channel and the agent reads one message an
  iteration, so every completed command delays all later ones of its session by two iterations
  (`RelayLatency.WaitAfterCompleted`).

## Model

| member | source | states |
|---|---|---|
| TextOrder.FieldOrder | soul_mesh/hub.py:147-150 | fields of one width compare as a text exactly as the first field that differs does |
| Timestamps.CivilOrderIsTimeOrder | soul_mesh/hub.py:143-145 | civil times compare field by field exactly as the instants they name, across months, leap years and centuries |
| Timestamps.DaysBeforeYearClosed | soul_mesh/hub.py:143-145 | days before a year, summed year by year, agree with the leap-year formula over 4, 100 and 400 |
| Timestamps.MonthsClosed | soul_mesh/hub.py:143-145 | days before a month, summed month by month, agree with the calendar's closed form, leap years included |
| Timestamps.UnixEpoch | soul_mesh/hub.py:44 | the scale of instants: the Unix epoch, and a day and a second from it |
| Timestamps.ToCivil | soul_mesh/hub.py:44 | every instant in range has a civil time, and that civil time names exactly this instant |
| Timestamps.FormatOrder | soul_mesh/hub.py:143-150 | formatted civil times compare as texts exactly as the civil times do; equal texts mean equal times |
| Timestamps.FormatShape | soul_mesh/hub.py:44 | the format character by character: decimal fields of fixed width between the separators of RFC 3339 |
| Timestamps.ParseFormat | soul_mesh/hub.py:44 | parsing undoes formatting |
| Timestamps.FormatParse | soul_mesh/hub.py:44 | whatever parses is the format of what it parses to |
| Timestamps.StampOrder | soul_mesh/hub.py:147-150 | for all instants in years 1000 to 9999 the stored text orders, and is equal, exactly as the instants are |
| Timestamps.StampRoundTrip | soul_mesh/hub.py:44 | an instant can be read back from its stored text |
| Timestamps.ParsedIsStamp | soul_mesh/linking.py:23-31 | whatever parses is the stamp of the instant it denotes, and that instant is in range |
| Capability.ScoreRange | soul_mesh/node.py:91-101 | all three scores lie in 0..60, and the rounded one in 0..6000 hundredths |
| Capability.ScoreMonotone | soul_mesh/discovery.py:203-205 | more memory or disk lowers none of the three scores, nor the rounded one |
| Capability.CapsAndWeights | soul_mesh/node.py:98-101 | 8 GiB alone are worth 40 points and 500 GiB alone 20, however much more there is; a score is 60 if and only if both caps are reached |
| Capability.LinearBelowCaps | soul_mesh/node.py:98-101 | below the caps all three scores are 5 points a GiB of memory and 1/25 a GiB of disk |
| Capability.HalvesAndTies | soul_mesh/node.py:100 | battery power halves a node's score at any size; rounding goes to the nearest hundredth, ties to the even one |
| Capability.FormulasAgree | soul_mesh/election.py:156-162 | the formulas are equal when the disk sizes are, and differ by less than 0.05 after rounding when the size in GiB is off by less than one, whichever way ties round |
| Election.ElectHub | soul_mesh/election.py:48-75 | the loops and the sort compute `Winner`, or report the empty list |
| Election.Run | soul_mesh/election.py:93-131 | the local flag ends true exactly when the local node wins or nobody is listed; the winner is returned |
| Election.SortedHeadIsTop | soul_mesh/election.py:63-67 | the head of the sorted list is a listed node that no listed node ranks before |
| Election.ElectionMeans | soul_mesh/election.py:51-75 | one listed node ranks first, by score, then name, then id, and it wins unless another is the incumbent, named or first flagged, and is not beaten by the margin; then that one wins |
| Election.WinnerIsListed | soul_mesh/election.py:51-75 | the winner is one of the nodes, whichever branch decided |
| Election.OrderIndependence | soul_mesh/election.py:51-75 | two listings of the same nodes elect the same node: always if the hub is named, else if at most one node is flagged or no flagged node could keep the role |
| Election.OrderIndependentExactly | soul_mesh/election.py:51-75 | all permutations of a list, and all lists of the same nodes, elect one node if and only if at most one is flagged as hub or no flagged node could keep the role |
| Election.TwoHubsDisagree | soul_mesh/election.py:53-57 | a list with two nodes flagged as hub and a permutation of it that elect different nodes |
| Election.Agreement | soul_mesh/election.py:117-120 | if every listed node runs the election on its own listing of the same nodes, exactly one ends with `is_hub`, whenever order does not matter |
| Election.RoleMoves | soul_mesh/election.py:69-75 | the role leaves an incumbent if and only if some node exceeds it by more than the margin, and then goes to a top-ranked node |
| Election.NobodyFarAhead | soul_mesh/election.py:64-75 | no listed node exceeds the winner by more than the margin, whichever branch decided |
| Election.RoundingBound | soul_mesh/election.py:155-166 | every node's unrounded score is at most 1.2 times the winner's plus 0.011 |
| Election.Reelection | soul_mesh/election.py:69-75 | electing again after the role alone has changed keeps the winner |
| Election.BoundedTransfers | soul_mesh/election.py:69-75 | while each incumbent stays listed and does not shrink, the role changes hands at most 41 times in any number of elections |
| Election.BoundReached | soul_mesh/election.py:69-75 | some history does reach 41 transfers |
| Tables.TotalsAfterWrite | soul_mesh/hub.py:172-180 | writing one row moves the query's totals by that row's new minus old share |
| Tables.TotalsAfterMark | soul_mesh/hub.py:153-161 | marking online nodes stale takes exactly their shares out of the totals |
| Tables.TotalsOfListing | soul_mesh/hub.py:172-180 | for any listing of the online rows the totals are their number and the sums of their cores, memory and storage |
| Tables.RegisterWrites | soul_mesh/hub.py:49-80 | which payload value a registration puts in which column of both tables, what it keeps of a known node, and that no other row changes |
| Tables.HeartbeatWrites | soul_mesh/hub.py:105-126 | a heartbeat moves only the time and status of its node, if known, and leaves a row of its payload's values either way |
| Tables.MountsAddUp | soul_mesh/hub.py:49-50 | total and free storage are sums over the mounts |
| Tables.CutoffSecond | soul_mesh/hub.py:143-145 | truncating the instant `timeout` seconds ago to its second is subtracting `timeout` from the second of now |
| Registry.InvStep | soul_mesh/election.py:168-176 | every statement keeps: ballots name known nodes, only the last committed winner has role hub, and what a sweep selected is still online |
| Registry.HubUniqueness | soul_mesh/transport.py:177-182 | in every reachable state at most one row is the hub, and the lookup can find only the last committed winner, exactly while it is online |
| Registry.ElectionSeatsOne | soul_mesh/election.py:145-176 | a non-empty election leaves exactly one hub, the elected one, and it is online |
| Registry.InterleavedElection | soul_mesh/election.py:145-176 | with anything between query and transaction, the node chosen is afterwards the one hub, and the lookup finds it exactly if no sweep in the gap has marked it for good |
| Registry.SeatIsKept | soul_mesh/transport.py:177-179 | until another commit the lookup finds the winner or nobody, whatever else runs |
| Registry.SeatIsFound | soul_mesh/transport.py:177-182 | until a sweep marks the winner or another election commits, the lookup finds exactly the winner, whatever else runs, sweeps of other nodes included |
| Registry.ReelectionIsIdle | soul_mesh/election.py:145-176 | a second election, rows in any order, elects the same node and leaves the tables as they are |
| Registry.BallotsSucceed | soul_mesh/election.py:145-166 | consecutive elections over the table are the rounds the transfer bound is about |
| Registry.ElectionByRows | soul_mesh/election.py:145-166 | in terms of the rows alone: the online row first by rounded score, name and id is elected, unless the last elected node is online and not exceeded by more than a fifth |
| Registry.RegistrationIsRun | soul_mesh/hub.py:31-80 | in any state a whole registration is a run of the machine with the request's effect |
| Registry.HeartbeatIsRun | soul_mesh/hub.py:90-126 | so is a whole heartbeat |
| Registry.SweepIsRun | soul_mesh/hub.py:130-161 | so is a whole sweep when none is under way |
| Registry.ElectionIsRun | soul_mesh/election.py:145-176 | so is a whole election over any listing of the online rows |
| Succession.HubChangesBounded | soul_mesh/election.py:145-176 | over any number of elections with any statements but commits between them, the last committed winner changes at most 41 times while each incumbent is online at the next election and has not shrunk |
| Succession.ElectedIsGoodEnough | soul_mesh/election.py:155-166 | no online row's unrounded score exceeds 1.2 times the elected row's by more than 0.011 |
| Registry.RunningTotalIsQuery | soul_mesh/hub.py:113-193 | a total kept by new minus old, revived rows and swept ids equals the query over online rows in every reachable state |
| Registry.SweepInTwoStatements | soul_mesh/hub.py:147-157 | with anything between SELECT and UPDATE, exactly the nodes online and overdue at the SELECT turn stale, and one is stale yet fresh only if its own message fell in the gap |
| Registry.NextHeartbeatRevives | soul_mesh/hub.py:113-116 | the next heartbeat of a known node makes it online again, and adds its stored row to the totals if it was not |
| Detector.TableIsFaithful | soul_mesh/hub.py:105-116 | after every run a row's last heartbeat is the second of its node's last accepted message |
| Detector.SweepIsExact | soul_mesh/hub.py:143-161 | a sweep turns an online node stale exactly when more than the timeout lies between the two whole seconds; so only if strictly more has really passed, and always once a second more has |
| Detector.SilentNodeGoesStale | soul_mesh/server.py:30-35 | with a sweep in every stretch of one gap, a node that falls silent is stale within the timeout, a gap and a second, two intervals and a second when the gap is the interval, whatever else happens |
| Database.Listing | soul_mesh/hub.py:147-151 | a query returns each row that matches once, in no particular order |
| Database.MeshDB.UpsertNode | soul_mesh/db.py:111-151 | a new row takes the column defaults, an old one keeps account, role and status; no other row changes |
| Database.MeshDB.AssignHub | soul_mesh/election.py:168-176 | the tables after demoting every other hub and promoting the winner, heartbeats untouched; `Registry.ElectionSeatsOne` says what that leaves |
| Database.MeshDB.FetchHub | soul_mesh/transport.py:177-179 | some online hub if there is one |
| HubControl.Hub.RegisterNode | soul_mesh/hub.py:31-80 | both tables after the three statements |
| HubControl.Hub.ProcessHeartbeat | soul_mesh/hub.py:90-126 | both tables after the two statements; an unknown node still gets its heartbeat row |
| HubControl.Hub.MarkStaleNodes | soul_mesh/hub.py:130-161 | names an id if and only if its row was online and its last second is more than the timeout before the second of now; turns exactly those stale and changes nothing else |
| HubControl.Hub.ClusterTotals | soul_mesh/hub.py:163-193 | the sums over the online rows, zero for none |
| HubControl.StaleSweepLoop | soul_mesh/server.py:30-39 | the tables after any number of turns, with any messages handled during the sleeps and any sweeps failing, are those of the failure detector's run of the same events |
| HubControl.TurnsInPlace | soul_mesh/server.py:32-35 | that run holds each turn's messages and, unless it fails, its sweep, turn after turn |
| HubControl.LoopFindsSilentNode | soul_mesh/server.py:30-35 | so a loop whose wake-ups are at most a gap apart has a silent node stale in the hub's tables within the timeout, a gap and a second |
| HubRoles.Elect | soul_mesh/election.py:133-190 | without database or online rows the local node takes itself for the hub and writes nothing; else the winner of the online rows, and it alone, has role hub, and no other column changes |
| HubRoles.MeshTransport.Send | soul_mesh/transport.py:158-174 | sends exactly when the peer is connected and the message is not too large, else says which and sends nothing |
| HubRoles.MeshTransport.SendToHub | soul_mesh/transport.py:176-182 | over any table the message goes to one online hub or nowhere; in a reachable one that is the last elected node, and it fails for want of a hub exactly while that node is not online |
| CommandRelays.CommandRelay.Register | soul_mesh/executor.py:48-51 | the node's entry becomes this session, whatever it was |
| CommandRelays.CommandRelay.Unregister | soul_mesh/executor.py:53-56 | the node's entry goes, whichever session it held |
| CommandRelays.CommandRelay.Get | soul_mesh/executor.py:58-60 | the node's session if it has one |
| CommandRelays.CommandRelay.BeginCommand | soul_mesh/executor.py:84-91 | an unknown node changes nothing; else a new unresolved future is stored before anything is sent |
| CommandRelays.CommandRelay.EndCommand | soul_mesh/executor.py:107-108 | the entry goes on every way out, no other entry changes |
| CommandRelays.CommandRelay.DeliverResult | soul_mesh/executor.py:110-122 | the first result resolves the future; later or unknown ones change nothing; no future is resolved twice |
| CommandRelays.CommandRelay.SendCommand | soul_mesh/executor.py:66-108 | the whole call, whatever else happens to the tables meanwhile: the command goes to the node's session; unknown node, failed send, timeout, or the first result delivered for its id; afterwards the tables are what the others alone make of them |
| RelayTables.LastConnectionCounts | soul_mesh/executor.py:48-56 | over any sequence of operations a node is connected if and only if the last connect or disconnect about it is a connect, at that connect's session |
| RelayTables.FirstDeliveryWins | soul_mesh/executor.py:117-122 | over any sequence of deliveries, connections and other calls, a future ends up holding the first result for its id, or nothing |
| RelayTables.NoTrace | soul_mesh/executor.py:91-108 | once a call has ended its entry and the results that came in for it have left no trace: the tables are what everything else alone makes of them |
| RelayProtocol.Conservation | soul_mesh/agent.py:185-199 | the loop invariant of a session makes messages in flight both ways equal commands sent plus results sent, and one while the agent is in `recv` |
| RelayProtocol.NoDeadlock | soul_mesh/server.py:151-178 | under that invariant an agent in `recv` has a message, or the hub one to take or answer |
| RelaySafety.InvStep | soul_mesh/executor.py:84-122 | every step of hub, agent and caller keeps the whole invariant |
| RelaySafety.SessionsConserve | soul_mesh/agent.py:185-199 | in every reachable state every session conserves its messages and never deadlocks |
| RelaySafety.OnePlace | soul_mesh/executor.py:88-108 | in every reachable state each issued command is in exactly one place: unsent, one position of one channel, one agent's hand, or one result taken by the hub |
| RelaySafety.AtMostOnce | soul_mesh/agent.py:192-196 | no run executes a command twice |
| RelaySafety.ResultsAreGenuine | soul_mesh/executor.py:105-106 | what `send_command(node, command)` returned is the output of an execution of that command on a session of that node |
| RelaySafety.PendingIsExact | soul_mesh/executor.py:88-122 | the pending keys are the calls in flight, and a future is resolved exactly when the hub has taken the command's result, which it then holds |
| RelayLatency.ExactWait | soul_mesh/agent.py:185-199 | in every later state the command has been read if and only if the agent has since read more messages than the session's backlog when it was posted |
| RelayLatency.WaitAfterCompleted | soul_mesh/agent.py:185-199 | with the hub caught up after n completed commands the next is read on exactly the (2n+1)-th iteration |
| RelayLatency.RecvCompletes | soul_mesh/server.py:151-178 | an agent in `recv` on an open session gets a message after at most two hub steps |
| RelayProgress.CommandIsRead | soul_mesh/agent.py:185-199 | from every reachable state the agent's own steps, three a message at most, bring an unread command into its hand on exactly the read of its position |
| RelayProgress.CommandCompletes | soul_mesh/server.py:151-178 | from every reachable state a command posted on an open session is brought to its end by a stated number of that session's own steps, and a caller still waiting gets its result |
| RelayConnections.ConnectedExactly | soul_mesh/executor.py:48-60 | the same in every run of the protocol, from its events alone |
| RelayConnections.ConnectedIsOpen | soul_mesh/server.py:149-180 | every run keeps it that the table never points to a session that has ended |
| RelayConnections.ConnectThenIssue | soul_mesh/executor.py:84-91 | once a node has connected, a command with a fresh id is issued for that session |
| RelayConnections.CommandRoundTrip | soul_mesh/executor.py:84-108 | in every reachable state, for a node whose last connect or disconnect is a connect, any command with a fresh id can be sent, run on that connect's session, and return exactly what it prints |
| RelayConnections.StaysGone | soul_mesh/executor.py:107-108 | once a caller has given up, nothing is ever kept or returned for its command again |
| AgentLoop.HeartbeatLoop | soul_mesh/agent.py:185-199 | the loop sends a heartbeat before each read and, after a command, its result: the transcript of what it read |
| AgentLoop.ProtocolRunsTheLoop | soul_mesh/agent.py:185-199 | in every run of the protocol every agent has sent exactly what the loop sends on the messages it read |
| SessionLoop.HandleMessage | soul_mesh/server.py:153-178 | one turn of the loop, every branch: its reply, the tables, the relay and the first-message flag |
| SessionLoop.WebsocketHeartbeat | soul_mesh/server.py:145-181 | a whole session: replies, tables and relay after any inbox; only a disconnect unregisters |
| SessionLoop.OneReplyEach | soul_mesh/server.py:153-178 | a session that is not rejected answers every message once, in order |
| SessionMeaning.WhoIsLetIn | soul_mesh/server.py:169-174 | a session is rejected exactly at a first snapshot that names another node |
| SessionMeaning.Answers | soul_mesh/server.py:153-178 | every message up to a rejection is answered once, in order, and nothing else is |
| SessionMeaning.ResultsReachCallers | soul_mesh/server.py:159-167 | over every inbox each future pending at the start ends up with the output of the first result under its non-empty id up to a rejection, a resolved one keeps its output, and no entry comes or goes |
| SessionMeaning.SnapshotsAreStored | soul_mesh/server.py:169-176 | over every inbox the node's row has the first snapshot's hardware and the last one's time and is online, each snapshot leaves its own heartbeat row, and nobody else's row changes |
| HeartbeatIntegrity.HeartbeatsAreAccounted | soul_mesh/server.py:146-178 | with all sessions' statements interleaved, every heartbeat row names an existing node; a node's rows and its sessions in the middle of a message are together the messages accepted for its id, so with none in the middle rows and messages are as many |
| HeartbeatIntegrity.FirstMessageRegisters | soul_mesh/server.py:169-174 | a session's first message runs to a registration if nothing comes between its statements |
| HeartbeatIntegrity.LaterMessageBeats | soul_mesh/server.py:175-176 | any later one runs to a heartbeat |
| Linking.LinkTables.GenerateLinkCode | soul_mesh/linking.py:20-32 | the new code expires ten minutes on; exactly the codes whose second of expiry is past are gone, the rest unchanged |
| Linking.LinkTables.RedeemLinkCode | soul_mesh/linking.py:35-103 | on every path, a failing database included: an account is given only with the code's row deleted, the setting and the node's row updated, and nothing else changed; without one only the attempt table may grow |
| Linking.LinkTables.GetOrCreateAccountId | soul_mesh/linking.py:106-117 | returns the stored account id; only if there is none is the drawn one stored and returned |
| RateLimit.QueryCounts | soul_mesh/linking.py:44-49 | the query's text comparison counts exactly the attempts in the seconds after the cutoff |
| RateLimit.RoomIsAdmission | soul_mesh/linking.py:51-62 | the two limits on the table are the limits on the log of instants |
| RateLimit.TableOfRun | soul_mesh/linking.py:43-67 | after every run of redemptions the attempt table is the log the bounds below are about |
| RateLimit.EveryWindowBounded | soul_mesh/linking.py:43-67 | every half-open 900-second window of the log, wherever it lies, holds at most 5 attempts per address and 50 in all, even if the clock ticks between count and insert |
| RateLimit.FiveAndFifty | soul_mesh/linking.py:16-17 | the same in numbers: 900 seconds, 5 and 50 |
| RateLimit.WithinIsCount | soul_mesh/linking.py:44-49 | what is bounded is the number of attempts in the window |
| RateLimit.LongIntervalBounded | soul_mesh/linking.py:43-67 | an interval that k windows cover holds at most 5k per address and 50k in all |
| RateLimit.RefusedOnlyWhenFull | soul_mesh/linking.py:51-62 | a request is refused if and only if the window up to its own count is full, for its address or for all |
| LinkCodes.CollectionUnobservable | soul_mesh/linking.py:28-31 | at every point of every run a store that deletes expired codes and one that never does answer the next lookup alike |
| LinkCodes.RedeemsExactlyWhen | soul_mesh/linking.py:72-82 | a lookup succeeds if and only if the code was made, no redemption has deleted it, and the second is before its creation second plus 600 |
| LinkCodes.SucceedsExactlyWhen | soul_mesh/linking.py:72-82 | in terms of the run alone: a lookup succeeds if and only if the code was made less than 600 seconds before and no redemption has deleted it yet |
| LinkCodes.TwoSuccessesOverlap | soul_mesh/linking.py:72-82 | after a successful lookup a later one of the same code succeeds if and only if the code has not expired and no redemption deleted it in between |
| LinkCodes.OverlappingRedemptions | soul_mesh/linking.py:72-82 | two overlapping redemptions of one code do both succeed |
| LinkRuns.AnsweredExactlyWhen | soul_mesh/linking.py:20-103 | over any run of whole generations and redemptions with fresh codes, a redemption is given an account if and only if the limiter lets it through, some call made the code less than 600 seconds before, and no earlier redemption was given one for it; the account is that call's |
| LinkRuns.OnceOnly | soul_mesh/linking.py:72-82 | a code is good for one redemption |
| Alerts.IndexById | soul_mesh/dashboard.py:49-50 | ids in order of first occurrence, each with its last entry |
| Alerts.IdsInOrder | soul_mesh/dashboard.py:50-52 | ids are listed in the order of their first occurrence |
| Alerts.GenerateAlerts | soul_mesh/dashboard.py:43-94 | the alerts of all listed nodes, in the order of their ids' first occurrence |
| Alerts.AlertsExactly | soul_mesh/dashboard.py:52-94 | an alert is raised if and only if its node is listed and the node's entry has changed as the kind says, and it bears the node's name |
| Alerts.EntryIsLast | soul_mesh/dashboard.py:49-50 | a node's entry is the last one listed under its id |
| Alerts.AboutPoll | soul_mesh/dashboard.py:52-94 | a poll says about a node exactly what its own change calls for, once, however often and in whatever order nodes are listed |
| Alerts.AlertsTelescope | soul_mesh/dashboard.py:68-82 | over any run of polls listing a node, came-online minus went-stale is the change of its online flag plus the changes that raise no alert |
| Alerts.AlertsBalance | soul_mesh/dashboard.py:68-82 | with statuses online and stale only, the balance is exact |
| Alerts.RamAlertsAreCrossings | soul_mesh/dashboard.py:84-92 | a high-RAM alert is raised exactly on an upward crossing of 85, so between two of them some poll read at most 85 |

## Left out

- SessionLoop.WebsocketHeartbeat: runs one session's messages without other sessions in between; sessions ended by an exception other than a disconnect are not modelled. Interleaved sessions are in `HeartbeatIntegrity` and `RelaySafety`.
- HubControl.StaleSweepLoop: wake-up instants and the messages handled meanwhile are parameters; messages are whole requests here (`Registry` interleaves their statements), and a sweep that fails writes nothing.
- CommandRelays.CommandRelay.SendCommand: what other coroutines do until the call resumes is a parameter, as is whether the send fails; the length of the timeout is not modelled. `RelayProtocol` has the same call as interleaved steps.
- Linking.LinkTables.RedeemLinkCode: a database that fails after the transaction is not modelled, nor the `success` column, which the source never sets to 1.
- AgentLoop.HeartbeatLoop: one connection; reconnecting, back-off and the pause between iterations are not modelled.
- Overlapping sessions of one node: a disconnect drops the node's entry whichever session it holds, as in the source, and no liveness is claimed then.
- The columns `joined_at` and `recorded_at`, and the listings `heartbeat_history` and `list_nodes`.
- Time and severity of an alert, and its wording; an alert here keeps the node, its name and the kind.
- WebSocket, HTTP, FastAPI and subprocess I/O; running a command is an arbitrary function from command to output.
- Tokens and nonces (`auth.py`).
- SQLite's locking, busy errors and SQL text; each statement is given by its meaning.
- Binary floating point; scores and sizes are exact reals.
- `config.py`, `cli.py` and the parsers of `resources.py`, which copy fields and split text.
- Reconnect loops of `agent.py` and `transport.py`, peer probing and the peer registry of `discovery.py`.
- The Textual screens and the layers only planned under `docs/plans`.
