# A verified model of openvtc

openvtc is a client for verifiable trust communities. It keeps one mediator socket per identity,
claims the right to collect a persona's messages from a VTA, shows who may do what on a community's
git repositories, lets members vote, points checkouts at a forge account, and is released from a
release train. This project models the parts of it whose state, timing or text is easiest to get
wrong, and proves what they promise.

`dafny verify dfyconfig.toml` checks everything.

| file | what it models |
|---|---|
| `ListenerProtocol.dfy` | any number of callers adding, removing and closing a listener at once: the connect lock, the map of installed wires, the open sockets, the claim on record and its release timer |
| `Supervisor.dfy` | when a listener that is down is rebuilt, and what one supervisor pass, and a run of them, leaves of every listener |
| `OneCaller.dfy` | a single caller's steps, tied to the whole calls of `Supervisor.dfy` |
| `Claims.dfy` | the record of collection claims, its generations and renewal tasks |
| `RenewLoop.dfy` | the renewal of one claim against the clock |
| `Pickup.dfy` | the bounded drain of a mailbox that acknowledges only after handing off |
| `DropDebounce.dfy` | connection transitions turned into log lines |
| `ShellWords.dfy` | quoting for POSIX shells and fish, and a lexer for each |
| `GitRights.dfy` | rights over repositories and namespaces, read per member and per repository |
| `Ballots.dfy` | the check of a ballot, and the draft a member fills in |
| `ForgeCredential.dfy` | the settings a checkout's git config gets, and their removal |
| `ReleaseTrain.dfy` | cutting a branch, preparing rc, GA and patch releases, and the guard |
| `DeviceAccess.dfy` | granting and revoking a device's access to one context |
| `Sorting.dfy`, `Common.dfy` | a stable sort, and options, instants, minimum and maximum |

Objects the source changes in place are classes (`Claims.Collection`, `Supervisor.Runtime`,
`Pickup.Mediator`, `Pickup.Channel`, `DropDebounce.Debounce`, `ForgeCredential.Checkout`,
`ReleaseTrain.Checkout`, `DeviceAccess.Vta`); each method is tied to a function of the old state, and
the properties are lemmas about those functions over every input or every run. `ListenerProtocol` is
a state machine: a step is one lock held or one answer awaited, so a run is an interleaving.

## Where the code does less than its documentation says

Each is proved, with the exact condition under which the documented promise holds.

- A removal takes the wire off the map before it closes the socket, so a connect that gets in between
  opens a second socket for one DID: exactly when some remover is in that window, or an earlier socket
  was orphaned (`ListenerProtocol.SecondSocketIff`, `TwoSockets`).
- Closing first and releasing after is not safe in the hands of a renewal. The task that renews a claim also closes its
  listener, and a new grant or a release of the claim stops that task where it waits. A socket is lost,
  open for good with nobody to close it, exactly when such a step finds the renewal of the claim held
  waiting for its socket to close, or a closing that was told to stop goes on to take the wire
  (`LostIff`, `LostForGood`, `OrphanedSocket`). A closing that was to come back then leaves the listener
  waiting exactly unless it is dropped (`ComesBackIff`), and may leave it nowhere (`ComeBackLost`). A run
  that never stops a renewal in the middle of a closing loses none (`RunCounted`).
- A claim can be released while the listener it was granted for is connecting or installed: by a
  release timer, or by a closing past its last wait. The claim so lost was in the hand of the lock's
  holder when the releasing caller looked at the runtime, or was granted since (`UncoveredIff`,
  `LiveSince`, `ReleaseSafe`, `OpenWithoutItsClaim`).
- "A deliberate removal is not ours to resurrect", and one "that lands meanwhile clears" the record of
  a rebuild: of one removal that lands in a pass, a listener due a rebuild stays removed exactly when the
  removal came on the pass's way to it and it was installed when the pass began, or came after its old
  wire was closed and the new one does not come up: the connect fails, or the removal came after the
  claim was refused (`Supervisor.RemovalStandsIff`). Otherwise it is rebuilt all the same, a stranded
  one removed on the way as well as an installed one removed during its rebuild (`RemovedButRebuilt`).
  A removal that lands in another listener's turn stands after the listener's own turn, and before it
  counts as on the way (`PassRemovalIff`).
- A closing that is to come back reads the spec off the installed wire, so it loses a listener exactly
  when none is installed: one that is stranded or waiting ends nowhere (`OneCaller.CloseLosesIff`).
- A retry of a refused claim can lose the listener: the grant ends the wait, and a connect that then
  fails keeps nothing (`Supervisor.AddLosesIff`). A supervisor pass, left to itself, never does
  (`PassOutcome`).
- The drain of a mailbox, which is to be bounded, is bounded in what it hands off and not in its
  rounds. It goes on for ever exactly when pages of nothing but undeliverable frames never stop coming,
  because their acknowledgement is not honoured or because such frames keep arriving
  (`Pickup.GoesOnIff`). Either is enough: one full page that is never acknowledged (`StuckForever`), or a
  page of them arriving each round, every acknowledgement honoured (`FedForever`). Otherwise it ends
  within a stated number of rounds (`RoundsBounded`, `HonouredCallEnds`).
- What one drain leaves "is collected on the next connect" exactly when fewer than a page of unreadable
  frames precede it: these are never acknowledged, and a page of them at the head of the mailbox hides
  everything behind it from every later drain (`Pickup.CollectedInTheEndIff`).
- "A setting the member wrote themselves is left alone": a setting under a key that a choice also
  wrote goes when that choice is undone (`ForgeCredential.OwnSettingSurvivesIff`, `OwnUserNameLost`).
  A read-back that git does not answer, of the account's marker or of the author's, counts as no marker,
  and leaves the old settings beside the new, unless there was nothing of its kind to undo or one key
  replaces another (`UnansweredReadBack`, `AuthorLeftBehind`).
- A choice that git stops half-way is undone by the next one as long as git was still undoing. While it
  was adding, the marker that says what was added is written last, so the next choice gives the right
  config exactly when none or all was added, or one key replaces another and the author was not begun
  or was finished (`StoppedUndoing`, `StoppedAddingIff`).
- A ballot with no score given at all is refused as having no kind of answer, not as missing a score
  (`Ballots.UnscoredRefusal`).
- A revocation that narrows an entry leaves the contexts above the community's, so the device may go
  on acting in it (`DeviceAccess.StillActsIff`).
- "A grant widened or narrowed since is revoked as it now stands" holds up to the reading of the entry.
  Of two revocations of one device that both read before either wrote, the later puts back what the
  earlier took away exactly when the earlier narrowed the entry and the entry names a context of the
  earlier's community that is not of the later's (`DeviceAccess.TwoAtOnceIff`).

## Assumptions

- A failed connect leaves no socket open; `connect_listener` shuts a half-open session down itself.
- `stop_websocket` closes a socket only when it is run to its end, and always waits before that; an abort
  drops a task at the next point where it waits. Both are libraries' and not part of this model.
- Sleeps end no earlier than asked. How late they end, and how long an answer takes, are parameters;
  timing results say which bound on them they need.
- The context rules of the access list (`is_ancestor_or_self`, `acts_within`) come from a library that
  is not part of this model: a context covers itself and every context below it, segment by segment.
- git's `--add`, `--unset-all` and `--get` are taken to append a value, remove a key's values, and
  give the last value.
- `ForgeCredential` speaks of one host at a time. A key path that ends in white space is read back
  without it; the marker's kind, which is all that the next choice goes by, survives.
- The lexers treat letters beyond ASCII as ordinary characters, and refuse any unquoted character a
  shell would interpret.

## Model

| member | source | states |
|---|---|---|
| ListenerProtocol.OneConnectAtATime | openvtc-core/src/didcomm.rs:1120-1155 | in every run of any callers no two are inside the connect lock at once, a caller past its check finds nothing installed as long as it stays inside, and the branch for a displaced listener is never reached |
| ListenerProtocol.RunKeeps | openvtc-core/src/didcomm.rs:1343-1365 | every step of every caller, and every abort that takes effect, keeps both invariants: one inside the lock, and every open socket the listener's own, some one caller's to close, or an orphan |
| ListenerProtocol.SocketsCounted | openvtc-core/src/didcomm.rs:660-680 | in every state the invariants allow, the open sockets are the listener's own, at most one, one for each caller about to close it, and the orphans |
| ListenerProtocol.RunCounted | openvtc-core/src/didcomm.rs:660-680 | so in every run; and none is orphaned in a run in which no grant or release stops a renewal in the middle of a closing |
| ListenerProtocol.LostIff | openvtc-core/src/collection.rs:388-391 | a socket is lost exactly when a grant or a release finds the renewal of the claim held waiting for its socket to close, or a closing told to stop goes on to take the wire; it becomes an orphan exactly when that closing is dropped |
| ListenerProtocol.LostForGood | openvtc-core/src/didcomm.rs:323-340 | what is lost stays lost and open in every run |
| ListenerProtocol.OrphanedSocket | openvtc-core/src/collection.rs:388-391 | a run of a renewal closing its listener and a new grant, which ends with two sockets open and nobody to close the first |
| ListenerProtocol.ComesBackIff | openvtc-core/src/didcomm.rs:572-596 | a closing that is to come back ends with the listener waiting exactly unless it is dropped, and then changes nothing more |
| ListenerProtocol.ComeBackLost | openvtc-core/src/collection.rs:484-495 | a run in which a release timer stops such a closing: the listener ends nowhere, its claim released, its socket open |
| ListenerProtocol.SecondSocketIff | openvtc-core/src/didcomm.rs:673-675 | a connect opens a second socket for the DID exactly when a caller that took the wire has not closed it, or one was orphaned |
| ListenerProtocol.TwoSockets | openvtc-core/src/didcomm.rs:673-675 | a run that reaches two open sockets |
| ListenerProtocol.NoDeadlock | openvtc-core/src/didcomm.rs:1129-1140 | in every reachable state with callers, some caller can take its next step or be dropped |
| ListenerProtocol.EveryStepNearer | openvtc-core/src/didcomm.rs:1120-1155 | no call takes more than seven steps of its own once it may step |
| ListenerProtocol.UncoveredIff | openvtc-core/src/didcomm.rs:620-632 | from a covered state, a step ends uncovered exactly when a closing's or a timer's caller at its release takes it, or a renewal drops the claim because the VTA does not collect at all, while a listener is installed under a claim or the lock's holder is connecting under one |
| ListenerProtocol.RunCovered | openvtc-core/src/didcomm.rs:1159-1184 | in every run without such a step, a listener that connected under a claim holds that very generation |
| ListenerProtocol.ReleaseSafe | openvtc-core/src/didcomm.rs:620-632 | a caller that saw nothing installed can release no live claim while nobody has been inside the connect lock since |
| ListenerProtocol.LiveSince | openvtc-core/src/didcomm.rs:620-632 | a claim that is live when a caller that saw nothing installed releases was in the lock holder's hand when it looked, or was granted since |
| ListenerProtocol.ReleasedOnlyUnwanted | openvtc-core/src/didcomm.rs:530-545 | however others interleave, a renewal or a timer takes the claim off the record only if since it started there was an instant with nothing installed, then one not stranded and then one not waiting; it ends without releasing only while the listener is one of these, and changes nothing else |
| ListenerProtocol.OpenWithoutItsClaim | openvtc-core/src/didcomm.rs:620-632 | a run of a reconnect that ends installed and open with its claim released |
| ListenerProtocol.RunsApart | openvtc-core/src/didcomm.rs:1129-1137 | a run over any number of listeners is, for each, a run of its own |
| OneCaller.AddAlone | openvtc-core/src/didcomm.rs:1120-1207 | with nobody else under way, the steps of an add come to what the sequential add of `Supervisor` does, open one socket when they connect, leave exactly a granted claim on record in place of the one before, named by the new wire, and a timer exactly for a claim whose connect failed |
| OneCaller.RemoveAlone | openvtc-core/src/didcomm.rs:660-680 | a removal leaves the listener nowhere and its socket closed, its claim on record with a timer set for it |
| OneCaller.RebuildAlone | openvtc-core/src/didcomm.rs:2547-2569 | the removal, the record of the spec, the add and the record taken back, step by step, leave the listener where the sequential rebuild does, one socket closed and one opened |
| OneCaller.CloseAlone | openvtc-core/src/didcomm.rs:572-596 | a closing to come back leaves an installed listener waiting and its claim on record with a timer set for it, and any other listener nowhere; a closing for good gives up the claim |
| OneCaller.CloseLosesIff | openvtc-core/src/didcomm.rs:572-596 | a closing to come back leaves a listener the runtime kept nowhere exactly when it was not installed |
| OneCaller.ReleaseAlone | openvtc-core/src/didcomm.rs:620-632 | a renewal that releases unless wanted takes the claim off the record exactly when the listener is not installed, not stranded and not waiting, and changes nothing else |
| OneCaller.TimerAlone | openvtc-core/src/didcomm.rs:620-632 | so does the timer that any call leaves behind, once it goes off |
| Claims.RetryAfterShape | openvtc-core/src/collection.rs:282-288 | the wait never shrinks with more refusals, is shortest after silence, doubles to a cap of fifteen minutes, and its shift fits |
| Claims.Collection.RecordGrant | openvtc-core/src/collection.rs:374-405 | a grant takes the next number and is recorded under it, and the superseded claim's renewal is stopped |
| Claims.Collection.NextGeneration | openvtc-core/src/collection.rs:380-383 | a number is handed out before a claim is recorded under it, so grants of other listeners may come in between |
| Claims.Collection.Supersede | openvtc-core/src/collection.rs:384-404 | the claim is recorded under its number in place of the one before, whose renewal is stopped |
| Claims.Collection.AttachRenewal | openvtc-core/src/collection.rs:408-422 | a renewal joins the claim of its own generation, or is stopped |
| Claims.Collection.Current | openvtc-core/src/collection.rs:425-437 | the claim of a generation only while that generation is held |
| Claims.Collection.Renewed | openvtc-core/src/collection.rs:440-452 | a renewal moves the end of the claim of its own generation only |
| Claims.Collection.Unrenewable | openvtc-core/src/collection.rs:455-466 | marks the claim of its own generation only |
| Claims.Collection.DropClaim | openvtc-core/src/collection.rs:469-480 | the claim of that generation is not held afterwards, and every other claim, of another listener or another generation, is as it was |
| Claims.Collection.ReleaseNow | openvtc-core/src/collection.rs:484-505 | forgets whatever claim is recorded, stops its renewal, and asks the VTA to release it if there is a session |
| Claims.Collection.ReleaseAll | openvtc-core/src/collection.rs:517-531 | nothing is held afterwards, every attached renewal was stopped, and the VTA was asked to release exactly what was held |
| Claims.RunSound | openvtc-core/src/collection.rs:374-405 | in every run, grants recorded in any order after they took their numbers, held generations are distinct and never exceed the counter, which never goes back |
| Claims.SupersededForGood | openvtc-core/src/collection.rs:408-480 | a recorded generation that is given up is never held again, and any later operation that names it changes no claim |
| Claims.RenewalAccounted | openvtc-core/src/collection.rs:408-422 | in every run an attached task was stopped, or renews the claim held, or dropped that claim while it was held |
| Claims.HeldNotAborted | openvtc-core/src/collection.rs:374-422 | in every run the renewal of a claim that is held has never been stopped |
| Claims.HeldIsLatest | openvtc-core/src/collection.rs:374-466 | in every run a held claim ends when its last grant or renewal said, is renewable unless its own generation was refused, and carries its own task once attached |
| Claims.HeldIff | openvtc-core/src/collection.rs:374-499 | in every run a claim is held under a generation exactly when it was granted under it and since then neither dropped nor released nor its listener granted anew; a dropped generation is never held again |
| RenewLoop.AskUntilSettled | openvtc-core/src/collection.rs:564-593 | the inner loop ends, with the claim renewed, refused, dropped or superseded, or the socket closed, each at an instant the claim allows |
| RenewLoop.Renew | openvtc-core/src/collection.rs:536-595 | the loop's log, for any world: each event is one the claim of that moment allows, follows from the one before, and is what the world showed when it was asked; each round ends in a renewal or a refusal to renew, or the loop is over |
| RenewLoop.BeforeTheEnd | openvtc-core/src/collection.rs:534-595 | with sleeps and answers inside the clock-skew tolerance every event comes before the end of the claim in force, or at once after a grant with hardly any time left; each ask starts before the socket must close, or at most one sleep's lateness after |
| RenewLoop.SettledOrInForce | openvtc-core/src/collection.rs:536-595 | from where a claim is granted or renewed, either it has been settled in time, or it is still in force, the loop running, and refused at most once |
| RenewLoop.SettledInTime | openvtc-core/src/collection.rs:534-595 | once the loop is over or two turns on, before the end of each claim it has been renewed, dropped, released, superseded or its socket closed, or at once after a grant with hardly any time left |
| RenewLoop.GrantSettled | openvtc-core/src/collection.rs:534-595 | so does every loop of two rounds or more for the claim it was started for |
| RenewLoop.AsTheWorldSays | openvtc-core/src/collection.rs:536-606 | a release comes only when the runtime no longer wants the listener, a question or an unasked close only while it does, what is taken for an answer is the answer given, and the loop is superseded only where the claim was |
| RenewLoop.WantedNeverReleased | openvtc-core/src/collection.rs:555-559 | a listener that is wanted all along never has its claim released |
| RenewLoop.UnwantedReleased | openvtc-core/src/collection.rs:555-559 | one that no longer is has it released when the loop next looks, with nothing before it, unless superseded |
| RenewLoop.AskedAtHalf | openvtc-core/src/collection.rs:270-277 | the first question of a term comes at half its time, or two minutes before its end when that is earlier, or later only by the sleep's delay |
| RenewLoop.EndSaysWhy | openvtc-core/src/collection.rs:560-604 | the socket is closed for good exactly when a renewal was refused, to come back otherwise, and the claim forgotten exactly when the VTA said it does not collect |
| RenewLoop.RenewedForEver | openvtc-core/src/collection.rs:536-606 | never superseded, always wanted and always granted a long enough term, the loop asks and renews by turns and never ends |
| Supervisor.BackoffShape | openvtc-core/src/didcomm.rs:252-260 | the backoff never shrinks, doubles from five seconds to a minute, and overflows for no number of attempts |
| Supervisor.BackoffsAre | openvtc-core/src/didcomm.rs:252-260 | together the backoffs come to 5, 15, 35 and 75 seconds, and to a minute more for each further one |
| Supervisor.TrackedIs | openvtc-core/src/didcomm.rs:2496-2533 | the record of an outage is its first sight and its rebuilds, and after each pass no rebuild is overdue |
| Supervisor.NeverTooSoon | openvtc-core/src/didcomm.rs:2496-2533 | the k-th rebuild comes no earlier than the grace and the first k - 1 backoffs |
| Supervisor.NeverTooLate | openvtc-core/src/didcomm.rs:2450-2456 | nor later than one pass after it fell due |
| Supervisor.AlwaysTriesAgain | openvtc-core/src/didcomm.rs:267-279 | a pass a full cap after the last attempt rebuilds, after any number of attempts |
| Supervisor.OutageFollowed | openvtc-core/src/didcomm.rs:2464-2603 | passes that keep finding a listener down track one outage and rebuild at exactly its instants, whatever else happens to the runtime |
| Supervisor.Runtime.RemoveListener | openvtc-core/src/didcomm.rs:660-680 | the listener is nowhere afterwards |
| Supervisor.Runtime.AddListener | openvtc-core/src/didcomm.rs:1120-1207 | the new runtime and whether the add succeeded, for every answer |
| Supervisor.Runtime.CloseToComeBack | openvtc-core/src/didcomm.rs:572-596 | the listener waits to be asked for again if it was installed, and is nowhere otherwise |
| Supervisor.Runtime.SuperviseOnce | openvtc-core/src/didcomm.rs:2464-2603 | one pass, in whatever order the maps list the listeners that are installed without a connection or stranded, leaves the specified maps and history |
| Supervisor.PassOutcome | openvtc-core/src/didcomm.rs:2496-2591 | a candidate is rebuilt exactly when due and ends installed, stranded or waiting by its answers, in one place only, with its spec; it stays tracked unless its claim was refused |
| Supervisor.PassLeavesOthers | openvtc-core/src/didcomm.rs:2470-2494 | a listener that is no candidate is left as it was and is not tracked |
| Supervisor.RebuiltIff | openvtc-core/src/didcomm.rs:2484-2493 | left alone by others, a listener is rebuilt exactly when it is installed and not connected, or stranded, and due; a connected one stays installed under its spec, its history forgotten; one that is nowhere stays so |
| Supervisor.OnlyPresentTracked | openvtc-core/src/didcomm.rs:2593-2602 | whatever others do, only installed and stranded listeners stay tracked |
| Supervisor.RemovalStandsIff | openvtc-core/src/didcomm.rs:2509-2591 | where one removal of a candidate that is due leaves it, landing anywhere in its own turn, and exactly when it stays removed |
| Supervisor.RemovedButRebuilt | openvtc-core/src/didcomm.rs:2546-2591 | an installed listener removed at any time during its rebuild is installed again when its claim is granted and its connect works |
| Supervisor.AdmittedIs | openvtc-core/src/didcomm.rs:1129-1140 | while a listener connects everything else takes place, but its own adds wait |
| Supervisor.PassRemovalIff | openvtc-core/src/didcomm.rs:2464-2603 | the same over a whole pass, the removal landing in any window of any candidate's turn that takes place |
| Supervisor.AddLosesIff | openvtc-core/src/didcomm.rs:1143-1172 | an add leaves a kept listener nowhere exactly when its claim is granted, its connect fails and only its wait kept it |
| Supervisor.InstalledIff | openvtc-core/src/didcomm.rs:1120-1207 | an add installs a listener exactly when the connect works and, if it needs a claim, the VTA granted it, does not collect for it, or collects for nobody |
| Supervisor.RefusedInARow | openvtc-core/src/didcomm.rs:599-616 | refused its claim any number of times in a row, a listener waits and is nowhere else, its count one less than the refusals, due again after the wait that count and the last answer call for |
| Pickup.HandOff | openvtc-core/src/didcomm.rs:794-840 | one page: what is acknowledged and queued is what `Process` says, for any room left in the channel |
| Pickup.OneRound | openvtc-core/src/didcomm.rs:783-872 | one turn of the loop is a round of the specification |
| Pickup.PickupStored | openvtc-core/src/didcomm.rs:769-888 | the loop is the rounds of the specification, for any weather |
| Pickup.CallConserves | openvtc-core/src/didcomm.rs:769-873 | with acknowledgements honoured exactly the dead, unroutable and handed-off frames are deleted, every unreadable one stays in order, and messages go out once and in order |
| Pickup.CallDelivers | openvtc-core/src/didcomm.rs:1640-1690 | what a whole call tells the application: a message of its own that is gone was handed to it, a ping or a pong announced, a pong just before it is handed over; dead and unclaimed frames go without a word, unreadable ones stay; no event comes from no frame, and while the receiver is there nothing readable it was offered is left |
| Pickup.HandedBound | openvtc-core/src/didcomm.rs:783-872 | one call never hands off PICKUP_MAX + PICKUP_PAGE or more messages |
| Pickup.FailsIff | openvtc-core/src/didcomm.rs:769-800 | a call fails exactly at an unanswered request, which takes nothing off the mailbox; it ends after two hundred messages, at an empty mailbox, or at a page that is not full |
| Pickup.ContinuedRoundShrinks | openvtc-core/src/didcomm.rs:865-871 | an honoured round that is continued takes a full page off the mailbox |
| Pickup.CalmCallEnds | openvtc-core/src/didcomm.rs:783-872 | with acknowledgements honoured and no arrivals the drain ends within a round per page and one more |
| Pickup.RoundsBounded | openvtc-core/src/didcomm.rs:783-872 | for any arrivals, answers and acknowledgements, a drain still going has had at most as many rounds as the messages it may hand off, the idle rounds not acknowledged, and the pages of undeliverable frames there were |
| Pickup.HonouredCallEnds | openvtc-core/src/didcomm.rs:783-872 | with acknowledgements honoured, whatever arrives, it ends within the messages it may hand off and the pages of undeliverable frames |
| Pickup.GoesOnIff | openvtc-core/src/didcomm.rs:783-872 | it goes on for ever exactly when unacknowledged idle rounds or arriving undeliverable frames grow beyond every bound |
| Pickup.FedForever | openvtc-core/src/didcomm.rs:783-872 | a page of undeliverable frames arriving each round keeps it going for ever, every acknowledgement honoured |
| Pickup.StuckIff | openvtc-core/src/didcomm.rs:842-871 | a continued round without arrivals changes nothing exactly when its page was undeliverable and its acknowledgement not honoured |
| Pickup.StuckForever | openvtc-core/src/didcomm.rs:783-872 | such a mailbox is asked for the same page for ever |
| Pickup.CollectedInTheEndIff | openvtc-core/src/didcomm.rs:243-248 | with requests answered, acknowledgements honoured and a receiver that takes everything, call after call takes a readable frame in the end exactly when fewer than PICKUP_PAGE unreadable ones precede it |
| DropDebounce.Debounce.OnDisconnect | openvtc-core/src/didcomm.rs:2264-2290 | each listener's memory and lines are those of its own machine |
| DropDebounce.Debounce.OnConnect | openvtc-core/src/didcomm.rs:2295-2305 | likewise for a connect |
| DropDebounce.Debounce.Due | openvtc-core/src/didcomm.rs:2309-2326 | likewise for the sweep, for every listener at once |
| DropDebounce.Debounce.Log | openvtc-core/src/didcomm.rs:2334-2383 | a whole run of transitions and sweeps is the product of independent per-listener machines |
| DropDebounce.Debounce.LogAll | openvtc-core/src/didcomm.rs:2334-2383 | the logger task as a whole: transitions as above, the supervisor's entries and the counts of missed events passed on unchanged and in order |
| DropDebounce.OwnSeen | openvtc-core/src/didcomm.rs:2334-2380 | a listener's machine sees each of its own transitions and every sweep, in order |
| DropDebounce.OthersUnseen | openvtc-core/src/didcomm.rs:2334-2380 | and nothing of another listener's, wherever it comes |
| DropDebounce.EachPassedOn | openvtc-core/src/didcomm.rs:2360-2375 | the supervisor's entries and the counts of missed events pass unchanged |
| DropDebounce.PlainConnects | openvtc-core/src/didcomm.rs:2291-2305 | while nothing is held and nothing drops, each connect writes one plain line, and a sweep none |
| DropDebounce.HeldDropEndsOnce | openvtc-core/src/didcomm.rs:2260-2326 | each held drop ends in exactly one line, or is still held |
| DropDebounce.DropReported | openvtc-core/src/didcomm.rs:2295-2326 | that line is a reconnect with the exact down time, a disconnect carrying the first drop's error, or a late plain connect |
| DropDebounce.StayingDownIsReported | openvtc-core/src/didcomm.rs:2309-2326 | a listener that stays down is reported at the first sweep past the grace |
| DropDebounce.ReportedInTime | openvtc-core/src/didcomm.rs:192-196 | with sweeps on time it is reported at most the grace and one sweep after it dropped |
| DropDebounce.CyclingIff | openvtc-core/src/didcomm.rs:2264-2282 | rapid cycling is reported exactly when the last drop is less than the window back |
| ShellWords.ShellWord | openvtc-core/src/git_ns.rs:1511-1552 | the loop over two buffers writes the specified word |
| ShellWords.WordRun | openvtc-core/src/git_ns.rs:1493-1502 | from any point between or inside words, both lexers read a quoted string back as exactly itself |
| ShellWords.RoundTrip | openvtc-core/src/git_ns.rs:1493-1511 | every list of strings, quoted and joined by spaces, lexes back to exactly that list in POSIX shells and in fish |
| ShellWords.CommandLineInjective | openvtc-core/src/git_ns.rs:1493-1511 | different lists of strings never share a command line |
| ShellWords.RatifyWords | openvtc-core/src/git_ns.rs:1435-1443 | the ratify command lexes to its exact arguments in both, whatever the values hold |
| ShellWords.RevokeWords | openvtc-core/src/git_ns.rs:1447-1454 | so does the revoke command |
| ShellWords.PosixQuotingFailsInFish | openvtc-core/src/git_ns.rs:1500-1502 | a backslash alone is the shortest value it fails for, its closing quote read as escaped |
| ShellWords.PosixQuotingInFishIff | openvtc-core/src/git_ns.rs:1500-1502 | POSIX's own quoting of a value is read back by POSIX shells always, and by fish exactly when no backslash of it is followed by a backslash, by a quote or by nothing |
| GitRights.ContainsPartialOrder | openvtc-core/src/git_ns.rs:886-892 | containment is reflexive, antisymmetric and transitive |
| GitRights.NamespaceContainsIff | openvtc-core/src/git_ns.rs:880-892 | a namespace contains itself and the paths below it, and nothing else, not those of an owner whose name only begins alike |
| GitRights.OthersContainThemselves | openvtc-core/src/git_ns.rs:880-892 | a repository, also one with others below its path, and a forge contain only themselves |
| GitRights.NamespacesDisjoint | openvtc-core/src/git_ns.rs:886-892 | two different namespaces contain no resource in common |
| GitRights.NamespaceOfIsTheContainer | openvtc-core/src/git_ns.rs:1266-1273 | the namespace found is the one that contains the resource |
| GitRights.NamespaceOfOrderIndependent | openvtc-core/src/git_ns.rs:1266-1273 | it does not depend on the order of the list |
| GitRights.MyRightOn | openvtc-core/src/git_ns.rs:1183-1206 | the loop computes the specified best right |
| GitRights.OwnRightIsStrongest | openvtc-core/src/git_ns.rs:1178-1206 | that right is held and no stronger one is; none exactly when no right is held |
| GitRights.OwnRightIs | openvtc-core/src/git_ns.rs:1183-1206 | it is the namespace admin's right if held, else an owner's, else a maintainer's, else a committer's; the right to create repositories never counts |
| GitRights.PeopleOn | openvtc-core/src/git_ns.rs:1298-1341 | the list built and sorted in place is the specified one |
| GitRights.PeopleRowsExact | openvtc-core/src/git_ns.rs:1298-1341 | its rows are exactly the records that reach the repository, with who granted them, when, until when, why, and whether a right taken for oneself was ratified, and the owners no record makes one |
| GitRights.PeopleCounted | openvtc-core/src/git_ns.rs:1298-1341 | one row for each such record and each such owner |
| GitRights.PeopleOrdered | openvtc-core/src/git_ns.rs:1340-1341 | strongest right first, then by DID, character by character |
| GitRights.PeopleRowsNames | openvtc-core/src/git_ns.rs:1298-1341 | a person is listed with a right exactly when they hold it |
| GitRights.OwnRightHeadsThePeople | openvtc-core/src/git_ns.rs:1183-1341 | the member's own right is the strongest of their rows, the first of them, and none exactly when they have no row |
| GitRights.MyRepos | openvtc-core/src/git_ns.rs:1210-1228 | the list built and sorted in place is the specified one, with each repository's status |
| GitRights.MyRepoRowsExact | openvtc-core/src/git_ns.rs:1210-1228 | exactly the repositories the member holds a right on, once each, strongest first, then by name |
| GitRights.CountShows | openvtc-core/src/git_ns.rs:1109-1166 | a repository being created shows as many steps done as are, and all of them only when all are |
| GitRights.StatusSays | openvtc-core/src/git_ns.rs:1109-1166 | a creation shows all six steps done exactly when the forge has the repository and commit trust is on; every other state shows as itself |
| GitRights.MyReposMatchPeople | openvtc-core/src/git_ns.rs:1210-1341 | a repository is on it, with a right, exactly when the people on it name the member and that right comes first |
| Ballots.CheckBallot | openvtc-core/src/elections.rs:757-871 | the loop returns the first broken rule of the specification |
| Ballots.AcceptedIffValid | openvtc-core/src/elections.rs:757-871 | with distinct question keys a ballot is accepted exactly when it is for this election and digest and its answers correspond one to one with the questions, each satisfying its kind |
| Ballots.AcceptedRankingIsPermutation | openvtc-core/src/elections.rs:817-830 | an accepted full ranking is a permutation of the options |
| Ballots.RefusalIsTrue | openvtc-core/src/elections.rs:704-740 | a refusal always names a rule that the ballot does break, for the question it names |
| Ballots.BrokenIsRefused | openvtc-core/src/elections.rs:757-871 | and a ballot that breaks any rule is refused |
| Ballots.FirstBrokenRule | openvtc-core/src/elections.rs:757-871 | the rule named is the first broken one, in the order of the answers and then of the questions |
| Ballots.WhichRefusal | openvtc-core/src/elections.rs:757-775 | a ballot is refused as unreadable, or as for another election or version, exactly when it is, before anything else |
| Ballots.NewDraftFits | openvtc-core/src/elections.rs:914-932 | a new draft has an entry of the right key and kind for each question |
| Ballots.NewDraftEmpty | openvtc-core/src/elections.rs:914-932 | and nothing in it is filled in |
| Ballots.DraftAcceptedIff | openvtc-core/src/elections.rs:911-964 | a filled-in draft is accepted exactly when every entry is what its question asks for, said of the member's own choices, order, scores and words |
| Ballots.DraftNeverMisshapen | openvtc-core/src/elections.rs:911-964 | however a draft is filled in, its ballot, once parsed, is never refused for a mismatch, an unknown, repeated or unanswered question, or a wrong kind |
| Ballots.UnscoredRefusal | openvtc-core/src/elections.rs:934-964 | leaving scores out is refused as a missing score exactly when another score was given |
| ForgeCredential.MarkerReadsBack | openvtc-core/src/forge_credential.rs:178-198 | a marker reads back as the same kind and account, and as the same key exactly when its path does not end in white space |
| ForgeCredential.FromMarkerIff | openvtc-core/src/forge_credential.rs:176-198 | reading a marker is the inverse of writing it |
| ForgeCredential.AcceptedIff | openvtc-core/src/forge_credential.rs:343-402 | a choice is refused exactly for a key path that is not absolute or holds a quote or control character, a login that is not letters and digits joined by single hyphens, or an empty or unprintable author |
| ForgeCredential.SshCommandWords | openvtc-core/src/forge_credential.rs:317-323 | a shell reads the ssh command of any accepted key path as ssh with exactly that path for the key, and no other key |
| ForgeCredential.LoginIsAWord | openvtc-core/src/forge_credential.rs:325-333 | a login needs no quoting: a shell reads it as itself |
| ForgeCredential.Checkout.Apply | openvtc-core/src/forge_credential.rs:469-519 | a success leaves the specified config, a refused choice changes nothing, and wherever git stops, what it did until then; no key outside the managed ones is ever touched |
| ForgeCredential.Checkout.Undo | openvtc-core/src/forge_credential.rs:478-508 | removes exactly what the markers and the choice call for, as far as git obeys |
| ForgeCredential.ReadBack | openvtc-core/src/forge_credential.rs:452-458 | what a choice wrote is what the next choice finds to undo |
| ForgeCredential.ApplyOver | openvtc-core/src/forge_credential.rs:469-519 | a choice applied over another undoes exactly what the other wrote |
| ForgeCredential.HistoryFormula | openvtc-core/src/forge_credential.rs:469-519 | after any run of choices the config is the base without the keys earlier choices wrote, and the last choice's settings |
| ForgeCredential.LastChoiceUsed | openvtc-core/src/forge_credential.rs:343-385 | after any run git uses the last choice: its one key, or the account's helper right after an empty one that resets the list, its user name, its author's name and address, and its markers |
| ForgeCredential.OthersUntouched | openvtc-core/src/forge_credential.rs:460-519 | every other setting, and another host's, is left alone by every run, whatever the config holds |
| ForgeCredential.HistoryIndependent | openvtc-core/src/forge_credential.rs:469-519 | with none of the managed keys set beforehand, the original config and the last choice's settings alone |
| ForgeCredential.OwnSshCommandSurvives | openvtc-core/src/forge_credential.rs:460-464 | a member's own ssh command survives every run that chooses no key |
| ForgeCredential.OwnSettingSurvivesIff | openvtc-core/src/forge_credential.rs:460-464 | a member's setting is back after the git default exactly when no choice of the run wrote its key |
| ForgeCredential.OwnUserNameLost | openvtc-core/src/forge_credential.rs:460-464 | a run that loses the member's own name |
| ForgeCredential.UnansweredReadBack | openvtc-core/src/forge_credential.rs:487-498 | with either read-back unanswered the config is the right one exactly when the account's was answered, had nothing to undo or is one key replacing another, and the author's was answered or none was written |
| ForgeCredential.AuthorLeftBehind | openvtc-core/src/forge_credential.rs:494-498 | a choice that cannot read the author's marker leaves the author it should have removed |
| ForgeCredential.StoppedUndoing | openvtc-core/src/forge_credential.rs:478-508 | stopped while still undoing, on a config that held no managed key: the next choice leaves the config it should |
| ForgeCredential.StoppedAddingIff | openvtc-core/src/forge_credential.rs:509-518 | stopped while adding: it does exactly when none or all was added, or one key replaces another and the author was not begun or was finished |
| ReleaseTrain.ReleaseProblems | scripts/check-release-guards.py:48-77 | the list is empty exactly when the tree is guarded, and each problem is listed exactly when it is one |
| ReleaseTrain.Checkout.Prepare | scripts/prepare-release.py:49-112 | the files after a preparation, that one refused changes none, and what a version move that stops half-way leaves |
| ReleaseTrain.PreparesIff | scripts/prepare-release.py:49-93 | exactly when a preparation succeeds |
| ReleaseTrain.GaNotes | scripts/prepare-release.py:78-86 | a GA's section has exactly the notes that were unreleased |
| ReleaseTrain.PatchNotes | scripts/prepare-release.py:87-110 | a patch's section lists its commits in order, after the unreleased notes a backport brought |
| ReleaseTrain.PatchOnTop | scripts/prepare-release.py:103-109 | without such notes it comes before every other section |
| ReleaseTrain.LeftIs | scripts/prepare-release.py:49-95 | a preparation that does not succeed changes the tree exactly when it is a patch that could be prepared and whose version move stops half-way, and then only the version |
| ReleaseTrain.HalfMovedIsCaught | scripts/release_lib.py:138-184 | after one that stopped half-way RELEASE and the changelog are as they were, no preparation starts from the tree, and the guard refuses it against any base |
| ReleaseTrain.BeforeStrictOrder | scripts/check-release-guards.py:73-76 | the order releases are compared by is a strict total order, an rc before its GA |
| ReleaseTrain.PreparationGuarded | scripts/prepare-release.py:74-112 | every successful preparation moves RELEASE strictly forward and passes the guard against the tree before it |
| ReleaseTrain.PreparationKeepsNotes | scripts/prepare-release.py:74-110 | no note and no version's section is lost or put out of order |
| ReleaseTrain.CutGuarded | scripts/cut-release.py:68-92 | a cut leaves a guarded branch and keeps main guarded |
| ReleaseTrain.CutMainKeepsNotes | scripts/cut-release.py:75-92 | main's split loses no note and opens the release's section |
| ReleaseTrain.CutMainMoves | scripts/cut-release.py:72-92 | main moves to the next minor, and its unreleased notes under the release's heading exactly when they are those that were cut |
| ReleaseTrain.RunGuarded | scripts/prepare-release.py:49-112 | in every run each tree passes the guard against the one before and RELEASE strictly increases |
| ReleaseTrain.CutRunGuarded | scripts/cut-release.py:68-71 | so does every run from a cut |
| ReleaseTrain.RunKeepsNotes | scripts/prepare-release.py:74-110 | at the end of a run every note it began with is still there, in order, and every GA and patch it released has its section |
| ReleaseTrain.RunShape | scripts/prepare-release.py:74-93 | a run that succeeds is candidates, then one GA, then patches |
| ReleaseTrain.RunNumbered | scripts/prepare-release.py:74-112 | in every run from a cut the candidates count up from rc.0, the GA is the version cut, and the patches count up from one, the crates at that version throughout |
| DeviceAccess.GrantsInExact | openvtc-core/src/community_access.rs:329-341 | one grant for each entry of another DID that names a context inside, and no other, each with the contexts inside and apart from these the ones elsewhere, in the order of the DIDs |
| DeviceAccess.ActsIff | openvtc-core/src/community_access.rs:209-215 | an admin whose entry names no context acts everywhere, anybody else at and beneath the contexts named |
| DeviceAccess.GrantedActsIff | openvtc-core/src/community_access.rs:188-198 | an entry as a grant makes it acts in the community and beneath and nowhere else, as an application |
| DeviceAccess.Vta.RevokeDeviceGrant | openvtc-core/src/community_access.rs:449-490 | exactly when a revocation succeeds, that it deletes an entry exactly when it names no other context and otherwise narrows it to the ones elsewhere, also when others gave it other contexts since it was read, and that nobody else's entry changes |
| DeviceAccess.RevokedAsRead | openvtc-core/src/community_access.rs:461-490 | when nobody rewrote the entry meanwhile, what a success leaves is the list with the entry as read revoked |
| DeviceAccess.RevocationExact | openvtc-core/src/community_access.rs:264-323 | a revocation keeps exactly the contexts outside the subtree, leaves no grant inside, never writes an empty list, and widens no entry |
| DeviceAccess.StillActsIff | openvtc-core/src/community_access.rs:449-490 | the device may still act in the context exactly when its entry also names one above it |
| DeviceAccess.ElsewhereUnchanged | openvtc-core/src/community_access.rs:449-490 | everywhere outside the context the device acts as before |
| DeviceAccess.RevokedOffTheList | openvtc-core/src/community_access.rs:329-490 | the list read back has lost the device's row and no other |
| DeviceAccess.RevokeUndoesGrant | openvtc-core/src/community_access.rs:264-270 | revoking undoes a grant made to a DID that held nothing |
| DeviceAccess.TwoAtOnceIff | openvtc-core/src/community_access.rs:461-490 | of two revocations that read one entry before either wrote, the later puts back what the earlier took exactly under the stated condition |
| DeviceAccess.OneAfterTheOther | openvtc-core/src/community_access.rs:449-490 | one after the other, neither comes back |

## Left out

- ListenerProtocol.RunCovered: of a renewal the interleavings have its closing, its release and the dropping of its claim; that it is attached to its claim is one step with the grant, and `renewed` and `unrenewable` are in `Claims`.
- The delivery layer's own map of transports: an identity and its transport are taken as installed and removed together, so a transport removed between `add_transport` and the insert does not show.
- A timed-out half-open connect's own shutdown, outbox drains, the detached end of a session's teardown, and `shutdown`.
- Supervisor.Runtime.SuperviseOnce: what others do comes between the awaits of a rebuild and not inside them, and an add or a closing by others is one step that is not stopped half-way; an add of the listener being rebuilt waits for its lock and counts as coming after. `ListenerProtocol` has the single steps.
- The periodic `retry_claims` loop itself; its one effect beyond an add is removing a wait whose listener is installed, which `ListenerProtocol` has as a step.
- Claims.Collection.ReleaseAll: claims are released one after the other, where the source sends the releases together, and its time limit is not modelled.
- Claims.Collection.ReleaseNow: whether the VTA honours the release changes nothing here and is not modelled, nor that a renewal task that releases its own claim stops itself before the VTA answers.
- The 64-bit wrap of claim generations and the 32-bit wrap of the count of refusals.
- RenewLoop.Renew: one loop on its own, whose claim nobody else changes but to supersede it, which ends it at its next wait; a closing is one event here, and the number of rounds is a parameter.
- Claim targets, payloads and the classification of the VTA's error codes into answers; the notices told to the member, and telling each only once.
- Unsealing, unpacking and the wording of inbound frames: a frame is dead, unreadable, unroutable or a message of one of the routed kinds.
- Pickup.PickupStored: a failed delivery request ends the call; what the member is told of it is not modelled.
- A NUL, which no shell can hold, and shells' locale-dependent blanks; words that a shell would take for assignments or aliases at the start of a line.
- The namespaces a member may create repositories in.
- Ballots.DraftNeverMisshapen: that a draft's ballot parses is assumed; JSON Schema's own checks of a ballot, and the texts and labels of questions and options, are not modelled.
- The wording of the gh helper and of git's config file, the batch mode of a clone's own ssh command, and choices for a second host in one checkout.
- Whether a key file exists and gh holds an account (`check`), and forks and remotes.
- ReleaseTrain.Checkout.Prepare: a version move writes the workspace version or nothing before it stops, internal requirements and Cargo.lock are not modelled, and headings are classified lines rather than text, so the parsing of RELEASE with leading zeros is not modelled either.
- Expiry, labels and step-up settings of an access entry, and the checks before a grant.
- The other parts of the repository: terminal interface, identities, keyring, relationships, tasks, join and recovery flows, display.
