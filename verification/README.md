# The remotemoe router, verified

remotemoe publishes services behind ssh sessions. Its router keeps two full copies of a routing table, so
that lookups wait only for the exchange of a pointer: an edit works on the standby copy, makes it the active
one, and replays its change on the other. Beside the tables it keeps an index from owner to named routes and
one file per route. This project models the router, the sessions that register with it, the dials that go
through it and its files, and proves what they promise.

The model has three layers.

- **Sequential specification** (`RouterSpec`): each edit is a function of the state and of the outcome of its
  disk calls. The two tables are kept apart, so a failure that makes them differ is modelled exactly.
- **Objects** (`TwinRouter`, `Sessions`): classes with the source's fields and loops. Each edit is proved
  against the specification, for every pattern of disk failures; a dial against `Dialing`; a session's request
  against the tasks it consists of (`Request`, `HandleAll`).
- **Threads** (`Protocol`, `Executions`, `Recovery`, `World`): any number of editors, readers, sessions and dials, one
  step at a time, with `editLock` and the read and write lock explicit. Every interleaving is proved to be in
  step with the specification; sessions take the same tasks one at a time; a dial during which the table stands
  still is proved to be the dial of `Dialing` (`QuietDialIsDial`); and a restart after any step is a call of the
  `NewRouter` method (`RestartAfterCrash`). The machine has all the runs it should have: who can take which step is
  stated by what the threads are doing (`LookupStartsExactlyWhen` and its neighbours), every sequence of edits is
  the history of some run (`EveryHistoryHappens`), and a new session can be reached (`ServiceIsReached`).

The properties rest on these files:

| file | content |
|---|---|
| `Routes.dfy` | peers, named routes, entries, file records |
| `RouterSpec.dfy` | the edits as functions |
| `Invariants.dfy` | what every edit keeps, and the one failure that breaks it |
| `Restart.dfy` | what a new router makes of the files |
| `Histories.dfy` | runs of edits and restarts: registrations, host records, ownership of names |
| `Dialing.dfy` | chains of named routes: when a dial ends, and where |
| `TwinRouter.dfy` | the router as objects |
| `Protocol.dfy` | the step machine and its simulation by the specification |
| `Executions.dfy` | whole concurrent runs |
| `Recovery.dfy` | crashes at any step |
| `Sessions.dfy` | the idle timer and the session object |
| `World.dfy` | sessions, dials and the step machine together |

## What turned out not to hold

- When the very first `unlink` of a `RemoveNames` fails, `successes` is still zero and the replay loop runs once:
  the first route disappears from the old table only and is reported as removed, although it is still found,
  listed and on disk (`FirstUnlinkLeaves`). An empty router is two edits away from this (`FirstUnlinkIsReachable`). From
  then on every exchange swaps two tables that differ: as long as nobody changes that key, readers find the
  route exactly when an even number of exchanges has happened since, while it stays listed and on disk
  (`FoundAtEvenExchanges`). A restart makes the tables agree again, with the route in both (`RestartFindsAgain`).
  `AgreeExactlyWhen` and `TwinsAgreeExactlyWhen` prove that this failure is the only way for the tables to part.
- A peer may be thrown out by somebody else's `RemoveNames` when its FQDN had been added as a name before it
  came online (`TakeoverCounterexample`). The last registration wins if and only if no `RemoveNames` gets to the
  FQDN while a session is found there (`LastRegistrationWinsExactlyWhen`); a host's creation time is kept if and
  only if none gets to the host (`CreatedNeverChangesExactlyWhen`).
- A name may be its own owner's FQDN, and a dial of it never ends (`SelfNameNeverEnds`). Dials end if and only if
  nobody adds a name that its owner's chain of names already leads to (`DialsEndExactlyWhen`), and take at most two
  lookups if and only if nobody adds a name that is owned by a name or owns one (`TwoLookupsExactlyWhen`).
- The comment on `NamedRoute.Replaced` (routertwo/namedroute.go:52-57) says that a name that is taken over is
  removed from the database through it. The code never calls it: `Online` overwrites the entry and the file
  and leaves the index alone. The model follows the code.

## Model

| member | source | states |
|---|---|---|
| Routes.NamedRoute.NewName | routertwo/namedroute.go:25-33 | a new name is the lower-cased string, owned by the peer's FQDN, bound to no router |
| Routes.ToLower | routertwo/namedroute.go:26-27 | each upper-case ASCII letter becomes its own lower-case letter and nothing else changes |
| RouterSpec.ReduceHead | routertwo/router.go:326-337 | although the list is reduced inside the loop over it, turn `k` of `RemoveNames` leaves exactly the list without its first `k + 1` routes, and no key once none is left |
| Invariants.WithoutAt | routertwo/router.go:404-427 | reducing an index list cuts out one occurrence of that very route and keeps the order of the rest |
| Invariants.ApplyKeeps | routertwo/router.go:129-428 | every edit, whatever its disk calls return, keeps: equal tables; each named route under its own name and exactly once in its owner's list; each listed route in the table or taken over by a host; names distinct over all lists; no empty list; sessions at their own FQDN; files agreeing with the table. Except a `RemoveNames` whose first unlink fails |
| Invariants.AgreeExactlyWhen | routertwo/router.go:313-347 | from a good state the two tables agree after an edit if and only if it is not a `RemoveNames` whose first unlink fails |
| Invariants.FirstUnlinkLeaves | routertwo/router.go:323-346 | the whole state and reply after that failure: only the standby table loses the first route, which is reported as removed |
| Invariants.RemovesExactlyPrefix | routertwo/router.go:313-347 | with unlink `k > 0` the first to fail, both tables and the disk lose exactly the `k` keys of the prefix (counted), the index keeps exactly the rest or no key, and the prefix is returned with the error |
| Invariants.NamesListedExactly | routertwo/router.go:349-365 | a named route is listed for an owner exactly when it belongs to it, and every listed name is in the table |
| Invariants.FailureChangesNothing | routertwo/router.go:168-173 | an `Online`, `AddName` or `RemoveName` that fails leaves tables, index and files as they were |
| Invariants.AnswersExactly | routertwo/router.go:129-347 | in any state each answer has its cause, both ways: which error, and success, of every edit follows from the entry it finds in the table it is about to change and from the outcome of its disk call |
| Invariants.EditWrites | routertwo/router.go:129-311 | in any state what an edit of a single key leaves there: the same entry in both tables, with which session and which times, and its file |
| Restart.RestartsWell | routertwo/router.go:64-100 | reading well-formed files back one by one, in any order, gives equal tables that hold just what the files hold, and an index that agrees with them |
| Restart.LastFileWins | routertwo/router.go:79-92 | whatever the files hold and are called, the table has at every FQDN what the last file with it woke up as |
| Restart.OnlyFilesAreLoaded | routertwo/router.go:79-92 | and it has exactly the FQDNs found in the files |
| Restart.RestartRoundTrip | routertwo/router.go:50-107 | whatever order the files of a good state are read back in, the result is a good state with the same keys, the same named routes and the same hosts without session; with exact records also the same last-seen times |
| Restart.RestartIndex | routertwo/router.go:94-97 | the rebuilt index lists for an owner exactly the names that were routed to it, each once |
| Restart.ListsInWalkOrder | routertwo/router.go:79-97 | after a restart an owner's routes are listed in the order in which their files were walked over |
| Restart.ApplyKeepsExact | routertwo/router.go:186-215 | an edit makes a record miss the exact last-seen time if and only if the session found at its FQDN goes offline at a new time and the store fails |
| Restart.FirstUnlinkIsReachable | routertwo/router.go:323-346 | from an empty router, one `AddName` and then a `RemoveNames` whose first unlink fails |
| Histories.RunKeepsInv | routertwo/router.go:50-347 | the invariant holds at every point of every run of edits and restarts without a failing first unlink |
| Histories.TwinsAgreeExactlyWhen | routertwo/router.go:39-47 | over any run the tables agree at every point if and only if no first unlink of a `RemoveNames` fails |
| Invariants.ExchangeSwaps | routertwo/router.go:129-347 | at a key it does not change, in any state, an edit that exchanges the tables makes readers find what the other table held, and any other edit changes nothing at all |
| Histories.FoundAtEvenExchanges | routertwo/router.go:323-346 | over any run of edits after a failing first unlink, as long as none changes the first route's key, readers find that very entry if and only if the number of exchanges since is even; the route stays listed and on disk |
| Histories.RestartFindsAgain | routertwo/router.go:50-107 | a restart at any point of such a run makes the tables agree again, with the route in both |
| Histories.LastRegistrationWinsExactlyWhen | routertwo/router.go:127-232 | at every point of a run, disk failures and restarts included, the session found at an FQDN is the last that came online there and has not gone offline since, as computed from the history alone, if and only if no `RemoveNames` ever gets to that FQDN while a session is found there |
| Histories.LastRegistrationWins | routertwo/router.go:127-232 | the same with failing first unlinks allowed, at an FQDN that nobody gets as a name; requests that are refused do not matter |
| Histories.LateOfflineIsIgnored | routertwo/router.go:186-205 | `Offline` changes nothing if and only if the session found at its FQDN is another one or none |
| Histories.TakeoverCounterexample | routertwo/router.go:151-157 | a run in which a peer is evicted by the owner of a name equal to its FQDN, through states that satisfy the invariant |
| Histories.HostForgottenExactlyWhen | routertwo/router.go:145-165 | from a good state an edit loses a host or its creation time if and only if it is a `RemoveNames` that gets to the host |
| Histories.CreatedNeverChangesExactlyWhen | routertwo/router.go:145-165 | over a run, restarts included, a host keeps its creation time from one point to another if and only if no `RemoveNames` gets to it in between |
| Histories.CreatedNeverChanges | routertwo/router.go:145-165 | with failing first unlinks allowed, a host that is in nobody's list of names stays known with the same creation time, whatever is asked for |
| Histories.LastSeenNeverDecreases | routertwo/router.go:207-223 | within one process under a clock that does not go back, as long as a host stays known its last-seen time never decreases, whatever fails |
| Histories.HostAfter | routertwo/router.go:145-165 | a host that comes online or goes offline is seen just now, with its session or without, keeps its creation time if it was known and else has that of the edit; any other edit leaves a host as it was or removes it |
| Histories.LastSeenIsLastStamp | routertwo/router.go:145-230 | over a run within one process a host's last-seen time is what the clock said when a session last came online there or the one found there left |
| Histories.CreatedIsFirstOnline | routertwo/router.go:151-165 | over a run, restarts included, a host's creation time is what the clock said in the `Online` that made it known, unless a `RemoveNames` has got to it since |
| Histories.AddNameAppends | routertwo/router.go:389-396 | an `AddName` that finds its name free and is stored puts its route behind all others of its owner and touches no other list |
| Histories.ListedInOrderAdded | routertwo/router.go:389-428 | over a run within one process, whatever fails, an owner's routes are listed in the order in which they were added, behind those listed at the start |
| Histories.NameEndsExactlyWhen | routertwo/router.go:276-343 | a held name stays with the very same route unless the edit is a successful `RemoveName` or a `RemoveNames` that gets to it, by its owner, or a successful `Online` by the peer with that FQDN; after those its owner does not hold it |
| Histories.HeldNameIsOccupied | routertwo/router.go:239-249 | adding a held name again changes nothing: fine for its owner, an error for anyone else |
| Histories.NameStaysOwnedExactlyWhen | routertwo/router.go:235-343 | over a run without restarts the very same route stays at its name if and only if there is no such edit |
| Histories.NameStaysWithOwnerExactlyWhen | routertwo/router.go:235-343 | with restarts in between the name stays with the same owner if and only if there is no such edit |
| Dialing.EndsSoonOrNever | routertwo/namedroute.go:41-50 | a dial ends if and only if it has ended after one lookup more than there are named routes |
| Dialing.AllEndExactlyWhenAcyclic | routertwo/namedroute.go:41-50 | all dials of a table end if and only if no chain of owners leads from a name back to itself |
| Dialing.DialNameIsDialOwner | routertwo/namedroute.go:47-49 | dialling a name ends exactly when dialling its owner does, one lookup later and at the same target |
| Dialing.DestinationExactly | routertwo/host.go:29-35 | a dial that ends is answered not found, with the name, if and only if nothing is found at the last name of the chain; offline if and only if a host without session is; and by a session if and only if a host with that session is |
| Dialing.AllShortExactlyWhenFlat | routertwo/namedroute.go:41-50 | every dial of a table takes at most two lookups, and gets the answer of the owner when a name is dialled, if and only if no name is owned by a name |
| Dialing.TwoLookupsExactlyWhen | routertwo/router.go:235-270 | over a run, restarts included, this holds of every dial at every point if and only if no edit adds a free name that is its own owner, is owned by a name, or owns a name |
| Dialing.TwoLookupsAreEnough | routertwo/router.go:110-125 | with any disk failure, first unlinks included: if no name that is added is ever an owner of names, every dial at every point takes at most two lookups and gets the answer of the name's owner; requests that are refused or fail do not matter |
| Dialing.SelfNameNeverEnds | routertwo/router.go:240-269 | a name equal to its owner's FQDN can be added, keeps the invariant, and no dial of it ends |
| Dialing.ClosesExactlyWhen | routertwo/router.go:235-270 | from a table without a circle of owners, an edit closes one if and only if it adds a free name that the chain from its owner already leads to |
| Dialing.DialsEndExactlyWhen | routertwo/namedroute.go:41-50 | over a run, restarts included, every dial at every point ends if and only if no edit ever does that |
| TwinRouter.Directory.Store | routertwo/router.go:449-466 | the record is written under the name, or nothing is |
| TwinRouter.Directory.Unlink | routertwo/router.go:468-479 | the file is gone (a missing one is fine), or nothing changed |
| TwinRouter.Router.Begin | routertwo/router.go:430-437 | takes `editLock` and picks the table that is not active, then the active one |
| TwinRouter.Router.Exchange | routertwo/router.go:439-443 | the given table becomes the active one |
| TwinRouter.Router.AddToIndex | routertwo/router.go:389-396 | the index is the specification's, which `AddNameAppends` and `ListsInWalkOrder` say appends the route |
| TwinRouter.Router.ReduceIndex | routertwo/router.go:398-428 | the loop cuts out the first occurrence of that very route, drops a list that becomes empty, and does nothing when it is not listed |
| TwinRouter.Router.Online | routertwo/router.go:129-183 | new state and reply are the specification's, which `EditWrites` and `AnswersExactly` spell out; exactly the displaced session is notified, also when the store fails; routes stay bound |
| TwinRouter.Router.Offline | routertwo/router.go:186-232 | the new state is the specification's, whether or not the store fails; routes stay bound |
| TwinRouter.Router.AddName | routertwo/router.go:235-270 | new state and reply are the specification's; the route is bound to this router unless its name was in use; routes stay bound |
| TwinRouter.NamedAfter | routertwo/router.go:252-267 | an edit brings no named route into either table but the one it adds, and that only when its name was free |
| TwinRouter.EditKeepsBound | routertwo/router.go:251-252 | if every named route in either table dials through the router, so it is after any edit that binds what it adds |
| TwinRouter.Router.RemoveName | routertwo/router.go:276-311 | new state and reply are the specification's, each error included; routes stay bound |
| TwinRouter.Router.UnlinkUntilFailure | routertwo/router.go:323-337 | the loop unlinks, unlists and deletes exactly the routes before the first failing unlink |
| TwinRouter.Router.ReplayRemovals | routertwo/router.go:341-344 | the old table loses the first `successes + 1` names |
| TwinRouter.Router.RemoveNames | routertwo/router.go:314-347 | new state and reply are the specification's for the first failing unlink; routes stay bound |
| TwinRouter.Router.Names | routertwo/router.go:350-365 | a copy of each listed route, in order |
| TwinRouter.Router.Find | routertwo/router.go:368-374 | what the active table holds at the name |
| TwinRouter.Router.Exists | routertwo/router.go:377-387 | whether the active table holds the name |
| TwinRouter.Router.DialContext | routertwo/router.go:110-125 | a dial that ends follows the chain of owners to its last name, which is dialled on the same port, and answers not found, offline or the session found, each exactly when it is what is there |
| TwinRouter.Router.Wake | routertwo/intermediate.go:13-23 | a host record wakes first, without session; a name record is bound to the router; a record with neither is refused |
| TwinRouter.Router.Load | routertwo/router.go:79-97 | each file's route enters both tables under the FQDN in its record, and the index when it is a named route |
| TwinRouter.NewRouter | routertwo/router.go:50-107 | for any files in any order: fails if and only if a file holds no record, else tables and index are what reading the files in that order makes of them, whatever the files are called, with every named route bound |
| TwinRouter.StartAgain | routertwo/router.go:50-107 | on files that account for a table the router comes up, in a good state, with exactly that table up to sessions and last-seen times, and every named route bound to it |
| Protocol.PlanIsEdit | routertwo/router.go:129-347 | an edit that returns early changes nothing and one that proceeds carries out, action by action and replay by replay, exactly the specification's edit, in every state |
| Protocol.ActionsInOrder | routertwo/router.go:168-176 | an edit of a single key changes its file, then the index, then the standby table |
| Recovery.RemovalsAt | routertwo/router.go:326-337 | a `RemoveNames` takes its routes one by one in list order: the file, then the index, then the standby table |
| Protocol.LocksStayHeld | routertwo/router.go:110-118 | each thread holds exactly the locks its place in the code says, and what a reader loaded under the read lock is still active |
| Protocol.StepSimulates | routertwo/router.go:430-447 | whatever step any thread takes, the machine stays in step with the specification, which applies the whole edit at its exchange and rests otherwise |
| Executions.ConcurrentIsSequential | routertwo/router.go:430-447 | after any interleaving the active table is that of the specification run on the committed edits in order, and with no edit in progress so are both tables, the index and the files |
| Executions.ActiveChangesAtCommits | routertwo/router.go:439-443 | the active table changes only at a commit, by the whole edit |
| Executions.TablesActAsOne | routertwo/router.go:430-447 | while no first unlink has failed, the two tables are one atomic map: each commit turns the table readers use into what the edit makes of that table alone |
| Executions.NeverStuck | routertwo/router.go:430-447 | in any run a thread in the middle of an edit or lookup can go on, or waits for the write lock while a reader can go on |
| Executions.LookupStartsExactlyWhen | routertwo/router.go:116-118 | in any run an idle thread can start a lookup if and only if nobody holds the write lock: edits do not keep readers waiting before and after their exchange |
| Executions.EditStartsExactlyWhen | routertwo/router.go:430-431 | an idle thread can start an edit if and only if nobody is editing |
| Executions.ExchangeStartsExactlyWhen | routertwo/router.go:439-442 | an edit that has carried out its actions can go on to its exchange if and only if nobody is looking up |
| Executions.EditTakesExactly | routertwo/router.go:129-347 | at any step of an edit, the steps of its own it has taken and those it has left make up exactly the length of its plan: its actions and its replay, and a fixed number for deciding, the exchange and the locks |
| Executions.LookupReadsSpec | routertwo/router.go:116-118 | a lookup returns what the specification's table holds at the step it reads |
| Executions.WritersAreIsolated | routertwo/router.go:175-180 | no edit ever writes to the active table or to one a reader still holds, before or after the exchange |
| Executions.EditsAreLinearizable | routertwo/router.go:129-347 | an edit that finishes took effect at exactly one step between its begin and its finish, and its reply is the specification's at that step |
| Executions.LookupsAreLinearizable | routertwo/router.go:116-118 | a lookup that finishes returns what the specification's table held at its key at one step between its begin and its end |
| Executions.EditCanFinish | routertwo/router.go:430-447 | wherever an edit is, with nobody looking up it can finish by its own steps; it commits once if it has not yet, and leaves every other thread as it was |
| Executions.EveryHistoryHappens | routertwo/router.go:129-347 | for every sequence of edits, with whatever their disk calls return, there is a run from rest to rest that commits just these edits in this order |
| Executions.LookupsAreStable | routertwo/router.go:367-387 | what is found at a key changes only when an edit that changes it commits; requests that are refused or fail do not matter |
| Executions.BatchIsAtomic | routertwo/router.go:326-344 | from the step a `RemoveNames` began until it commits every name of the prefix it removes is found; after the commit each is missing if and only if no edit that puts it back has committed |
| Executions.NameStaysWithOwnerConcurrently | routertwo/router.go:235-343 | under every interleaving a name that readers find stays with its owner, at every step of an interval, if and only if no edit commits in it by which the owner removes it or the peer with that FQDN comes online |
| Executions.AddedNameIsFound | routertwo/router.go:234-270 | once a successful `AddName` has committed, every lookup finds a route of that name and owner if and only if no edit that ends the name commits |
| Executions.LastRegistrationWinsConcurrently | routertwo/router.go:127-232 | under every interleaving, at every step, the last registration wins by commit order if and only if no `RemoveNames` commits that gets to the FQDN while a session is found there |
| Executions.LastRegistrationWinsAtHosts | routertwo/router.go:127-232 | the same with failing first unlinks allowed, at an FQDN that no committed edit turns into a name |
| Recovery.CrashRecovers | routertwo/router.go:168-180 | after any step every file can be read back, and a restart gives, in a good state, the table before or after the edit in flight or, for `RemoveNames`, the table without a prefix of the owner's names |
| Recovery.RestartAfterCrash | routertwo/router.go:50-107 | `NewRouter` on those files comes up with such a table, every named route bound |
| Recovery.CommittedIsDurable | routertwo/router.go:254-308 | what a committed edit left at a key is there after a crash at any later step, unless another edit that changes that key committed or is in flight; requests that are refused or fail do not matter |
| Sessions.IdleTimerIsExact | ssh/session.go:129-154 | over every interleaving of pokes, disables and firings: armed exactly while neither disabled nor fired, with the deadline one timeout after the last poke or the start |
| Sessions.IdleTimerNeverRearms | ssh/session.go:129-154 | once disabled or fired it is never armed again, and it never fires early |
| Sessions.FiresExactlyWhen | ssh/session.go:20-20 | the timer can fire at a moment if and only if it has neither been disabled nor fired and a minute has gone by since the last sign of life; pokes and disables can come at any time |
| Sessions.Session.Handle | ssh/session.go:57-70 | a new session has had no request, has no ports, is not registered and its timer runs |
| Sessions.Session.PokeTimeout | ssh/session.go:130-144 | a poke postpones the timer unless it is disabled or has fired |
| Sessions.Session.DisableTimeout | ssh/session.go:148-154 | the timer is stopped, or stays fired, and is disabled |
| Sessions.Session.Timeout | ssh/session.go:119-127 | a firing closes the connection |
| Sessions.RequestIsHandled | ssh/session.go:205-245 | the tasks of one tcpip-forward request can be taken one after the other, and together record exactly that port, disable the timer and register once |
| Sessions.Session.Forward | ssh/session.go:205-245 | a tcpip-forward leaves the session as the tasks of that request do; the first one registers with the router as the specification's `Online`, and a failed registration closes the connection |
| Sessions.Session.DialContext | ssh/session.go:343-377 | a channel is opened if and only if the port fits in 32 bits and is among the ports of all tcpip-forward requests the session has had |
| Sessions.Session.End | ssh/session.go:81-85 | the end of a session is `Offline`, then the timer disabled |
| World.StaysConsistent | ssh/session.go:197-252 | every act of sessions, dials and router threads keeps the invariant of the whole system |
| World.ConnectionProvenance | ssh/session.go:343-361 | if a dial opens a channel, its session had received a tcpip-forward for exactly that port, and had called `Online`, with its record stored, before the dial found it; and the owners followed from the name, through entries found at later and later moments since the dial started and on the same port, end at the session's FQDN |
| World.ChannelOpensExactlyWhen | ssh/session.go:343-361 | once a dial has found its session, at any step of any run, a channel opens if and only if the port fits in 32 bits and the session has recorded a tcpip-forward for that very port before |
| World.QuietDialIsDial | routertwo/router.go:110-125 | a dial during which the table does not change looks up, one by one, the names of the chain of owners, and gets where the dial of that table gets, in as many lookups |
| World.DialGetsThrough | routertwo/router.go:110-125 | from any reachable system in which nobody holds the write lock, a dial whose chain of owners ends gets, by acts of its own and in as many lookups as `Dialing` says, to the session that `Dialing` says, or is lost with its answer |
| World.DialOpens | ssh/session.go:343-361 | and then a channel opens if and only if the port fits in 32 bits and is on record, and is denied otherwise |
| World.DialsDoNotHang | routertwo/router.go:116-124 | whatever else goes on, a dial that gives up the read lock goes on with what it found: the owner of a name, the session of a host, or the answer not found or offline |
| World.SessionRegisters | ssh/session.go:222-239 | a session that is about to register can make its call in an idle router, with the effect of the specification's `Online`; if its record is stored it is then found at its FQDN |
| World.OtherEditsHappen | routertwo/router.go:185-347 | and so can every other edit be made |
| World.ServiceIsReached | ssh/session.go:197-252 | from any reachable system with an idle router, a new session can connect, have any 32-bit port forwarded and register, and a dial of its FQDN on that port then opens a channel on it |
| World.BootedIsFresh | routertwo/router.go:50-107 | a router restarted from the files of any good state is a system from which runs begin |
| World.TabledSessionsServe | ssh/session.go:215-239 | every session in either table at any moment, mid-edit included, is at its own FQDN, has a port, has its timer off, and has called `Online` exactly once, with its record stored |
| World.ServingIsForGood | ssh/session.go:222-239 | a session that serves goes on serving and none calls `Online` twice |

## Left out

- SSH transport, channel copying, keepalives, listeners: network plumbing over libraries that are not part of this model. Opening the channel may still fail after the port check.
- Real JSON, file paths, address strings: files are a map from FQDN to record, addresses are pairs of host and port.
- TwinRouter.Directory.Store: a `store` either happens or changes nothing; a file left empty or cut short by a failed encode is not modelled.
- TwinRouter.Router.Offline: a host is a value in the tables, so the last-seen time that the source writes in place before the exchange appears only with the exchange. No reader looks at it.
- TwinRouter.Router.DialContext: the contract covers dials that end, on a table nobody edits meanwhile; `Dialing` says exactly when a dial ends, and `World` has dials while the table is edited. Cancellation by context is not modelled.
- Go's `RWMutex` also makes new readers wait behind a writer that is waiting itself. The machine lets them in, so it has those runs and more.
- Concurrent `Names`: it reads the index under the read lock while edits change it under `editLock` only, so only the sequential behaviour is stated.
- `Replaced`: it is an emitted notification only, sent before the store may fail; what the displaced session does with it is not modelled.
- World: a finished session may still be in the table, because a forward handled after its closing `Offline` can register it; nothing is claimed about that.
- World: one process, started from files; restarts are covered by `Histories` and `Recovery`.
- Routes.ToLower: ASCII letters only.
- cancel-tcpip-forward (section 7.1 of RFC 4254): not handled by the source, so a recorded port means "was forwarded earlier".
- HTTP proxy, certificates, service ports, console and commands: they call the router and the sessions through the methods modelled here and keep no state that the properties speak of.
- Key fingerprints and ssh configuration: a session's FQDN is an immutable string.
