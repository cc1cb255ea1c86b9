# tsv-vpn: a verified model

tsv-vpn keeps L2TP/IPsec tunnels up and advertises the networks behind them to a
tailnet. Its store holds the desired state, its reconciler drives two daemons and
the kernel towards that state, and a health checker, a subnet scanner and a small
web front end surround it. This project models that logic in Dafny and proves what
it promises, for every input, every environment and every run.

`dafny verify dfyconfig.toml` checks everything.

## How it is laid out

| file | what it holds |
|---|---|
| `Common`, `Text`, `Netip` | shared definitions; joined lists, fingerprint text and the order of `sort.Strings`; prefix arithmetic over both address families |
| `Tables`, `Ownership`, `Edits`, `Advertised`, `Store` | the store's tables and operations; the disjointness invariant; what each operation accepts and leaves; the advertised set; the store object |
| `Host` | kernel routes, firewall rules, daemons, clock and command trace; `netcfg.go` over them |
| `Reconciler` | every entry point of the reconciler as a function of its whole state |
| `Manager` | the same as objects with fields and loops, each method proved equal to its function |
| `Agreement`, `Configs`, `Runs`, `Hooks` | kernel agreement over runs, with the fingerprint argument inside it |
| `System`, `Delivery`, `Rendered` | store and reconciler together; each row's fields on their way to the daemons; nothing harmful is rendered |
| `Traces`, `Scripts`, `Backoffs` | dial spacing and the last advertisement; what each tunnel's daemons are told, in order; each record against its history |
| `Convergence`, `Isolation`, `Daemons`, `Wake` | convergence; isolation; charon and xl2tpd; the run loop |
| `Sweep`, `Throttle`, `Sessions`, `Health`, `Acl` | scanner, login throttle, session tokens, health escalation, auto-approver prefixes |

## What the model takes as given

- **Environment.** `Host.Env` decides, from everything run so far, whether a command
  works and how long it takes. The trace grows with every command, so every sequence of
  outcomes is some environment's. Theorems hold for all environments unless they name a
  hypothesis. `Tame`: route and rule deletions never break and a rule check tells
  the truth ("already gone" is an answer, not a break). `LacsWork`: xl2tpd accepts
  changes to its LAC table. `Instant`: commands take no time.
- **The run loop.** Hooks and events may land at any moment, also while a Reconcile is
  running. With `Instant`, the clock runs only while the loop sleeps with an empty nudge
  channel, and not past its timer.
- **Entry points.** `Reconcile`, `PPPUp`, `PPPDown`, `Unhealthy` and `Invalidate` each
  run to completion. `Hooks.UpDuringDialIsHidden` shows what a finer interleaving
  would do, so nothing is claimed for it. Each store operation is one step.
- **Hooks.** Kernel agreement needs up hooks to name a real interface no other tunnel
  holds (`UpHookOk`) and down hooks to name the tunnel's own, an unheld one or none
  (`DownHookOk`). `Hooks.UpExact` and `Hooks.DownExact` show both conditions are exact.
- **Text of prefixes.** net/netip's parser and formatter are values (`Codec`) assumed
  `Faithful`: formatting then parsing is the identity, the text has no comma, bar or
  space, and parsed prefixes are in range. `Netip.FaithfulCodecExists` shows this can
  be met. The three private ranges are the formatted `Acl.PRIVATE`.
- **Reads.** A `Reconcile` reads the store as it then is; each read may fail. Secrets
  are stored in the clear here: encryption is an opaque round trip. Resolver answers
  are arbitrary. The order in which Go's map yields stale tunnels is arbitrary.

## What the proofs turned up

- `ensureRule` takes any failure of `iptables -C` for absence, so a check that breaks
  duplicates the rule (`Host.EnsureRuleExact`; `Host.DuplicatedRule` is an instance).
- A write that fails after a tunnel was disabled keeps the old fingerprint although the
  LAC is already removed; enabling the tunnel again unchanged does not add it back in any
  later run without a daemon restart (`Daemons.LostDefinition`, an instance in
  `Daemons.LoneLost`; `Daemons.ReconcileInStep` gives the exact condition).
- The fingerprint identifies a tunnel exactly when none of its first five fields
  contains `|` (`Configs.IdentifiedIff`); validation admits such fields. The definition it
  is mistaken for ranges over all texts: for a bar in the host or address it has an address
  no resolver returns, and for one in the password it may have an empty password, which the
  store refuses. Subnet edits always show regardless (`Configs.EqualPrintsEqualSubnets`).
- `CreateConnection` leaves the row whose id the new connection carries out of the
  conflict check (`Ownership.CreateWithExistingId`, an instance in
  `Ownership.SharedBySameId`). The web handlers pass id 0, which no row has.
- A route wider than a private block is not covered by the printed access rule
  (`Acl.CoveredIff`, an instance in `Acl.DefaultRouteUncovered`), because the code tests
  overlap, not containment.
- An up hook that fails does not nudge, so its backoff may be served a whole tick late
  (`Wake.QuietFailureWaits`, an instance in `Wake.QuietRun`); every other one is met within a second
  (`Wake.BackoffsServed`).
- The login throttle admits at most nine wrong passwords in any minute, and nine can
  happen: when window and lockout end at the same instant the old window is still open
  (`Throttle.RateBound`, `Throttle.NineInAMoment`).

## Model

| member | source | states |
|---|---|---|
| Netip.Laminar | internal/db/validate.go:61-108 | two prefixes overlap iff they share an address iff one covers the other, in both families |
| Text.SplitJoin | internal/db/connections.go:263-281 | a stored subnet list splits back into exactly the list that was joined |
| Text.JoinInjective | internal/tunnel/reconcile.go:505-528 | comparing comma-joined canonical lists is comparing the lists |
| Text.LeExact | internal/tunnel/reconcile.go:510-511 | the order of sorted lists is the lexicographic one |
| Store.ParseSubnets | internal/db/validate.go:61-79 | accepts exactly the non-empty lists of host-bit-free CIDRs with no two overlapping, and returns their prefixes in order |
| Store.CheckOverlap | internal/db/validate.go:99-108 | clear iff no candidate shares an address with a claim |
| Store.JoinSubnets | internal/db/connections.go:263-274 | the column text is the canonical entries joined |
| Store.Store.ClaimedSubnets | internal/db/connections.go:210-241 | the prefixes of all claims but the excepted row's, or an error iff a stored text does not parse |
| Store.Store.CheckRouteConflicts | internal/db/connections.go:198-208 | corrupt text, conflict or clear, as the tables say |
| Store.Store.CreateConnection | internal/db/connections.go:82-116 | new tables and answer, all error cases in order |
| Store.Store.UpdateConnection | internal/db/connections.go:120-165 | new tables and answer, all error cases in order |
| Store.Store.SetConnectionEnabled | internal/db/connections.go:167-174 | new tables, or not found |
| Store.Store.DeleteConnection | internal/db/connections.go:190-196 | new tables, or not found |
| Store.Store.CreateLocalSubnet | internal/db/subnets.go:52-76 | new tables and answer, all error cases in order |
| Store.Store.AdvertisedRoutes | internal/db/subnets.go:134-168 | the loop with its seen map computes the ordered duplicate-free advertised list |
| Ownership.ConflictsExact | internal/db/connections.go:198-241 | the conflict check passes iff the candidates are apart from every claim of every other row and local subnet |
| Ownership.StoredSubnets | internal/db/connections.go:247-281 | what a write stores reads back as the canonical list and stands for the same prefixes |
| Ownership.CreateThenList | internal/db/connections.go:82-116 | a created connection is listed with its fields and canonical subnets |
| Ownership.UpdateThenList | internal/db/connections.go:118-165 | an updated connection is listed with its new fields; blank secrets keep the stored ones |
| Edits.CreateExact | internal/db/connections.go:82-116 | accepted iff name, host, user, subnets, address and both secrets are fine character by character, no row has the name, and no address is shared with another claim; then one row with just these fields is added under a new id, else nothing changes |
| Edits.UpdateExact | internal/db/connections.go:118-165 | accepted iff a row has the id, no other row has the name, the fields are fine and no address is shared with another claim; then that row has just these fields, blank secrets kept, all others as they were, else nothing changes |
| Edits.EnableExact | internal/db/connections.go:167-174 | needs a row with the id and changes its flag and nothing else |
| Edits.SetIPExact | internal/db/connections.go:176-188 | needs a row with the id and an address or none, and changes that and nothing else |
| Edits.DeleteExact | internal/db/connections.go:190-196 | takes out exactly the row with the id, or answers not found |
| Edits.CreateLocalExact | internal/db/subnets.go:52-76 | accepted iff it is a CIDR without host bits, its address is fine and it shares no address with any claim; then one is added in canonical form with its own address and flag |
| Edits.EnableLocalExact | internal/db/subnets.go:116-122 | needs a local subnet with the id and changes its flag and nothing else |
| Edits.DeleteLocalExact | internal/db/subnets.go:124-130 | takes out exactly the local subnet with the id, or answers not found |
| Edits.ListingExact | internal/db/connections.go:34-50 | the listing is every row, field by field, in the order of the names |
| Ownership.ApplyKeeps | internal/db/connections.go:82-241 | every operation keeps all claims, enabled or not, mutually disjoint; enabling needs no check |
| Ownership.RunKeeps | internal/db/connections.go:82-241 | the same after every sequence of operations from empty tables |
| Ownership.AtMostOneClaim | internal/db/subnets.go:52-130 | in every reachable store an address belongs to at most one claim |
| Ownership.CreateWithExistingId | internal/db/connections.go:210-219 | a create carrying an existing id keeps disjointness iff it is apart from that row |
| Ownership.SharedBySameId | internal/db/connections.go:210-219 | for every prefix, a one-row table and a create with that row's id and subnet: accepted, and two tunnels then claim the prefix |
| Advertised.RoutesCover | internal/db/subnets.go:134-168 | ordered, duplicate-free, and covers an address iff an enabled connection or local subnet does |
| Advertised.RoutesPlain | internal/db/subnets.go:134-168 | every advertised text is canonical, so joining the list loses nothing |
| Advertised.SwitchExact | internal/db/connections.go:167-174 | switching a connection changes the advertised set by exactly its own subnets; switching back restores the list |
| Host.AddRoutesEffect | internal/tunnel/netcfg.go:14-21 | only the listed destinations change, to the interface; all of them if no command breaks |
| Host.RemoveRoutesEffect | internal/tunnel/netcfg.go:23-30 | exactly the listed destinations still on the interface go |
| Host.EnsureRulesEffect | internal/tunnel/netcfg.go:35-42 | missing rules are added once, present ones left alone |
| Host.EnsureRuleExact | internal/tunnel/netcfg.go:68-74 | a rule present once stays single iff the check works or the append breaks too |
| Host.DuplicatedRule | internal/tunnel/netcfg.go:68-74 | with a check that breaks and an append that works, a rule present once is there twice |
| Host.TearDownEffect | internal/tunnel/reconcile.go:408-415 | removes exactly the interface's routes for the subnets and one copy of each of its rules, and issues no other command |
| Host.TearDownConfined | internal/tunnel/reconcile.go:408-415 | in any environment a teardown leaves the daemons, all other destinations' routes and all other interfaces' rules alone |
| Host.TearDownGoesOn | internal/tunnel/reconcile.go:408-415 | a teardown whose route deletions break still removes the rules |
| Host.AddRoutesStops | internal/tunnel/netcfg.go:14-21 | the commands run are those of the list in order, up to the first that is not accepted |
| Host.RemoveRoutesStops | internal/tunnel/netcfg.go:23-30 | the same up to the first that breaks; a route already gone does not stop it |
| Host.DisableNATStops | internal/tunnel/netcfg.go:44-51 | the two deletions in order, the second only if the first did not break |
| Reconciler.BackoffExact | internal/tunnel/reconcile.go:562-565 | the capped 64-bit shift is min(10 s * 2^(k-1), 5 min) for every k >= 1, and monotone |
| Backoffs.RecordExact | internal/tunnel/reconcile.go:262-484 | in every environment and run a tunnel's phase, interface, failure count, retry time and dial time are those its history calls for: failures since it began or came up; min(10 s * 2^(k-1), 5 min) after the last failure, 10 s after going down, none after an edit; failed dials, timeouts, failed up hooks and failed health checks alike |
| Scripts.NeverBare | internal/tunnel/reconcile.go:314-347 | in every run each L2TP connect directly follows an accepted IKE dial of the same tunnel, and each IKE dial a disconnect of it |
| Scripts.DialOutcome | internal/tunnel/reconcile.go:314-357 | a dial whose IKE part is not accepted connects nothing and fails; the tunnel is connecting iff both parts were accepted |
| Scripts.ReconcileScript | internal/tunnel/reconcile.go:137-174 | what one Reconcile tells the daemons about one tunnel, in order: goodbye to a stale one, drop, redefinition and redial of an edited one, definition and dial of a new one, a dial of any other only if due |
| Manager.Network.AddRoutes | internal/tunnel/netcfg.go:14-21 | the loop with early exit computes the specified world and answer |
| Manager.Network.RemoveRoutes | internal/tunnel/netcfg.go:23-30 | the loop with early exit computes the specified world and answer |
| Manager.Network.EnableNAT | internal/tunnel/netcfg.go:35-42 | the loop with early exit computes the specified world and answer |
| Manager.Network.DisableNAT | internal/tunnel/netcfg.go:44-51 | the loop with early exit computes the specified world and answer |
| Manager.Manager.Drop | internal/tunnel/reconcile.go:262-282 | whole new state |
| Manager.Manager.Step | internal/tunnel/reconcile.go:284-312 | whole new state, every phase |
| Manager.Manager.Dial | internal/tunnel/reconcile.go:314-347 | whole new state, both failure points |
| Manager.Manager.Fail | internal/tunnel/reconcile.go:359-380 | whole new state |
| Manager.Manager.StaleTunnels | internal/tunnel/reconcile.go:176-188 | takes out exactly the tunnels nobody asks for, each once, in any order |
| Manager.Manager.WriteConfigs | internal/tunnel/reconcile.go:229-258 | whole new state and the changed list, every error exit |
| Manager.Manager.Advertise | internal/tunnel/reconcile.go:505-528 | whole new state and answer |
| Manager.Manager.Reconcile | internal/tunnel/reconcile.go:137-174 | whole new state and answer for some order of the stale tunnels |
| Manager.Manager.PPPUp | internal/tunnel/reconcile.go:419-455 | whole new state, including part-way failures |
| Manager.Manager.PPPDown | internal/tunnel/reconcile.go:457-484 | whole new state |
| Manager.Manager.Unhealthy | internal/tunnel/reconcile.go:488-503 | whole new state |
| Configs.EqualPrintsEqualSubnets | internal/tunnel/reconcile.go:567-575 | equal fingerprints have equal subnet lists, whatever the other fields hold |
| Configs.IdentifiedIff | internal/tunnel/reconcile.go:567-575 | a fingerprint tells a definition from all others iff none of its first five fields contains a bar |
| Configs.SkipExact | internal/tunnel/reconcile.go:229-242 | nothing changed and equal sizes iff the rendered map is the wanted map, Go's missing-key default included |
| Runs.NeverStranded | internal/tunnel/reconcile.go:159-172 | in any environment, when `step` replaces a live tunnel's subnets the new list equals the old one |
| Runs.ReconcileKeeps | internal/tunnel/reconcile.go:137-188 | a Reconcile, succeeding or failing anywhere, keeps the invariant and the completeness of routes and rules |
| Hooks.UpKeeps | internal/tunnel/reconcile.go:419-455 | an up hook, completed or undone part-way, keeps the invariant |
| Hooks.DownKeeps | internal/tunnel/reconcile.go:457-484 | a down hook keeps the invariant |
| Hooks.UpExact | internal/tunnel/reconcile.go:419-455 | a successful up hook keeps the agreement iff it names a real interface no other tunnel holds and the tunnel holds that one or none |
| Hooks.DownExact | internal/tunnel/reconcile.go:457-484 | a down hook keeps the agreement iff it names none, or one no other tunnel holds and, of a tunnel that is up, its own |
| Hooks.KernelAgreement | internal/tunnel/reconcile.go:262-484 | after every legal run routes are exactly those of up tunnels on their own interface, each rule is there once per up interface and never otherwise, and a tunnel has an interface iff up; with vanishing interfaces nothing leaks |
| Hooks.NoStolenRoute | internal/tunnel/reconcile.go:419-442 | in any environment an up hook, completed or failed, leaves every other tunnel's record and route entries, and its rules unless it names that tunnel's interface |
| Hooks.UpMeans | internal/tunnel/reconcile.go:419-455 | in any environment an up hook answers success iff the tunnel is known and then up on that interface with every route and both rules in place; otherwise it is failed and holds none |
| Hooks.UpDuringDialIsHidden | internal/tunnel/reconcile.go:337-346 | an up hook before the dial's last lock section leaves a tunnel with an interface that is not up |
| System.StoreGivesGoodConns | internal/db/connections.go:34-50 | what the store keeps disjoint reaches the reconciler as unique names and disjoint canonical lists |
| System.NeverAmbiguous | internal/tunnel/reconcile.go:137-188 | in every environment, with any hooks and however far store and reconciler have drifted apart, all tunnels' prefixes are disjoint: an address lies in at most one subnet of one tunnel |
| System.EditsNeverStrand | internal/tunnel/reconcile.go:159-172 | in every reachable state of every environment, the subnets each step of the next Reconcile gives a live tunnel are those it had, and a tunnel with an interface afterwards had it before with the same subnets |
| System.NoRouteStolen | internal/tunnel/reconcile.go:419-442 | in every reachable state of every environment, no up hook, well-behaved or not, changes another tunnel's record or route entries |
| System.StoreIsServed | internal/tunnel/reconcile.go:137-174 | after a Reconcile that reads the store and succeeds, the tailnet's last accepted list is what the store advertises and the tunnels are the enabled rows with their subnets, whatever failed before |
| Delivery.RowsReachDaemons | internal/tunnel/reconcile.go:190-258 | in every reachable state of every environment a Reconcile that reads and writes remembers each enabled row's fingerprint field by field, loads charon with a definition carrying the row's own host, secrets, user and subnets and the resolved address, and gives xl2tpd one for exactly the rows whose fingerprint is new |
| Rendered.AlwaysSafe | internal/db/validate.go:24-60 | in every reachable state no row, rendered file or daemon definition has a quote or control character in a field, a space in host or user, or an empty secret |
| System.OneRoutePerAddress | internal/tunnel/reconcile.go:137-188 | with tame teardowns and legal hooks, an address matches at most one installed route in every reachable state |
| System.SystemKernelExact | internal/tunnel/reconcile.go:137-484 | kernel agreement with store edits interleaved anywhere |
| Traces.DialSpacing | internal/tunnel/reconcile.go:284-380 | in every environment and run two dials of a tunnel are at least 10 s apart unless its SA was terminated in between; no wait exceeds what the failures call for |
| Traces.AdvertisementCurrent | internal/tunnel/reconcile.go:505-528 | after a Reconcile that succeeds the list last accepted by the tailnet is the current one, whatever pushes failed before |
| Convergence.Converges | internal/tunnel/reconcile.go:137-174 | after a Reconcile that succeeds the tunnels are the enabled names with current subnets, rendered is their fingerprints and the tailnet was told, in any environment |
| Convergence.QuietUntilDue | internal/tunnel/reconcile.go:284-312 | from there the next Reconcile changes nothing and runs nothing iff no tunnel is due |
| Convergence.Idempotent | internal/tunnel/reconcile.go:137-174 | with instantaneous commands a second Reconcile does nothing, whatever dials failed in the first |
| Isolation.LiveTunnelUntouched | internal/tunnel/reconcile.go:152-172 | in any environment, whatever breaks meanwhile, an up tunnel with an unchanged fingerprint keeps its record, no command names it, its interface or its destinations, and its routes and rules are exactly as they were |
| Isolation.AlwaysIsolated | internal/tunnel/reconcile.go:137-174 | the same in every state that store edits, Reconciles, hooks and restarts lead to in every environment; only up hooks need to be well-behaved |
| Daemons.ReconcileInStep | internal/tunnel/reconcile.go:152-169 | the daemons stay in step with the rendered map iff the write succeeds or no stale tunnel was rendered |
| Daemons.RedefineLacs | internal/tunnel/reconcile.go:161-169 | removing before adding leaves xl2tpd with the new definition although it ignores a second add |
| Daemons.EveryTunnelDefined | internal/tunnel/reconcile.go:155-173 | after such runs a successful Reconcile leaves every enabled tunnel defined in xl2tpd with the wanted fingerprint |
| Daemons.LostDefinition | internal/tunnel/reconcile.go:152-158 | a rendered tunnel disabled over a failed write and enabled again unchanged stays undefined in xl2tpd through every later run without a restart |
| Daemons.LoneLost | internal/tunnel/reconcile.go:152-158 | one such run from an empty host: three Reconciles, the last one successful, and the tunnel is not defined |
| Daemons.InvalidateReloads | internal/tunnel/reconcile.go:530-537 | whatever the daemons came back with, a successful Reconcile after Invalidate has loaded every wanted definition in charon and defined each in xl2tpd |
| Wake.NextRetry | internal/tunnel/reconcile.go:122-135 | the sleep is the tick or the shortest pending backoff, at least a second |
| Wake.WaitUnique | internal/tunnel/reconcile.go:122-135 | the sleep does not depend on map order and lies between a second and the tick |
| Wake.NudgeServed | internal/tunnel/reconcile.go:90-118 | with a nudge in the channel the loop's next step after ending the current Reconcile starts a new one, with no time passing before it |
| Wake.NudgeTaken | internal/tunnel/reconcile.go:97-118 | that step is always possible, whatever the current Reconcile reads |
| Wake.EventServed | internal/tunnel/reconcile.go:457-537 | a down hook or failed health check of a known tunnel, or a daemon restart, is followed by a Reconcile before any time passes |
| Wake.BackoffsServed | internal/tunnel/reconcile.go:97-135 | in every run a backoff a second past its end was met by a Reconcile that started within that second; one set by a failing up hook, within a tick |
| Wake.NeverOverdue | internal/tunnel/reconcile.go:97-135 | in every run whose Reconciles read and load, no waiting tunnel is a second overdue, a quietly failed one no tick |
| Wake.SleepExact | internal/tunnel/reconcile.go:97-118 | in every run the next Reconcile starts within five seconds of one that failed, within a tick of one that succeeded, and within the sleep the pending backoffs ask for; exactly then if no nudge comes first |
| Wake.QuietFailureWaits | internal/tunnel/reconcile.go:429-436 | the exception is real: an up hook that fails while the loop sleeps leaves its tunnel overdue with no Reconcile started |
| Wake.QuietRun | internal/tunnel/reconcile.go:429-436 | one such run from the start: a dial, a thirty-second sleep, an up hook whose route breaks, and a tunnel overdue |
| Sweep.Hosts | internal/discover/sweep.go:29-46 | exact ascending list for IPv4 prefixes of length 22 to 32, 1 to 1022 long, both refusals, and termination at the last address |
| Sweep.HostsMeaning | internal/discover/sweep.go:29-46 | membership: the prefix's addresses less first and last up to length 30, each once |
| Sweep.StepKeeps | internal/discover/sweep.go:60-95 | every step of dispatcher, workers and drain conserves hosts and answers and keeps the closing order |
| Sweep.NoSendOnClosed | internal/discover/sweep.go:75-95 | nothing is sent on a closed channel, cancelled or not |
| Sweep.NoDeadlock | internal/discover/sweep.go:84-95 | until the job is done some step is possible |
| Sweep.SweepComplete | internal/web/scan.go:148-172 | every run is finite and ends done; done implies every sent result is in the job; no host is pinged or reported twice, no more are in flight than workers were asked for, and the job holds an error iff hosts were left out; uncancelled, every host is pinged once and every responder reported once |
| Throttle.PruningUnobservable | internal/web/auth.go:53-98 | the pruned table answers every call as a never-pruned one would |
| Throttle.RateBound | internal/web/auth.go:53-98 | no half-open minute in which the client does not succeed admits more than 2*5-1 of its wrong passwords, whatever came before it and whatever right passwords it refused |
| Throttle.TenTakeAMinute | internal/web/auth.go:65-83 | ten counted failures in a row take at least a minute |
| Throttle.AdmittedByHistory | internal/web/auth.go:53-98 | the pruned table lets a login through iff the bare history of the client's counted failures does not lock it out |
| Throttle.RefusedIff | internal/web/auth.go:53-83 | a login, right or wrong, is refused iff the client's fifth failure of a window, as the history alone tells it, came less than a minute before it, whatever happened in between |
| Throttle.NineInAMoment | internal/web/auth.go:53-83 | a sequence of fourteen logins of which nine are admitted within a nanosecond, so the bound is reached |
| Throttle.CountBelowLimit | internal/web/auth.go:65-83 | the stored count is always below five |
| Sessions.ValidExact | internal/web/auth.go:114-145 | a token is valid iff granted, not run out, and not logged out or revoked since |
| Sessions.Sessions.PruneAttempts | internal/web/auth.go:91-98 | the deleting loop leaves exactly the records that have not run out |
| Sessions.Sessions.LoginAllowed | internal/web/auth.go:53-63 | the wait a never-pruned table of all calls so far would give |
| Sessions.Sessions.LoginFailed | internal/web/auth.go:65-83 | the table keeps standing for the history of calls, with this failure added |
| Sessions.Sessions.GrantToken | internal/web/auth.go:114-126 | the token table keeps standing for the history of calls, with this grant added |
| Sessions.Sessions.Valid | internal/web/auth.go:128-133 | true iff the history has a grant of the token that has not run out and no logout or revocation since |
| Sessions.Sessions.ExpireTokens | internal/web/auth.go:176-183 | the deleting loop leaves exactly the tokens that have not run out |
| Health.CountIsRow | internal/health/check.go:142-171 | the stored count is the run of unanswered pings since the last answer, not-up, prune or escalation, always below three |
| Health.EscalatesExactly | internal/health/check.go:108-134 | a tunnel is reported exactly at every third unanswered ping in a row |
| Health.PassExact | internal/health/check.go:57-69 | a pass over the connections reports exactly the enabled ones with an address whose tunnel is up on an interface and did not answer for the third time in a row |
| Health.Checker.CheckAll | internal/health/check.go:57-69 | the walk prunes first, then checks each enabled connection with an address in order; its reports and counts are those of the history |
| Health.Checker.Check | internal/health/check.go:108-134 | the counts keep standing for the history with this check, and the tunnel is reported iff the history calls for it |
| Health.Checker.PruneNames | internal/health/check.go:159-171 | the deleting loop forgets exactly the names no connection has |
| Acl.CoveringPrefixes | internal/web/tailnet.go:145-179 | the nested loops with break compute the specified list: marked blocks in order, then the sorted rest, or all blocks when nothing parses |
| Acl.CollectedSpec | internal/web/tailnet.go:148-165 | the blocks marked are exactly those some route overlaps first, the rest exactly the canonical routes that overlap none, each once |
| Acl.CoveringExact | internal/web/tailnet.go:145-179 | with a parseable route: the private blocks some route overlaps before any other, in order, then the canonical routes that overlap none, ascending and each once |
| Acl.NothingListed | internal/web/tailnet.go:175-177 | with no parseable route: 10.0.0.0/8, 172.16.0.0/12 and 192.168.0.0/16 |
| Acl.CoveredIff | internal/web/tailnet.go:145-179 | a parseable route is inside a returned prefix iff it is not wider than a private block |
| Acl.DefaultRouteUncovered | internal/web/tailnet.go:145-179 | 0.0.0.0/0 alone is not covered by what is returned for it |
| Acl.NoIdleBlock | internal/web/tailnet.go:145-179 | with a parseable route no private block is returned that no route overlaps |

## Left out

- Lock sections finer than one entry point; the strong invariants do not hold there.
- Tunnel records are values in the map, not shared references: a hook still holding the record of a removed tunnel is not captured.
- `connection_status` rows: a mirror of the phase that breaks when a name is reused between passes.
- `Prerender` and the rendered text of the daemon configs: the daemons' parsers are not in the repository.
- Routes and rules the program did not install; only its own are modelled.
- `iptables` rule arguments: the two rules of an interface are two constructors, since only the interface varies.
- `swanctl --initiate`, connect and disconnect have no modelled effect beyond their answer, their time and the trace.
- Encryption of secrets, bcrypt, HTTP handlers, templates, logging and process supervision: plumbing around the modelled logic.
- Raw ICMP, the bridge-network probe and name lookup: a ping is an arbitrary result.
- `CheckSubnet` and `RecordSubnetCheck`: nothing escalates from a local subnet.
- Schema migration, the scan view's sort and scan retention: would only add easy members.
- Setting a local subnet's health-check address, and description and time columns: they carry no claim.
- Rendered.AlwaysSafe: says nothing of the resolved address, which is the resolver's answer, nor of files that lay on disk before the first start.
- 64-bit wrap-around of row ids, failure counts and times; only the backoff shift is modelled with its width.
- Wake.NeverOverdue: takes commands as instantaneous; a Reconcile that fails before its steps serves no tunnel, which is why it asks that they go through (`Wake.BackoffsServed` does not).
- Throttle.RateBound: takes the check and the record of one login as one step; concurrent logins of one client may interleave them.
- Daemons.EveryTunnelDefined: needs xl2tpd to accept every change, because a failed add is only logged; it needs nothing of the other commands or of the hooks.
