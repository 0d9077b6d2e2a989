# Verified model of aw-remote-host

A Dafny 4.11 model of the parts of aw-remote-host in which a wrong order, a missed
branch or an unlucky failure costs most: the policy-routing engine that moves
container traffic into an exit gate and must hold the host still, the firewall
compiler and its two backends, the concurrent session and frame layer, the storage
algorithms (chunked transfer, workspace sync, log rotation), and the small protocols
around them (exec jobs, the dead-man's switch, the reconnect loop, the header codec,
shell quoting, the version guard).

`dafny verify dfyconfig.toml` checks everything. There is one module a component:

| file | what it models |
|---|---|
| `RuleTable`, `RouteEngine`, `RouteInstall`, `RouteTheorems`, `Exclusions`, `ContainerNetworks`, `Ipv4` | `internal/vpn/exit.go`, `internal/vpn/containers.go`: the `ip rule` table, its edits command by command, and what every reachable table does to a packet |
| `Firewall`, `FirewallBackends` | `internal/firewall`: the compiled list, the two spellings, the live chains |
| `TcpSessions`, `TunnelFrames`, `Reconnect`, `HeaderCodec` | `internal/tcpproxy`, `internal/tunnelproxy`, `internal/link` |
| `TreeSync`, `ChunkTransfer`, `LogRotation` | `internal/ops/ops.go`, `internal/ops/ops_fs.go`, `internal/rlog/rlog.go` |
| `ExecJobs`, `Deadman`, `Quoting`, `Versions` | `internal/ops/ops_exec.go`, `internal/vpn/deadman.go`, `internal/updater/updater.go`, `internal/state/state.go` |
| `StableSort`, `Sequences`, `JsonValues`, `Wrappers` | sorting by its promise, lists, decoded JSON, options and results |

Code that changes things step by step is a class with methods, proved against a
specification; goroutines are transition systems whose steps are the critical
sections, callbacks and blocking calls; the rest is functions. Anything the outside
world decides is a parameter over which every statement is quantified: the fate of
each command (carried out, refused, or carried out and still reported as failed),
what a failing file-system call leaves behind, which goroutine runs next, what a
server answers, and the order in which a map is iterated.

## Where the code and its documentation part

The code is what is modelled. Where a comment promises more, the condition under
which the promise holds is proved, in both directions:

- "The host's default route stays in the main table for the entire life of the
  selection" (exit.go:62-67): whatever rules of this module are in the table, an unmarked
  host packet enters the tunnel exactly when a gate is selected, the local table has no
  route for it, and main has none either or no bypass or exclusion sends it there
  (`RouteTheorems.HostLeaksExactly`). "There is no window, not even a millisecond"
  (exit.go:458-464) fails when a selection is applied over an earlier one: the opening
  clear takes the earlier bypass out while the gate is still selected
  (`RouteTheorems.OpeningWindowExactly`, `RouteTheorems.ReapplicationLeaks`).
- "Any failure rolls the whole set back" (exit.go:470-472): when the environment obeys
  after the failure, the rollback is complete if and only if the state it starts from has
  at most 63 rules at each owned priority, and an incomplete one leaves the bypass behind
  (`RouteInstall.Rollback`, `RouteInstall.ApplyRoutes`). It is complete whichever rule
  fails if and only if the plan has at most 63 exclusions and at most 63 containers
  (`RouteTheorems.EveryRollbackCompleteExactly`); with 64 exclusions and a refused
  container rule it stops half way (`RouteTheorems.RollbackStopsHalfWay`). With exactly 64
  rules at a priority all are removed and the call still fails
  (`RouteEngine.ClearRulesAtPriority`).
- The mesh stays reachable under the bypass exactly while rule 5259 is in the table
  (`RouteTheorems.MeshHeldExactly`).
- The two firewall backends agree on a rule exactly when it has a port if and only if
  it has a protocol, and its ports are a range from 0 to 65535 in order: nft drops the
  protocol match of a rule without a port, iptables refuses a port without a protocol,
  and neither takes another range, which nothing upstream rules out
  (`Firewall.SpellingsAgreeExactly`).
- A jump is inserted "exactly once" (iptables.go:74): a hook comes to jump to a chain
  twice exactly when a check for a jump that is there goes wrong and the insert is
  carried out (`FirewallBackends.OneJumpExactly`).
- A tcp read loop that fails calls onEOF exactly when its id names some session, which
  need not be its own (`TcpSessions.ReportsExactly`, `TcpSessions.StaleReport`).
- "Accept-and-discard, don't error the process" (ops_exec.go:113): a write that
  straddles the cap is answered with a short count (`ExecJobs.NeverShortExactly`), so
  the copy fails, and a process that succeeded is recorded as exited with -1
  (`ExecJobs.CodeIsTheProcessesExactly`).
- CloseAllTCP tears down "every session" (tcpproxy.go:151-153): however everybody goes on
  and finishes, every connection is closed, if and only if no dial is in flight at the
  call (`TcpSessions.CloseAllSufficesExactly`); one that is can be stored afterwards and
  stay open (`TcpSessions.DialInFlightStaysOpen`).
- A wait is min(Max, Min * 2^(n-1)) from the second on; the first is Min even above
  Max (`Reconnect.WaitIsCappedExactly`).
- powerShellQuote is undone exactly for values without typographic single quotes
  (`Quoting.PowerShellQuoteExactly`).
- A disarm that cannot read a live switch's command line reports success and drops its
  record (`Deadman.DisarmKeepsExactly`).

## Model

| member | source | states |
|---|---|---|
| RouteEngine.RuleKernel.Add | internal/vpn/exit.go:482-497 | one `ip rule add`: obeyed, refused, or carried out and reported as failed; an added rule goes behind those of its own priority |
| RouteEngine.RuleKernel.Delete | internal/vpn/exit.go:544-553 | one `ip rule del priority`: the first rule at the priority goes, and only the kernel says that there is none |
| RouteEngine.ClearRulesAtPriority | internal/vpn/exit.go:541-557 | whatever fails, every state in between is the table less its first rules at that priority; a success leaves none there and all else in order; undisturbed it succeeds exactly with at most 63, and with 64 removes all and fails |
| RouteEngine.ClearRouteRules | internal/vpn/exit.go:529-539 | the states in between are an unwinding: each is the one before or lacks its first rule at an owned priority, in the order 5259, 5260, 5261, 5265; a success leaves exactly everybody else's rules and counts the rest; undisturbed it succeeds if and only if no owned priority has more than 63 |
| RouteEngine.UnwoundParts | internal/vpn/exit.go:99-102 | in every state of an unwinding, a rule of this module other than a bypass is left only while every bypass rule is, and other rules are as they were: the bypass goes last |
| RouteEngine.GoneSince | internal/vpn/exit.go:541-557 | over the successive states of a clear, a rule that is gone stays gone |
| RouteInstall.Rollback | internal/vpn/exit.go:477-480 | the states are an unwinding of the stage it starts from, each of them keeping the host safe and other rules as they were; undisturbed, it is complete if and only if that stage has at most 63 rules at each owned priority, and leaves the bypass behind when it is not |
| RouteInstall.Install | internal/vpn/exit.go:482-487 | one add succeeds exactly when obeyed; otherwise the states are what the add left, the stage before or after it, and then one unwinding of that, complete, when undisturbed, if and only if what the add left could be cleared |
| RouteInstall.InstallNext | internal/vpn/exit.go:482-487 | the same, added to the stages so far |
| RouteInstall.InstallEach | internal/vpn/exit.go:488-497 | the exclusions, or the containers, one by one up to the first that fails, whose rollback is complete, when undisturbed, if and only if what that add left could be cleared |
| RouteInstall.InstallAll | internal/vpn/exit.go:482-498 | the adds in order, bypass first and containers last: on success exactly the stages, on failure the stages before the rule that failed and one rollback; all states safe; obedience after the failure makes the rollback complete if and only if what the failed add left has at most 63 rules at each owned priority, as it has in every plan with at most 63 exclusions and 63 containers, and otherwise leaves the bypass there |
| RouteInstall.PlanByNumber | internal/vpn/exit.go:482-497 | the rules of a plan, command by command: priority, selector and table of each |
| RouteInstall.ApplyRoutes | internal/vpn/exit.go:473-499 | over any table and any failures: the opening states unwind; the later ones are exactly all stages in order, or those before the failing rule and then one rollback, each host-safe and with foreign rules as they were; a success leaves exactly the installed table; an obedient run succeeds if and only if the table could be cleared; after a failure followed by obedience the rollback is complete if and only if what it started from could be cleared, and otherwise leaves the bypass behind |
| RouteInstall.StageIsSafe | internal/vpn/exit.go:482-497 | after any number of adds the table is sorted, other rules are untouched, exactly one bypass is there and nothing of this module without it |
| RouteInstall.RollbackIsSafe | internal/vpn/exit.go:529-557 | from any stage of the installation, no state of a rollback has a rule of this module without the bypass |
| RouteInstall.StageClearable | internal/vpn/exit.go:477-480 | a partly installed plan can be cleared when the whole plan can |
| RouteTheorems.HostHeld | internal/vpn/exit.go:62-67 | with the bypass in a safe table, traffic from outside the containers to outside the mesh, with a main route, resolves locally or in main, gate or no gate; marked packets too, when what diverts them comes behind a rule that sends them to main, as tailscale's does |
| RouteTheorems.BaseMarkedToMain | internal/vpn/exit.go:53-60 | the kernel's and tailscale's own rules send marked packets to main ahead of anything that diverts them |
| RouteTheorems.HostHeldThroughout | internal/vpn/exit.go:450-499 | in every state of an installation, with whatever routes table 52 has at that moment: the bypass is there and such a packet, marked or not, is held, or this and every later state are other people's rules alone; until the rule that failed it is always the former |
| RouteTheorems.BypassWithoutGaps | internal/vpn/exit.go:450-499 | the bypass is there from its successful add until the rollback deletes it: no state without it precedes one with it |
| RouteTheorems.HostLeaksExactly | internal/vpn/exit.go:62-67 | whatever rules of this module are over the base table, a packet that no container rule takes enters table 52 if and only if a gate is selected, the packet is unmarked, local has no route for it, and main has none or neither the bypass nor an exclusion sends it there |
| RouteTheorems.OpeningWindowExactly | internal/vpn/exit.go:473-480 | in every state of the clear that opens a re-application, an unmarked host packet enters table 52 if and only if a gate is selected, local has no route, and the bypass is gone or main has no route |
| RouteTheorems.ReapplicationLeaks | internal/vpn/exit.go:473-480 | an input that fails: any earlier plan taken out with its gate still selected, and a packet that main could carry |
| RouteTheorems.HostWithoutMainRouteLeaks | internal/vpn/exit.go:62-67 | an input that fails: a gate selected, and a main table without a default route |
| RouteTheorems.MeshHeldExactly | internal/vpn/exit.go:69-74 | under the bypass a peer with a main route is reached through 52 if and only if 5259 is in the table |
| RuleTable.MeshExactly | internal/vpn/exit.go:89-91 | the mesh is 100.64.0.0/10, by the octets of an address |
| RouteTheorems.LeftoversInert | internal/vpn/exit.go:507-528 | any collection of this module's rules, over the kernel's and tailscale's, routes every non-mesh packet as without them while table 52 has no default |
| RouteTheorems.InstalledExactly | internal/vpn/exit.go:473-499 | a table is the installed one if and only if it is sorted, has exactly the plan's rules at the owned priorities in order, and everybody else's rules in order |
| RouteTheorems.ReapplyChangesNothing | internal/vpn/exit.go:473-499 | applying a plan twice, or over another plan, gives what applying it once gives; clearing gives back what was there |
| RouteTheorems.InstalledClearableExactly | internal/vpn/exit.go:541-557 | an installed plan can be cleared if and only if it has at most 63 exclusions and at most 63 containers |
| RouteTheorems.EveryRollbackCompleteExactly | internal/vpn/exit.go:470-499 | whichever rule of the plan fails, what it leaves can be cleared, if and only if the plan has at most 63 exclusions and at most 63 containers |
| RouteTheorems.RollbackStopsHalfWay | internal/vpn/exit.go:541-557 | an input that fails: 64 exclusions, the container rule refused and everything else carried out; the bypass is left behind |
| RouteTheorems.InstalledMeansPolicy | internal/vpn/exit.go:53-67 | with a gate, the lookup refines the policy: mesh to 52, else excluded destination to main, else container source to 52, else main, with local and marked packets ahead |
| RouteTheorems.Decides | internal/vpn/exit.go:53-67 | first-match lookup: a rule decides when every settling rule at or ahead of it agrees with it |
| Exclusions.PlanExclusions | internal/vpn/exit.go:293-363 | refused, with the error that says so, exactly for a URL without a host, a failed lookup, a lookup without addresses, or a malformed --exclude; otherwise every prefix asked for and no other, once, for the first of its reasons; each address of the control plane is there for that reason |
| Exclusions.AddAllKeepsFirsts | internal/vpn/exit.go:300-307 | the add closure keeps every prefix asked for, once, with its first reason |
| Exclusions.ProtectedDestinations | internal/vpn/exit.go:310-350 | under any plan that PlanExclusions returns, with a gate selected, traffic to any address of its endpoint and to RFC 1918 and link-local space resolves in main wherever it comes from, unless the address is in the mesh |
| Exclusions.PrivateBlocksExactly | internal/vpn/exit.go:126-131 | the private blocks hold exactly 10/8, 172.16/12, 192.168/16 and 169.254/16, by the octets of an address |
| ContainerNetworks.Walk | internal/vpn/containers.go:217-237 | the recursive walk adds every subnet in the document, once, and nothing else |
| ContainerNetworks.SubnetsExactly | internal/vpn/containers.go:217-237 | those are exactly the CIDRs in text fields named subnet, at any depth, by the way there through objects and lists |
| ContainerNetworks.ParseNetworkSubnets | internal/vpn/containers.go:210-240 | exactly the subnets in the document, sorted, without repeats |
| ContainerNetworks.ContainerSubnets | internal/vpn/containers.go:257-271 | exactly the prefixes of all networks, sorted, without repeats |
| ContainerNetworks.MembersDetermine | internal/vpn/containers.go:257-271 | map iteration order never shows: the result is determined by its members |
| Firewall.BuildRuleset | internal/firewall/firewall.go:154-186 | the list the three loops build means, in either spelling and for every packet: a vital one is accepted; any other is accepted or dropped by the action of the first user rule, by priority and then arrival, whose own interface, source, protocol and ports match it; without one it is dropped under lockdown and falls through otherwise |
| Firewall.RulesetMeans | internal/firewall/firewall.go:171-183 | the same of one packet |
| Firewall.SomeForemost | internal/firewall/firewall.go:167-168 | where any user rule matches, one is first by priority and arrival, so these cases are all there are |
| Firewall.UserRulesInOrder | internal/firewall/firewall.go:167-181 | between baseline and tail stands every user rule once, priorities ascending, ties in order of arrival |
| Firewall.ArrivalOrderIrrelevant | internal/firewall/firewall.go:167-181 | rules with pairwise distinct priorities compile the same in any order of arrival |
| Firewall.NftMatches | internal/firewall/nft.go:126-149 | exactly the packets a rule means to nft: no protocol match unless it has a port |
| Firewall.AcceptsExactly | internal/firewall/iptables.go:118-140 | a spelled rule is one the tool takes exactly when a port that is spelled is a range from 0 to 65535 in order and, for iptables, comes with a protocol |
| Firewall.IptablesMatches | internal/firewall/iptables.go:118-140 | exactly the packets that a rule iptables takes means to it: protocol and port matched separately |
| Firewall.SpellingsAgreeExactly | internal/firewall/nft.go:126-149 | both backends take the rule and match the same packets if and only if it has a port exactly when it has a protocol, and a port range that is in order and below 65536 |
| Firewall.RulesetAcceptedExactly | internal/firewall/firewall.go:154-186 | a compiled list has only rules that the tool takes if and only if each of the user's rules is one |
| Firewall.BackendsAgree | internal/firewall/iptables.go:118-140 | every rule list whose rules have a protocol exactly when they have a port gets one verdict from both backends on every packet |
| Firewall.VitalSurvives | internal/firewall/firewall.go:154-166 | no beginning of any compiled list drops an established, loopback, tcp/22 or RFC 1918 tcp/8443 packet, and the whole list accepts it |
| FirewallBackends.EnsureJump | internal/firewall/iptables.go:80-93 | the hooks after it, exactly: as they were when the check says that the jump is there, else with one more jump at the head when the insert is carried out; success leaves the hook jumping to the chain |
| FirewallBackends.OneJumpExactly | internal/firewall/iptables.go:75-93 | over any run of checks and inserts, no hook jumps to a chain twice if and only if none did and no check for a jump that is there went wrong with its insert carried out |
| FirewallBackends.Fill | internal/firewall/iptables.go:109-116 | rule by rule, the chain holds a beginning of the list and no other chain changes; obedient, it completes if and only if every rule is one the tool takes |
| FirewallBackends.ApplyIptablesChain | internal/firewall/iptables.go:32-40 | one chain created or flushed, hooked and filled: every state holds a beginning of a compiled list |
| FirewallBackends.ApplyForward | internal/firewall/iptables.go:41-49 | the forward chain goes into DOCKER-USER when that is there and the question is answered, leaving FORWARD alone, and into FORWARD when not, leaving DOCKER-USER alone |
| FirewallBackends.ApplyIptables | internal/firewall/iptables.go:29-50 | whatever fails, each owned chain keeps what it held or holds a beginning of the compiled list, and nobody else's changes; success puts the user's rules in force in both chains, hooks the first into INPUT and the second into DOCKER-USER if the question for that was answered and it is there, and into FORWARD otherwise, and leaves every other hook alone; obedient, it succeeds if and only if every rule with a port has a protocol and a port range that is in order and below 65536 |
| FirewallBackends.ApplyNft | internal/firewall/nft.go:43-71 | the same for nft, creating the table and chains when missing; a failed modprobe and a failed chain creation are passed over; obedient after that, it succeeds if and only if every rule with a protocol and a port has a range that is in order and below 65536 |
| FirewallBackends.ApplyMany | internal/firewall/iptables.go:29-50 | the same over any sequence of Apply calls failing anywhere: the states of the chains, and the hooks as the result of the checks made in it; hooks only gain jumps to the two chains, and no second one to the same chain while every check is answered |
| FirewallBackends.HooksOverRun | internal/firewall/iptables.go:75-93 | over such a run a hook only gains jumps to the two chains, at its head, and never a second one to the same chain as long as every check is answered |
| FirewallBackends.NeverDropsVital | internal/firewall/firewall.go:135-166 | from sound chains, no state of any such sequence drops a vital packet |
| TcpSessions.StepKeepsInv | internal/tcpproxy/tcpproxy.go:68-125 | every step of open, read loop, close and close-all, in any order, keeps the session invariant |
| TcpSessions.EveryRun | internal/tcpproxy/tcpproxy.go:68-125 | in every interleaving each connection is in the map under its own id only, or closed, or about to be closed by whoever took it out; EOF at most once; chunks sent concatenate to the bytes read, none empty or over 32 KiB |
| TcpSessions.NothingLeaks | internal/tcpproxy/tcpproxy.go:140-149 | once nobody is between taking a connection out and closing it, everything outside the map is closed |
| TcpSessions.CloseAllExactly | internal/tcpproxy/tcpproxy.go:151-162 | after a close-all, with no dial begun since and everybody done, every connection is closed if and only if none of the dials in flight at that moment has left its connection in the map |
| TcpSessions.CloseAllSufficesExactly | internal/tcpproxy/tcpproxy.go:151-162 | however everybody goes on and finishes after a close-all, without another dial, every connection is closed, if and only if no dial was in flight when it was called |
| TcpSessions.CanEndOpen | internal/tcpproxy/tcpproxy.go:68-90 | from any reachable state a dial in flight has a way for everybody to finish that leaves its connection open in the map |
| TcpSessions.DialInFlightStaysOpen | internal/tcpproxy/tcpproxy.go:151-162 | an input that fails: a dial in flight at the close-all is stored afterwards and stays open |
| TcpSessions.ReaderTouchesOnlyItsOwn | internal/tcpproxy/tcpproxy.go:108-115 | a read loop removes no other connection's entry |
| TcpSessions.ReportsExactly | internal/tcpproxy/tcpproxy.go:108-118 | a failing loop goes on to report if and only if its id names a session, its own or not; it removes the entry exactly when it is its own |
| TcpSessions.StaleReport | internal/tcpproxy/tcpproxy.go:103-118 | once the id is reused, the old loop reports the end of an id that is alive |
| TcpSessions.RepeatedIdReachable | internal/tcpproxy/tcpproxy.go:85-90 | two opens under one id reach such a state, the first connection closed |
| TcpSessions.Handler.StoreSession | internal/tcpproxy/tcpproxy.go:81-90 | storing a session, and closing the one it replaces, is the step that the interleavings take |
| TcpSessions.Handler.ReadOnce | internal/tcpproxy/tcpproxy.go:95-102 | one turn of the read loop is two of those steps: the read, and its bytes sent on if there are any |
| TcpSessions.Handler.ReadLoop | internal/tcpproxy/tcpproxy.go:92-123 | the read loop by itself is a run of those steps: it takes in exactly what arrived and ends with its connection closed |
| TcpSessions.Handler.WindUp | internal/tcpproxy/tcpproxy.go:103-120 | the end of a failed loop is a run of those steps: forget, report if the id names a session, close |
| TcpSessions.Handler.CloseTCP | internal/tcpproxy/tcpproxy.go:140-149 | a run of those steps that takes one session out and closes it; nothing when there is none |
| TcpSessions.Handler.CloseAllTCP | internal/tcpproxy/tcpproxy.go:154-162 | a run of those steps that empties the map at once and closes every connection that was in it |
| TunnelFrames.StepKeepsInv | internal/link/link.go:688-697 | in any interleaving of goroutines through the writer, each id shows on the wire what its goroutine wrote, cut short only by a broken connection |
| TunnelFrames.HttpOnTheWire | internal/tunnelproxy/tunnelproxy.go:279-356 | a finished request shows one head with the status answered, or 502, chunks of exactly the bytes read in the run, or of the explanation when the upstream was not reached, and one end |
| TunnelFrames.HttpSoFar | internal/link/link.go:1049-1095 | at any moment, broken or not, a request shows a beginning of that: the same head, chunks, end, cut short anywhere, carrying a beginning of the bytes read |
| TunnelFrames.WsOnTheWire | internal/tunnelproxy/tunnelproxy.go:416-441 | on a ws id a dial that succeeded shows an acknowledgement and then the messages read in the run and written so far, in order, with their bytes and kind, cut short only by a break; one that failed shows a lone close |
| TunnelFrames.ServeHttp | internal/tunnelproxy/tunnelproxy.go:279-356 | the request goroutine by itself: one head (502 when the upstream is not reached), chunks carrying exactly what was read or the explanation, none of them empty, one end |
| Reconnect.WaitStep | internal/link/link.go:1235-1241 | doubling with a cap steps from the n-th wait to the next |
| Reconnect.WaitIsCappedExactly | internal/link/link.go:1235-1241 | the n-th wait is min(Max, Min * 2^(n-1)) if and only if n is at least 2 or Min is at most Max |
| Reconnect.Connect | internal/link/link.go:625-643 | one turn: the token at hand, then the operator's once after a failure that is no refusal |
| Reconnect.TakeTurn | internal/link/link.go:614-681 | one turn: the attempts it calls for, with the credential it finds and the answers it gets, and the wait after them; how it ends is settled by the turn |
| Reconnect.TurnEndsExactly | internal/link/link.go:614-681 | a turn ends the loop exactly for want of a token, by the refusal of its last attempt, or when cancelled before its attempts, while a registration is up, or in the wait after |
| Reconnect.Run | internal/link/link.go:612-682 | over every sequence of turns: the attempts are those the turns call for, up to the turn that ends the loop; waits by their place since the last registration, nothing attempted after a refusal, the operator's token only with no stored credential or after the stored one failed without refusal |
| Reconnect.GoodAt | internal/link/link.go:612-682 | that discipline holds of every event of a run, against the events before it |
| Reconnect.DialContext | internal/tunnelproxy/tunnelproxy.go:211-249 | at most the given dials, none after a success or a hang-up, the k-th wait as above |
| HeaderCodec.HeadersFromFrame | internal/link/link.go:976-1007 | the result holds exactly what the usable pairs say, or else the legacy object, names canonicalised and each name's values in order |
| HeaderCodec.SaysExactly | internal/link/link.go:976-1007 | a frame gives a name a value exactly if it has that pair, the name not empty, or has no such pair at all and its legacy object gives it |
| HeaderCodec.CollectedOnce | internal/link/link.go:976-1007 | what the decoder makes of a list of pairs is determined by it |
| HeaderCodec.HeadersWire | internal/link/link.go:1024-1043 | the pairs give every name its values in order, names ascending; the legacy field has exactly the first values |
| HeaderCodec.WireDetermined | internal/link/link.go:1020-1043 | the pairs depend on the headers only, not on map iteration order |
| HeaderCodec.RoundTripExactly | internal/link/link.go:976-1043 | decoding both fields gives the headers back if and only if every name is canonical and has a value, for non-empty names |
| HeaderCodec.LegacyGivesFirstValues | internal/link/link.go:999-1007 | decoding the legacy field alone gives each name's first value |
| TreeSync.Disk.RemoveAll | internal/ops/ops.go:1642-1644 | removes some or all of what is at and below a path; success leaves nothing there |
| TreeSync.CopyPath | internal/ops/ops.go:1653-1700 | only paths at or below the destination change; success makes the two subtrees equal, entries, kinds, contents and link targets; it does succeed when no call goes wrong, the source is there and what the destination goes into are directories; terminates on every finite tree |
| TreeSync.CopyDirectory | internal/ops/ops.go:1658-1672 | the same for a directory, entry by entry |
| TreeSync.Assembled | internal/ops/ops.go:1666-1671 | equal children under equal directories, and nothing else, make equal subtrees |
| TreeSync.SyncWorkspaceSource | internal/ops/ops.go:1619-1651 | however it ends, nothing outside the installed entries changes and the source is untouched; on success every shipped unprotected name equals the source and the list is exactly the installed paths, each once; on failure the list is empty; it succeeds when no call goes wrong and both directories are there |
| TreeSync.SyncName | internal/ops/ops.go:1625-1649 | one turn of the loop: a protected name is skipped, any other replaced |
| TreeSync.ProtectedUntouched | internal/ops/ops.go:1626-1645 | after any run, failed or not, everything under a protected or unshipped name is as it was |
| TreeSync.InstallsExactly | internal/ops/ops.go:1632-1636 | an entry is installed exactly if the image ships it under a name other than the seven protected ones |
| ChunkTransfer.OverlayBytes | internal/ops/ops_fs.go:367-379 | a positioned write byte by byte: the data, what was there, zeros in a hole |
| ChunkTransfer.RemoteFile.WriteChunk | internal/ops/ops_fs.go:329-390 | the refusals in order and without effect; otherwise the file and the answer, whichever call goes wrong; after a success the chunk stands at its offset, what was there stands around it unless it was the opening chunk, holes are zeros, and the file ends with it if it was the last |
| ChunkTransfer.RemoteFile.ReadChunk | internal/ops/ops_fs.go:248-317 | a window of the file, empty only past the end, full short of it, end announced exactly when reached |
| ChunkTransfer.LaterArrives | internal/ops/ops_fs.go:358-379 | a chunk past the start, whatever goes wrong with it, disturbs no chunk in place |
| ChunkTransfer.Uploaded | internal/ops/ops_fs.go:319-384 | whatever the file held, in whatever order and however often chunks came and failed: once each has arrived since the opening chunk last did, the file is the data |
| ChunkTransfer.LateOpeningLosesTheRest | internal/ops/ops_fs.go:358-361 | an opening chunk repeated after the others leaves the file different from the data |
| ChunkTransfer.Download | internal/ops/ops_fs.go:248-317 | reading until eof ends and gives the whole file for any sizes asked |
| ChunkTransfer.RoundTrip | internal/ops/ops_fs.go:248-390 | what was sent is what is read back |
| LogRotation.RotatingLog.RotateIfNeeded | internal/rlog/rlog.go:172-193 | nothing while the line fits; otherwise the downward rename loop shifts every generation by one and drops the oldest |
| LogRotation.RotatingLog.Write | internal/rlog/rlog.go:146-165 | the console gets every line; the files hold the specified lists of lines |
| LogRotation.StampedLine | internal/rlog/rlog.go:146-150 | a line is the stamp, a blank and the message, and ends in one newline, the message's own if it has one |
| LogRotation.KeepsASuffix | internal/rlog/rlog.go:146-193 | what is on disk is a run of whole lines, up to the last one while the log is open; each generation within the cap, all within four caps, and more than two once a line was dropped |
| LogRotation.WriteAll | internal/rlog/rlog.go:146-193 | a whole run of the code ends in the state the previous row is about |
| ExecJobs.Job.Record | internal/ops/ops_exec.go:284-306 | the waiter's verdict: timeout if the deadline came first, else killed stays, else exited with the code |
| ExecJobs.VerdictExactly | internal/ops/ops_exec.go:284-306 | over every run, by its steps: a job timed out if and only if a deadline came before the verdict ahead of any kill's cancelling, and then has no exit code; otherwise it was killed if and only if somebody asked before the verdict, and else exited |
| ExecJobs.Job.AskKill | internal/ops/ops_exec.go:363-369 | a kill is told yes exactly while the job runs, and marks it |
| ExecJobs.EveryRun | internal/ops/ops_exec.go:280-381 | in every interleaving: an exit code exactly when exited, at most one kill told yes and that job never exited, a timeout only after the deadline, a closed done means a terminal status |
| ExecJobs.DoneIsFinal | internal/ops/ops_exec.go:280-309 | once done is closed, nothing about the job changes |
| ExecJobs.CodeIsWhatWaitSays | internal/ops/ops_exec.go:295-304 | the exit code recorded, if one is, is what cmd.Wait came back with |
| ExecJobs.CodeIsTheProcessesExactly | internal/ops/ops_exec.go:269-304 | a job recorded as exited has its process's own exit status on record if and only if the process failed or no write of either stream straddled the cap |
| ExecJobs.SuccessRecordedAsFailure | internal/ops/ops_exec.go:293-304 | an input that fails: a process that succeeds after one byte too many is recorded with -1 |
| ExecJobs.UndisturbedExits | internal/ops/ops_exec.go:289-305 | with neither deadline nor kill, a job that has ended has exited |
| ExecJobs.KilledMayEndAsTimeout | internal/ops/ops_exec.go:289-294 | a run in which a kill told yes ends as a timeout |
| ExecJobs.CapBuffer.Write | internal/ops/ops_exec.go:108-119 | the buffer is the beginning of all written, up to the cap; the count returned falls short exactly when the write straddles the cap |
| ExecJobs.WriteAll | internal/ops/ops_exec.go:103-119 | the same over any sequence of writes |
| ExecJobs.Pump | internal/ops/ops_exec.go:269-270 | a stream copied into the buffer: the buffer is the beginning of it, up to the cap, and the copy fails exactly when a write straddles the cap |
| ExecJobs.NeverShortExactly | internal/ops/ops_exec.go:111-118 | no write is answered short if and only if the output stays within the cap or the writes meet it on the byte |
| Deadman.Host.Disarm | internal/vpn/deadman.go:313-341 | the error branches and what each leaves; only an identified process is killed |
| Deadman.DisarmAnswersExactly | internal/vpn/deadman.go:313-341 | which failure a disarm reports, and that the record then stays |
| Deadman.Host.AwaitVisible | internal/vpn/deadman.go:257-268 | succeeds if and only if some poll sees the marker |
| Deadman.Host.Arm | internal/vpn/deadman.go:166-245 | validation, standing down, starting, waiting, saving, and the clean-up of each failure |
| Deadman.ArmAnswersExactly | internal/vpn/deadman.go:166-245 | which failure an arm reports, by the first thing that goes wrong |
| Deadman.DisarmKeepsExactly | internal/vpn/deadman.go:313-341 | a disarm keeps every live switch on record if and only if it does not take a live one it could not read for a stranger |
| Deadman.MissedSwitchStaysLive | internal/vpn/deadman.go:343-363 | an input that fails: the live switch's command line cannot be read, and the disarm succeeds |
| Deadman.DisarmLeavesNone | internal/vpn/deadman.go:313-341 | a successful disarm otherwise leaves no live switch and no record, and says truthfully whether there was one |
| Deadman.ArmKeepsExactly | internal/vpn/deadman.go:166-245 | an arm keeps every live switch on record if and only if its disarm misses none and no clean-up kill fails after a failed wait or save |
| Deadman.ArmLeavesOne | internal/vpn/deadman.go:161-245 | a successful arm leaves exactly one live switch, on record |
| Deadman.RunKeepsOnRecord | internal/vpn/deadman.go:166-341 | over any run of arms, disarms, firings and pid reuse with those conditions, every live switch is the one on record |
| Deadman.AtMostOne | internal/vpn/deadman.go:69-73 | so there is never more than one |
| Deadman.NoInnocentKilledEver | internal/vpn/deadman.go:40-44 | over any run at all, no process without the marker is killed, but for a switch just started |
| Quoting.ShellQuoteIsTheValue | internal/updater/updater.go:417-419 | from any unquoted point of any text, the quoted value adds exactly the value to the word being read |
| Quoting.ItemsReadBack | internal/updater/updater.go:417-419 | a command written from plain words, quoted values and operators is read back as those, one token each |
| Quoting.RollbackRunsOnTheRecordedPaths | internal/updater/updater.go:159-169 | the rollback script tests the recorded marker, copies the recorded backup onto the recorded path, marks that executable, and goes on to the restart command and the end of the test, whatever characters the paths hold |
| Quoting.PowerShellQuoteExactly | internal/updater/updater.go:421-435 | PowerShell reads the value back, in any text not going on with a quote, if and only if it has no typographic single quote |
| Versions.ParseVersion | internal/state/state.go:433-448 | the numbers of a text that is a version |
| Versions.ParsedExactly | internal/state/state.go:433-448 | a text is the version v if and only if, trimmed, it is an optional v and the numbers of v with dots between them |
| Versions.CompareVersions | internal/state/state.go:402-428 | -1, 0 and 1 exactly when the first differing number, zeros filled in, is smaller, absent, larger; not ok exactly when either does not parse |
| Versions.TotalPreorder | internal/state/state.go:398-428 | any two versions compare, comparisons chain, and mutual at-most means the same numbers |
| Versions.TrailingZeros | internal/state/state.go:411-427 | trailing zeros make no difference |
| Versions.StateFile.CheckDowngrade | internal/state/state.go:370-396 | refuses exactly an unforced bootstrap of a version other than blank and dev, where the state cannot be read or an older-than-recorded release asks |
| Versions.StateFile.RunModules | internal/ops/ops.go:1720-1766 | guard, modules, the two best-effort saves: outcome and state file, whatever fails |
| Versions.LowersExactly | internal/ops/ops.go:1720-1766 | one bootstrap puts an older release on record if and only if it is forced, complete, and gets to record it |
| Versions.RecordsExactly | internal/ops/ops.go:1756-1765 | an undisturbed full bootstrap that the guard lets through records its own version, but not a blank or dev one, and that the host is provisioned |
| Versions.RecordsNothing | internal/ops/ops.go:1720-1764 | one that is not full, has no state file, is refused or breaks off changes nothing on record |
| Versions.RecordNeverGoesDown | internal/state/state.go:344-396 | over any run of unforced bootstraps of releases or development builds, whatever fails, the recorded version never goes down |
| Versions.GarbledVersionForgets | internal/state/state.go:366-388 | an unparsable version on record makes the guard let an older release through |

## Left out

- The assumption behind "no such rule": only the kernel's own answer contains it, and `ip rule add` of a rule already present is not refused as a duplicate.
- Prefixes are a base and a size; parsing, masking and printing of addresses, URLs and CIDRs are parameters.
- IPv6 rules, `LocalPrefixes`, the egress probes, `SetExitNode` and the confirmation verdict in `internal/vpn/exit.go`: each is settled by reading one branch or calls the outside world.
- `internal/vpn` beyond exit.go, containers.go and deadman.go is not part of this model.
- RouteTheorems.HostHeld: a packet must have a main-table route and the bypass be there; what happens otherwise is `RouteTheorems.HostLeaksExactly`, over the kernel's and tailscale's rules as the base.
- RouteTheorems.MeshHeldExactly: says what happens to peers with a main-table route; a state without rule 5259 does not protect the mesh.
- FirewallBackends.ApplyIptables: the IPv4 tables only; a check for a jump either fails or is answered truthfully.
- Firewall.AcceptsExactly: a tool may also refuse an interface name it finds too long, a malformed source prefix or a protocol other than tcp and udp, none of which the model has.
- Connection tracking in the firewall is one established bit of a packet; interface names are compared whole.
- `internal/shell`, whose session table removes by id alone, is not part of this model; `SendTCP`, `WSMessage` and `CloseWS` only pass bytes or close.
- TunnelFrames: head headers, tcp frames and pings are not among the frames; ids are distinct, as the control plane makes them; a panic in a goroutine is not modelled.
- Reconnect: durations are unbounded integers, which differ from 64-bit nanoseconds only beyond 146 years; tokens are compared by identity; the pump between registration and disconnection is one event.
- HeaderCodec.RoundTripExactly: the empty header name, which the decoder drops, is excluded; canonicalisation and JSON are library functions, taken as parameters or assumed correct.
- TreeSync.SyncWorkspaceSource: paths on the way to the two directories are not links, special files and permissions are not modelled, and nobody else changes the tree meanwhile.
- ChunkTransfer: base64, digests, the mode applied at the end, path expansion and the conversion of numbers from JSON floats.
- LogRotation.KeepsASuffix: removals, renames and writes succeed and no line is longer than the cap; a failing rename may lose a generation in the middle; only the failure to reopen is modelled.
- ExecJobs: the registry (ids are random), the shell and process groups; one job is modelled, with any number of kills.
- ExecJobs.CodeIsTheProcessesExactly: takes it that both streams end within the two-second wait delay of ops_exec.go:256; a grandchild that holds one open longer makes cmd.Wait fail in the same way.
- Deadman: one command runs at a time, none crashes half way, and a check and the kill after it are one step; two hosts' records, the revert script's own commands and the log file's text are not modelled.
- Deadman.NoInnocentKilledEver: a stranger whose command line happens to carry the marker counts as marked.
- Quoting.ShellQuoteIsTheValue: words, quotes, backslashes, blanks and operators of the shell; expansions, comments and here-documents outside the quoted value are not, nor the NUL character no argument can hold.
- The Windows rollback script, restart commands, service definitions and install scripts are templates around the quoted values.
- Versions.RecordNeverGoesDown: covers bootstraps through runModulesWithEnv; the self-heal in `cmd/aw-remote-host/commands.go:828-830` saves a struct loaded earlier and can put an older version back.
- strings.TrimSpace and strconv.Atoi are parameters of the version model, so `+1` parses if Atoi says so.
- `cmd/aw-remote-host`, host facts, home directories, status wording and payload builders.
