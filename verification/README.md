# WiFiDog gateway: a verified model

A Dafny model of the core of the WiFiDog captive-portal gateway and of the HTTP library it ships
with, with machine-checked theorems about it. `dafny verify dfyconfig.toml` checks everything.

## What is modelled

**The packet filter** (`Iptables`). An in-memory kernel with the mangle, nat and filter tables:
named chains of rules, the commands `-N -A -I -D -F -X`, and a first-match walk with jumps, returns
and the non-terminating targets (MARK, LOG, ULOG, TCPMSS). A command that the kernel would refuse
changes nothing.

**The firewall compiler** (`Config`, `Firewall`, `FwSetup`, `FwEdits`, `FwTeardown`, `FwPolicy`,
`FwNotes`).
Start-up, every later edit and teardown are methods that issue the program's commands one by one on
that kernel. Each is proved against `Firewall.Realise`, the tables that an abstract firewall state
stands for. Policies are stated on the abstract state with no chains in sight and connected to the
walk for every packet, what it logs and clamps on the way included.

**The session protocol** (`Counters`, `ClientList`, `Sessions`, `SessionInvariant`, `SessionRuns`,
`SessionTheorems`, `SessionForgery`, `SessionSteps`, `Gateway`). The client list is a linked list on the heap. Every
critical section under the client-list lock is one step of a state machine; requests and replies of
the auth server are separate steps that interleave freely with logins, logouts, resets, disconnects,
counter readings, pings, whitelistings and restarts. `Gateway` contains the imperative critical
sections. Each states its outcome on the heap list and ensures that, in every state of the system
with that list and firewall, the outcome is the step of its event; the edits it issues are carried out
on the kernel by `FwEdits.ApplyAll`. The counters of one client and the ping thread's flag (`Ping`)
are treated the same way.

**The restart hand-off** (`CStrings`, `Handoff`, `HandoffTheorems`). The parent's printer and the
child's line and token parser, with its line buffer, its in-place cuts and the key and value
pointers that survive from one line to the next.

**Failover and liveness** (`Failover`, `Liveness`). The recursion over a rotating server list with
whatever the network answers, together with the whitelist chains in the kernel; and the four
timestamps with their hysteresis, over all histories of calls.

**Codecs** (`Sanitise`, `SanitiseTheorems`, `Query`, `Variables`, `QueryTheorems`, `BareNames`,
`Base64`, `Base64Alphabet`, `RuleText`, `RuleTheorems`, `Checksum`). In-place buffer algorithms proved against
functions on texts, and then against independent references: section 5.2.4 of RFC 3986, section 4 of
RFC 4648, section 1 of RFC 1071, and round trips.

## Where the code differs from what one would expect

- Marks are set in decimal but matched as `0x%u` (src/fw_iptables.c:383-399), so 254 is matched as
  0x254 and 253 is both set and matched as 0x253. The locked-users chain therefore never sees a
  client granted mark 254; `FwPolicy.LockedMarkNeverMatches` says so and `FwPolicy.Policy` follows
  the code.
- A child of a restart grants clients in state NONE a mark-0 rule (src/firewall.c:211-213). The
  agreement between list and chain is therefore about nonzero marks, and `SessionTheorems.PacketMark`
  has a case for such a rule.
- Mangle Incoming is keyed by address alone, so agreement is stated for Outgoing.
- Tokens come from the query string, where %7C, %3D and %0A decode to the separators of the
  restart text (libhttpd/protocol.c:266-294). A restart then hands over other sessions than the
  parent had. The restart step of `Sessions` is the text itself, so the run theorems carry a
  condition on what the events bring in before a restart (`SessionRuns.CarriesOver`); without a
  restart there is none. `HandoffTheorems.RestartRoundTripIff` says exactly which lists arrive, and
  `SessionForgery` holds the runs at which the theorems fail.
- Clearing the counters of a client leaves their history in place (src/firewall.c:348-352), so an
  inherited client's counter can stop moving. `Counters.ClearedCounterMoves` and
  `Counters.ClearedAfterRestartIsStuck` say exactly when.
- Two `..` in a row remove only one path element (libhttpd/protocol.c:705-720).
  `SanitiseTheorems.AgreesWithTheStandard` gives the exact condition, `SecondClimbIsLost` an input.
- A rule line of one bare word is taken for a rejection whatever the word (src/conf.c:525);
  `RuleTheorems.FirstWordDecides` says exactly when the first word decides.
- A query name without `=` can end in the tail of an earlier, longer name
  (libhttpd/protocol.c:338-353); `BareNames.BareNameSurvivesIff` says exactly when it does not.

## Model

| member | source | states |
|---|---|---|
| Iptables.Kernel.Do | src/fw_iptables.c:97-129 | one command either takes effect in its table alone or, when the kernel refuses it, changes nothing at all |
| FwPolicy.TestsHold | src/fw_iptables.c:139-195 | the tests a configured rule compiles to hold of a packet exactly when the rule is about it |
| FwSetup.LoadRuleset | src/fw_iptables.c:204-222 | a ruleset is appended to its chain rule by rule, in order, less what the table cannot hold |
| FwSetup.SetAuthServers | src/fw_iptables.c:231-246 | both AuthServs chains grow by one ACCEPT per known address other than 0.0.0.0, in list order |
| FwSetup.InitMangle | src/fw_iptables.c:281-297 | mangle ends with the auth-down, trusted and outgoing hooks first in PREROUTING, in that order |
| FwSetup.InitNat | src/fw_iptables.c:305-343 | the nat chains of a fresh firewall, everything else in nat as before |
| FwSetup.InitFilter | src/fw_iptables.c:351-406 | the filter chains of a fresh firewall, and Global and AuthServs of nat with them |
| FwSetup.FwInit | src/fw_iptables.c:250-410 | set-up on clean tables succeeds exactly when there is an external interface, and then realises a fresh firewall over them |
| FwEdits.AccessAllow | src/fw_iptables.c:567-572 | granting adds one Outgoing mark rule and one Incoming rule and nothing else; `FwPolicy.MangleMeansMark` and `FwPolicy.PostroutingAcceptsClients` say what the two do to packets |
| FwPolicy.AllowTakesEffect | src/fw_iptables.c:567-572 | once a client is allowed, packets to its address leaving by the gateway interface are accepted, and packets from its address and MAC go on with its mark |
| FwEdits.DenyUndoesAllow | src/fw_iptables.c:567-578 | denying what was allowed leaves as many copies of every client rule and address as before, and the same state when the client had none |
| FwEdits.AccessDeny | src/fw_iptables.c:573-578 | revoking drops the first equal rule of each chain, or nothing where there is none |
| FwEdits.HostAllow | src/fw_iptables.c:587-598 | whitelisting a host extends Global in nat and filter alike |
| FwEdits.HostDeny | src/fw_iptables.c:599-602 | un-whitelisting removes the same rule from both, though nat holds fewer rules |
| FwEdits.ServersRefresh | src/fw_iptables.c:224-246 | clearing and setting the auth servers leaves exactly the known addresses in both tables |
| FwEdits.AuthUnreachable | src/fw_iptables.c:612-620 | one more auth-down mark rule, if there is such a ruleset |
| FwEdits.AuthReachable | src/fw_iptables.c:623-631 | no auth-down mark rule is left, however many there were |
| FwEdits.GlobalsRemove | src/fw_iptables.c:599-602 | removing a host rule commutes with compiling the global rules for either table |
| FwEdits.ApplyAll | src/fw_iptables.c:560-631 | any sequence of edits issued as commands realises what the edits do to the abstract state |
| FwTeardown.DestroyMention | src/fw_iptables.c:505-557 | terminates with exactly the mentioning rules gone, the others in order, and reports whether any were there |
| FwTeardown.FwDestroy | src/fw_iptables.c:416-497 | whatever edits came between, teardown gives the prior tables back; on an installed firewall every -X succeeds, so each chain is present, empty and unreferenced when it is dropped |
| FwTeardown.RealisedIsInstalled | src/fw_iptables.c:250-410 | every state reachable after set-up is one that teardown accepts |
| FwTeardown.Lifetime | src/fw_iptables.c:250-497 | set-up, any edits, teardown: the tables are exactly what they were |
| FwPolicy.FilterMeansPolicy | src/fw_iptables.c:351-406 | for every configuration and packet from the gateway interface the filter walk ends in the verdict of the flat first-match policy and never falls back to FORWARD |
| FwPolicy.LockedMarkNeverMatches | src/fw_iptables.c:383-384 | the match printed for the locked mark fails on a packet with that mark |
| FwPolicy.GlobalsAgree | src/fw_iptables.c:386-388 | nat Global is filter Global without its DROP and REJECT rules, whatever hosts were added or removed |
| FwPolicy.NatMeansPortal | src/fw_iptables.c:316-343 | the portal redirect fires exactly for tcp port 80 packets not to the router, not KNOWN or PROBATION, and accepted by none of AuthServs, Global and AuthDown |
| FwPolicy.AcceptedGloballyIsNotCaptured | src/fw_iptables.c:147-171 | a packet the filter accepts through Global is never captured by the redirect |
| FwPolicy.MangleMeansMark | src/fw_iptables.c:289-297 | the mark given in PREROUTING: last client rule, else trusted MAC, else auth-down, else unchanged |
| FwPolicy.PostroutingAcceptsClients | src/fw_iptables.c:293 | a packet leaving by the gateway interface for a granted address is accepted in mangle; every other packet meets the rules that were there before POSTROUTING was hooked, with its mark |
| FwPolicy.OtherInterfacesUntouched | src/fw_iptables.c:289-357 | packets from any other interface meet only the rules that were there before, in all three tables |
| FwNotes.FilterNotesPolicy | src/fw_iptables.c:139-195 | a packet from the gateway interface that is not invalid is logged by exactly the applicable LOG and ULOG rules before the one that decides in the flat policy, and clamped exactly when it opens a TCP connection to the outside |
| FwPolicy.ForeignKept | src/fw_iptables.c:250-410 | chains that are not WiFiDog's are never touched and never lead into its chains |
| Counters.ReadingRaises | src/fw_iptables.c:667-674 | a reading raises the total to history plus reading or leaves it, and the delta is the exact rise |
| Counters.ReadingsKeepThePeak | src/fw_iptables.c:667-674 | after any readings the total is history plus the largest, deltas are positive and telescope, last_updated is the time of the last growth |
| Counters.IncomingKeepsThePeak | src/fw_iptables.c:711-717 | the same for incoming readings, which change the incoming total and delta and nothing else |
| Counters.PeakIsLargest | src/fw_iptables.c:667-674 | the peak is an upper bound of the readings and is attained |
| Counters.ClearedCounterMoves | src/firewall.c:348-352 | after a clear a reading counts if and only if there is no history or it exceeds the wrapped difference |
| Counters.ClearedAfterRestartStaysAtZero | src/gateway.c:197-206 | an inherited, cleared client with a gigabyte of history stays at zero |
| Counters.ClearedAfterRestartIsStuck | src/firewall.c:348-352 | an inherited client with traffic whose counters are cleared stays at zero over any readings if and only if none exceeds 2^64 less that traffic |
| ClientList.ClientList.Insert | src/client_list.c:94-105 | the node becomes first with the next id, the rest of the chain as before |
| ClientList.ClientList.Add | src/client_list.c:115-135 | a fresh client with zero counters is listed first |
| ClientList.ClientList.Find | src/client_list.c:209-303 | the first node that satisfies the test, or null when none does |
| ClientList.ClientList.Dup | src/client_list.c:142-202 | a fresh, disjoint, well-formed chain of copies in the same order, with the right count; each copy has the id, address, MAC, token and all seven counter fields of its original |
| ClientList.ClientList.Remove | src/client_list.c:362-385 | exactly the given node leaves, the rest keep their order and the chain stays acyclic |
| ClientList.ClientList.Free | src/client_list.c:327-341 | only an unlinked node that was not freed before may be freed |
| ClientList.ClientList.DestroyChain | src/client_list.c:309-319 | every node of a chain is freed once |
| Handoff.HandedOver | src/gateway.c:142-226 | the client sent k-th has id k and stands k-th from the end; field by field, totals become history, deltas are zero, all else is as sent |
| SessionInvariant.AllowKeeps | src/firewall.c:71-90 | granting a nonzero state keeps one rule per listed client and nothing else |
| SessionInvariant.DenyKeeps | src/firewall.c:112-120 | revoking removes the client's own nonzero rule and no other |
| SessionInvariant.RestartKeeps | src/firewall.c:206-217 | from a list the text can carry, the rebuilt rules agree with the inherited list |
| SessionInvariant.RunKeeps | src/auth.c:94-253 | the invariant of list, firewall, pending requests and unlinked nodes holds along every interleaving, of the steps the `Gateway` sections take, whose restarts find a list the text can carry |
| SessionRuns.CarriedRunsAreSafe | src/wdctl_thread.c:314-327 | every restart finds such a list if, before each restart, the strings the events carry are free of separators and short, the times fit, and the traffic reported stays below 2^63; runs without a restart need nothing |
| SessionTheorems.OutgoingIndexesTheList | src/fw_iptables.c:560-585 | in every state reached by events that carry over the restarts the nonzero Outgoing rules are exactly one (ip, mac, state) per listed client with a nonzero state; no two clients share ip and mac, or an id |
| SessionTheorems.StateIsFoldOfReplies | src/auth.c:175-249 | under the same condition each listed client's state is the fold of the replies applied to its id over the state the parent held it in at the last restart |
| SessionTheorems.FreedOnce | src/auth.c:94-115 | in every run, restarts of any list included, an unlinked node is in no list and is freed at most once |
| SessionTheorems.NoRevival | src/client_list.c:94-105 | an id that has gone never comes back while the process runs |
| SessionTheorems.LateReplyIsDiscarded | src/firewall.c:300-319 | a reply for a session that has gone changes neither list nor firewall, whoever logged in meanwhile |
| SessionTheorems.ReplyReachesTheAsker | src/auth.c:132-173 | a reply that is applied changes the very session that asked and no other, and leaves all rules of other addresses in number and order |
| SessionTheorems.PacketMark | src/firewall.c:71-133 | in every state reached by events that carry over the restarts a packet leaves mangle PREROUTING with its client's nonzero state, else 0, KNOWN, auth-down or its own mark, each exactly when due |
| SessionTheorems.AllowNeverUnmarks | src/firewall.c:80-87 | after each single command of fw_allow a client moving between nonzero states carries its old or its new mark |
| SessionTheorems.RestartKeepsMarks | src/firewall.c:206-217 | a restart after such events gives every client with a nonzero state its old mark |
| SessionTheorems.RestartInheritsSessions | src/gateway.c:142-226 | after such events the child of a restart lists every session of its parent, totals taken as history |
| SessionTheorems.VerdictFollowsState | src/fw_iptables.c:351-406 | whatever mark the rules that were there before leave on the packet, the filter verdict is the policy for that mark; where they set none, the policy for the state of its client |
| SessionForgery.ForgedKeyAfterRestart | src/gateway.c:156-212 | the run at which this fails: two logins, the second with a token that holds the key of the first behind a bar, and a restart leave one key listed twice |
| SessionForgery.ForgedSessionAfterRestart | src/gateway.c:148-156 | another such run: one login with a client line between newlines in its token, and a restart list that client in whatever state the line claims, with no reply applied |
| SessionSteps.LoginReplyWrites | src/auth.c:175-249 | the reply to a login sets the token and, by its code, the state, and changes no other client |
| SessionSteps.SyncReplyWrites | src/firewall.c:341-379 | a sync promotes an allowed client not yet known, and clears all its counters but the history exactly when it was not on probation |
| SessionSteps.EndSyncMoves | src/firewall.c:291-382 | the written-out outcome of a sync reply, expiry test and expelling codes included, is the protocol step in every state with that list and firewall |
| Gateway.Gateway.FwAllow | src/firewall.c:71-90 | on the heap list, grant first and clear the old mark second, and only when there was one |
| Gateway.Gateway.LogoutClient | src/auth.c:94-104 | the node is unlinked and its rule revoked, but it is not freed yet |
| Gateway.Gateway.FinishLogout | src/auth.c:111-115 | the unlinked node is freed, once |
| Gateway.Gateway.LogoutAmid | src/auth.c:94-115 | a logout from end to end with any other critical sections in between: the node unlinked at the start is still unlisted and unfreed at the end, and is freed then |
| Gateway.Gateway.LoginAmid | src/auth.c:130-253 | a login from end to end with any other critical sections while the auth server is asked: the reply is applied to the session found by address, wherever it stands by then, or to none; with nothing in between it is the client of that address |
| Gateway.Gateway.HttpAuth | src/http.c:268-279 | a new address is added, a known one logged out on request, otherwise nothing; a leaving node is unlisted and not yet freed; this is the step of the event in every state with that list and firewall |
| Gateway.Gateway.BeginLogin | src/auth.c:132-136 | the request works on a private copy of the client, and the protocol's asker is that copy |
| Gateway.Gateway.EndLogin | src/auth.c:159-251 | the reply is applied to the client of the same id, or discarded; this is the step for every pending login of that id |
| Gateway.Gateway.SyncOne | src/firewall.c:291-382 | a client idle for the limit or refused leaves, an allowed one is promoted, a vanished one is skipped; this is the step for every pending entry with that id and time, down to which node is left to free and which is freed |
| Gateway.Gateway.BeginSync | src/firewall.c:267-275 | the worklist is a disjoint copy of the list, and the protocol's entries are those copies |
| Gateway.Gateway.Reset | src/wdctl_thread.c:355-386 | the client of that address, else of that MAC, is logged out and its node is unlisted and not yet freed |
| Gateway.Gateway.Disconnect | src/http.c:310-322 | the client of that MAC is logged out only with its own token, and its node is unlisted and not yet freed |
| Gateway.Gateway.RestoreAll | src/firewall.c:206-217 | one grant per inherited client in list order, with its state, the list unchanged |
| Gateway.Gateway.Restore | src/firewall.c:206-217 | on the list read from the parent and a fresh firewall, that is the restart step of the protocol |
| Gateway.Gateway.ReadOutgoingLine | src/fw_iptables.c:666-674 | the in-place counter update takes the wrapping step of the model |
| Gateway.Gateway.ReadIncomingLine | src/fw_iptables.c:711-717 | the same for incoming traffic, last_updated left alone |
| Ping.PingThread.Ping | src/ping_thread.c:117-204 | the flag follows the last round, and the kernel holds one auth-down rule exactly while it is up; this is the ping step of the session protocol |
| Handoff.ReadLine | src/gateway.c:142-226 | the loop over cut buffer and surviving pointers computes the line parser on text |
| Handoff.Receive | src/gateway.c:142-226 | the byte-by-byte reader computes the stream parser, inserting at the head |
| Handoff.NumberSigned | src/gateway.c:193-203 | reading back a printed number gives the number |
| HandoffTheorems.LeftoverIsHarmless | src/gateway.c:175-212 | the key and value pointers left over from the previous line never assign a field of the next |
| HandoffTheorems.NumbersArrive | src/gateway.c:193-206 | state, descriptor, totals and time arrive whatever was there before |
| HandoffTheorems.LineArrivesIff | src/wdctl_thread.c:316-321 | a client whose strings hold no line ends arrives as sent if and only if they hold no separators either and its totals fit a signed 64-bit number |
| HandoffTheorems.BarInTokenForgesTheAddress | src/gateway.c:175-190 | a token with a separator followed by an ip field overrides the address sent |
| HandoffTheorems.BarsForgeTheKey | src/gateway.c:156-192 | a token with separators followed by an ip and a mac field gives the session another key |
| HandoffTheorems.NewlineForgesAClient | src/gateway.c:148-156 | of one session sent, two arrive when its token holds a whole client line between newlines, and the second is that client |
| HandoffTheorems.RestartRoundTrip | src/gateway.c:142-226 | for every sendable list, parsing the printed lines gives the reversed list with ids 1 to n, histories equal to totals and deltas 0 |
| HandoffTheorems.RestartRoundTripIff | src/gateway.c:142-226 | for every list whose stream fits the line buffer, newlines in strings included: the child reads what it should if and only if every string is free of separators and line ends and the totals fit a signed 64-bit number |
| HandoffTheorems.Send | src/wdctl_thread.c:314-327 | the loop over the heap list prints every client in order |
| HandoffTheorems.Restart | src/gateway.c:142-226 | parent list to child list through the text, on every list the child can read; on a sendable one the child has the hand-off |
| Failover.Central.MarkBad | src/conf.c:1057-1073 | a bad first server becomes the last, the others move up |
| Failover.Central.Learn | src/centralserver.c:273-295 | a new address refills both AuthServs chains, the same one leaves them alone |
| Failover.Central.ConnectAuthServer | src/centralserver.c:151-345 | terminates; after k bad servers the list is rotated by k, a connection is to the server in front at its recorded address, exhaustion asks each once in order and restores the order, and every known address stays whitelisted |
| Failover.StopsAtFirstGood | src/centralserver.c:213-342 | the servers passed over are exactly those that did not resolve while some popular server did, or that refused the connection |
| Failover.EachServerAfter | src/centralserver.c:213-342 | where each server ends up and which address is on record for it, by what the network answered |
| Failover.KnownIpsAre | src/fw_iptables.c:231-246 | the whitelist holds the addresses on record other than 0.0.0.0, and no others |
| Failover.RotatesByFailures | src/conf.c:1057-1073 | the names after k failures are the names rotated by k, and after all of them the original order |
| Failover.ConnectedIsInFront | src/centralserver.c:326-345 | all servers asked before were bad, they were asked in order, and the connected one is in front with its address |
| Failover.ServersAreAccepted | src/fw_iptables.c:231-246 | a known address other than 0.0.0.0 has an ACCEPT rule in AuthServs of nat and of filter |
| Liveness.RunIsGood | src/wd_util.c:58-138 | in every history with a monotone positive clock last_auth_online <= last_online and last_offline <= last_auth_offline |
| Liveness.AuthAnswerInEveryRun | src/wd_util.c:140-154 | the early exit of is_auth_online never changes its answer, and a reachable auth server implies being online |
| Liveness.ConnectedMeansOnline | src/centralserver.c:151-168 | after a successful connection both answers are yes, whatever went before |
| Liveness.DownAfterTwoIntervals | src/wd_util.c:93-103 | being down means exactly that the last failure is two intervals or more past the last sign of life, read off the history |
| Liveness.DownUntilSeen | src/wd_util.c:93-103 | before the first sign of life both answers are no |
| Liveness.Monitor.AnswerAuthOnline | src/wd_util.c:140-154 | the reading code with its early exit computes the direct comparison of the auth server's stamps |
| Liveness.Monitor.AfterConnect | src/centralserver.c:151-168 | a connection attempt marks the auth server, and success makes both answers yes |
| Sanitise.SanitiseUrl | libhttpd/protocol.c:668-723 | the three in-place passes leave exactly the sanitised text in the buffer |
| Sanitise.SqueezePath | libhttpd/protocol.c:674-687 | on names, pass one removes empty names except at the end |
| Sanitise.DropDotsPath | libhttpd/protocol.c:689-702 | on names, pass two removes "." except at the end |
| Sanitise.ClimbPath | libhttpd/protocol.c:704-722 | on names, pass three is a stack that pops once per run of ".." |
| SanitiseTheorems.NothingToClimb | libhttpd/protocol.c:668-723 | for every input no "//", "/./" or "/../" occurs anywhere in the result |
| SanitiseTheorems.Idempotent | libhttpd/protocol.c:668-723 | sanitising twice is sanitising once |
| SanitiseTheorems.NeverLonger | libhttpd/protocol.c:668-723 | the result is no longer than the input |
| SanitiseTheorems.AgreesWithTheStandard | libhttpd/protocol.c:668-723 | on every absolute path the result equals remove_dot_segments of the squeezed path if and only if the path does not end in a dot segment and no ".." directly follows another with a name left to remove |
| SanitiseTheorems.AgreesOnPlainPaths | libhttpd/protocol.c:668-723 | the same against remove_dot_segments of the path itself when no inner name is empty |
| SanitiseTheorems.SecondClimbIsLost | libhttpd/protocol.c:704-722 | "/a/b/../../c" becomes "/a/c" where the standard gives "/c" |
| SanitiseTheorems.ResolvePath | libhttpd/protocol.c:668-723 | the standard's five string rules are a stack of names on absolute paths |
| Query.EscapeText | libhttpd/protocol.c:637-666 | the counting pass and the writing pass agree: the buffer is filled exactly to its terminator |
| Query.EscapeIsPlain | libhttpd/protocol.c:616-633 | an escaped text holds no '&', '=' or NUL |
| Query.UnescapeInPlace | libhttpd/protocol.c:259-294 | decoding in place never overtakes its reading and touches nothing outside the text |
| Query.UnescapeEscape | libhttpd/protocol.c:259-294 | unescaping an escaped text gives it back with every '+' a blank |
| QueryTheorems.AnyEncodingUnescapes | libhttpd/protocol.c:259-294 | however a text is encoded, each character as itself, as a percent sign with two digits in either letter case, or a blank as '+', unescaping gives exactly the text |
| QueryTheorems.CutShort | libhttpd/protocol.c:275-281 | an escape with one digit at the very end takes it for the first of two, the second zero |
| QueryTheorems.CutBare | libhttpd/protocol.c:275-281 | a lone percent sign at the very end yields the character that stood where the result has got to |
| Variables.TrimIs | libhttpd/api.c:163-175 | any blanks and tabs before a name are dropped, and nothing else |
| Variables.Request.AddVariable | libhttpd/api.c:163-194 | leading blanks go; a known name gets one more value at the end, a new one becomes last |
| Variables.Request.GetVariableByName | libhttpd/api.c:83-95 | found exactly when the name is there, and then with all its values |
| Variables.StoreData | libhttpd/protocol.c:317-372 | the parser with its reused name buffer computes the parsing function on text |
| QueryTheorems.QueryRoundTrip | libhttpd/protocol.c:317-372 | storing a printed query gives the multimap: names once in first-seen order, each with its values in order |
| QueryTheorems.FirstSeenSnoc | libhttpd/api.c:163-194 | one more name is appended if it is new and ignored otherwise |
| QueryTheorems.AddedValues | libhttpd/api.c:163-194 | a value is seen under its own name only |
| QueryTheorems.BareNameIsSpoiled | libhttpd/protocol.c:338-353 | "ab=1&c&" stores the second name as "cb" |
| BareNames.TextIsStored | libhttpd/protocol.c:317-372 | every query of names with and without values is stored item by item under what the reused buffer holds as the name; a bare name at the end is dropped |
| BareNames.BareNameSurvivesIff | libhttpd/protocol.c:338-353 | a bare name is stored as itself if and only if the buffer position behind it was never written or last got a terminator, read off the items before it |
| BareNames.GivenNameSurvives | libhttpd/protocol.c:332-337 | a name with a value is always stored as itself |
| BareNames.SpoiledByLongerName | libhttpd/protocol.c:338-353 | the input at which it fails, and the character the condition finds there |
| Base64.Decode | libhttpd/protocol.c:183-257 | the loop over groups of four and the padding rule compute the decoded bytes and their count |
| Base64.RoundTrip | libhttpd/protocol.c:183-257 | any bytes encoded with padding, after any blanks and before any terminator, come back exactly, in all three padding cases |
| Base64.BytesArrive | libhttpd/protocol.c:241-247 | shifting four six-bit groups together undoes splitting three bytes |
| Base64Alphabet.EncIsAlphabet | libhttpd/protocol.c:189-195 | six bits are written as the character at their place in the alphabet of RFC 4648 |
| Base64Alphabet.DecIsAlphabet | libhttpd/protocol.c:189-195 | the decoding table inverts that alphabet and has no value for any other character |
| Base64Alphabet.TwentyFourBits | libhttpd/protocol.c:241-247 | the four groups of six bits are the three bytes as one group of twenty-four |
| Base64.CodeEnds | libhttpd/protocol.c:232-235 | the scan stops exactly where the padding of an encoding begins |
| RuleText.ToNextWord | src/conf.c:416-428 | the word is cut off in place and the position moves past the following blanks, or the end is reported |
| RuleText.Rulesets.ParseFirewallRule | src/conf.c:498-625 | the in-place word parser files the rule the text stands for, or refuses with the right code and files nothing |
| RuleText.Rulesets.Get | src/conf.c:627-638 | the rules of the first ruleset of that name, none if there is none |
| RuleText.AddRuleSeen | src/conf.c:594-622 | filing a rule is seen at the end of its own ruleset and under no other name |
| RuleTheorems.RuleRoundTrip | src/conf.c:498-592 | a printed rule with an explicit mask parses back in any letter case, with any runs of blanks, whatever follows the mask, if its port is made of digits and colons, and is refused for its port if not |
| RuleTheorems.ShortRuleMeansEverywhere | src/conf.c:540-592 | a line with a protocol, a port or both and no mask stands for its rule over 0.0.0.0/0 |
| RuleTheorems.ProtocolIffNamed | src/conf.c:540-550 | a line that parses has a protocol exactly when what follows its target begins with tcp, udp or icmp, and then it is that word |
| RuleTheorems.UnknownTargetRefused | src/conf.c:521-538 | a line of several words is refused for its target exactly when the first is none of the five, in any letter case |
| RuleTheorems.LoneWordRejects | src/conf.c:521-526 | a line of one bare word is a rejection of everything, "allow" included |
| RuleTheorems.FirstWordDecides | src/conf.c:521-538 | the first word of a line that parses decides its target if and only if a blank follows that word or it is "block" in some letter case |
| RuleTheorems.AllowAloneRejects | src/conf.c:521-526 | the input at which it fails: "allow" alone rejects |
| RuleTheorems.FileOrder | src/conf.c:594-638 | each name's rules come out in file order, untouched by other names and by malformed lines |
| Checksum.ChecksumOf | src/util.c:346-352 | within 65537 words the 32-bit sum does not wrap, the fold terminates and the field is chosen from the folded sum |
| Checksum.FoldKeeps | src/util.c:349-350 | folding keeps the sum modulo 65535, fits a word, and only zero folds to zero |
| Checksum.MessageFoldsToOnes | src/util.c:346-352 | the message with its checksum in place folds to 0xffff, the kept 0xffff included |
| Checksum.OnlyThatField | src/util.c:352 | a field passes the receiver's test if and only if it completes the folded sum to a multiple of 65535 |
| Checksum.ByteOrderIsIrrelevant | src/util.c:346-347 | a message that passes in one byte order passes in the other |

## Left out

- Sockets, TLS, DNS, processes and signals: their results are inputs of the model (`Failover.Answer`, the reply codes of `Sessions.Event`).
- HTML pages, redirects, status text, logging, command lines, scalar options and the trusted-MAC and popular-server lists: presentation or easy members.
- The purge of unknown addresses during a counter reading (src/fw_iptables.c:675-683 and 718-726): it matches substrings of a stale listing.
- libhttpd/ip_acl.c, src/pstring.c, src/safe.c, contrib and scripts: no core logic, or never used by the gateway.
- A hostname that resolves to several addresses: the kernel would hold one rule per address.
- Sessions.Step: a restart takes no step when the stream overruns the child's line buffer or leaves a client without address, MAC or token, since what the program does then is undefined.
- Sessions.Step: an auth server is configured and every auth server is asked with the same client list; with none configured a logout ends at once and a sync applies no code.
- SessionRuns.CarriedRunsAreSafe: bounds each string by 1200 characters so that a line fits the child's buffer of 4096.
- FwPolicy.NatMeansPortal: assumes that earlier rules of PREROUTING fall through, as the portal cannot answer for rules that decide before it.
- SessionTheorems.PacketMark: what mark a packet already has, and what earlier non-WiFiDog rules do with it, stays a parameter.
- FwTeardown.DestroyMention: the listing is modelled as one text line per rule; its heading and column widths are not.
- HandoffTheorems.RestartRoundTrip: numbers beyond the range of a signed 64-bit integer are outside it (strtoll saturates); `RestartRoundTripIff` says exactly which lists arrive.
- HandoffTheorems.Restart: the descriptor number arrives, the open connection behind it is the operating system's.
- Handoff.ReadLine: the line buffer that strsep cuts is a value that each cut replaces, not an array.
- Base64.Decode: the output holds the padded length and its terminator; the branch that shortens an input too long for its buffer is not modelled.
- Base64.Decode: reads past the end of a coded text whose length is not a multiple of four are excluded by a precondition.
- Variables.Request.AddVariable: the two-way linked list is a sequence of names, each with its sequence of values; the links are not modelled.
- Failover.Central.ConnectAuthServer: the server list is a sequence that is reassigned; the calls that mark the connection up or down are in `Liveness`.
- RuleText.Rulesets.Append: rules and rulesets are sequences, not linked records.
- Gateway.Gateway.ReadOutgoingLine: one line of the listing at a time; the parsing of the listing is not modelled.
- Checksum.ChecksumOf: the message is a sequence of words in host order; the structure they come from is not modelled.
