# Torando Control: model and proofs

A Dafny 4.11 model of the parts of the Torando Control daemon that have to be right for a user to be
neither exposed nor stranded: the MaxMind DB reader, the iptables killswitch, the resolver pin, the
connect/disconnect state machine, the Windows killswitch, the torrc and pf.conf editors, the Tor
control-port reader and the country index. `dafny verify dfyconfig.toml` checks all of it.

How the model is laid out:

* Code that computes is a function; code that changes something step by step is a class or a method
  with the program's loops, proved to do what a function says. The theorems are about the functions.
* Host commands (`iptables -A/-D`, file writes, `netsh`) are fallible. A run is driven by a schedule,
  `Faults`, that says for each command and each point of the run whether it succeeds; theorems hold for
  every schedule, or for every schedule that meets a stated condition. A `World` keeps every state
  passed through (`seen`), so a crash is any prefix of it. `iptables -C` and reads are reliable.
* A result `false` or `None` of an operation stands for the exception the program raises.

| file | models |
|---|---|
| Wrappers, Runs | options, and the schedules and worlds that fallible runs share |
| Bytes, MmdbData, MmdbWire, MmdbDict, MmdbRoundTrip, MmdbTree, MmdbFile, MmdbEdges | `mmdb.py` (MaxMind DB File Format Specification 2.0) |
| Netfilter, Host, Engine, Transaction, PacketFilter | `engine.py` and what its rules do to packets |
| Firewall, Resolver, ResolverFiles, App, AppRuns, Outcomes | `firewall.py`, the resolver half of `netcfg.py`, `app.py` |
| Confinement | what a state of an `app.py` run means for a user's packets |
| WinFirewall, WinRuns, WinExact, WinOutcomes | `winfw.py`; its runs under assumptions, and without any; what a success comes to |
| Text, Torrc, TorrcRender, TorrcRead, PfConf | the torrc half of `netcfg.py`, the text editing of `pf.py` |
| TorControl, GeoIP | `torctl.py`, `geoip.py` |

Where the code does not do what its documentation says, the model follows the code; a theorem gives the
exact condition under which the documented behaviour holds, and a lemma an input at which it fails:

* `restore_resolv` reads the backup in text mode, so a resolver file with carriage returns does not
  come back byte for byte (`Resolver.RestoreAfterRun`, `Resolver.CarriageReturnAt`).
* On Windows, `remove` without a capture overwrites the user's policy with `BlockInbound,AllowOutbound`
  (`WinRuns.RemoveWithoutCapture`). An `apply` that cannot show the policy arms all the same and saves an
  empty capture; a remove right after it loses every policy but that one. A second apply in between takes
  the block itself for the original: a remove then leaves the machine blocked without whitelist, whatever
  the policy was, and so does that second apply's own teardown if it fails, though every restoring write
  works. Over all runs, a last remove that works brings the original back exactly when the capture that is
  held was taken by an apply that found the original in force, or none is held and the original is the
  fallback (`WinExact.RemoveAfterAnyRun`, `WinExact.FailedCaptureLosesPolicy`,
  `WinExact.RecaptureLocksOut`, `WinExact.RecaptureTearsDownToBlock`; at inputs `WinExact.CaptureLostAt`,
  `WinExact.FallbackLostAt`, `WinExact.TeardownBlocksAt`).
* The teardown of a failed `apply` checks nothing. Whatever it has captured, it leaves a block without
  whitelist exactly when some profile ends up blocked, by the policy written back or because that write
  fails, and some whitelist rule ends up missing (`WinExact.TeardownBareBlock`).
* A disconnect goes on when the resolver cannot be written back; the pin then stays without a killswitch
  (`AppRuns.DisconnectUnpinsExactly`, `AppRuns.DisconnectSafeExactly`, `AppRuns.PinStuckAt`).
* A reconnect over a pin can leave that pin without a killswitch: with working deletes exactly when its
  rules go through, writing the pin fails and so does writing the backup back right after
  (`AppRuns.ConnectSafeExactly`, `AppRuns.StrandedAt`).
* Changing `ipv6_killswitch` while connected is not refused. Switching it off is harmless: the next
  disconnect still removes every rule of both families. Switching it on without its rules standing makes
  the status report no killswitch; a further update may then change user or ports, and the next disconnect
  leaves rules of the connection behind. A disconnect cleans up exactly under the key the rules were built
  for (`AppRuns.UpdateAgreesExactly`, `AppRuns.RoutingAfterUpdate`, `AppRuns.DisconnectCleansExactly`,
  `AppRuns.ToggleStrandsRules`, `AppRuns.ToggleAt`).
* An active status does not quite mean confined. UDP that is not DNS leaves on any interface exactly when an
  accept for its port stands before the drop: the one for a `dns_port` other than 53, or one left over from
  an earlier configuration of the same user, after a connect that died part way
  (`PacketFilter.EscapeExactly`, `Confinement.PinnedMeansConfined`; at inputs `PacketFilter.EscapeAt`,
  `Confinement.LeftoverEscapesAt`).
* A managed torrc block is replaced without a trace exactly when stripping it leaves nothing
  (`Torrc.MergeAbsorbs`); a bridge line or exit code that contains END, and no field BEGIN, leaves debris
  (`TorrcRender.ReapplyIsApply`, `TorrcRender.MarkerAsBridge`).
* An anchor or file name that contains the END marker makes unhooking pf.conf leave debris
  (`PfConf.UnwireUndoesWire`, `PfConf.EndAsAnchor`).

## Model

| member | source | states |
|---|---|---|
| MmdbData.ReadValue | backend/torando_gui/mmdb.py:126-157 | the loops over map entries and array items build exactly the recursive decoder's value and end offset, or its first error, an unhashable key included |
| MmdbData.DepthIrrelevant | backend/torando_gui/mmdb.py:104-178 | any result other than a RecursionError is the result at every larger recursion depth, on every buffer |
| MmdbWire.ReadSizeForm | backend/torando_gui/mmdb.py:114-123 | for each size up to 65821+2^24-1 the reader recovers the size from its form and stops right behind it |
| MmdbWire.SizeFormsTile | backend/torando_gui/mmdb.py:114-123 | the four size forms cover 0..65821+2^24-1 without overlap: every form is the form of the size it reads back as |
| MmdbWire.PointerFormsTile | backend/torando_gui/mmdb.py:159-176 | the first three pointer forms cover 0..134744063, each number in exactly one of them; the fourth extends the range to 2^32 |
| MmdbWire.DecodePrinted | backend/torando_gui/mmdb.py:104-178 | for every tree of fields, pointers to fields elsewhere included, at any offset of any buffer that holds their bytes, decoding gives the field's meaning and the offset behind its own bytes |
| MmdbWire.DecodeThroughPointer | backend/torando_gui/mmdb.py:159-178 | a pointer yields what its target yields, and reading resumes behind the pointer's bytes, not behind the target |
| MmdbWire.SharingPreservesMeaning | backend/torando_gui/mmdb.py:159-178 | replacing any sub-values by pointers to their encodings does not change the decoded value |
| MmdbWire.SelfPointerNeverDecodes | backend/torando_gui/mmdb.py:159-178 | a pointer that leads to itself ends in RecursionError at every depth |
| MmdbDict.GetAfterSet | backend/torando_gui/mmdb.py:136-142 | reading a dict right after `out[key] = val`: the value for a key that compares equal, what was there before for any other |
| MmdbDict.KeysAfterSet | backend/torando_gui/mmdb.py:136-142 | an assignment keeps the place and the first form of a key that is there and appends one that is not |
| MmdbDict.GetExactly | backend/torando_gui/mmdb.py:37-39 | with distinct keys in any order a dict gives a value for a key exactly when some entry files it there |
| MmdbDict.LastWins | backend/torando_gui/mmdb.py:136-142 | of several values filed under equal keys the last one read stays |
| MmdbDict.MeaningDistinct | backend/torando_gui/mmdb.py:136-142 | every map decoded from a field has distinct keys |
| MmdbEdges.SignedExactly | backend/torando_gui/mmdb.py:143-144 | a signed integer stored in n bytes is the number of that width in two's complement |
| MmdbEdges.CutShort | backend/torando_gui/mmdb.py:126-154 | a payload that the end of the file cuts short: strings, bytes and integers come from the bytes there are and the offset moves on as if all were there, floats are refused |
| MmdbEdges.SizeAside | backend/torando_gui/mmdb.py:129-152 | a boolean is true for every size but 0, and floats have their own width whatever size they state |
| MmdbEdges.Refused | backend/torando_gui/mmdb.py:104-157 | nothing is read past the end, below the recursion limit, or of a type that does not exist |
| MmdbEdges.UnhashableMap | backend/torando_gui/mmdb.py:136-142 | a map with a list or a dict among its keys is refused, wherever that key stands |
| MmdbRoundTrip.RoundTrip | backend/torando_gui/mmdb.py:104-157 | decoding the encoding of any value (strings, bytes, integers, booleans, opaque floats, arrays, maps, any nesting) between any two byte strings returns the value and the offset behind it |
| MmdbRoundTrip.EncodeInjective | backend/torando_gui/mmdb.py:104-157 | no two values share an encoding |
| MmdbTree.Get | backend/torando_gui/mmdb.py:56-75 | the early-stopping loop over the address bits gives the recursive lookup's answer |
| MmdbTree.ComputeIpv4Start | backend/torando_gui/mmdb.py:92-98 | the cached start node is where 96 zero bits lead, or the leaf that ends them early |
| MmdbTree.BitsAreBinary | backend/torando_gui/mmdb.py:64-70 | the bits taken from a packed address are the binary digits of the number its bytes write |
| MmdbTree.ReadPackedNode | backend/torando_gui/mmdb.py:78-90 | both records of a node packed at 24, 28 or 32 bits are read back, the shared middle byte included |
| MmdbTree.WalkFollowsTrie | backend/torando_gui/mmdb.py:66-73 | walking any bits from any record of packed nodes, numbered in any order and shared in any way, ends at the record for what the trie the record stands for assigns to them |
| MmdbTree.LookupRefinesTrie | backend/torando_gui/mmdb.py:56-101 | for any packed nodes whose first stands for a trie, lookup returns the dict at the data offset the trie assigns to the address, and None where the trie has none, the bits run out, or an IPv6 address meets an IPv4 database |
| MmdbTree.RepresentsOne | backend/torando_gui/mmdb.py:64-90 | nodes stand for at most one trie, so the trie is what the file means |
| MmdbTree.PreorderRepresents | backend/torando_gui/mmdb.py:64-90 | every trie but a lone data record is stood for by some nodes, its preorder numbering |
| MmdbTree.SharedOrReordered | backend/torando_gui/mmdb.py:64-90 | nodes shared by two branches, and nodes in another order, stand for tries as well |
| MmdbTree.Ipv4InIpv6Tree | backend/torando_gui/mmdb.py:66-98 | in an IPv6 database looking up a.b.c.d is looking up 96 zero bits followed by a.b.c.d, also where the zero path stops early |
| MmdbEdges.NodePastEnd | backend/torando_gui/mmdb.py:78-90 | a node behind the end of the file reads as record 0 at 24 and 32 bits and is refused at 28 |
| MmdbEdges.NotAsked | backend/torando_gui/mmdb.py:56-63 | text that is no address, and an IPv6 address in an IPv4 database, get None and nothing is read |
| MmdbFile.MetaReads | backend/torando_gui/mmdb.py:37-41 | with distinct keys in any order each number is the one filed under its name, a boolean counting as 0 or 1; a missing key or another value is bad metadata |
| MmdbFile.MetadataExactly | backend/torando_gui/mmdb.py:181-189 | the metadata is the dict behind the last marker of the file; without a marker, or with something else behind it, the file is refused |
| MmdbFile.OpenExactly | backend/torando_gui/mmdb.py:33-49 | a file whose metadata tells the three numbers opens with them, if the record size is 24, 28 or 32; without one of them it is refused |
| MmdbFile.OpenRecovers | backend/torando_gui/mmdb.py:33-49 | opening a file of packed nodes, separator, data, marker and a metadata field that files the three numbers under their names, in any order and among any others, recovers them, the nodes, whatever trie they stand for, and the start node |
| MmdbFile.FileAnswers | backend/torando_gui/mmdb.py:33-101 | from file bytes to answer: opening and looking up yields the meaning of the field stored for the address, or None |
| MmdbFile.OrdinaryDescribed | backend/torando_gui/mmdb.py:33-49 | every file with up to 255 nodes (but 0xab, which could look like a marker), any data section and the three metadata entries of the test fixtures is one that OpenRecovers and FileAnswers speak of |
| MmdbFile.FileAt | backend/torando_gui/mmdb.py:33-75 | an actual file opens and answers |
| Engine.DeleteLowersCopies | backend/torando_gui/engine.py:212-217 | each delete that succeeds lowers the number of copies by one, so the delete loop ends |
| Engine.Engine.AddRule | backend/torando_gui/engine.py:205-210 | a present rule is left alone, an absent one is appended or the call fails |
| Engine.Engine.DelRule | backend/torando_gui/engine.py:212-217 | the loop deletes copies until none is left or a delete fails, and says which |
| Engine.Engine.Apply | backend/torando_gui/engine.py:219-240 | the append loop with its rollback has exactly the modelled effect and returns exactly the rules it appended |
| Engine.Engine.Remove | backend/torando_gui/engine.py:242-248 | the reverse removal loop passes over failures and has exactly the modelled effect |
| Engine.Engine.StatusList | backend/torando_gui/engine.py:250-258 | the counts and flags of the status are those of the table |
| Transaction.ApplyIsTransaction | backend/torando_gui/engine.py:219-240 | success: each chain is its old self followed by the absent rules in list order, and those are returned; failure with working deletes: nothing changed; failure with failing deletes: old rules first and in order, leftovers a subsequence of this call's additions; no old rule is ever missing on the way |
| Transaction.ApplyArms | backend/torando_gui/engine.py:219-240 | after a successful apply every listed rule is present |
| Transaction.ApplyThenRemove | backend/torando_gui/engine.py:219-248 | applying and then removing the returned list is the identity on both chains |
| Transaction.RemoveExact | backend/torando_gui/engine.py:242-248 | with working deletes each chain is left without any copy of the listed rules, the rest in order |
| Transaction.RemoveIsRobust | backend/torando_gui/engine.py:242-248 | whatever deletes fail: unlisted rules stay in order, nothing appears, and a listed rule whose own deletes work is gone |
| PacketFilter.ActiveConfines | backend/torando_gui/engine.py:94-147 | if the status is active, in whatever order the seven rules stand, among rules that never match the user and rules left over from other port pairs of that user, every packet of the user that leaves does so by lo, except UDP to a DNS port of one of the pairs when that is not 53 |
| PacketFilter.EscapeExactly | backend/torando_gui/engine.py:134-146 | a packet escapes exactly if it is UDP, not to port 53, and an accept for its port stands before the drop, whatever configuration put it there |
| PacketFilter.EscapeAt | backend/torando_gui/engine.py:134-146 | it happens: the built rules with dns_port 5353 let a UDP packet to 5353 out unchanged |
| PacketFilter.BuiltOrderTorifies | backend/torando_gui/engine.py:11-24 | in the built order: loopback untouched, TCP to TransPort, DNS to DNSPort, everything else dropped (up to the same exception) |
| PacketFilter.ApplyArmsConfinement | backend/torando_gui/engine.py:219-258 | a successful apply makes the status active and so establishes the confinement, however much was there before, rules left over included |
| PacketFilter.V6Confines | backend/torando_gui/engine.py:154-175 | with the IPv6 drop present anywhere in the chain the user's IPv6 packets leave only by lo |
| PacketFilter.BuiltV6Passes | backend/torando_gui/engine.py:154-175 | with the built IPv6 rules behind chains that do not match the user, a packet of the user passes exactly if it leaves by lo |
| Firewall.LinuxFirewall.ApplySix | backend/torando_gui/firewall.py:59-68 | IPv6 is armed where required, and a required family that cannot be armed is a failure |
| Firewall.LinuxFirewall.Apply | backend/torando_gui/firewall.py:70-80 | the two-family apply with its rollback has exactly the modelled effect |
| Firewall.LinuxFirewall.Remove | backend/torando_gui/firewall.py:82-91 | the two-family removal has exactly the modelled effect, IPv6 regardless of the toggle |
| Firewall.LinuxFirewall.GetStatus | backend/torando_gui/firewall.py:93-118 | the accumulated status is that of both families |
| Firewall.ApplyArmsBoth | backend/torando_gui/firewall.py:56-80 | success means all IPv4 and, where required, all IPv6 rules are present; in every state on the way both families still begin with their old chains |
| Firewall.ApplyIsAtomic | backend/torando_gui/firewall.py:70-80 | with working deletes a failure leaves both families as they were, an armed subset included, and success adds exactly the missing rules |
| Firewall.RemoveIsExact | backend/torando_gui/firewall.py:82-91 | removal never touches the resolver and, with working deletes, takes exactly the listed rules out of both families |
| Outcomes.ApplyOkExactly | backend/torando_gui/engine.py:219-240 | an apply succeeds exactly if appending its missing rules, each in its turn, works |
| Outcomes.ApplyRulesOkExactly | backend/torando_gui/firewall.py:56-80 | both families apply exactly if user and ports are valid, ip6tables is there where IPv6 is required, and every append of a missing rule works |
| Outcomes.CountExactly | backend/torando_gui/engine.py:250-258 | the count of a list is the sum over its parts, one for a rule that is present and none for another |
| Outcomes.StatusExactly | backend/torando_gui/firewall.py:93-118 | there is a status exactly for a valid user and ports; its totals are those of the families it covers, active means every required rule is present, killswitch that the drop is, for IPv6 as well where required |
| Resolver.UniversalKeepsLines | backend/torando_gui/netcfg.py:122-151 | reading in text mode does not change whether a file counts as holding only our pin |
| Resolver.UniversalExact | backend/torando_gui/netcfg.py:203-206 | text mode gives a file back unchanged exactly when it has no carriage return |
| ResolverFiles.UniversalLine | backend/torando_gui/netcfg.py:203-206 | text mode makes a line feed of CR and of CR LF and touches nothing else |
| ResolverFiles.OurPinExactly | backend/torando_gui/netcfg.py:122-127 | over a file given line by line, in any of the forms a line can end: it is our pin exactly if one single line counts, that is neither blank nor a comment once stripped, and that line stripped is "nameserver 127.0.0.1" |
| Resolver.ResolvConf.CaptureCurrent | backend/torando_gui/netcfg.py:130-142 | the current resolver is captured unless it is missing or our own pin |
| Resolver.ResolvConf.Lock | backend/torando_gui/netcfg.py:154-181 | capture, then pin, with either write able to fail |
| Resolver.ResolvConf.Unlock | backend/torando_gui/netcfg.py:184-212 | write the backup back, then drop it, failures noted and not raised |
| ResolverFiles.LockOutcome | backend/torando_gui/netcfg.py:154-181 | when a lock succeeds, and that it then leaves the pin, and in the backup what was there unless that was our pin or nothing |
| ResolverFiles.LockBacksUp | backend/torando_gui/netcfg.py:130-181 | after a lock that works, a file with any counting line other than the pin is in the backup |
| ResolverFiles.SecondServerAt | backend/torando_gui/netcfg.py:122-142 | a local cache with an upstream server behind it is no pin of ours and is backed up |
| ResolverFiles.RestoreOutcome | backend/torando_gui/netcfg.py:184-212 | a restore reports success exactly if there was a backup and both steps worked; in every case what it leaves |
| Resolver.LockConserves | backend/torando_gui/netcfg.py:154-181 | every state a lock visits holds the real resolver, or our pin and a backup of the real resolver |
| Resolver.RestoreConserves | backend/torando_gui/netcfg.py:184-212 | so does every state a restore visits; a complete one puts the real resolver back |
| Resolver.RestoreUnpinsExactly | backend/torando_gui/netcfg.py:184-212 | a backed-up pin is gone after a restore exactly if the restoring write worked |
| Resolver.RunConserves | backend/torando_gui/netcfg.py:130-212 | no run of locks and restores, each cut anywhere and failing anywhere, loses the real resolver |
| Resolver.RestoreAfterRun | backend/torando_gui/netcfg.py:130-212 | one complete restore after any such run gives the real resolver back, character for character exactly when it has no carriage return |
| Resolver.CarriageReturnAt | backend/torando_gui/netcfg.py:203-206 | a resolver line that ends in CR LF comes back ending in LF |
| App.App.RunConnect | backend/torando_gui/app.py:340-391 | the steps, the rules_applied flag and the rollback have exactly the modelled effect |
| App.App.RunDisconnect | backend/torando_gui/app.py:393-405 | resolver first and unconditionally, then the rules |
| App.App.RecoverOrphanedDns | backend/torando_gui/app.py:407-424 | a pin without killswitch is taken back, any other state is left alone |
| App.App.UpdateConfig | backend/torando_gui/app.py:461-482 | an update is refused if invalid or if it would change the rule key while routing, and otherwise replaces the configuration |
| App.ConnectSafe | backend/torando_gui/app.py:340-391 | in every state of a connect, rollback and reconnect included and whatever fails, the pin is in place only behind the whole killswitch and the real resolver is conserved, unless the connect strands a pin: finds one, gets its rules in, and can write neither the pin nor the backup; success means the whole killswitch is up |
| App.DisconnectSafe | backend/torando_gui/app.py:393-405 | the same for a disconnect, which ends unpinned, unless it finds a pin and cannot write the backup back |
| Outcomes.ConnectOkExactly | backend/torando_gui/app.py:340-391 | a connect succeeds exactly with a user, iptables, the torrc written where managed, Tor listening, both families applied and the resolver locked where asked for |
| Outcomes.ConnectSucceeds | backend/torando_gui/app.py:340-391 | with all of that at hand, valid ports, ip6tables where IPv6 is required, and appends and resolver writes that work, a connect succeeds |
| Outcomes.ConnectRefused | backend/torando_gui/app.py:340-391 | without user, iptables, written torrc or a listening Tor a connect fails with the firewall untouched and no pin written: at most it takes a backup back |
| Outcomes.NoLockNoTouch | backend/torando_gui/app.py:340-391 | a connect that is not to pin leaves the resolver alone however it ends |
| Outcomes.DisconnectOkExactly | backend/torando_gui/app.py:393-405 | a disconnect fails exactly for a user or ports that name no rules |
| Outcomes.RecoverExactly | backend/torando_gui/app.py:407-424 | a start restores the resolver exactly if it is pinned and no user is configured, or the killswitch is not up; a status that cannot be taken leaves everything alone |
| Outcomes.RoutingExactly | backend/torando_gui/app.py:484-492 | routing means the drop is in, for IPv6 as well where required, whichever other rules are missing |
| Outcomes.UpdateExactly | backend/torando_gui/app.py:461-482 | an update is accepted exactly if its ports are in 1..65535, its other fields pass, and, while routing, user and ports stay; the configuration is then the requested one, all of it |
| AppRuns.RunIsSafe | backend/torando_gui/app.py:340-424 | pin last, unpin first, over every run of connects, disconnects and updates, each able to die anywhere and be restarted with or without a reboot, any number of recoveries dying too, in which no step strands a pin: every visited state is safe |
| AppRuns.RecoveringKeeps | backend/torando_gui/app.py:407-424 | every state of a recovery, whatever fails in it and wherever it dies, is one the next recovery can start from |
| AppRuns.RecoverSafeExactly | backend/torando_gui/app.py:407-424 | a recovery that gets through makes such a host safe exactly if it can take back a pin whose rules are gone |
| AppRuns.UpdateSafeExactly | backend/torando_gui/app.py:456-482 | an update of a safe state is safe exactly if, over a pin, it requires IPv6 only where the IPv6 rules stand |
| AppRuns.ConnectSafeExactly | backend/torando_gui/app.py:340-391 | with working deletes every state of a connect is safe exactly if it does not strand a pin |
| AppRuns.StrandedAt | backend/torando_gui/app.py:381-390 | a reconnect over a standing connection in which only deletes work ends pinned without killswitch |
| AppRuns.DisconnectSafeExactly | backend/torando_gui/app.py:393-405 | with working deletes every state of a disconnect is safe exactly if there is no pin to take back or writing the backup back works |
| AppRuns.DisconnectUnpinsExactly | backend/torando_gui/app.py:393-405 | a disconnect from a pinned host leaves the pin exactly if writing the backup back fails |
| AppRuns.PinStuckAt | backend/torando_gui/app.py:393-405 | a pinned and backed-up host whose restoring write fails stays pinned |
| AppRuns.FreshStart | backend/torando_gui/app.py:340-391 | a host with a real resolver, no backup and none of our rules is a starting state of both run theorems |
| AppRuns.ConnectExact | backend/torando_gui/app.py:340-391 | from all-or-nothing tables a connect ends with exactly the configuration's rules, or fails with the old tables or none of ours |
| AppRuns.DisconnectExact | backend/torando_gui/app.py:393-405 | from all-or-nothing tables a disconnect leaves the host's own rules only |
| AppRuns.RunIsAllOrNothing | backend/torando_gui/app.py:340-492 | after every crash-free run from clean tables, IPv6 switched off and back on while its rules stand, our installed rules are none or all of the current configuration's, exactly those if IPv6 was never switched off while connected, and the next disconnect removes them all |
| AppRuns.UpdateAgreesExactly | backend/torando_gui/app.py:456-482 | an update accepted while connected keeps rules and configuration in agreement exactly when it requires IPv6 only where the IPv6 rules stand, and with no rule left over exactly when it does not change whether IPv6 is required |
| AppRuns.RoutingAfterUpdate | backend/torando_gui/app.py:456-492 | after it the status reports routing under just that condition |
| AppRuns.DisconnectCleansExactly | backend/torando_gui/app.py:393-405 | from a connected host a disconnect with working deletes leaves the host's own rules in both families exactly under a configuration with the key of the rules, whatever IPv6 has been switched to |
| AppRuns.ToggleStrandsRules | backend/torando_gui/app.py:456-492 | after an accepted update of a connected host a further one may change the key exactly if the first requires IPv6 without its rules; the next disconnect then leaves rules of the connection, all IPv4 ones if the user changed |
| AppRuns.ToggleAt | backend/torando_gui/app.py:456-482 | the disagreement at a concrete connected host |
| AppRuns.RestartKeepsConnection | backend/torando_gui/app.py:407-424 | the recovery of the next start leaves a standing connection alone |
| AppRuns.FailedConnectLeavesNothing | backend/torando_gui/app.py:381-390 | with working deletes a connect that fails from a disconnected, unpinned host leaves no rule and no pin, whatever else fails |
| Confinement.RunStaysTidy | backend/torando_gui/app.py:340-482 | over every run, deaths and failing commands included, all rules but those built for the user by configurations of the run leave the user alone, if the host's own do |
| Confinement.PinnedMeansConfined | backend/torando_gui/app.py:340-424 | in every state of every such run with the resolver pinned, a packet of the user leaves other than by lo exactly if it is UDP, not DNS, and an accept for its port stands before the drop, a port some configuration of the run has named; in IPv6, where required, none does |
| Confinement.LeftoverEscapesAt | backend/torando_gui/app.py:340-482 | a connect with dns_port 5353 dies after six appends, dns_port becomes 53, the next connect succeeds: pinned and active, and UDP to 5353 leaves unchanged |
| Confinement.RoutingConfines | backend/torando_gui/app.py:484-492 | what _is_routing means to its callers: whatever rules are missing or left over, nothing of the user leaves but by lo or to Tor ports that some configuration has named |
| Confinement.RoutingTorifies | backend/torando_gui/app.py:340-492 | after every crash-free run a status that reports routing means each packet of the user goes exactly where the ruleset is meant to send it |
| WinFirewall.WindowsFirewall.CaptureOnce | backend/torando_gui/winfw.py:175-187 | an existing non-empty capture is kept, otherwise the shown policy is saved |
| WinFirewall.WindowsFirewall.RunApply | backend/torando_gui/winfw.py:171-219 | capture, whitelist, block, with the teardown on a failed command, have exactly the modelled effect |
| WinFirewall.WindowsFirewall.RunRemove | backend/torando_gui/winfw.py:221-252 | rules and state file go only if every profile was restored |
| WinFirewall.WindowsFirewall.TearDown | backend/torando_gui/winfw.py:254-271 | policies, then rules, then state file, nothing checked |
| WinRuns.ApplyKeepsInv | backend/torando_gui/winfw.py:171-219 | every state of an apply keeps captures original, the user's rules untouched and changed policies whitelisted; success blocks outbound on every profile with inbound as it was |
| WinRuns.RemoveKeepsInv | backend/torando_gui/winfw.py:221-252 | so does every state of a remove that has a capture to go back to, whatever fails in it |
| WinRuns.NeverBareBlock | backend/torando_gui/winfw.py:189-271 | in every state of every run, crash points included, a profile whose outbound policy was changed has the Tor and both loopback allow rules in force and its capture saved |
| WinRuns.CaptureOnceSurvivesCrashes | backend/torando_gui/winfw.py:171-271 | after every run, however cut, a fully working remove leaves no rule of ours, no state file and the user's rules; the original policy comes back exactly when a capture exists or the original is the fallback policy |
| WinRuns.RemoveWithoutCapture | backend/torando_gui/winfw.py:224-236 | a concrete policy that a remove without a capture destroys |
| WinExact.RemoveAfterAnyRun | backend/torando_gui/winfw.py:171-271 | after every run, any command failing and any call cut anywhere, a fully working remove leaves no rule of ours, no state file and the user's rules; the original policy is back exactly when the capture held was taken by an apply that found it in force, or none is held and it is the fallback |
| WinExact.CaptureTaken | backend/torando_gui/winfw.py:175-187 | every capture held at the end of a run is the policy that some apply of the run, finding no capture, started from |
| WinExact.FailedCaptureLosesPolicy | backend/torando_gui/winfw.py:175-252 | if the policy cannot be shown at the first capture, a successful apply has saved nothing, and a fully working remove right after it brings the policy back exactly when it was the fallback policy |
| WinExact.RecaptureLocksOut | backend/torando_gui/winfw.py:175-252 | a second apply after such a first one captures our own block: a fully working remove then leaves every profile blocked and no whitelist, on every host |
| WinExact.CaptureLostAt | backend/torando_gui/winfw.py:175-252 | a policy that is not the fallback is lost after a first apply that cannot show it |
| WinExact.FallbackLostAt | backend/torando_gui/winfw.py:175-252 | the fallback comes back after one such apply, and not after a second one |
| WinExact.TeardownBareBlock | backend/torando_gui/winfw.py:254-271 | whatever is captured, a teardown leaves a block without whitelist exactly when some profile ends up blocked, by what is written back or because the write fails, and some whitelist rule missing; the capture is gone exactly if it was or its unlink works |
| WinExact.RecaptureTearsDownToBlock | backend/torando_gui/winfw.py:171-271 | a second apply after one that could not show the policy, failing at its first rule, tears down to our own block: every profile blocked, no whitelist, nothing captured, on every host, with every restoring write working |
| WinExact.TeardownBlocksAt | backend/torando_gui/winfw.py:171-271 | that at a concrete machine |
| WinOutcomes.AppliedExactly | backend/torando_gui/winfw.py:171-219 | a successful apply blocks outbound on every profile with inbound as captured or blocking, saves the capture it used, and adds exactly the whitelist, DHCP if allowed and LAN if allowed; every other rule is in force exactly if it was |
| WinOutcomes.ApplySucceeds | backend/torando_gui/winfw.py:171-219 | without tor.exe an apply fails and does nothing; with it, and every command but show working, it succeeds |
| WinOutcomes.RemoveOkExactly | backend/torando_gui/winfw.py:221-252 | a remove succeeds exactly if all three policies are written back; otherwise rules and capture stay |
| WinOutcomes.RemovedExactly | backend/torando_gui/winfw.py:221-252 | a remove in which everything works gives each profile its captured policy, or BlockInbound,AllowOutbound without one, and takes out exactly our five rules |
| Torrc.StripManagedBlocks | backend/torando_gui/netcfg.py:78-90 | the loop ends, each round shortening the text, with the recursively stripped text |
| Torrc.MergeAbsorbs | backend/torando_gui/netcfg.py:57-90 | merging a framed text and then another is merging the other alone, on any torrc, exactly when the first strips to nothing |
| Torrc.StripsToNothing | backend/torando_gui/netcfg.py:78-90 | a framed text with no END of its own strips to nothing, and one with no BEGIN of its own only then |
| Torrc.MergeReplaces | backend/torando_gui/netcfg.py:57-75 | a block that strips to nothing is replaced in place and the text around it kept to the character |
| Torrc.MergeAppends | backend/torando_gui/netcfg.py:57-70 | a torrc without BEGIN is kept, given a final newline, and the block set off behind it by a blank line |
| Torrc.MergeDangling | backend/torando_gui/netcfg.py:57-90 | a BEGIN without END takes the rest of the file along, for a merge as for a strip |
| Torrc.MergeHasOneBegin | backend/torando_gui/netcfg.py:57-75 | the merged text has exactly one BEGIN, where the old text had its first or behind all of it, and what stood before is kept verbatim |
| Torrc.MergeCollapses | backend/torando_gui/netcfg.py:71-90 | any number of managed blocks between pieces of own text collapses into one, every piece of own text kept |
| TorrcRender.RenderTorrcBlock | backend/torando_gui/netcfg.py:27-54 | the lines appended group by group, and bridge by bridge, are the rendered block |
| TorrcRender.RenderMarkers | backend/torando_gui/netcfg.py:27-54 | the rendered text is framed, and holds each marker once exactly when no exit code and no bridge carries that marker |
| TorrcRender.RenderIsBlock | backend/torando_gui/netcfg.py:27-54 | the rendered text is a proper block exactly when no exit code and no bridge carries a marker |
| TorrcRender.ReapplyIsApply | backend/torando_gui/netcfg.py:99-104 | applying a second configuration gives what applying it to the original torrc would if no field of the first carries END, and, when none carries BEGIN, only then |
| TorrcRender.MarkerAsBridge | backend/torando_gui/netcfg.py:27-75 | with END as a bridge line a second apply leaves debris |
| TorrcRead.DecimalExactly | backend/torando_gui/netcfg.py:39-46 | a port is written in decimal digits that read back as the port |
| TorrcRead.DirectivesExactly | backend/torando_gui/netcfg.py:34-54 | every directive carries its own setting, once, and under no other keyword is there anything |
| TorrcRead.RenderReadsBack | backend/torando_gui/netcfg.py:27-54 | reading the rendered text back line by line gives for every keyword the settings it stands for, as long as exit code and bridges are single lines |
| PfConf.WireIdempotent | backend/torando_gui/pf.py:116-133 | wiring is idempotent on every text |
| PfConf.WiredHoldsBlock | backend/torando_gui/pf.py:116-133 | the wired text always holds, between the two markers, the line that evaluates the anchor asked for and the line that loads it from its file |
| PfConf.UnwireUndoesWire | backend/torando_gui/pf.py:116-152 | for a conf without our BEGIN, unwiring gives it back with a final newline exactly when neither name holds an END marker |
| PfConf.WireAppends | backend/torando_gui/pf.py:116-133 | a conf without our BEGIN is kept, given a final newline, and the hook goes behind it |
| PfConf.UnwireKeepsAround | backend/torando_gui/pf.py:136-152 | unhooking takes out the hook wherever it stands and gives what is in front of it and behind it |
| PfConf.UnwireDangling | backend/torando_gui/pf.py:136-152 | a BEGIN that no END follows takes the rest of the file along |
| PfConf.EndAsAnchor | backend/torando_gui/pf.py:116-152 | with END as the anchor's name unhooking leaves debris in an empty file |
| PfConf.RewireIsWire | backend/torando_gui/pf.py:116-133 | wiring to new names over old, marker-free ones equals wiring the new names afresh |
| TorControl.Client.ReadLine | backend/torando_gui/torctl.py:76-86 | the line and the bytes left depend on the byte stream alone, not on how recv cut it |
| TorControl.Client.ReadReply | backend/torando_gui/torctl.py:88-108 | outcome and bytes left are those of parsing the stream: payload lines, malformed line, non-2xx code, or end of stream |
| TorControl.Client.ReadReplies | backend/torando_gui/torctl.py:76-108 | successive reads give the outcomes of the stream one after another and leave what those leave, however recv cut it |
| TorControl.Client.Command | backend/torando_gui/torctl.py:110-112 | one line ended by CRLF goes out, one reply is read |
| TorControl.RepliesInStep | backend/torando_gui/torctl.py:88-108 | for any list of well-formed 2xx replies followed by any bytes, successive reads return each reply's lines in order and leave exactly those bytes |
| TorControl.RefusedRead | backend/torando_gui/torctl.py:88-108 | after any well-formed items a line whose code is not 2xx is an error with that code and text, and exactly the bytes behind the line stay |
| TorControl.MalformedRead | backend/torando_gui/torctl.py:88-108 | so is a line shorter than four characters |
| TorControl.ClosedRead | backend/torando_gui/torctl.py:76-108 | bytes that end before a line does are a closed connection, and are left as they are |
| TorControl.ClosedInData | backend/torando_gui/torctl.py:76-108 | the same inside a data item whose single dot has not come |
| TorControl.RefusedAt | backend/torando_gui/torctl.py:88-108 | a 515 to AUTHENTICATE is refused |
| TorControl.LaterBytesIrrelevant | backend/torando_gui/torctl.py:88-108 | a reply once complete is not changed by bytes that arrive after it |
| GeoIP.Load | backend/torando_gui/geoip.py:46-73 | the three lists stay aligned, hold each range once, and ascend by low end whatever the file order |
| GeoIP.BisectRight | backend/torando_gui/geoip.py:80 | the position splits the sorted keys into those not above and those above the address |
| GeoIP.Lookup | backend/torando_gui/geoip.py:75-84 | the bisection and the range check compute the answer of the last row starting at or below the address |
| GeoIP.LookupIsScan | backend/torando_gui/geoip.py:67-84 | for well-formed pairwise disjoint ranges in any file order the answer is that of a linear scan of the file: the country of the range that holds the address unless that is "??", "a1" or "a2", and None where no range does |

## Left out

- Foreign calls: subprocesses, sockets beyond their byte streams, passwd lookup, JSON, UTF-8 decoding (strings are bytes or characters), IEEE decoding (floats are opaque bytes), parsing of IP addresses and of geoip lines.
- MmdbFile.OpenRecovers: `int()` of a metadata value is modelled for integers and booleans; text, bytes or floats that Python would convert, and a negative node_count, count as bad metadata.
- MmdbData.ReadValue: strings stay bytes, so keys that become equal only by decoding stay distinct; dict keys compare as Python compares integers, booleans, strings and bytes; floats, being opaque, never equal an integer. One unit of depth is one nested `_decode`, not one Python frame.
- MmdbRoundTrip.EncodeInjective: the encoder picks the integer type by width (5, 6, 9, 10), where the small encoder of the repository's tests keeps type 6 for every wide integer.
- Signed integers shorter than four bytes are read as the code reads them, sign-extended at the stored width; the encoder writes negative numbers in four bytes.
- PacketFilter: connection tracking and rules of other tables; REDIRECT is taken to rewrite to 127.0.0.1 and route by lo, 127.0.0.0/8 to leave by lo.
- MmdbTree.WalkFollowsTrie: nodes that form a cycle stand for no trie, and records that point into the separator are not modelled as data.
- Rules are structured values instead of argument vectors; only the OUTPUT chains the engine touches exist.
- Resolver.ResolvConf.Lock: file modes, and the immutability commands, which change nothing when they fail. A host on which that command is missing is left out: running it raises, so the pin fails after the rules are applied, and the rollback's unlock raises as well, which skips the removal of the rules (app.py:384-388). A file write is one step, so the plain `write_bytes` of the backup cannot tear.
- Resolver.ResolvConf.Unlock: the missing immutability command likewise, and a backup that is not UTF-8; there is one resolver path, and no other program writes it.
- AppRuns.RunIsSafe: IPv6 probing answers the same throughout, and the restarted daemon loads the configuration it had. A run in which some step strands a pin is excluded; AppRuns.ConnectSafeExactly, DisconnectSafeExactly, UpdateSafeExactly and RecoverSafeExactly say exactly which steps do.
- AppRuns.RunIsAllOrNothing: assumes working deletes and constant IPv6 probing, and excludes updates that require IPv6 without its rules while the status reports a killswitch, whose harm AppRuns.ToggleStrandsRules states.
- App.App.UpdateConfig: fields that do not reach rules or resolver, the account lookup and the other port checks are one flag of the request; saving the configuration file is not modelled.
- WinRuns.ApplyKeepsInv: assumes that an apply without a capture can read all three profiles and that writing an original policy back works during an apply; WinExact.TeardownBareBlock says what happens otherwise.
- WinRuns.NeverBareBlock: the same assumptions; removes without a capture are excluded from the run unless the original is the fallback policy.
- WinRuns.CaptureOnceSurvivesCrashes: the same assumptions; WinExact.RemoveAfterAnyRun has none of them.
- WinFirewall.WindowsFirewall.CaptureOnce: the proxy settings, and `netsh` output that names only some profiles.
- WinFirewall.WindowsFirewall.RunApply: pointing the system proxy at Tor.
- WinFirewall.WindowsFirewall.RunRemove: restoring the system proxy.
- WinFirewall.WindowsFirewall.TearDown: restoring the system proxy.
- WinFirewall: the text of `netsh` output and of its arguments, the status, and other writers of the firewall policy.
- App: the machine-wide platforms (macOS, Windows), where no user is selected; the model is the Linux daemon.
- TorControl.Client.ReadLine: bytes outside ASCII are handed out unreplaced.
- TorControl: a non-2xx reply leaves the rest of that reply in the stream, as in the code; dot-stuffed data lines are returned as they came.
- TorrcRender.RenderTorrcBlock: lower-casing is ASCII.
- GeoIP.Load: parsing and skipping of file lines.
- GeoIP.LookupIsScan: overlapping or inverted ranges, where the code's answer depends on the sort.
- `dns.py` pinners for macOS and Windows and `pf.py`'s pfctl driver: the same capture-once and apply-or-raise patterns with less structure; `socks.py`, `services.py`, the HTTP server, the web UI and packaging: plumbing.
