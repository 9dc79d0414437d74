# Auto-redirect nftables synchronizer, modelled in Dafny

This project models the nftables part of sing-tun's auto-redirect feature. That part is `redirect_nftables.go`. It covers:

- setup (`setupNFTables`), which builds the redirect table and its chains;
- the incremental local-address update (`nftablesUpdateLocalAddressSet`), run by the network-change callback;
- the route-address update (`nftablesUpdateRouteAddressSet`);
- teardown (`cleanupNFTables`);
- the inline filter that decides which interface prefixes count as local.

Each operation is a pure function. It takes the redirector's state, the interface snapshot, and a kernel oracle that says which operations fail and with which error. It returns the operations attempted, in program order, the new state and the returned error. The operations are abstract: `Open`, `AddTable`, `ListTable`, `DelTable`, `CreateAddressSets(update)`, `CreateLocalAddressSets(new, old)`, `AddChain(name, hook, priority, type)`, `AddRule(chain, rule)`, `ConfigureOpenWRT(revert)`, `Flush`, `Close`, `RegisterCallback` and `UnregisterCallback`. The abstract rule kinds are `ExcludeRules`, `Unreachable`, `Redirect(guard)`, `Mark`, `ExcludeDestSet(family, set)` and `UdpCtMarkCopy(mark)`.

Modules:

- `Types`: the configuration, interface snapshots, chains, rules, operations and the kernel oracle. An operation is fallible exactly when setup or an update looks at its error; teardown reads only the open and the revert. Building a chain, the rule helpers other than the exclude-rule helper, and the close are not fallible: their results, if any, are discarded.
- `Batch`: `Execute` runs a planned list of operations and stops at the first one that fails. This is the `if err != nil { return err }` discipline.
- `LocalAddressSet`: the local-address filter, `name == "lo" || IsGlobalUnicast(addr)`, flattened interface by interface.
- `Ruleset`: the chains and rules setup adds, and views of them by chain.
- `Sync`: setup, update, route update and teardown, with their properties.

In setup, `Install` is the body of `setupNFTables`, generic in the builder's output. `SetupNFTables` instantiates it with the builder. The update splits the same way: `Replace` is the body of `nftablesUpdateLocalAddressSet`.

The model follows the code in the following places, where one might expect otherwise:

- The update's no-op test is `slices.Equal`. That is an in-order, element-wise comparison, not a set comparison. `Sync.ReorderedSnapshotIsNotANoOp` exhibits two lists with the same elements in a different order that trigger a rewrite.
- The update hands the whole new list and the whole old list to the set helper. It does not compute an element diff, and it does not report "not initialized" separately. A missing table is simply a `ListTable` failure.
- The update replaces the recorded list before the commit. A failed commit therefore still records the new list. `Sync.RepeatedUpdateIsNoOp` states the consequence: the next identical snapshot is a no-op.
- Setup records the local list as soon as the address sets exist, before the local sets are created. `Sync.SetupRecordsLocalAddresses` states this.

## Model

| member | source | states |
|---|---|---|
| Batch.ExecuteMeaning | redirect_nftables.go:19-33 | A run of a plan attempts a prefix of it. It succeeds exactly when the whole plan ran and every step went through. Otherwise the last attempted step failed, its error is returned, and every earlier step went through. |
| Batch.ExecuteAppend | redirect_nftables.go:30-43 | Running two plans in sequence, stopping after the first if it fails, equals running their concatenation. |
| Batch.StopsAtFirstFailure | redirect_nftables.go:40-43 | When step k is the first failing step, the run is exactly the plan up to k, with step k's error. |
| LocalAddressSet.LocalPrefixesMembership | redirect_nftables.go:36-38 | A prefix of one interface is kept exactly when the interface is "lo" or the address is global unicast. |
| LocalAddressSet.LocalAddresses | redirect_nftables.go:35-39 | A snapshot made only of loopback interfaces yields all of its prefixes, in order. |
| LocalAddressSet.LocalAddressesMembership | redirect_nftables.go:35-39 | The local list holds exactly the prefixes that are local on some interface of the snapshot. |
| LocalAddressSet.LocalPrefixesAppend | redirect_nftables.go:36-38 | The per-interface filter preserves order: filtering a concatenation concatenates the filtered parts. |
| LocalAddressSet.LocalPrefixes | redirect_nftables.go:36-38 | Every prefix of "lo" is kept, in order, whatever its address. |
| LocalAddressSet.LocalAddressesAppend | redirect_nftables.go:35 | The list is the in-order concatenation of the snapshot's parts. |
| LocalAddressSet.LoopbackBlock | redirect_nftables.go:35-39 | A loopback interface contributes all its prefixes verbatim, at its own place in the list. |
| Ruleset.SkipOutput | redirect_nftables.go:45 | Excluding "lo" always suppresses the output chains. Including "lo" without excluding it never does. With no include list, only excluding "lo" does. A non-empty include list without "lo" always suppresses them. |
| Ruleset.Rules | redirect_nftables.go:45-146 | The first operation creates "output", or "prerouting" when the output chains are suppressed. |
| Ruleset.RulesAreOnlyChainsAndRules | redirect_nftables.go:45-146 | The builder emits only chain and rule additions: no open, commit or callback. |
| Ruleset.ChainsByMode | redirect_nftables.go:45-109 | The chains created, with hook, priority and type, in order. First come "output" (output hook, mangle, NAT) and, in mark mode, "output_udp" (output hook, mangle, route), unless suppressed. Then "prerouting" (prerouting hook, mangle, NAT). Then, exactly in mark mode, "prerouting_udp" (prerouting hook, mangle+1, filter). |
| Ruleset.OutputSuppression | redirect_nftables.go:45-46 | "output" is created exactly when output is not suppressed. "output_udp" is created exactly when it is not suppressed and mark mode is on. "prerouting" is always created. |
| Ruleset.SuppressedOutputChains | redirect_nftables.go:45-100 | Under suppression neither output chain exists, but "prerouting" does. |
| Ruleset.MarkModeChains | redirect_nftables.go:47-109 | Mark mode without suppression creates output, output_udp, prerouting, prerouting_udp, in that order. |
| Ruleset.SimpleModeChains | redirect_nftables.go:47-93 | Simple mode without suppression creates output, then prerouting, and nothing else. |
| Ruleset.MarkModeOutputRules | redirect_nftables.go:54-74 | In mark mode, "output" holds ExcludeRules, Unreachable, an unguarded Redirect, and "output_udp" holds ExcludeRules, Unreachable, Mark, in that order. |
| Ruleset.SimpleModeOutputRules | redirect_nftables.go:75-84 | In simple mode, "output" holds exactly one Redirect guarded by oifname == tun name. No output_udp or prerouting_udp rule exists. |
| Ruleset.SuppressedOutputRules | redirect_nftables.go:45-46 | Under suppression no rule goes to an output chain. |
| Ruleset.PreroutingChainRules | redirect_nftables.go:87-100 | In every mode, "prerouting" holds exactly ExcludeRules, Unreachable, Redirect, Mark, in that order. |
| Ruleset.PreroutingUdpChainRules | redirect_nftables.go:102-146 | "prerouting_udp" holds the IPv4 local-set exclusion if IPv4 is on, then the IPv6 one if IPv6 is on, then the UDP ct-mark copy for the input mark. It is empty outside mark mode. |
| Ruleset.RulesOfChain | redirect_nftables.go:45-146 | The rules of any named chain, gathered from the output, prerouting and prerouting_udp parts. |
| Ruleset.RulesGroupedByChain | redirect_nftables.go:45-146 | Each chain is filled right after it is created and before the next chain is created. The builder's output is exactly its chains, in creation order, each followed by all of its rules. |
| Sync.SetupNFTables | redirect_nftables.go:18-165 | Setup keeps the configuration and always attempts the open first. It leaves a callback registered exactly when one was already registered or it succeeded. |
| Sync.Install | redirect_nftables.go:18-165 | Setup keeps the configuration and always attempts the open first. It leaves a callback registered exactly when one was already registered or it succeeded. The recorded local list is either the new one or the old one. |
| Sync.InstallFollowsPlan | redirect_nftables.go:18-164 | Setup is its plan run up to the first failure. It then registers the callback if the whole plan succeeded, and closes whenever the connection opened. The local list is recorded exactly when the open and the address-set creation succeeded. |
| Sync.InstallPlanShape | redirect_nftables.go:18-156 | The plan opens once, first, and commits once, last, right after ConfigureOpenWRT(false). It never registers a callback. |
| Sync.ExecuteShapedPlan | redirect_nftables.go:148-156 | In a run of such a plan, a commit is attempted only after the OpenWRT configuration succeeded. An error after the commit was attempted is the commit's own error. |
| Sync.InstallStopsAtFirstFailure | redirect_nftables.go:18-156 | For any builder output, the first failing step's error is returned right after that step. The connection is then closed unless the open itself failed. No callback is registered. A commit is attempted only if it is the failing step. |
| Sync.InstallCommitDiscipline | redirect_nftables.go:148-164 | For any builder output, setup succeeds exactly when every plan step goes through, and then the run is the plan, RegisterCallback, Close. The callback is registered exactly on success. A commit is attempted only after ConfigureOpenWRT(false) succeeded. |
| Sync.SetupStopsAtFirstFailure | redirect_nftables.go:18-156 | The early-exit property for setup with the builder's own ruleset. |
| Sync.SetupCommitDiscipline | redirect_nftables.go:148-164 | The commit discipline for setup with the builder's own ruleset. |
| Sync.SetupRecordsLocalAddresses | redirect_nftables.go:30-43 | Setup records the filtered snapshot exactly when the open and the address-set creation succeeded, whatever fails afterwards. |
| Sync.UpdateLocalAddressSet | redirect_nftables.go:168-192 | The update never changes the configuration or the callback registration. |
| Sync.Replace | redirect_nftables.go:168-192 | The update keeps the configuration and the callback registration. It attempts nothing exactly when the new list equals the recorded one, and otherwise starts with the open. The recorded list is either the new one or the old one. |
| Sync.UpdateSkipsUnchanged | redirect_nftables.go:174-176 | The update attempts nothing exactly when the recomputed list equals the recorded one in order. It then succeeds and changes nothing. |
| Sync.UpdateFollowsPlan | redirect_nftables.go:177-191 | A changed list is handled like this: open, ListTable, CreateLocalAddressSets(new, old), Flush, stopping at the first failure and closing whenever opened. The new list is recorded exactly when the open, the listing and the set helper succeeded. |
| Sync.ReplaceFollowsPlan | redirect_nftables.go:177-191 | The same for any recomputed list that differs from the recorded one. |
| Sync.SetupThenUpdateIsNoOp | redirect_nftables.go:169-176 | Setup and update filter identically: after setup created the sets, an update on the same snapshot is a no-op. |
| Sync.RepeatedUpdateIsNoOp | redirect_nftables.go:186-191 | Once the set helper succeeded, repeating the update on the same snapshot is a no-op, even if the first commit failed. |
| Sync.ReorderedSnapshotIsNotANoOp | redirect_nftables.go:174-176 | The comparison is order-sensitive: the same two prefixes in the other order make the update attempt operations. |
| Sync.UpdateRouteAddressSet | redirect_nftables.go:194-209 | The route update never changes the redirector's state. It always attempts the open first, and closes exactly when the open succeeded. |
| Sync.RouteUpdateFollowsPlan | redirect_nftables.go:194-209 | The route update is open, ListTable, CreateAddressSets(true), Flush, stopping at the first failure and closing whenever opened. It never changes state. |
| Sync.CleanupNFTables | redirect_nftables.go:211-226 | Teardown panics exactly when the connection opened and the OpenWRT revert failed. It always attempts the open and never registers a callback. It closes exactly when the connection opened and nothing panicked. |
| Sync.CleanupUnregistersFirst | redirect_nftables.go:211-214 | Teardown unregisters the callback exactly when one is registered, and does so first and only once. |
| Sync.CleanupOrder | redirect_nftables.go:211-226 | The whole teardown trace in each case, after the optional unregistration. If the open fails: the open, then a quiet return. If the revert fails: open, DelTable, revert, then a panic with the revert's error. Otherwise: open, DelTable, revert, Flush, Close, and a normal return. |
| Sync.CleanupIgnoresCommitErrors | redirect_nftables.go:224-225 | The commit and close errors do not affect teardown. |
| Sync.SetupThenCleanupUnregisters | redirect_nftables.go:158-163 | After a successful setup, teardown begins by unregistering the callback setup registered. |

## Left out

- The internals of the helpers defined in other files are not part of this model. Those helpers are `nftablesCreateAddressSets`, `nftablesCreateLocalAddressSets`, `nftablesCreateExcludeRules`, `nftablesCreateUnreachable`, `nftablesCreateRedirect`, `nftablesCreateMark`, `nftablesCreateExcludeDestinationIPSet`, `nftablesIfname` and `configureOpenWRTFirewall4`. Each is one abstract operation or rule. The fallible ones fail as the kernel oracle says.
- The nftables library encoding is not modelled: registers, byte layouts, native-endian packing and the netlink transport. The mangle priority is the library's constant, -150.
- The exclude-destination rule keeps only the set's name and family. The numeric ids 5 and 6 and the trailing `false` flag passed to `nftablesCreateExcludeDestinationIPSet` are encoding details inside that helper and are not modelled.
- `netip.Addr.IsGlobalUnicast` is an uninterpreted parameter of type `Addr -> bool`.
- The network monitor's asynchronous callback and its threading are not modelled. Registration and unregistration are trace events, and the callback body is the update function.
- The deferred close's own error is ignored by the code, and the model only records that the close was attempted.
- LocalAddressSet.LocalAddresses: its own postcondition covers only the all-loopback snapshot, to keep every proof that mentions the list cheap. The full filter is stated by `LocalAddressesMembership`, `LocalAddressesAppend` and `LoopbackBlock`.
- Ruleset.Rules: its own postcondition only names the first operation. The chains and their order are stated by `ChainsByMode` and `OutputSuppression`, each chain's rules by `RulesOfChain`, and the interleaving of chains and rules by `RulesGroupedByChain`.
- `Execute` carries no postcondition of its own. `ExecuteMeaning` states what a run means, so that the proofs about each operation do not all carry it.
- `tun_linux_gvisor.go`'s `NewEndpoint` is a one-call wrapper over gVisor's endpoint constructor with no logic of its own.
