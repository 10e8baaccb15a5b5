# Quilt reconciliation core, modelled in Dafny

This project models three parts of Quilt's reconciliation engine.

- **The Google Compute Engine cluster driver** (`cluster/google/google.go`):
  - how it names, creates, patches and deletes the per-port-range firewalls that carry the cluster's ACLs;
  - how it reads ACLs back out of a firewall listing;
  - how it sets up the cluster network and internal firewall;
  - how it boots and stops instances and polls the provider until it catches up.
- **The minion supervisor's container reconciliation**, as its tests pin it down (`minion/supervisor/supervisor_test.go`):
  - which system containers a minion runs, with which arguments, for each role, leadership and etcd-membership snapshot;
  - which `ovs-vsctl` command it executes;
  - how a pass moves the host from what runs to what is wanted.
- **The Etcd table of the entity store** (`db/etcd.go`): inserting a row with a fresh ID, predicate selection, and the leader query.

Files and modules:

| file | module | contents |
|---|---|---|
| `go_text.dfy` | `GoText` | `strings.Split`/`Join` on one separator, `%d` formatting, `strconv.Atoi` with its error discarded |
| `seqs.dfy` | `Seqs` | flattening a sequence through a function (nested append loops) |
| `compute.dfy` | `Compute` | the provider as seen by the driver: firewalls, networks, operations, and a log of accepted requests |
| `acl.dfy` | `Acl` | the ACLs a firewall listing carries, grouping by port range, the target of `SetACLs` |
| `polling.dfy` | `Polling` | the polling loops of `wait` and `operationWait` |
| `google.dfy` | `Google` | the `Cluster` class and its methods |
| `supervisor.dfy` | `Supervisor` | images, argument builders, desired state, and the `Host` class running one pass |
| `etcd.dfy` | `Db` | the `Etcd` row, the `Database` view and the `Conn` connection |

The provider is modelled as the class `Compute.Gce`. Its API calls are numbered, and what a call sees comes from oracles given at construction:
- whether call `k` fails;
- which instances call `k` lists;
- the status call `k` reports for an operation;
- the `k`-th fresh UUID.

A request the provider accepts is appended to `requests`. A firewall or network request takes effect at once. An instance request takes effect only through the listing oracle. The 3-second ticker is counted in rounds, and the 3-minute deadline is `MaxRounds = 60` rounds.

## Model

| member | source | states |
|---|---|---|
| GoText.JoinSplit | cluster/google/google.go:344-347 | joining the pieces of `strings.Split(s, sep)` with `sep` gives `s` back |
| GoText.SplitPieces | cluster/google/google.go:344-350 | `Split` yields one piece more than there are separators, and no piece holds the separator; so it never returns zero pieces, and the `case 0` branch is dead |
| GoText.SplitJoin | cluster/google/google.go:344-347 | splitting a join returns the parts exactly when no part contains the separator |
| GoText.AtoiNatToString | cluster/google/google.go:353-361 | `Atoi` reads back any decimal up to the int64 maximum |
| GoText.AtoiSyntax | cluster/google/google.go:353-361 | every input `strconv.Atoi` rejects with a syntax error (empty, a lone sign, or a non-digit met before the leading digits overflow, such as `8a` or `x1`) reads as 0, because the error is discarded |
| Acl.TokenSinglePort | cluster/google/google.go:347-356 | a port token without `-` gives `minPort == maxPort == Atoi(token)` |
| Acl.TokenPortRange | cluster/google/google.go:347-362 | a token `a-rest` gives `Atoi(a)` and `Atoi` of the second piece; pieces past the second are ignored |
| Acl.TokenUnparsable | cluster/google/google.go:357-361 | each bound of `a-b` that `Atoi` rejects with a syntax error (`8a-90`, `+-5`, `-3`) is read as port 0 |
| Acl.TokenRoundTrip | cluster/google/google.go:347-362 | a range with non-negative bounds up to the int64 maximum, formatted with `"%d-%d"`, parses back to the same bounds |
| Acl.NegativeRangeMisread | cluster/google/google.go:347-362 | a range with a negative lower bound `-N` does not parse back: `-N-M` splits into `""`, `N` and `M` and reads as 0 to N |
| Acl.RangeACLsAreTokens | cluster/google/google.go:342-366 | the two inner loops give one ACL per comma-separated port token, in order, all for the same source range |
| Acl.FirewallACLsShape | cluster/google/google.go:341-367 | a firewall yields `|sourceRanges| * |tokens|` ACLs; an ACL comes from it exactly when its CIDR is a source range and its ports come from one of the tokens |
| Acl.ParsedACLsMember | cluster/google/google.go:336-374 | an ACL is parsed from a listing exactly when some firewall other than the internal one carries it |
| Acl.ParsedACLsSkipsInternal | cluster/google/google.go:338-340 | the internal firewall contributes no ACL, wherever it is in the listing |
| Acl.GroupByPortsSpec | cluster/google/google.go:655-670 | the grouping's keys are exactly the port ranges of the input ACLs (CIDR blank); each key maps to that range's non-empty CIDRs in input order |
| Acl.CidrsInCount | cluster/google/google.go:662-667 | each non-empty CIDR occurs in a range's group as often as the input holds that ACL; the empty CIDR never occurs |
| Acl.TargetKeys | cluster/google/google.go:387-402 | `SetACLs` visits exactly the port ranges of the desired ACLs and of the current ones |
| Acl.TargetContents | cluster/google/google.go:387-402 | the CIDRs `SetACLs` sets on a range are, as a multiset, the desired CIDRs of that range; the ranges of removed ACLs only add a blank that the grouping drops |
| Acl.TargetMember | cluster/google/google.go:387-402 | a CIDR is set on a range exactly when it is non-empty and that ACL is desired |
| Compute.FindFirewall | cluster/google/google.go:440-452 | a found firewall is in the listing and has that name; nothing is found exactly when no firewall has the name |
| Polling.Poll | cluster/google/google.go:241-258 | one tick polls the head of the pending list once per item; a poll makes at most one call more than it drops, and a failing call is one of those calls |
| Polling.PollDropsFront | cluster/google/google.go:241-258 | a tick drops pending items from the front only |
| Polling.PollSeen | cluster/google/google.go:241-258 | each item a tick drops was seen in its awaited state by one of the tick's calls |
| Polling.RoundsEnd | cluster/google/google.go:236-263 | a polling loop that breaks at the first pending item always ends: converged, failed, or timed out, within `|items| + MaxRounds` calls |
| Polling.RoundsConverged | cluster/google/google.go:236-263 | when the loop converges, every item was seen in its awaited state |
| Polling.WaitSpecEnds | cluster/google/google.go:180-217 | the corrected `wait` always ends within `|items| + MaxRounds` calls, and an empty list converges at once without a call |
| Polling.StuckRoundsTimeOut | cluster/google/google.go:189-194 | with the break, an item that never reaches its state makes the wait time out after `MaxRounds` rounds |
| Polling.Spin | cluster/google/google.go:196-211 | the inner loop of `wait` as written has no timeout exit; that it then keeps listing for ever on a stuck name is what `Polling.SpinsForever` and `Google.WaitBusyLoop` prove |
| Polling.WaitAsWritten | cluster/google/google.go:180-217 | `wait` as written never reports a timeout |
| Polling.SpinsForever | cluster/google/google.go:196-211 | as written, an item that never reaches its state keeps the inner loop listing forever |
| Google.WaitBusyLoop | cluster/google/google.go:196-211 | a machine that never shows up spins the written `wait` forever, while the corrected one times out after `MaxRounds` listings |
| Google.FirewallNameInjective | cluster/google/google.go:457-458 | distinct port ranges get distinct firewall names |
| Google.InternalIsNoRange | cluster/google/google.go:86 | the internal firewall's name is never a port range's firewall name |
| Google.NewFirewallParsesBack | cluster/google/google.go:504-529 | a firewall created for a range with non-negative bounds up to the int64 maximum parses back into two ACLs (tcp, udp) per source range, each with exactly that range |
| Google.BootRequestsMember | cluster/google/google.go:133-148 | `Boot` asks for an instance exactly when the insert for a machine of the boot set succeeded, named `quilt-` plus a fresh UUID, with the machine's size and zone |
| Google.BootRequestsAll | cluster/google/google.go:133-148 | when no insert fails, `Boot` asks for one instance per machine, in order |
| Google.StopRequestsMember | cluster/google/google.go:159-171 | `Stop` asks for a deletion exactly when the delete of a given machine succeeded, by its ID and zone |
| Google.GroupACLsByPorts | cluster/google/google.go:655-670 | the loop computes the grouping whose keys and contents `Acl.GroupByPortsSpec` states |
| Google.BuildToSet | cluster/google/google.go:387-400 | the three loops list the additions, the desired side of the pairs, and the removals with a blank CIDR |
| Google.ParsePorts | cluster/google/google.go:344-364 | the ACLs of one comma-separated ports string |
| Google.ParseAllowed | cluster/google/google.go:343-365 | the ACLs of one allowed protocol entry |
| Google.ParseRange | cluster/google/google.go:342-366 | the ACLs of one source range |
| Google.ParseFirewall | cluster/google/google.go:341-367 | the ACLs of one firewall |
| Google.Cluster.ParseACLs | cluster/google/google.go:336-374 | the loop yields exactly the ACLs `Acl.ParsedACLsMember` characterises |
| Google.Cluster.New | cluster/google/google.go:74-101 | a cluster is handed out only when its network exists and its internal firewall `<ns>-internal` is present |
| Google.Cluster.OperationWait | cluster/google/google.go:225-264 | ends as the polling specification says: all operations DONE, the failing call's error, or the timeout |
| Google.Cluster.Wait | cluster/google/google.go:180-217 | the corrected `wait`: ends as the polling specification says, with the listing test `name present == live` |
| Google.Cluster.Boot | cluster/google/google.go:133-153 | draws one UUID per machine, logs exactly the successful inserts, and waits for those names to show up |
| Google.Cluster.Stop | cluster/google/google.go:159-176 | logs exactly the successful deletions and waits for those IDs to disappear |
| Google.Cluster.GetFirewall | cluster/google/google.go:440-452 | one listing call: its error, or the firewall with that name if there is one |
| Google.Cluster.GetCreateFirewall | cluster/google/google.go:454-475 | an existing firewall is returned untouched; a missing one is created with the placeholder range `127.0.0.1/32`; no other firewall changes, and every request is about this one |
| Google.Cluster.PatchOrDelete | cluster/google/google.go:408-434 | the one request sent is a delete when the target is empty and a patch to exactly the target otherwise; on success the firewall carries exactly the target CIDRs, or is gone when the target is empty; no other firewall changes |
| Google.Cluster.SetRange | cluster/google/google.go:402-434 | on success the range's firewall carries exactly its target CIDRs; an empty target leaves no firewall, unless one already stood with no source ranges; a firewall already in sync gets no request |
| Google.Cluster.SetRanges | cluster/google/google.go:402-435 | on success every grouped range is reconciled (its firewall carries exactly its CIDRs, and is deleted when they are none, unless it already stood empty); on the first error the ranges already visited stay reconciled, and the ranges never reached get no request and keep their firewalls; firewalls of other names are untouched |
| Google.Cluster.SetACLs | cluster/google/google.go:377-438 | on success the chosen split meets the join's contract against the parsed current ACLs and every target range's firewall carries its target CIDRs, the firewall of a range with an empty target being deleted unless it already stood empty; on an error, requests were made only for the ranges visited up to the failing one, and the rest keep their firewalls; the internal firewall and unrelated firewalls are untouched |
| Google.Cluster.NetInit | cluster/google/google.go:605-627 | on success the namespace's network exists; an existing network leads to no request |
| Google.Cluster.FwInit | cluster/google/google.go:632-653 | on success the internal firewall exists; if missing it is created with ports `1-65535` from `192.168.0.0/16` |
| Supervisor.ValidateImage | minion/supervisor/supervisor_test.go:498-509 | an accepted name is the name of the image returned; a rejected one is none of the six names |
| Supervisor.ValidateImageRoundTrip | minion/supervisor/supervisor_test.go:498-509 | each image's own name validates to that image |
| Supervisor.ValidateImageAcceptsSix | minion/supervisor/supervisor_test.go:498-509 | exactly the six image names are accepted |
| Supervisor.SwarmMasterAddress | minion/supervisor/supervisor_test.go:452-456 | a master's swarm manager listens and advertises on `ip:2377` |
| Supervisor.SwarmWorkerAddress | minion/supervisor/supervisor_test.go:458-461 | a worker's swarm runs `join` with address `ip:2375` and no `--host` |
| Supervisor.EtcdMasterFlags | minion/supervisor/supervisor_test.go:463-475 | master etcd is named `master-<ip>`, gets the initial cluster of the members, and is not a proxy |
| Supervisor.EtcdWorkerFlags | minion/supervisor/supervisor_test.go:477-484 | worker etcd is a proxy (`--proxy=on`) with no name and the initial cluster of the members |
| Supervisor.EtcdMasterMembership | minion/supervisor/supervisor_test.go:463-475 | master etcd arguments change exactly when the initial-cluster string changes |
| Supervisor.EtcdWorkerMembership | minion/supervisor/supervisor_test.go:477-484 | worker etcd arguments change exactly when the initial-cluster string changes |
| Supervisor.OvsExecFlags | minion/supervisor/supervisor_test.go:486-496 | the exec sets `ovn-encap-ip` to the private IP and `ovn-remote` to `"tcp:<leader>:6640"` |
| Supervisor.OvsExecInjective | minion/supervisor/supervisor_test.go:486-496 | distinct (IP, leader) pairs give distinct exec commands |
| Supervisor.OvsExecWords | minion/supervisor/supervisor_test.go:486-496 | no word of the exec command contains a space, given IPs without spaces |
| Supervisor.ExecTargetsDesired | minion/supervisor/supervisor_test.go:190-196 | the exec only targets a container the same snapshot wants running |
| Supervisor.ContainerCallsTouchChanged | minion/supervisor/supervisor_test.go:64-72 | a pass removes only running containers and runs only wanted ones with their wanted arguments; it touches no container that already matches |
| Supervisor.QuietWhenSettled | minion/supervisor/supervisor_test.go:418-423 | once the running set is the wanted set and every command is recorded, a pass makes no call |
| Supervisor.SecondPassQuiet | minion/supervisor/supervisor_test.go:418-423 | a second pass on the same snapshot, computed from the containers and records the first pass left (what `Host.RunSystemOnce` ensures), makes no call and leaves the records as they are: reconciliation is idempotent |
| Supervisor.ExecRecordsSpec | minion/supervisor/supervisor_test.go:430-440 | after a pass each wanted command is recorded in its container; other records stay, and records are only added to |
| Supervisor.NoRoleRunsNothing | minion/supervisor/supervisor_test.go:14-46 | a minion without a role runs nothing and executes nothing, even with a leader IP set |
| Supervisor.MasterRuns | minion/supervisor/supervisor_test.go:48-77 | a non-leading master runs exactly Etcd (master args), Ovsdb (`ovsdb-server`) and Swarm (master args), with no exec |
| Supervisor.LeadershipTogglesNorthd | minion/supervisor/supervisor_test.go:79-131 | gaining leadership starts `ovn-northd` and nothing else; losing it removes `ovn-northd` and nothing else |
| Supervisor.WorkerRuns | minion/supervisor/supervisor_test.go:134-162 | a worker without a leader IP runs exactly Etcd (proxy args), Ovsdb and Ovsvswitchd, with no exec |
| Supervisor.WorkerLearnsLeader | minion/supervisor/supervisor_test.go:164-188 | learning the leader IP starts the worker Swarm and `ovn-controller` and touches nothing else |
| Supervisor.WorkerExecsOnce | minion/supervisor/supervisor_test.go:190-196 | a worker with a leader IP executes the `ovs-vsctl` command in `ovs-vswitchd`, once, if not yet recorded |
| Supervisor.WorkerExecShown | minion/supervisor/supervisor_test.go:190-196 | `fakeDocker.GetExec`'s view of the records (`ExecView`, supervisor_test.go:430-440) then shows exactly `{Ovsvswitchd: ovsExecArgs(ip, leader)}` |
| Supervisor.WorkerBecomesMaster | minion/supervisor/supervisor_test.go:237-258 | a worker turned master stops `ovs-vswitchd` and `ovn-controller`; no exec is made or shown |
| Supervisor.MasterBecomesWorker | minion/supervisor/supervisor_test.go:260-286 | a master turned back into a worker executes the `ovs-vsctl` command once more in its new `ovs-vswitchd` |
| Supervisor.MembershipTouchesOnlyEtcd | minion/supervisor/supervisor_test.go:289-387 | changing etcd members only touches the Etcd container, and only when the initial-cluster string changes; the exec is unchanged |
| Supervisor.MembershipKeepsOthers | minion/supervisor/supervisor_test.go:289-387 | after changing etcd members the same images run, and every image but Etcd keeps its container |
| Supervisor.Host.RunSystemOnce | minion/supervisor/supervisor_test.go:418-423 | after one pass the running set is the desired set; records of surviving containers are kept and the wanted command recorded; the calls made are the container calls followed by the exec calls |
| Supervisor.Host.ReconcileContainers | minion/supervisor/supervisor_test.go:442-450 | the running set becomes the wanted one through exactly the container calls, image by image |
| Supervisor.Host.ExecCommands | minion/supervisor/supervisor_test.go:430-440 | every wanted command not yet recorded is executed once and recorded |
| Supervisor.Host.RunContainer | minion/supervisor/supervisor_test.go:442-450 | starting a container adds it to the running map with its arguments and no exec records, and logs one Run call |
| Supervisor.Host.RemoveContainer | minion/supervisor/supervisor_test.go:442-450 | removing a container drops it and its exec records |
| Supervisor.Host.ExecIn | minion/supervisor/supervisor_test.go:430-440 | an exec appends the joined command line to that container's records |
| Db.FilterAll | db/etcd.go:36-44 | selecting with a `nil` check returns every row, in table order |
| Db.FilterCount | db/etcd.go:36-44 | each row satisfying the check is returned as often as it occurs, and no other row is returned |
| Db.FilterMember | db/etcd.go:36-44 | a row is selected exactly when it is in the table and satisfies the check |
| Db.FilterDistinct | db/etcd.go:36-44 | with unique IDs in the table, a selection returns no row twice |
| Db.FilterIdempotent | db/etcd.go:36-44 | selecting again with the same check returns the same rows |
| Db.LeaderIffSingleLeader | db/etcd.go:30-33 | the leader query holds exactly when the table has one row and it leads; empty or multi-row tables give false |
| Db.Database.InsertEtcd | db/etcd.go:23-27 | appends and returns one row with an ID above every existing one and zero-valued fields; IDs stay unique |
| Db.Database.SelectFromEtcd | db/etcd.go:36-44 | the loop returns the rows the selection specification gives |
| Db.Database.EtcdLeader | db/etcd.go:30-33 | true exactly when the table has one row and it leads |
| Db.Conn.EtcdLeader | db/etcd.go:47-54 | the view's leader query, with nothing written |
| Db.Conn.SelectFromEtcd | db/etcd.go:58-65 | the view's selection, with nothing written |

## Left out

- `gceInit` and `newComputeService` (`cluster/google/google.go:567-600`): credentials and client set-up are I/O. The provider is a parameter of `Cluster`.
- `List` (`cluster/google/google.go:104-130`): the per-zone listing of instances is folded into one oracle call. The machine fields it builds are not modelled, and only instance names are read.
- `instanceNew`'s cloud-config user data and image URL: these are opaque strings that no property depends on.
- UUIDs, the clock and the ticker are not modelled directly. UUIDs come from an oracle, and time is counted in polling rounds.
- Google.Cluster.Boot, Google.Cluster.Stop: both wait with the corrected `Google.Cluster.Wait`, which reports `wait(): timeout` after `MaxRounds` rounds. As written (`cluster/google/google.go:149`, `:172`), `wait` never times out, so a machine that never appears or never goes away makes the written `Boot` or `Stop` hang instead (see Findings and `Polling.WaitAsWritten`).
- Acl.TokenRoundTrip, Google.NewFirewallParsesBack: stated for port ranges with non-negative bounds only. A negative lower bound does not read back, because `-` is also the range separator (`Acl.NegativeRangeMisread`).
- Google.Cluster.OperationWait: the `local`/`global` domain only selects which API is called, so it is not a parameter.
- Provider effects: instance inserts and deletions take effect only through the listing oracle. Firewall and network requests take effect when accepted.
- The `fw == nil` return of `getCreateFirewall` after a successful create (`cluster/google/google.go:474`) cannot happen in the model, because an accepted insert is visible at once.
- `reflect.DeepEqual` on source ranges (`cluster/google/google.go:408`) is compared as sequence equality, so Go's nil-versus-empty distinction is not modelled.
- `join.HashJoin` is not part of this model. `SetACLs` picks any split of the ACLs that meets the join's contract: desired ACLs are additions or the desired side of a pair, current ACLs are removals or the current side of a pair, and pairs share their port range.
- Go's map iteration order in `SetACLs` is not modelled; the grouped port ranges are visited in an unspecified order.
- The `case 0` branch of `parseACLs` (`cluster/google/google.go:350-351`) is dead, because `strings.Split` never returns zero pieces (`GoText.SplitPieces`).
- The supervisor implementation is not part of this model. Its behaviour is taken from what its tests require:
  - Image names are a parameter (`name: Image -> string`).
  - The etcd `--initial-cluster` string is a parameter.
  - Exec records are kept per image and dropped when that container is removed, standing for Docker's per-container IDs.
- `ResetExec` of the fake Docker client (`minion/supervisor/supervisor_test.go:237`) is not modelled. In the tests it only comes before a step that removes the exec target, which drops the records anyway.
- A minion with no role runs nothing, as `TestNone` requires.
- Supervisor.Host.RunSystemOnce: the trigger-driven loop around one pass and the reading of the Minion table are not modelled; a pass takes a `Snapshot` of the relevant fields.
- Transactions, locking and triggers of the entity store are not modelled. `Conn` queries run on one `Database` view with nothing else running.
- `nextID` and `insert` of the store are not part of this model. IDs come from a counter of the last ID handed out.
- Table order: a Go table's rows are a map, whose iteration order is random. The model fixes one order (`Database.rows`), and the selection properties hold for any such order.
- `Etcd.less` (`db/etcd.go:67-69`) is not modelled. It converts its argument to a `Minion` and would panic on an `Etcd` row, so it defines no ordering of Etcd rows.
- `Etcd.String` and `getID` are formatting and accessors and carry no behaviour.

## Findings

| source | as written | input that shows it | evidently intended | confidence | as-written member | corrected member |
|---|---|---|---|---|---|---|
| cluster/google/google.go:196-211 | the inner `for len(names) > 0` loop has no `break` when the head name is not yet in the awaited state, so it re-lists at once and never returns to the ticker's deadline check | `Boot` of one machine whose instance never appears in the listing: `wait` lists forever and never reports `wait(): timeout` | leave the inner loop at the first name still pending, as `operationWait` does, so the 3-minute deadline applies | high; not executed | Polling.WaitAsWritten | Google.Cluster.Wait |
