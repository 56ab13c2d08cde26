# Topohub: verified model of subnets, bindings, leases and host actions

Topohub runs one dnsmasq DHCP server per Subnet object and keeps several tables in step: the
cache of BindingIp objects, the binding table and hosts file of each server, its lease table, the
status figures of the Subnet, and the objects stored in the API server. This project models that
logic in Dafny and proves what it keeps over whole runs.

`dafny verify dfyconfig.toml` checks everything.

- `Text`, `Address`, `Network`, `DottedQuad`: strings, 16-byte addresses and their order, IPv4 networks as blocks, and the dotted-quad spelling.
- `Ranges`, `Counting`, `RangeRewrite`, `InterfaceAddress`: the address-range algebra of `pkg/tools` and what dnsmasq is handed.
- `Admission`: the two webhooks, the automatic creator and the validity check, over runs of API requests.
- `Bindings`, `BindingPipeline`, `PipelineSafety`, `PipelineConvergence`, `PipelineSchedules`, `PipelineLimits`, `PipelineObjects`: the binding pipeline as a state machine, its safety and convergence, the schedules that show their conditions to be exact, and the code's objects proved to be its steps.
- `ServedBindings`: the pipeline's steps as branches of one server's monitor, up to the contents of its hosts file.
- `AdmittedPipeline`: admission and pipeline interleaved, up to the addresses in the servers' tables and the available amount.
- `DhcpServer`, `HostsFile`, `Leases`, `Usage`, `StatusWorker`: one DHCP server: hosts file, lease diffing, usage figures, status coalescing.
- `SubnetController`: spec cache against running servers.
- `Power`, `HostOperation`, `Session`: host actions.

Modelling choices. A channel is an unbounded sequence read from the front; a delayed retry is a
member of a multiset that may come back at any time; each reconcile and each branch of a select is
one step. What the API server, the host, the BMC, the file system or dnsmasq answers is an input,
failed reads and lists included, so every theorem holds for all answers. `net.ParseIP` and `net.ParseCIDR` are library code: the
range functions take the parser as an argument and the results hold for any parser that returns
16-byte addresses; where a spelling matters, the dotted-quad parser of `DottedQuad` is used.
Networks are IPv4, the only ones the schema pattern admits
(`pkg/k8s/apis/topohub.infrastructure.io/v1beta1/subnet_types.go:34`). Letter folding is ASCII,
which covers the MAC pattern (`pkg/k8s/apis/topohub.infrastructure.io/v1beta1/bindingip_types.go:41`).

Where the code does less than one would wish, the model keeps the code and the project states the exact condition:

- A binding can be lost. It cannot exactly when every announced claim finds no add of another MAC
  for its (subnet, IP) pair on the channel or waiting for a retry, no removal of its own MAC in
  flight, and no other name holding the pair (`PipelineLimits.NoLossExactly`). An older add in the
  server's own queue does no harm.
- A stale entry can stay, even without any reuse. In runs that keep the above, none does exactly
  when no pair is given up while an add for it is in flight, and no binding is moved away from a
  running server (`PipelineLimits.ConvergenceExactly`). Runs reach each case: a deletion or
  a move right after the announcement, and the move of a settled binding (`PipelineLimits.EachDisorderOccurs`).
- The expansion check refuses some texts that lose no address. For a new text it is exact, whatever
  the old one was, if and only if any two of its elements that overlap or adjoin lie in a common
  one (`Ranges.ExpansionExactly`).
- A consumer of lease events that lags behind the passes agrees with the table at an IP, however it
  reads the two channels, if and only if the events for that IP are not of both kinds (`Leases.LaggingReaderExactly`).
- An element 0.0.0.0-255.255.255.255 is counted as nothing (`Counting.FullRangeCountsNothing`); only the network 0.0.0.0/0 admits one.
- A lease file that names an IP twice misleads the consumer exactly when the last record repeats the previous table after a differing one; such a file is in `Leases.RelapseOccurs`.
- The available amount wraps exactly when more addresses are used than the server counts in its own copy of the
  Subnet. Bound addresses cannot bring that about when no binding of the Subnet was first stored after the
  version that was copied, and the Subnet had not been deleted up to it (`AdmittedPipeline.AvailableIsExact`).
  Each condition is needed: a binding admitted to a widened range before the server is handed the new spec wraps
  the amount without any deletion (`AdmittedPipeline.LaggingCopyWraps`), and so does recreating the Subnet around
  a stored binding (`AdmittedPipeline.RecreatedSubnetWraps`).
- A restarted server does not know the leases that its consumer still holds. The consumer then has the table
  exactly when no address was in the last file before a restart and in none since (`Leases.RestartsExactly`).
- A single address in a range text gets no start,end pair: it reaches the template as `dhcp-range=<ip>,<lease time>`, and what dnsmasq makes of such a line is not modelled.
- A failed start of a server leaves its status worker running.
- The comment above `UpdateDhcpBindings` asks for an exact MAC match on deletion; the code folds case, and so does the model.

## Model

| member | source | states |
|---|---|---|
| Text.TrimKeepsParts | pkg/tools/tools.go:131-155 | trimming a part before or after splitting it at '-' yields the same trimmed fields, so the range functions, which do it in different orders, read the same text alike |
| Text.EqualFoldIs | pkg/bindingip/BindingIPReconcile.go:69 | texts are equal up to case exactly when they are so character by character, the two cases of an ASCII letter being the same |
| Address.CompareIsNumeric | pkg/tools/tools.go:210-212 | byte-wise comparison of equally long addresses is comparison of the numbers they write, and is zero only for equal addresses |
| Address.V4Order | pkg/tools/tools.go:399-402 | on IPv4 addresses in 16-byte form the order of CompareIP is the order of ipToUint32, which is injective |
| Address.BlockIsConvex | pkg/tools/tools.go:20-22 | a CIDR block that contains two addresses contains every 16-byte address between them |
| Network.ContainsIsPrefix | pkg/tools/tools.go:20-22 | a network with an n-bit prefix holds exactly the IPv4 addresses whose number agrees with its own after division by 2^(32-n) |
| Network.BlockIsInterval | pkg/tools/tools.go:20-22 | so it is one aligned interval of exactly 2^(32-n) addresses |
| Network.MappedValue | pkg/tools/tools.go:399-402 | the 16-byte form of an IPv4 address is the number 0xFFFF times 2^32 plus its own (section 2.5.5.2 of RFC 4291) |
| DottedQuad.QuadInjective | pkg/tools/tools.go:295-302 | no IPv4 address has two dotted-quad spellings |
| DottedQuad.QuadRoundTrip | pkg/tools/tools.go:295-302 | a text reads as an IPv4 address if and only if it is the decimal spelling of it |
| Ranges.TrimKeepsElement | pkg/tools/tools.go:63-103 | ValidateIPRange, which does not trim a part first, and the functions that do, read the same element, or both none |
| Ranges.IsIPInRange | pkg/tools/tools.go:358-393 | answers true exactly for the addresses that some well-formed element denotes, skipping malformed elements |
| Ranges.ValidateIPRange | pkg/tools/tools.go:63-103 | accepts exactly when every element has its end points in the network and in order |
| Ranges.EndPointsSuffice | pkg/tools/tools.go:80-90 | for one element, checking the two end points is the same as checking every address it denotes |
| Ranges.AcceptedMeansInside | pkg/tools/tools.go:56-63 | a range text is accepted if and only if all elements are well formed and every address in it lies in the network |
| Ranges.ValidateIPRangeExpansion | pkg/tools/tools.go:113-170 | accepts exactly when both texts are accepted and each old element is reached on both sides by a single new element |
| Ranges.ReachesIsInclusion | pkg/tools/tools.go:157-161 | the comparison of the end points is inclusion of the denoted address sets, both ways |
| Ranges.ExpansionKeepsAddresses | pkg/tools/tools.go:105-112 | after an accepted expansion every address of the old range is in the new range |
| Ranges.ClosedExactly | pkg/tools/tools.go:142-167 | a list of new elements is closed (touching elements lie in a common one) if and only if every list of old elements inside its addresses is reached element by element |
| Ranges.ExpansionExactly | pkg/tools/tools.go:142-167 | for an accepted new text, the check accepts exactly the old texts that lose no address if and only if the new text is closed |
| Ranges.CutSpanRefused | pkg/tools/tools.go:142-167 | a schema-shaped text that is not closed: a two-address span rewritten as the two parts s-s,t-t loses nothing and is refused |
| Counting.CountPart | pkg/tools/tools.go:240-283 | one part counts exactly when it is well-formed IPv4 in order, with the uint32 size |
| Counting.CountIPsInRange | pkg/tools/tools.go:236-287 | fails exactly when some element cannot be counted, otherwise returns the uint64 sum of the uint32 sizes |
| Counting.CountMissesFullElements | pkg/tools/tools.go:269-271 | the computed sum falls short of the true one by 2^32 for each element that spans all of IPv4, and by nothing else |
| Counting.SumBoundsDistinct | pkg/tools/tools.go:231-235 | the sum of sizes is at least the number of distinct addresses, and equals it exactly when the elements are pairwise disjoint |
| Counting.AddressesDenoted | pkg/tools/tools.go:358-393 | the counted addresses are the ones the membership test accepts |
| Counting.CountIsExact | pkg/tools/tools.go:236-287 | the count is the true size exactly when no element is full, and then equals the distinct addresses exactly when the elements are disjoint |
| Counting.FullRangeCountsNothing | pkg/tools/tools.go:269-271 | the accepted text from 0.0.0.0 to 255.255.255.255, in any spelling, denotes 2^32 addresses and counts 0 |
| Counting.AcceptedCountIsExact | pkg/tools/tools.go:236-287 | every range accepted in a network other than 0.0.0.0/0 is counted, without wrap, at no less than its distinct addresses |
| RangeRewrite.RewriteRange | pkg/subnet/dhcpserver/config.go:46-49 | the loop turns each part of the range into its dhcp-range pair and touches nothing else |
| RangeRewrite.LinesDenoteTheSpans | pkg/subnet/dhcpserver/config.go:46-49 | the lines that read as start,end pairs denote exactly the addresses of the start-end elements |
| RangeRewrite.RewriteKeepsMeaning | pkg/subnet/dhcpserver/config.go:46-49 | the start,end pairs handed to the template denote exactly the addresses IsIPInRange accepts if and only if each single address also lies in a start-end element, so always for lists of start-end elements |
| InterfaceAddress.ValidateIPWithSubnetMatch | pkg/tools/tools.go:31-54 | accepts exactly when the address parses and is contained; the comparison of network parts after it can never fail |
| Admission.ValidateInterface | pkg/webhook/subnet/webhook.go:198-265 | accepts exactly when the host agrees, the VLAN ID is in 0-4094, the address is in the network, the list of Subnets can be read and no other one has the same interface and VLAN, for any listing order |
| Admission.ValidateSubnet | pkg/webhook/subnet/webhook.go:157-194 | accepts exactly the Subnets whose network parses and whose range, gateway, DNS and interface pass |
| Admission.ValidateUpdate | pkg/webhook/subnet/webhook.go:95-149 | accepts exactly the updates that keep CIDR and interface, expand the range and pass validation |
| Admission.ValidateBindingIP | pkg/webhook/bindingip/webhook.go:102-151 | accepts exactly when the Subnet and the list of bindings can be read, the MAC is unicast, the address is in the Subnet's range, and no other binding has the IP or the case-folded MAC |
| Admission.ComputeStatus | pkg/bindingip/BindingIPReconcile.go:134-155 | valid exactly when the Subnet can be read and its range contains the address |
| Admission.DecideCreation | pkg/redfishstatus/dhcp.go:63-126 | asks for creation exactly when enabled, the list succeeds and no stored binding has the name or the IP |
| Admission.EveryStoreIsSound | pkg/webhook/bindingip/webhook.go:127-148 | over every run of serialised requests no two stored bindings share an IP or case-folded MAC, no two Subnets an interface and VLAN, and every stored range lies in its network |
| Admission.SubnetIsCreated | pkg/webhook/subnet/webhook.go:71-93 | a request to create a Subnet stores it, defaulted, if and only if the name is free, host and list answer, every range address lies in the network, gateway, DNS, server address and VLAN pass, and no other Subnet has the interface and VLAN; otherwise nothing changes |
| Admission.SubnetIsUpdated | pkg/webhook/subnet/webhook.go:95-149 | an update is stored if and only if moreover the Subnet is stored with the same network and interface and each old range element lies within one new one |
| Admission.BindingIsStored | pkg/webhook/bindingip/webhook.go:102-151 | a binding is stored if and only if reads answer, its MAC is unicast, its address is in its Subnet's range and no other binding has the IP or the folded MAC; otherwise nothing changes |
| Admission.DeletedIsGone | pkg/webhook/subnet/webhook.go:151-154 | a deletion is never refused and removes the named object only, so bindings outlive their Subnet |
| Admission.EveryStoreIsPlaced | pkg/webhook/subnet/webhook.go:157-194 | over every run each stored Subnet has gateway and server address in its network, a DNS address that parses and a VLAN in 0-4094, and each stored binding a unicast MAC and an address |
| Admission.StoredWasAsked | pkg/webhook/subnet/webhook.go:64-70 | over every run each stored Subnet is what an earlier request asked for, with VLAN 0 where none was given and the configured interface where the name was empty |
| Admission.UniqueAsAddresses | pkg/webhook/bindingip/webhook.go:138-142 | stored bindings with dotted-quad addresses differ as addresses, not only as text |
| Admission.SubnetOnlyGrows | pkg/webhook/subnet/webhook.go:112-140 | over any run, as long as a Subnet exists its CIDR, interface, VLAN and server address are fixed and every address once in its range stays in it |
| Admission.AdmittedBindingStaysValid | pkg/bindingip/BindingIPReconcile.go:134-155 | an admitted, unedited binding is computed valid at every later check while its Subnet exists |
| Admission.RecreatedSubnetStrandsBinding | pkg/webhook/subnet/webhook.go:152-154 | the Subnet must go on existing: a run of admitted requests from the empty store that creates a Subnet and a binding, then deletes the Subnet and recreates it with another address, ends with the binding stored and invalid |
| AdmittedPipeline.BoundKeysAreInRange | pkg/webhook/bindingip/webhook.go:108-124 | over every interleaving of requests and pipeline steps, while a Subnet has not been deleted each key of its server's table is an address in the Subnet's current range, however late objects are observed |
| AdmittedPipeline.CopyWasStored | pkg/subnet/dhcpserver/manager.go:72-103 | over every joint run each running server's own copy is the Subnet as it was stored in some world up to now |
| AdmittedPipeline.AvailableIsExact | pkg/subnet/dhcpserver/UpdateSubnet.go:92-111 | for the range in the server's own copy: if the copy is the Subnet of a world up to which the Subnet was not deleted and since which no binding of it was first stored, then with every lease in that range the available amount is total minus used, never wrapped, in any network but 0.0.0.0/0 |
| AdmittedPipeline.LaggingCopyWraps | pkg/subnet/dhcpserver/dnsmasq.go:70-80 | a joint run without deletion or lease that widens a Subnet and binds the new address before the server is handed the new spec: the server counts 1, uses 2 and stores 2^64-1 |
| AdmittedPipeline.RecreatedSubnetWraps | pkg/subnet/manager.go:148-157 | a joint run from the empty store in which a one-address Subnet is recreated around a stored binding: the new server, whose copy is the stored Subnet, loads two bindings, counts 1, uses 2 and stores 2^64-1 |
| Bindings.Insert | pkg/subnet/dhcpserver/dnsmasq.go:138-163 | an entry with the event's MAC stays as it is, host name included; otherwise the entry becomes the event's; no other entry changes |
| Bindings.Remove | pkg/subnet/dhcpserver/dnsmasq.go:172-180 | removes an entry exactly when its IP and case-folded MAC match, and changes no other |
| BindingPipeline.ObserveIs | pkg/bindingip/BindingIPReconcile.go:60-81 | observing a binding caches it and sends an event exactly when the name was not cached with the same subnet, IP and folded MAC; nothing else changes |
| BindingPipeline.ObserveTwice | pkg/bindingip/BindingIPReconcile.go:60-81 | reconciling an unchanged object again changes nothing |
| BindingPipeline.ForgetIs | pkg/bindingip/BindingIPReconcile.go:93-107 | forgetting a cached binding uncaches it and sends one removal of it; forgetting an unknown name changes nothing |
| BindingPipeline.LeaderStartIs | pkg/subnet/manager.go:190-215 | the leader's start leaves running servers alone and gives each other listed Subnet an empty one |
| BindingPipeline.PendingAddStep | pkg/subnet/manager.go:245-296 | no step loses an adding event: it stays in flight until it is applied, its server stops, or it names no subnet; only an announcement or a bulk load creates one |
| BindingPipeline.PendingDelStep | pkg/subnet/manager.go:273-294 | the same for deleting events, which only a forgotten object creates |
| PipelineSafety.EveryEntryWasCachedForItsSubnet | pkg/subnet/dhcpserver/dnsmasq.go:138-187 | in every state of every run each table entry sits under its own IP and is a binding once cached for that server's subnet, across retries, bulk loads and restarts |
| PipelineSafety.NoBindingIsLost | pkg/subnet/manager.go:148-157 | if every claim finds no upstream add of another MAC, no removal of its own MAC and no other holder, then in every state each cached binding whose server runs is in its table with its MAC or has an event with its MAC in flight |
| PipelineSafety.NoBindingIsLostWithoutReuse | pkg/bindingip/BindingIPReconcile.go:62-81 | the same for all runs in which no (subnet, IP) pair is claimed twice, through leader start-up, server stops and restarts |
| PipelineConvergence.TablesAgreeWithCache | pkg/subnet/dhcpserver/dnsmasq.go:138-187 | convergence: if besides pairs are given up in order, then whenever nothing is in flight for a pair of a running server, whatever is for others, its table holds the pair exactly when it is cached, with the cached MAC up to case |
| PipelineSchedules.FlushAdds | pkg/subnet/manager.go:251-271 | from any state the workers alone can deliver every add for a running server, put-aside ones included, keeping a chosen few for later: each IP claimed is then in its table |
| PipelineSchedules.FlushRemovals | pkg/subnet/manager.go:273-293 | the same for removals: an entry is left exactly when none of the removals that were in flight hits it |
| PipelineLimits.RemovalLoses | pkg/subnet/manager.go:273-294 | in any state with a removal of a cached binding's own MAC in flight, wherever it waits, some schedule of the workers loses the binding |
| PipelineLimits.SharedLoses | pkg/subnet/dhcpserver/dnsmasq.go:141-180 | in any state where two names hold one pair some schedule loses one of them: by delivery when the MACs differ, by deleting the other name when they are equal |
| PipelineLimits.ClaimIsSafeExactly | pkg/bindingip/BindingIPReconcile.go:62-81 | in every state a disciplined run reaches, an announced claim is compatible with what is in flight if and only if no schedule after it loses a binding |
| PipelineLimits.NoLossExactly | pkg/subnet/manager.go:245-296 | over every run: all claims keep the discipline if and only if from none of its states can a schedule of routing, retries, starts, stops, applications and deletions lose a cached binding |
| PipelineLimits.LossIsReached | pkg/subnet/manager.go:245-296 | whenever some claim of a run breaks the discipline, a run reaches a state in which a cached binding of a running server is neither in its table nor on its way |
| PipelineLimits.DisorderLeavesEntry | pkg/bindingip/BindingIPReconcile.go:62-107 | deleting a binding while its add is in flight, or moving it away while its add is in flight or its server runs, has a schedule after which the entry stands, unowned, with nothing in flight to remove it |
| PipelineLimits.ConvergenceExactly | pkg/bindingip/BindingIPReconcile.go:62-107 | over every disciplined run: pairs are given up in order if and only if from all of its states every schedule of the workers makes each table agree with the cache, MAC included, on every pair not in flight |
| PipelineLimits.SafetyAndConvergenceExactly | pkg/subnet/manager.go:245-296 | over every run without assumption: it keeps discipline and order at each step if and only if from all of its states no schedule loses a binding or makes a table disagree |
| PipelineLimits.DisagreementIsReached | pkg/bindingip/BindingIPReconcile.go:62-107 | whenever a disciplined run gives up a pair against the order, a run reaches a state with nothing in flight for a pair on which table and cache disagree |
| PipelineLimits.EachBreachOccurs | pkg/bindingip/BindingIPReconcile.go:62-107 | each of the three kinds of undisciplined claim is reached by a run from the initial state |
| PipelineLimits.EachDisorderOccurs | pkg/bindingip/BindingIPReconcile.go:62-107 | runs from the initial state reach each kind of disorder: deleting or moving a binding whose add is in flight, and moving a settled binding away from a running server |
| PipelineLimits.RivalLoses | pkg/subnet/manager.go:251-271 | in any state with an add of another MAC on the channel or waiting for a retry some schedule applies it last and loses the binding |
| PipelineObjects.BindingIPCache.GetInfoForSubnet | pkg/bindingip/data/cache.go:70-83 | lists exactly the cached bindings of the subnet, each once, in some order of the map |
| PipelineObjects.BindingIPController.ProcessBindingIP | pkg/bindingip/BindingIPReconcile.go:46-84 | caches the binding, and sends the event exactly when the name was not cached with the same subnet, IP and folded MAC; is the step Observe |
| PipelineObjects.BindingIPController.ForgetBindingIP | pkg/bindingip/BindingIPReconcile.go:93-107 | uncaches the name and sends one removal with the cached subnet, IP, MAC and host name, or nothing for an unknown name; is the step Forget |
| PipelineObjects.EventRouter.RouteAdded | pkg/subnet/manager.go:251-271 | takes one add: dropped without a subnet, put aside without a server, else at the end of its server's queue, and nothing else changes; is the step RouteAdd |
| PipelineObjects.EventRouter.RouteDeleted | pkg/subnet/manager.go:273-293 | the same for a removal |
| HostsFile.FileReadsBack | pkg/subnet/dhcpserver/config.go:278-291 | for every table with clean fields and every iteration order, reading the written file back as bindings with any client ID and the trusted tag gives exactly the IP to MAC table, the empty table included |
| DhcpServer.Server.UpdateDhcpBindings | pkg/subnet/dhcpserver/config.go:253-296 | a successful write leaves a file that reads back as the current table; a failed one leaves what the write left |
| DhcpServer.Server.OnBindingAdded | pkg/subnet/dhcpserver/dnsmasq.go:138-170 | takes one event, updates the table as Insert, keeps the leases, and after a successful write of a changed table the hosts file reads back as it; an unchanged MAC writes nothing |
| DhcpServer.Server.OnBindingDeleted | pkg/subnet/dhcpserver/dnsmasq.go:172-187 | the same for a removal; an event that matches no entry writes nothing |
| DhcpServer.Server.UpdateBindingIpEvents | pkg/subnet/dhcpserver/manager.go:147-157 | appends all events to the two queues in order |
| DhcpServer.Server.RenewConfig | pkg/subnet/dhcpserver/config.go:15-127 | renewing the configuration makes a lease pass and writes the hosts file from the table, unless an earlier step fails, and changes neither binding table nor queues |
| DhcpServer.Server.RefreshLeases | pkg/subnet/dhcpserver/config.go:117-120 | a lease pass: for a file that is there, the table is that of its records and the channels get its adds and deletes; otherwise nothing changes |
| DhcpServer.Server.Take | pkg/subnet/dhcpserver/dnsmasq.go:108-196 | one branch of the select: binding events move the binding side, a written lease file or a renewal makes a pass over the file read, and the other side stays |
| DhcpServer.Server.Monitor | pkg/subnet/dhcpserver/dnsmasq.go:83-242 | over any sequence of arrivals and branches the binding table is the queued events applied in turn, the hosts file reads back as it whenever the last write succeeded, the lease table is that of the last file read, and the two client channels hold, in order, the adds and deletes of one pass per file read |
| DhcpServer.ReaderOfServer | pkg/redfishstatus/dhcp.go:30-60 | of what a server sent: however it is read, the reader agrees with the server's lease table at an IP if and only if that IP was not both added and deleted, as long as no file relapsed |
| DhcpServer.ReplicaOfServer | pkg/redfishstatus/dhcp.go:30-60 | and a reader that keeps up with the passes holds exactly the (MAC, host name, expiry) per IP of the server's lease table |
| ServedBindings.HistoryMirrors | pkg/subnet/manager.go:251-293 | the pipeline's steps for one server since its start are branches of that server's monitor: after them the object has exactly the queues and the table of the state machine, whatever its lease and configuration branches did between |
| ServedBindings.Serve | pkg/subnet/dhcpserver/dnsmasq.go:83-242 | a new server whose monitor takes a list of branches is valid and in the state that the list prescribes, so a history can be run |
| ServedBindings.HostsFileFollowsCache | pkg/subnet/dhcpserver/dnsmasq.go:138-187 | end to end: in a disciplined, orderly run, with nothing in flight for a pair and the last write successful, the hosts file read back binds the IP exactly when the pair is cached, to the cached MAC up to case |
| DhcpServer.Server.ProcessDhcpLease | pkg/subnet/dhcpserver/config.go:141-248 | the table becomes the last record per IP; with sync on, the adds are the records that differ and the deletes exactly the vanished entries; an unreadable file changes nothing |
| Leases.AddsAndDeletesDisjoint | pkg/subnet/dhcpserver/config.go:205-242 | within one pass no IP is both added and deleted |
| Leases.PassIsFaithful | pkg/subnet/dhcpserver/config.go:155-247 | a consumer of the previous table that applies a pass in any interleaving of the two channels holds the new table if and only if no IP relapses in the file |
| Leases.FileReads | pkg/subnet/dhcpserver/config.go:155-195 | round trip: any list of leases written one per line, the expiry in decimal, reads back as that list |
| Leases.SpelledReads | pkg/subnet/dhcpserver/config.go:174-179 | the decimal spelling of a number reads as it exactly when it fits 64 bits, sign included |
| Leases.ShortLineIsNoRecord | pkg/subnet/dhcpserver/config.go:168-172 | a line of only four words is skipped |
| Leases.RelapseOccurs | pkg/subnet/dhcpserver/config.go:163-230 | two file texts, read one after the other, with a relapse: the second has a line with another MAC before the unchanged line of its IP |
| Leases.NoRepeatsNoRelapse | pkg/subnet/dhcpserver/config.go:163-230 | a file that names no IP twice has no relapse |
| Leases.ReplicaIsFaithful | pkg/subnet/dhcpserver/config.go:141-248 | over any run of passes without relapse a consumer that starts empty and reads all of a pass before the next one always holds exactly the (MAC, host name, expiry) per IP of the lease table |
| Leases.FirstPassAfterRestart | pkg/subnet/dhcpserver/manager.go:95-103 | after the first pass of a restarted server the consumer holds the table if and only if the file names every IP that it held |
| Leases.RestartsExactly | pkg/subnet/dhcpserver/config.go:141-248 | over every run of passes without relapse, with restarts anywhere between them, the consumer holds the table after a pass if and only if no IP was in the last file before a restart and in none since |
| Leases.LostLeaseStays | pkg/subnet/dhcpserver/manager.go:95-103 | such a run: a lease that has gone from the file when the server comes back stays with the consumer |
| Leases.LaggingReaderExactly | pkg/redfishstatus/dhcp.go:30-60 | without that barrier, for any stretch of calm passes: every interleaving of all their adds and deletes agrees with the last table at an IP if and only if the events for it are not both adds and deletes |
| Leases.RenewedLeaseIsBothKinds | pkg/subnet/dhcpserver/config.go:232-245 | a lease taken, released and taken again, given as three file texts, is such a stretch with events of both kinds, so some reading of it ends wrong |
| Usage.UpdateClients | pkg/subnet/dhcpserver/UpdateSubnet.go:145-202 | for any iteration order the details hold each leased or bound address once with correct flags and the lease's data first, and the used amount is the size of the union |
| Usage.ComputeAmounts | pkg/subnet/dhcpserver/UpdateSubnet.go:92-111 | the stored total, available, active and bound amounts, the total being zero when the range cannot be counted; used plus doubly held addresses equal active plus bound |
| Usage.AvailableExact | pkg/subnet/dhcpserver/UpdateSubnet.go:108 | the unsigned subtraction is exact precisely when no more addresses are used than counted |
| Usage.AvailableNeverWraps | pkg/subnet/dhcpserver/UpdateSubnet.go:93-111 | when every leased and bound address is in the range and no element is full, used is at most the distinct addresses, which are at most the total, and nothing wraps |
| StatusWorker.StatusUpdateWorker | pkg/subnet/dhcpserver/UpdateSubnet.go:29-55 | attempts an update at exactly the ticks before a stop that follow a notification since the last tick, each at most once |
| StatusWorker.NotificationIsServed | pkg/subnet/dhcpserver/UpdateSubnet.go:41-52 | every notification is served at the next tick before a stop, and a later attempt needs a notification of its own |
| SubnetController.SubnetCache.HasSpecChanged | pkg/subnet/data.go:58-70 | unchanged exactly when the name is cached with an equal spec |
| SubnetController.SubnetManager.Reconcile | pkg/subnet/manager.go:95-173 | after a find that reaches a server the name is cached and served with the spec found, a registered server keeping its identity, a started one being new and handed exactly the cached bindings of its Subnet; a failed start registers and caches nothing; a missing object leaves neither; other names stay; a retry is asked for only when the object could not be read or a failed start not recorded |
| SubnetController.SubnetManager.LeaderStart | pkg/subnet/manager.go:190-215 | registered servers stay, and a name without one gets a server exactly when some listed item of it is not being deleted and starts: with the first such item's spec and no bindings |
| SubnetController.EveryStateIsSound | pkg/subnet/manager.go:95-173 | over every run, the file watcher of a started monitor being taken to start, a cached spec implies a registered server holding exactly it, the running monitors are exactly those of registered servers, one per name, and each failed start has left one status worker |
| SubnetController.LastFoundIsServed | pkg/subnet/manager.go:124-169 | over every run, from a find that reaches a server until the object is found again or found missing, cache and one and the same server hold the spec found |
| SubnetController.RepeatDoesNothing | pkg/subnet/manager.go:124-169 | repeating a reconcile of an unchanged object does nothing if and only if its server was registered already or the first one started it |
| SubnetController.DeletionLeavesNothing | pkg/subnet/manager.go:104-118 | over every run, after a deletion the Subnet is in neither cache nor list in any state until it is found or listed again, and the other Subnets' servers run on |
| SubnetController.DeletedServerStaysStopped | pkg/subnet/manager.go:104-118 | neither monitor nor status worker of a server stopped by a deletion runs in any later state of the run |
| Power.JoinedContains | pkg/redfish/getinfo.go:301-313 | a reset type found in the comma-joined text lies inside one listed type, so the text test cannot match across a comma |
| Power.ContainedIsListed | pkg/redfish/power.go:58 | the text test is membership in the list, both ways, when no other listed type contains the name |
| Power.RedfishClient.GetSupportedResetTypes | pkg/redfish/getinfo.go:301-356 | the joined list of the system, or, when that is empty, one read of its ResetActionInfo and the values of the first parameter named ResetType |
| Power.RedfishClient.PxeRebootWithRetry | pkg/redfish/power.go:91-152 | at most three boot overrides, every reset directly after a successful override on the same system ID and graceful whenever that is supported, success exactly when one reset succeeded, and failure only after three failed attempts or when a refresh no longer lists the system |
| Power.CommandsAre | pkg/redfish/power.go:44-79 | each of the six reset actions asks for a reset of that very type, PxeReboot for the PXE reboot, and any other text is unknown |
| Power.RedfishClient.Power | pkg/redfish/power.go:14-88 | success means each listed system, in order, had its boot options read and got exactly one successful reset; an error means a proper prefix did, and has a cause: an unknown command, a refused or empty answer, or a system that supports neither restart; resets are of the requested type, or, after an override, the preferred restart that the system supports |
| HostOperation.HostOperationController.Reconcile | pkg/hostoperation/controller.go:40-132 | an open operation whose host is known makes exactly one power call when connected and the action is one of the seven, and a successful write stores success exactly when that call succeeded and failure otherwise; in every other case nothing changes |
| HostOperation.EveryStepIsHandled | pkg/hostoperation/controller.go:40-132 | the same for each reconcile of a run |
| HostOperation.AnsweredIsSettled | pkg/hostoperation/controller.go:84-129 | a reconcile in which everything answers settles an open operation after one call with the spec's action |
| HostOperation.EveryStateIsSound | pkg/hostoperation/controller.go:62-129 | over every run each power call has the spec's action, a stored success follows a call that returned nil, and calls are at most one more than failed status writes |
| HostOperation.OutcomeIsFinal | pkg/hostoperation/controller.go:126-129 | a stored success or failure is never left and triggers no further power call |
| Session.ClientCache.NewClient | pkg/redfish/interface.go:35-74 | a cached client with the wanted configuration that answers is returned and nobody logs in or out; otherwise any cached one is logged out and a login is tried once; a returned client has exactly the requested configuration and is the cached one, after a failure nothing is cached for the IP, and other IPs stay |
| Session.ReuseIsFree | pkg/redfish/interface.go:47-51 | after any calls, asking again for a configuration that is cached and answers changes nothing |
| Session.SessionsAreConserved | pkg/redfish/interface.go:35-74 | over every sequence of calls successful connects minus logouts is the cache size and the open sessions are exactly those of the cached clients, at most one per IP |

## Left out

- dnsmasq process control, file watching, template rendering and network interface set-up: foreign effects; only success or failure and file contents are kept.
- ValidateHostInterfaceSubnet and the existence of the host interface: depend on the host; one arbitrary answer in `Admission`.
- IsValidUnicastMAC: its reader is library code; an arbitrary predicate in `Admission`.
- The lease-file watcher of a monitor, which returns at once when the watcher cannot be set up while its server stays registered: the watcher is taken to start.
- IPv6 networks: the schema pattern does not admit them.
- The process check and restart of dnsmasq in `monitor`: only the lease pass and the hosts-file write they rerun are modelled.
- The consumer's own retry of a lease event after a conflict: an event is applied when it is read.
- Channel capacities, blocking sends and wall-clock delays: queues are unbounded and timing is free.
- Interleavings inside one reconcile, such as a deletion between looking up a server and sending to it: each reconcile is one step.
- A Subnet without a feature section: the code dereferences it unchecked.
- NewClient under concurrent calls: the cache has no lock in the code, and the model is sequential.
- buildRedfishEndpoint: the endpoint is kept as its three parts; under one IP two endpoints are equal texts exactly when the parts are equal.
- The JSON text of the client details and the formatting of times: the details are kept as a map.
- Usage counters as uint64: a table cannot hold 2^64 entries, so the counters are natural numbers.
- The labels that the webhooks set, and the conditions and host node in the status: constants copied into the object.
- The HostEndpoint controller, the SSH status checks, the handling of secrets, logging, and the HTTP and debug servers: nothing of them is modelled.
- The range checks above 2^32 elements: CountIsExact, AcceptedCountIsExact, AvailableNeverWraps and AvailableIsExact assume no more elements than that, which no text that fits in memory reaches.
