# weft-network, verified model

weft-network is the control-plane daemon that turns operator intent (routers, load balancers, DNS zones and
records) into data-plane state. This project models its stateful core in Dafny and proves what that core keeps
over every run. `dafny verify dfyconfig.toml` checks all of it.

## What is modelled

**The floating-IP announce pipeline** (`fip_index.dfy`, `fip_views.dfy`, `fip_rows.dfy`, `fip_feed.dfy`,
`router_store.dfy`, `publisher.dfy`, `pipeline.dfy`). The index is a class with the daemon's three linked maps and its
per-network gauge; everything it serves is specified as a function of one table, uuid -> entry. The subscriber feeds
it one event at a time, the poller replaces it wholesale and reports which networks changed, and each reported network
makes the republish callback re-send the routers stitching it. What the two feeds mean is stated on events and items
themselves: a floating IP is active on a network under an address if and only if the last event about it maps it there
(`FipFeed.HistoryMeaning`), or the snapshot lists it there as active (`FipFeed.SnapshotMeaning`), and a snapshot of
what the events left serves the same lookups (`FipFeed.FeedsAgree`). The main theorem is end to end. After start-up
and any sequence of create-router, delete-router, event, poll and status steps, the last message sent for each
announcing router has exactly the peers, and the same set of prefixes, as its desired state recomputed from the
current table, unless the router stitches a network that an event left behind unnotified; every other uuid is silent.
Router by router, the message agrees if and only if the announce set is what it was on the table the router was last
sent from (`Pipeline.Process.constructor`, `Pipeline.Process.Perform`, `Pipeline.Run`).

**The stores.** `lb_store.dfy`, `dns_store.dfy` and `dns_memory.dfy` give the sequential meaning of the store
operations and the in-memory stores as classes proved against it; `lb_etcd.dfy` and `dns_etcd.dfy` are the etcd stores
used by one client; `dns_equivalence.dfy` drives both DNS stores side by side through any operation sequence.
`lb_protocol.dfy`, `lb_races.dfy`, `lb_contention.dfy`, `dns_protocol.dfy`, `dns_counts.dfy`, `dns_roots.dfy` and
`dns_contention.dfy` are the etcd stores under concurrency: every call is a program counter plus what it last read,
any number of calls interleave one etcd request at a time over a revisioned key-value map (`etcd.dfy`), any request
may fail before or after taking effect, and the lemmas are about the state after any schedule (`Run(s, acts)`).

**Smaller pieces.** The external-peer text (`external_peer.dfy`), the status subject (`status_subject.dfy`), micro-VM
names and tear-down against a remote agent whose calls may fail with or without effect (`vm_names.dfy`,
`lifecycle.dfy`), and leader election as a step machine over a lease-bound lock (`leader.dfy`).

`wrappers.dfy`, `sorting.dfy`, `sets.dfy`, `listing.dfy`, `compound_key.dfy` and `text.dfy` hold the shared helpers:
`Option` and `Result`, the sort that List, All and the lookup end with, sizes of finite sets, filtered listings, the
(project, name) key, and decimal and trimming functions.

## Where the code does less than one would hope

Each of these comes with the exact condition under which the property does hold.

- The subscriber notifies only the network an event names. That is enough if and only if the event does not move an
  address's last active holder off another network (`Pipeline.NotifiedNetworkSuffices`); a re-mapped floating IP can
  otherwise leave a stale route (`Pipeline.MovedFipLeavesStaleRoute`). A poll heals exactly the routers stitching a
  network whose addresses differ from the table, which by then already holds the move (`Pipeline.TickHealsExactly`).
- The (network, address) rows of the index are complete if and only if no live entry has shared its pair with another
  since it was last indexed (`FipRows.RowsCompleteExactly`). A past collision can cost an entry its row until it is
  upserted again (`FipViews.CollisionOutlivesItself`). The soundness of the rows always holds.
- The etcd creates of load balancers scan for the name and then put. The history is a sequential one if and only if no
  create commits a name that is taken at that moment (`LbRaces.SequentialExactly`), and from any reachable state the
  running calls can still race if and only if two of them create one name that is free or being freed, or one has
  already lost its scanned name (`LbRaces.RaceExactly`).
- The etcd CreateRecord ends by writing back the zone it read, unguarded. A zone's count balances and the zone stays gone
  once removed if and only if each such put on it finds it in place with the count it read
  (`DnsCounts.CountSoundExactly`), whatever happens to other zones; the revision guard the other writers use would ensure
  it (`DnsCounts.UndisturbedIsHarmless`). From any store with a record, a create and a delete that overlap can break it
  (`DnsCounts.OverlapIsReachable`).
- A create and a delete of its zone that overlap can leave a record without its zone (`DnsRoots.OverlapCanOrphan`). In
  every schedule in which no two such calls overlap, records keep their zones and removed zones never come back
  (`DnsRoots.ApartKeepsRoots`), and from any sound reachable state the running calls can still orphan a record if and only
  if a create has yet to store one in a zone whose delete has yet to commit, or a put is already late or a listing
  already stale (`DnsRoots.OrphanExactly`).
- A failed count put leaves a record uncounted, and DeleteRecord's zero check can then skip a decrement: exactly when
  live records and removals not shown are matched by creates not shown (`DnsCounts.ZeroCheckExactly`).
- `weft.router.status` is accepted as a status subject because prefix and suffix share a dot
  (`StatusSubject.UuidFromSubjectMeaning`).
- From any reachable state with one candidate in a term, a waiting one can join it in a term if and only if the first has
  lost its lease unnoticed (`Leader.OverlapExactly`).

Where comments and code disagree, the model follows the code. The comment on ReplaceAll says a network is "added" when
it gains any mapped entry and "churned" only when an address changed (internal/fips/index.go:138-150); the code adds a
network only when its active set was empty, and churns it on any other change between two non-empty sets. The comment on
vmNamesFor promises names in lexicographic order (internal/lifecycle/weftclient.go:237-241), which fails at index 10; no
result here uses it. The comment in CreateRecord calls the record count "not load-bearing"
(internal/store/dns/etcd.go:195-197), yet DeleteRecord's zero check relies on it. The comment on the poller calls it a
drift safety net (internal/fips/poller.go:41-45); it repairs the table, and the wire only where the table changed.

## Model

| member | source | states |
|---|---|---|
| `FipIndex.Index.Upsert` | internal/fips/index.go:79-90 | the table gains exactly this entry, the previous one is returned, and grouping, address rows and every gauge stay exact, also when the entry changes network |
| `FipIndex.Index.Delete` | internal/fips/index.go:93-104 | the table loses exactly this uuid, absent or not, and every view stays exact |
| `FipIndex.Index.ActiveFIPsInNetworks` | internal/fips/index.go:114-136 | the answer is sorted and holds an address exactly as often as there are mapped entries with it on a listed non-empty network |
| `FipIndex.Index.AppendActive` | internal/fips/index.go:125-133 | visiting one more network extends the tally by that network's active entries and no other |
| `FipIndex.Index.ActiveSnapshot` | internal/fips/index.go:159-170 | the snapshot of every grouped network is its true active address set |
| `FipIndex.Index.ReplaceAll` | internal/fips/index.go:151-221 | the table becomes the snapshot, views are exact, and each change set names exactly the networks that went from empty, to empty, or between two different non-empty address sets |
| `FipIndex.Index.Deltas` | internal/fips/index.go:193-218 | the three-way switch classifies every network, with an absent network counting as empty |
| `FipIndex.Index.Rebuild` | internal/fips/index.go:172-178 | indexing a snapshot with distinct uuids from scratch yields that snapshot's table, linked |
| `FipIndex.Index.SameAddrSet` | internal/fips/index.go:223-233 | true if and only if the two sets are equal |
| `FipIndex.Index.All` | internal/fips/index.go:238-247 | every entry once, sorted by uuid, and enough to rebuild the table |
| `FipIndex.Index.IndexLocked` | internal/fips/index.go:249-260 | indexing a new uuid keeps the grouping exact and the address rows sound |
| `FipIndex.Index.UnindexLocked` | internal/fips/index.go:262-273 | unindexing keeps the grouping exact with no empty group and leaves no dangling address row |
| `FipIndex.Index.RefreshGaugeLocked` | internal/fips/index.go:297-315 | every touched non-empty network's gauge is its active count, zero included; no other gauge moves |
| `FipIndex.LookupUnique` | internal/fips/index.go:114-136 | the lookup is determined by the table and the set of networks: list order, repetition and map order cannot show |
| `FipIndex.LookupAddresses` | internal/fips/index.go:106-136 | an address is in the lookup if and only if it is active on one of the networks |
| `FipIndex.GaugeIsLookupLength` | internal/fips/index.go:292-315 | a network's gauge, zero when never set, is the length of the lookup for that one network, and both are the number of its mapped entries with an address |
| `FipIndex.AddrSetMeaning` | internal/fips/index.go:114-136 | the announce set of a network holds an address if and only if some mapped entry has that network and that address |
| `FipIndex.LookupMeaning` | internal/fips/index.go:114-136 | a lookup holds an address exactly as often as there are mapped entries with it on a listed non-empty network |
| `FipIndex.TableOfContents` | internal/fips/index.go:172-178 | a snapshot with distinct uuids describes a table with exactly its entries |
| `FipViews.ChangeSetsPartition` | internal/fips/index.go:193-218 | added, removed and churned are disjoint and together are exactly the networks whose active address set changed |
| `FipViews.SameTableSameViews` | internal/fips/index.go:79-136 | two indexes over one table have the same groups, gauges and lookups, whatever updates led there |
| `FipViews.RebuildFromListing` | internal/fips/index.go:151-247 | a snapshot equal to the table gives three empty change sets |
| `FipViews.ReplaceWithOwnListing` | internal/fips/index.go:151-247 | ReplaceAll fed with All reports three empty sets and changes no view |
| `FipViews.AddrKeyInjective` | internal/fips/index.go:275 | the composite key recovers network and address when networks hold no NUL |
| `FipViews.AddrRowMeaning` | internal/fips/index.go:249-275 | an address row always points at a live entry with that network and address, collisions or not |
| `FipViews.UpsertKeepsRowsComplete` | internal/fips/index.go:249-273 | an upsert keeps the address rows complete if and only if it takes no other entry's pair |
| `FipViews.DeleteKeepsRowsComplete` | internal/fips/index.go:262-273 | a delete never makes complete rows incomplete |
| `FipViews.ReplaceRowsComplete` | internal/fips/index.go:172-178 | a replace leaves complete rows if and only if the snapshot repeats no pair |
| `FipViews.CollisionOutlivesItself` | internal/fips/index.go:249-273 | after a collision whose later owner left, the surviving entry has no row |
| `FipRows.RowsCompleteExactly` | internal/fips/index.go:79-273 | after any upserts, deletes and replaces the address rows are complete if and only if no live entry has shared its pair since it was last indexed |
| `FipRows.Follow` | internal/fips/index.go:79-221 | the index driven through a history has the table, the rows and the completeness condition of that history |
| `FipRows.DropKeepsRow` | internal/fips/index.go:262-273 | after another entry is dropped an entry has its row if and only if it had it and the two did not share a pair |
| `FipRows.AddKeepsRow` | internal/fips/index.go:249-260 | after another entry is added an entry has its row if and only if it had it and the two do not share a pair |
| `FipFeed.EventMeaning` | internal/fips/subscriber.go:114-143 | after a mapped event the floating IP is active exactly on the network and address it names; after allocated, unmapped or released nowhere; the entry carries the event's fields; no other entry moves and an unknown kind changes nothing |
| `FipFeed.HistoryMeaning` | internal/fips/subscriber.go:98-147 | after any history a floating IP is active on a network under an address if and only if the last event of the four kinds about it maps it there, or there was none and it was so before |
| `FipFeed.SnapshotMeaning` | internal/fips/poller.go:104-114 | a snapshot's table holds its items field by field and nothing else, and a network's announce set is the addresses of its items with status active |
| `FipFeed.FeedsAgree` | internal/fips/poller.go:41-45 | a snapshot listing what a history of events left active serves exactly the lookups of the index that followed the events |
| `ExternalPeer.ParseExternalPeerMeaning` | internal/publisher/external.go:19-48 | what is accepted, and as what: exactly a bare address with ASN 0, or a 32-bit ASN, one colon and an IPv4 address |
| `ExternalPeer.ExternalPeerRoundTrip` | internal/publisher/external.go:19-48 | printing any 32-bit ASN and IPv4 text and parsing recovers both |
| `ExternalPeer.BareAddressUnchanged` | internal/publisher/external.go:19-48 | any bare valid address of either family comes back unchanged |
| `ExternalPeer.LawsAreConsistent` | internal/publisher/external.go:19-48 | the laws assumed of the address parser can be met, so the results on this text are not vacuous |
| `ExternalPeer.PeerIsIPv4` | internal/publisher/external.go:32-44 | the colon-split branch only ever succeeds on an IPv4 peer |
| `RouterStore.MemoryStore.List` | internal/store/router/memory.go:25-42 | exactly the rows whose project is the one asked for, or all for an empty one, each once, by creation time then name |
| `RouterStore.MemoryStore.Create` | internal/store/router/memory.go:44-54 | refused without effect if and only if the (project, name) key is held; else exactly this row is added |
| `RouterStore.MemoryStore.Delete` | internal/store/router/memory.go:56-66 | exactly this row goes, and its name becomes free |
| `RouterStore.MemoryStore.UpdateStatus` | internal/store/router/memory.go:78-89 | only the two live-state fields of this row change; the name index stays exact |
| `Publisher.NATS.StateFor` | internal/publisher/publisher.go:144-167 | the prefixes are, as a set, the router's own, a /32 for every active IPv4 address and a /128 for every active IPv6 address on its networks, and nothing else; the one peer is the parsed External; empty unless it is a gobgp egress with a valid peer |
| `Publisher.NATS.AppendHostRoutes` | internal/publisher/publisher.go:156-162 | one host route per parseable address, in lookup order, after the router's own prefixes |
| `Publisher.NATS.Publish` | internal/publisher/nats.go:107-154 | an announcing router's subject, `weft.router.<uuid>.config`, carries that state; any other router sends nothing; no other subject moves |
| `Publisher.StateForUnique` | internal/publisher/publisher.go:144-167 | the desired state is a function of router and table |
| `Publisher.StatePrefixes` | internal/publisher/publisher.go:144-182 | as a set, the prefixes are the router's own plus one host route per active address on its networks |
| `Publisher.HostRoutesSet` | internal/publisher/publisher.go:156-182 | host routes of a lookup are, as a set, those of its parseable addresses |
| `Publisher.FipRouteMeaning` | internal/publisher/publisher.go:173-182 | the route of an address is its text with /32 if it parses as IPv4, with /128 if it parses as IPv6, and there is none if it does not parse |
| `Publisher.StateMeaning` | internal/publisher/publisher.go:144-182 | an IPv4 address contributes exactly its /32 and an IPv6 one exactly its /128, for every mapped entry with an address on the router's networks |
| `Publisher.SubjectForInjective` | internal/publisher/publisher.go:100-102 | no two routers share a subject |
| `Pipeline.Republisher.OnChange` | cmd/weft-network/main.go:58-74 | exactly the announcing routers stitching the network are re-sent from the current table |
| `Pipeline.SendMatching` | cmd/weft-network/main.go:65-87 | the walk over the listed rows re-sends those on the network and touches no other subject |
| `Pipeline.Subscriber.Handle` | internal/fips/subscriber.go:98-147 | the event does to the table what its kind says (see `FipFeed.EventMeaning`), and exactly one network, or none, is notified and re-sent |
| `Pipeline.NotifiedNetworkSuffices` | internal/fips/subscriber.go:98-147 | notifying one network covers every announce set that changed if and only if the event moves no last active holder off another network |
| `Pipeline.MovedFipLeavesStaleRoute` | internal/fips/subscriber.go:124-128 | a floating IP re-mapped under another network leaves its old router announcing a route it should not |
| `Pipeline.Poller.Tick` | internal/fips/poller.go:95-138 | a failed fetch changes nothing; after a good one the table holds the snapshot item by item, each network whose announce set changed is fired once, and exactly the routers stitching one are re-sent |
| `Pipeline.Poller.Notify` | internal/fips/poller.go:117-133 | the three change sets are each fired, every network once |
| `Pipeline.Poller.FireAll` | internal/fips/poller.go:123-131 | one set's walk fires the networks not yet seen |
| `Pipeline.UnstitchedKeepsAnnounceSet` | cmd/weft-network/main.go:58-87 | a router on no changed network needs no re-send |
| `Pipeline.ResendRestoresSync` | cmd/weft-network/main.go:58-87 | re-sending the routers stitching the notified networks brings them in agreement; what changed unnotified stays stale and nothing else does |
| `Pipeline.TickHealsExactly` | internal/fips/poller.go:95-138 | after a poll a router agrees if and only if it was re-sent or agreed before; an unchanged snapshot heals nothing |
| `Pipeline.AgreesExactly` | cmd/weft-network/main.go:58-87 | a router's message agrees with a table exactly when it would announce the same on the table it was last sent from |
| `Pipeline.ResendDelivers` | cmd/weft-network/main.go:58-87 | after a re-send each chosen router's message is made from the table of that moment and every other one's is what it was |
| `Pipeline.PublishResends` | internal/publisher/nats.go:107-154 | one publish makes its router agree with the table and no other subject differ |
| `Pipeline.Server.CreateRouter` | internal/server/router.go:100-112 | a refused create sends nothing; a stored router is sent as stored |
| `Pipeline.Server.DeleteRouter` | internal/server/router.go:132-150 | only a router that was stored is cleared on the wire |
| `Pipeline.Server.ResyncRouters` | internal/server/server.go:156-172 | every stored announcing router is re-sent; the count is the number of rows |
| `Pipeline.EventKeepsSync` | internal/fips/subscriber.go:98-147 | any event with its one notification keeps agreement for every router off the networks left behind |
| `Pipeline.CreateKeepsSync` | internal/server/router.go:100-112 | adding and sending a router keeps agreement for every uuid |
| `Pipeline.DeleteKeepsSync` | internal/server/router.go:132-150 | removing and clearing a router leaves it silent and the rest in agreement |
| `Pipeline.StatusKeepsSync` | internal/store/router/memory.go:78-89 | status reports change nothing a router announces |
| `Pipeline.ResyncSyncs` | internal/server/server.go:156-172 | re-sending every router on a quiet wire reaches agreement |
| `Pipeline.Process.constructor` | cmd/weft-network/main.go:390-457 | resync before any lookup, then an empty index, then the seed: the process starts in agreement whether or not the seed succeeds, and after a good seed the table holds the snapshot item by item |
| `Pipeline.Process.Perform` | cmd/weft-network/main.go:58-87 | every step has its effect on routers and table, re-sends exactly the routers it reaches, keeps agreement for every router stitching no stale network, and says which networks become or stop being stale |
| `Pipeline.Run` | cmd/weft-network/main.go:58-87 | after any sequence of steps, routers and table hold what the steps say and every router stitching no stale network agrees with them; each router agrees if and only if its announce set is what it was on the table it was last sent from; if no event moved a last holder, every router does, and each announcing one has last been told its peer, its own prefixes and the host route of every active address on its networks |
| `Pipeline.SyncMeaning` | cmd/weft-network/main.go:58-87 | a router in agreement has been sent its one peer, and exactly its own prefixes, a /32 per active IPv4 and a /128 per active IPv6 address on its networks |
| `Pipeline.NoMovesNoStale` | internal/fips/subscriber.go:98-147 | a run whose events move no last holder leaves no network stale |
| `Pipeline.IncrementalMatchesRebuild` | internal/fips/subscriber.go:114-143 | an index that followed any event sequence answers every lookup and gauge as one rebuilt from the final table, and holds an address exactly when the last event about some floating IP maps it there |
| `Pipeline.LiveFromHistory` | internal/fips/subscriber.go:98-147 | the addresses active after a history are those the last events map |
| `LbStore.MemoryStore.List` | internal/store/lb/memory.go:25-42 | exactly the rows whose project is the one asked for, or all for an empty one, each once, by creation time then name |
| `LbStore.MemoryStore.Create` | internal/store/lb/memory.go:44-54 | refused without effect if and only if the key is held, else exactly this row is added; with no bar in any project this is the sequential create |
| `LbStore.MemoryStore.Delete` | internal/store/lb/memory.go:56-66 | removes exactly this row, which is the sequential delete, and frees the name |
| `LbStore.MemoryStore.SetBackends` | internal/store/lb/memory.go:78-88 | replaces only the backends of this row, which is the sequential step; NotFound without effect when there is none |
| `CompoundKey.KeyInjective` | internal/store/lb/memory.go:23 | the compound key recovers project and name when projects hold no bar |
| `CompoundKey.KeysMeetExactly` | internal/store/router/memory.go:23 | two keys are equal if and only if the pairs are, or one project is the other with a bar and more and the names are shifted by as much |
| `LbStore.KeyTakenIsNameTaken` | internal/store/lb/memory.go:44-54 | with no bar in any project, a key is refused exactly when the pair is held |
| `LbEtcd.EtcdStore.Create` | internal/store/lb/etcd.go:46-75 | with one client, the same rows and answer as the in-memory create, and an error without effect on a stored uuid |
| `LbEtcd.EtcdStore.Delete` | internal/store/lb/etcd.go:77-86 | with one client, the same rows and answer as the in-memory delete |
| `LbEtcd.EtcdStore.SetBackends` | internal/store/lb/etcd.go:107-139 | with one client, the retry loop commits at its first attempt and does what the in-memory store does |
| `LbProtocol.RunKeepsCalls` | internal/store/lb/etcd.go:107-139 | in every schedule a read that can still commit is current, and every lost attempt was lost to a different rival |
| `LbProtocol.ConflictNeedsThreeRivals` | internal/store/lb/etcd.go:108-138 | a conflict is reported only if at least three other calls wrote the key meanwhile |
| `LbProtocol.TwoWritersNeverConflict` | internal/store/lb/etcd.go:108-138 | if at most two other calls write the key from the call's invocation on, it never reports a conflict |
| `LbProtocol.RivalsOverlap` | internal/store/lb/etcd.go:108-138 | a call finished before another was invoked is never the one it lost a race to |
| `LbProtocol.NoResurrection` | internal/store/lb/etcd.go:107-139 | without a new create of its uuid, a removed load balancer never comes back |
| `LbProtocol.RunRefines` | internal/store/lb/etcd.go:46-139 | the store is always the replay of the calls that took effect, each a sequential-store step or a create that raced past its name scan |
| `LbProtocol.SuccessChangesBackendsOnly` | internal/store/lb/etcd.go:113-134 | a successful SetBackends stored the value just before it with only the backends changed: no update is lost |
| `LbProtocol.RunRecorded` | internal/store/lb/etcd.go:46-139 | every answered call, and every call whose reply was lost, took effect exactly once; a conflict or an earlier failure never did |
| `LbRaces.SequentialExactly` | internal/store/lb/etcd.go:46-75 | the whole history is a run of the in-memory store, same rows and same answers, if and only if no create commits a name taken at that moment |
| `LbRaces.SerialNamesGiveSequentialHistory` | internal/store/lb/etcd.go:46-75 | creates of one name that do not overlap never race, so the history is sequential |
| `LbRaces.RaceExactly` | internal/store/lb/etcd.go:46-75 | from every reachable state some continuation of the running calls commits a taken name if and only if two running creates want one name that is free or whose every holder is being deleted, or a scanned name is already lost |
| `LbRaces.PairCanRace` | internal/store/lb/etcd.go:46-75 | such a pair has a schedule that ends in a race, wherever between scan and put the two stand |
| `LbRaces.BothAtPut` | internal/store/lb/etcd.go:64-68 | two creates of one name at their puts: once one commits, the other's put commits a taken name |
| `LbRaces.StepKeepsWindowShut` | internal/store/lb/etcd.go:46-75 | outside that window no step commits a taken name or reopens the window |
| `LbContention.AloneIsSequential` | internal/store/lb/etcd.go:46-139 | in any state that schedules can reach, whatever other calls are under way, a call nobody interferes with does to the rows, and answers, what the in-memory store does |
| `LbContention.ThreeRivalsCanConflict` | internal/store/lb/etcd.go:108-138 | from every state with a call at its first read, exactly three other writers of its key can bring it to a conflict |
| `LbContention.TwoRivalsAreSurvived` | internal/store/lb/etcd.go:108-138 | after two lost races the call, left alone, still stores its backends |
| `DnsStore.CreateZoneKeeps` | internal/store/dns/memory.go:56-67 | foreign keys, names and counts stay right, and names unique |
| `DnsStore.DeleteZoneKeeps` | internal/store/dns/memory.go:69-85 | the cascade removes exactly the zone's records |
| `DnsStore.CreateRecordKeeps` | internal/store/dns/memory.go:121-135 | one more record in its zone, every count right |
| `DnsStore.DeleteRecordKeeps` | internal/store/dns/memory.go:137-153 | one less record in its zone, every count right |
| `DnsStore.CountExactBelowWrap` | internal/store/dns/memory.go:121-153 | below 2^31 the 32-bit count is the number of records |
| `DnsStore.Int32Meaning` | internal/store/dns/memory.go:121-153 | the carried count is the 32-bit value that differs from the number by a multiple of 2^32 |
| `DnsStore.CreateRecordBumps` | internal/store/dns/etcd.go:172-203 | adding one to the carried count is recounting, wrap-around included |
| `DnsStore.DeleteRecordDrops` | internal/store/dns/etcd.go:205-250 | subtracting one from the carried count is recounting, wrap-around included |
| `DnsMemory.MemoryStore.ListZones` | internal/store/dns/memory.go:37-54 | exactly the zones whose project is the one asked for, or all for an empty one, each once, by creation time then name |
| `DnsMemory.MemoryStore.CreateZone` | internal/store/dns/memory.go:56-67 | refused without effect if and only if the key is held, else the sequential create with all four maps in step; with no bar in any project always the sequential create |
| `DnsMemory.MemoryStore.DeleteZone` | internal/store/dns/memory.go:69-85 | removes the zone and exactly the records in it, which is the sequential cascade, with all four maps in step |
| `DnsMemory.MemoryStore.ListRecords` | internal/store/dns/memory.go:99-119 | exactly the records whose zone is the one asked for, or all for an empty one, each once, by zone name, name and kind |
| `DnsMemory.MemoryStore.CreateRecord` | internal/store/dns/memory.go:121-135 | refused without effect if and only if its zone is missing; else the row is added with its zone's name and of the zones only a count moves; the inverse index follows |
| `DnsMemory.MemoryStore.DeleteRecord` | internal/store/dns/memory.go:137-153 | removes exactly this row, and of the zones only a count moves; the inverse index follows |
| `DnsMemory.LinkedCreateZone` | internal/store/dns/memory.go:56-67 | the key is taken exactly when the pair is, and the four maps stay inverse to each other |
| `DnsMemory.LinkedDeleteZone` | internal/store/dns/memory.go:69-85 | the inverse index held exactly the records the cascade removes, and the maps stay in step |
| `DnsMemory.LinkedCreateRecord` | internal/store/dns/memory.go:121-135 | the size of the inverse set is the zone's new count |
| `DnsMemory.LinkedDeleteRecord` | internal/store/dns/memory.go:137-153 | the record's zone always exists, and the size of the inverse set is its new count |
| `DnsMemory.KeyInUse` | internal/store/dns/memory.go:56-67 | the name map answers whether the key is held, and a held pair is always a held key |
| `DnsMemory.KeyTakenIsNameTaken` | internal/store/dns/memory.go:33-67 | with no bar in any project, a key is refused exactly when the pair is held |
| `DnsEtcd.EtcdStore.ListZones` | internal/store/dns/etcd.go:45-65 | exactly the zones whose project is the one asked for, or all for an empty one, in creation-revision order |
| `DnsEtcd.EtcdStore.CreateZone` | internal/store/dns/etcd.go:67-97 | with one client, the sequential create, and an error without effect on a stored uuid |
| `DnsEtcd.EtcdStore.DeleteZone` | internal/store/dns/etcd.go:99-131 | with one client, the sequential cascade |
| `DnsEtcd.EtcdStore.GetZone` | internal/store/dns/etcd.go:133-146 | the stored zone or NotFound |
| `DnsEtcd.EtcdStore.ListRecords` | internal/store/dns/etcd.go:150-170 | exactly the records whose zone is the one asked for, or all for an empty one, in creation-revision order |
| `DnsEtcd.EtcdStore.CreateRecord` | internal/store/dns/etcd.go:172-203 | with one client, the sequential create, the bumped count being the recount, and an error without effect on a stored uuid |
| `DnsEtcd.EtcdStore.DeleteRecord` | internal/store/dns/etcd.go:205-250 | with one client, the sequential delete if and only if the carried count is not zero; else the record goes and the count is wrong |
| `DnsEtcd.CountFits` | internal/store/dns/etcd.go:205-250 | below 2^32 records the count of a zone with a live record is never zero |
| `DnsEtcd.EtcdStore.DecrementZone` | internal/store/dns/etcd.go:220-248 | with one client the loop takes exactly one from a non-zero count and leaves a zero one |
| `DnsEtcd.EtcdStore.GetRecord` | internal/store/dns/etcd.go:252-265 | the stored record or NotFound |
| `DnsEtcd.Scan` | internal/store/dns/etcd.go:45-65 | a filtered prefix scan returns each kept value once, ordered by create revision |
| `DnsEtcd.KeysApart` | internal/store/dns/etcd.go:22-41 | zone keys and record keys never meet, and each recovers its uuid |
| `DnsEquivalence.Compare` | internal/store/dns/etcd.go:45-265 | any operation sequence gets the same errors, rows and counts from both stores, lists up to order, and these are the sequential store's |
| `DnsEquivalence.OnBoth` | internal/store/dns/memory.go:37-163 | one operation on both stores in equal states: like answers, equal states |
| `DnsEquivalence.SameTableSameAnswer` | internal/store/dns/memory.go:37-163 | the answers allowed on one table are all alike |
| `DnsProtocol.RunKeepsShape` | internal/store/dns/etcd.go:99-250 | every schedule keeps each call's reads current up to their revision, cascade listings of one zone only, one winner per removal and one distinct rival on the same zone per lost attempt |
| `DnsProtocol.GivingUpNeedsEightRivals` | internal/store/dns/etcd.go:220-248 | a decrement is given up only if eight other calls wrote that very zone while it was tried |
| `DnsProtocol.SevenWritersNeverExhaust` | internal/store/dns/etcd.go:220-248 | if at most seven other calls write the zone from the call's invocation on, it never gives up |
| `DnsProtocol.RivalsOverlap` | internal/store/dns/etcd.go:220-248 | a call finished before another was invoked is never the one it lost a race to |
| `DnsProtocol.RecordRemovedOnce` | internal/store/dns/etcd.go:205-219 | of several calls on one record at most one wins the removal and owes a decrement |
| `DnsCounts.StepConservesExactly` | internal/store/dns/etcd.go:172-250 | one step keeps a zone's balance and leaves it removed if it is, if and only if it is not an unguarded put on that zone, or the put finds it with the count that was read |
| `DnsCounts.CountSoundExactly` | internal/store/dns/etcd.go:172-250 | over whole schedules from any reachable state, zone by zone: the count balances and the zone stays gone throughout if and only if every unguarded put on it is harmless in that sense |
| `DnsCounts.UndisturbedIsHarmless` | internal/store/dns/etcd.go:195-203 | puts that find the zone at the revision read are harmless, so the revision guard would be enough |
| `DnsCounts.RecordCountConserved` | internal/store/dns/etcd.go:172-250 | a zone's count plus the creates it does not show is its live records plus the removals it does not show, if puts on that zone are harmless; with no such create it is never below the live number |
| `DnsCounts.ZeroCheckExactly` | internal/store/dns/etcd.go:230-232 | the zero check is taken exactly when creates not shown match live records and removals not shown, so never without a pending or lost bump |
| `DnsCounts.NeverBackExactly` | internal/store/dns/etcd.go:195-248 | over whole schedules a zone never comes back after removal if and only if every unguarded put on it finds it in place |
| `DnsCounts.RemovedZoneStaysGone` | internal/store/dns/etcd.go:220-248 | then a removed zone is gone for good, pending decrements notwithstanding |
| `DnsRoots.StepRootsExactly` | internal/store/dns/etcd.go:99-131 | one step orphans a record if and only if it is the put of a record whose zone is gone, or a cascade whose listing misses a record |
| `DnsRoots.ApartKeepsRoots` | internal/store/dns/etcd.go:99-203 | in every schedule in which no create of a record overlaps a delete of its zone, every stored record's zone exists throughout and no removed zone comes back |
| `DnsRoots.OrphanExactly` | internal/store/dns/etcd.go:99-203 | from every sound reachable state some continuation of the running calls orphans a record if and only if an unstored create and an uncommitted delete share a zone that is there or about to be put back, or a put is already late, or a listing already stale |
| `DnsRoots.ClashOrphans` | internal/store/dns/etcd.go:99-203 | such a pair has a schedule that orphans a record, wherever between read and put, listing and transaction the two stand |
| `DnsRoots.PutThenCascade` | internal/store/dns/etcd.go:120-194 | a record put after a cascade's listing and before its transaction is orphaned by the transaction |
| `DnsRoots.StepKeepsWindowShut` | internal/store/dns/etcd.go:99-203 | outside that window no step of a running call orphans a record or reopens the window |
| `DnsRoots.OverlapCanOrphan` | internal/store/dns/etcd.go:99-203 | from every sound store, one create and one delete of its zone invoked together can orphan the record |
| `DnsContention.EightRivalsCanExhaust` | internal/store/dns/etcd.go:220-248 | from every state with a call at its first read of the zone, exactly eight other writers of the zone can make it give up its decrement |
| `DnsContention.SevenRivalsAreSurvived` | internal/store/dns/etcd.go:220-248 | after seven lost races the call, left alone, still takes its decrement |
| `DnsContention.AloneItDecrements` | internal/store/dns/etcd.go:220-248 | left alone at any attempt, the call takes exactly one from the count and changes nothing else of the zone |
| `DnsCounts.OverlappedCreateResurrectsZone` | internal/store/dns/etcd.go:195-203 | from any state with a create at its zone put, a DeleteZone that starts and ends there makes the put bring the removed zone back, empty |
| `DnsCounts.OverlappedCreateLosesDecrement` | internal/store/dns/etcd.go:195-203 | from any state, a decrement that commits first makes a harmless put harmful |
| `DnsCounts.OverlapIsReachable` | internal/store/dns/etcd.go:172-250 | from every sound store with a record in the zone, a create and a delete that overlap reach that state |
| `StatusSubject.UuidFromSubjectMeaning` | internal/statusreceiver/derive.go:74-87 | accepts exactly the status subjects of dot-free non-empty uuids, giving back the uuid, and `weft.router.status` |
| `StatusSubject.ConfigSubjectRejected` | internal/statusreceiver/derive.go:74-87 | no router's configuration subject is read as a status |
| `VmNames.ProbeCoversEnsure` | internal/lifecycle/weftclient.go:242-260 | Destroy probes every name Ensure can use, for every replica count |
| `VmNames.SharedNames` | internal/lifecycle/weftclient.go:233-260 | two routers share a VM name if and only if they are one, or one uuid is the other plus a replica suffix; uuids of equal length never clash |
| `VmNames.IndexedNamesMeet` | internal/lifecycle/weftclient.go:254-267 | an indexed name determines its router and its index |
| `VmNames.ReplicaNames` | internal/lifecycle/weftclient.go:254-260 | the loop yields replicas 1 to n in order |
| `VmNames.NamesAreWanted` | internal/lifecycle/weftclient.go:242-260 | the names of a router are the bare one for at most one replica, and else exactly the indexed ones from 1 to the replica count capped at ten, without repetition |
| `Lifecycle.WeftClient.Ensure` | internal/lifecycle/weftclient.go:130-158 | success means every name asked for is registered and started: the bare one for at most one replica, else names 1 to n for n replicas up to ten, pairwise distinct; failed midway or not, only these names are added; it fails exactly when the agent gives a reply it does not tolerate |
| `Lifecycle.AskedMeaning` | internal/lifecycle/weftclient.go:130-158 | an Ensure of an egress gobgp router asks for exactly those names, as many as the capped replica count; of any other for none |
| `Lifecycle.WeftClient.Destroy` | internal/lifecycle/weftclient.go:168-190 | success removes every name the router can have; in every case no other VM is touched; it fails exactly when the agent gives a reply it does not tolerate |
| `Lifecycle.PerformAll` | internal/lifecycle/weftclient.go:130-190 | after any calls with any failures, every VM a successful Ensure asked for by its replica count is there unless a router that can share a name was destroyed since, nothing else appears or goes away, and all calls succeed if and only if the agent had no fault |
| `Lifecycle.DestroyAfterAnything` | internal/lifecycle/weftclient.go:130-190 | a Destroy after that: success leaves no VM any replica count of that router could ask for, and every other router's standing Ensure still has all the VMs it asked for |
| `Leader.RunKeepsInv` | internal/leader/leader.go:97-178 | in every schedule of candidates, expiries and cancellations, a candidate between winning and onLost holds the lock or has lost its lease |
| `Leader.TermsAlternate` | internal/leader/leader.go:122-178 | onAcquire and onLost strictly alternate, no campaign starts inside a term, and no leader context is live outside one and its tear-down |
| `Leader.TermStarts` | internal/leader/leader.go:122-151 | from the loop head with the lock free: a campaign, the grant, and onAcquire under a live leader context |
| `Leader.TermEnds` | internal/leader/leader.go:153-177 | once its context or session is gone: onLost is the next mark, then the lock is given up if a request gets through, then the leader context is dead and the loop head reached |
| `Leader.FairScheduleEndsTerm` | internal/leader/leader.go:153-177 | in every schedule, whatever others do in between, a candidate whose term is over and that gets its three turns has been told and is back at the loop head by the last of them |
| `Leader.UntoldStays` | internal/leader/leader.go:153-177 | in every schedule without its turn it stays in its term |
| `Leader.TurnExactly` | internal/leader/leader.go:153-177 | a candidate on its way out is moved by its own next step and by nothing else |
| `Leader.LeavesExactly` | internal/leader/leader.go:153-177 | a step can take a candidate out of its term if and only if it is cancelled or without a session, and that step calls onLost with the lock still as it was |
| `Leader.LossEndsTerm` | internal/leader/leader.go:141-156 | losing the session or the outer context makes the term one that is over |
| `Leader.LoopHead` | internal/leader/leader.go:97-119 | at the loop head a cancelled candidate exits and any other one campaigns again |
| `Leader.CampaignFailure` | internal/leader/leader.go:122-134 | a failed campaign closes its session, makes no callback and goes back to the loop head |
| `Leader.WatcherKills` | internal/leader/leader.go:141-148 | the watcher kills the leader context exactly when the term is over, and does nothing else |
| `Leader.HandOver` | internal/leader/leader.go:122-177 | a term that is over makes room: when a request to give up the lock gets through, a waiting candidate's term starts after the first one's onLost |
| `Leader.OverlapNeedsLostLease` | internal/leader/leader.go:122-178 | two candidates are in a term at once only if one has lost its lease |
| `Leader.LeasesHeldInTerm` | internal/leader/leader.go:122-178 | if no lease runs out inside a term, a candidate in a term holds its lease |
| `Leader.TermsDisjoint` | internal/leader/leader.go:153-177 | then terms of different candidates never overlap, because onLost precedes giving up the lock |
| `Leader.OverlapExactly` | internal/leader/leader.go:122-178 | from every reachable state with one candidate in a term and another idle, the two can be in a term at once, without the first doing anything, if and only if the first has lost its lease |
| `Text.ValueOfDecimal` | internal/lifecycle/weftclient.go:265-267 | reading back the printed decimal gives the number |
| `Sorting.StringLeqMeaning` | internal/fips/index.go:134 | the string order is the one decided by the first difference, a prefix coming first |

## Left out

- Sockets, gRPC, NATS connections, TLS, tracing, flags, metric registration and logging: plumbing. The gauge is kept as a field of one index; the event and tick counters are not.
- JSON: decoding is taken as the inverse of encoding, so the corrupt-entry branches of the stores are not modelled; an event payload that does not decode is `None`.
- `net.ParseIP` and `netip.ParseAddr`: a parameter (`IpLib`) with stated laws on address text (dotted quads have no colon, colon forms have two or more, no address is empty or has white space).
- Strings are ordered by character, not by UTF-8 byte.
- Store and publish errors inside the pipeline: publishes succeed, each step is atomic, one process, one leadership term. Prefixes on the wire are compared as sets.
- Races between the poller goroutine and the subscriber callback inside one publish, and wire state across a change of leader: the code promises no agreement there.
- FipIndex.Index.Upsert: requires a non-empty uuid, because the code uses an empty uuid as its absence check.
- FipIndex.Index.ReplaceAll: requires distinct uuids, because the code does not unindex between duplicates of one snapshot.
- Pipeline.Subscriber.Handle: requires a non-empty subject on an event that upserts, as Index.Upsert does.
- Pipeline.Server.CreateRouter: request validation and defaulting before the store call, and the best-effort lifecycle call after the publish, are not part of it (the lifecycle is modelled on its own).
- Pipeline.Server.ResyncRouters: without the best-effort lifecycle calls.
- PeerConfig hold time and policy, prefix next hop and communities: this code never sets them.
- LbStore.MemoryStore.Create: requires a fresh uuid; the server draws a new one for every row.
- RouterStore.MemoryStore.Create: requires a fresh uuid, and is stated in terms of the compound key, so two pairs that share a key count as one.
- DnsMemory.MemoryStore.CreateZone: requires a fresh uuid and a zone created with no records, as the server does; so does DnsEtcd.EtcdStore.CreateZone for the count.
- DnsMemory.MemoryStore.CreateRecord: requires a fresh uuid.
- Pipeline.Poller.Tick: requires distinct non-empty uuids in a snapshot, as Index.ReplaceAll does.
- DnsProtocol.RunKeepsShape: counts are unbounded there (no 32-bit wrap); CreateZone is one step, and zone and record uuids are not reused.
- Concurrent uniqueness of zone names in the etcd DNS store: its scan-then-put is that of the load balancers, and is not modelled again.
- The etcd lists of the load balancer store, the etcd router store and its unconditional UpdateStatus, and the scheduling-rule stores: near copies of what is here, or without a concurrent promise.
- List order among rows with equal sort keys: it comes from map iteration in the code; only sortedness and contents are stated.
- `rollupStatus`, `formatPeerState`, `ToProto` and request validation: each is settled by reading one function.
- Leader.TermsAlternate: a campaign that fails after the lock was granted is taken as failing before the grant. Back-off delays, lease lengths and ticker periods are not modelled.
- Lifecycle.WeftClient.Ensure: the agent is a set of names with calls that may fail before or after taking effect; images and projects of VMs are left out.
