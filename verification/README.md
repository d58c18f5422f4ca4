# AMT in Dafny

A Dafny model of an Automatic Multicast Tunneling implementation (RFC 7450): the relay, the gateway, DRIAD relay
discovery, and the packet code beneath them, with proofs of what they are meant to guarantee. Check everything with
`dafny verify dfyconfig.toml`.

The modules, from the bottom up:

- `Bytes`, `Checksum`, `Normalization`, `Ecn`, `Fragmentation`: one's-complement sums and the in-place packet rewrites that
  rest on them.
- `ReportRecords`, `ReportBuild`, `ReportParse`, `Wire`, `DnsName`: builders and parsers that must undo each other. IGMPv3 and
  MLDv2 share one layout and are modelled once, over the width of an address.
- `Interest`, `RelayState`, `RelayDatabase`: source filters per endpoint and the indexes derived from them, with the
  transactional update.
- `Upstream`, `RelayRun`, `RelayDaemon`: native joins with rollback; `RelayRun` gives the relay as a step relation and proves
  its safety over whole runs, `RelayDaemon` is the object whose methods take those steps.
- `CaptureWorker`: the two-thread hand-off as interleavings of atomic operations.
- `Session`, `Gateway`, `RelayFailover`, `Convergence`, `DesiredState`, `Lockstep`: authentication under rotating secrets, the
  gateway's phases, and how both ends come to, and stay at, the same filters.
- `DriadQueue`, `DriadTunnel`: the probing state machine for one source.
- `ControlLimiter`, `QueryLimiter`, `FeedbackLimiter`: the three limiters and their bounds over every run.

Objects the source mutates are classes (`Database`, `UpstreamManager`, `RelayDaemon`, `Gateway`, `RelaySecrets`,
`DriadSourceTunnel`, the limiters); buffers filled or rewritten in place are arrays. Their methods are proved against
functions and predicates on values, and the laws are lemmas about those. Every call that leaves the program (sockets,
joins, the clock, randomness, HMAC) is an arbitrary result or a parameter. Separate clock readings of one operation are
separate parameters, in order.

Some promises turn out not to hold as stated; each comes with the exact condition under which it does:

- The limit on native subscriptions is checked by updates and not by removals. A removal keeps every limit that held exactly
  when it loses at least as many joins as it gains (`RemovalKeepsLimitExactly`); a run under a limit of one ends with two
  (`RemovalCanExceedSubscriptionLimit`). A whole run keeps the limit exactly when the balance of each removal allows it
  (`RunsKeepSubscriptionLimitExactly`).
- The capture queue's high-water mark can exceed the capacity by one: exactly when the producer reads the depth with the
  channel full while the relay has taken a packet it has not counted yet (`HighWaterOverExactly`, `HighWaterBoundIsTight`).
- A notification can be lost: a relay that waits on queued packets with nothing pending or pledged does so exactly when a
  notification has been refused (`WakeUpLostExactly`, `RefusedNotifyLosesWakeUp`). Only the timeout of its wait then ends it.
- A Teardown names an IPv6 gateway correctly exactly when its first twelve octets are not all zero
  (`TeardownNamesTheGateway`); otherwise it is still authenticated, for the IPv4 endpoint it then names (`EchoedTeardown`).
- A full report repairs every lost report except a lost leave (`ReplacementConverges`): from agreement, a group whose leave was
  lost stays at the relay through all later reports that do not name it (`LostLeaveNeverRepaired`).
- The database's two checks on a single report never fire on what the relay has parsed under the same limits, unless the limit on
  records is zero and the message a legacy one (`ParsedIsWithin`, `LegacyIgnoresLimit`).
- The bound on one source's rate holds under all global settings and table sizes exactly when a minute refills a bucket
  (`SourceBoundExactly`, for integral bursts); a global limit no larger than the source's own keeps it in any case
  (`GlobalShieldsSource`).

## Model

| member | source | states |
|---|---|---|
| Checksum.OnesComplementSumParts | src/checksum.rs:24-42 | The carry loop with its pending high byte computes the sum of all 16-bit words modulo 65535, represented by 0 only for an all-zero input, of the concatenated parts: where the parts are cut does not matter, and the accumulator never leaves 17 bits |
| Checksum.ChecksumParts | src/checksum.rs:5-7 | The checksum is the complement of that sum |
| Checksum.InternetChecksum | src/checksum.rs:1-3 | One buffer is the one-part case |
| Checksum.InsertedChecksumVerifies | src/membership.rs:353-354 | A checksum inserted at any even zeroed field verifies as 0xffff, whatever even-length pseudo header precedes the message, also with 0 replaced by 0xffff |
| Checksum.HeaderChecksumVerifies | src/mtu.rs:96-98 | The same for a header summed alone |
| Checksum.VerifyingFieldUnique | src/membership.rs:506-509 | Conversely a field that makes the message verify is the computed one modulo 65535 |
| Checksum.UdpChecksumOf | src/upstream.rs:528-533 | The UDP form is never the value that means "no checksum" |
| Checksum.Ipv6PseudoTotal | src/upstream.rs:517-523 | An IPv6 pseudo header adds exactly both addresses, the length and the protocol to the sum |
| Fragmentation.FragmentIpv4ForTunnel | src/mtu.rs:35-103 | For every packet and MTU: refuses in the source's order and for its reasons, passes what fits unchanged, otherwise returns fragments that fit, start where the previous one ended, are as long as the tunnel allows but for the last, carry the packet's header with their own length, flags, offset and a checksum that verifies |
| Fragmentation.RefusalMeans | src/mtu.rs:39-75 | When each error occurs, on the bits of the header: an oversized packet with DF set is refused for that, unless it has options, and so on, both directions for every error and for none |
| Fragmentation.CutAll | src/mtu.rs:77-100 | The loop covers the whole payload, and its per-fragment overflow check can never fire after the one up front |
| Fragmentation.Reassembles | src/mtu.rs:35-103 | Placing the fragments at eight times their offsets puts exactly the packet's bytes at exactly its positions, also when the packet is itself a fragment |
| Fragmentation.LastFragmentKeepsMoreBit | src/mtu.rs:77-95 | More Fragments is set on all but the last fragment, which repeats the packet's own bit |
| Fragmentation.FragmentsDisjoint | src/mtu.rs:77-101 | No two fragments claim the same position |
| Normalization.NormalizedAmtDatagram | src/upstream.rs:297-305 | For every input, malformed ones included, normalising inside the encoded message equals encoding the normalised copy |
| Normalization.NormalizeEmbedded | src/upstream.rs:308-343 | The in-place normaliser, two bytes into its buffer, equals the first two bytes followed by the copying normaliser of the rest |
| Normalization.RepairUdpInPlace | src/upstream.rs:472-526 | The in-place UDP repair of both families equals its value form on the part of the buffer it is given, and leaves the front alone; `Ipv4Normalized` and `Ipv6Normalized` say what that form computes |
| Normalization.NormalizedVerifies | src/upstream.rs:415-470 | Cut to the declared length, the IPv4 header checksum verifies, and a whole unfragmented UDP datagram has a checksum that is not zero and verifies as a receiver sums it: both addresses, protocol, length and datagram |
| Normalization.Ipv4Normalized | src/upstream.rs:424-450 | On the bytes of an IPv4 datagram: when it is left alone, where it is cut, that its header checksum verifies, exactly when the UDP checksum is rewritten, that it then verifies over both addresses, and that nothing else changes |
| Normalization.Ipv6Normalized | src/upstream.rs:452-470 | The same for IPv6 |
| Normalization.NormalizeFrame | src/upstream.rs:415-470 | Nothing but checksum bytes changes; malformed input comes back as it is |
| Normalization.NormalizeIdempotent | src/upstream.rs:415-533 | Normalising twice is normalising once |
| Ecn.SetIpEcn | src/ecn.rs:148-165 | Sets the two bits and nothing else but the IPv4 header checksum, which then verifies; a packet with inconsistent lengths is refused untouched |
| Ecn.DecapsulateEcn | src/ecn.rs:105-125 | The in-place decapsulation refuses, drops or rewrites the packet as its value form does; refused and dropped packets are left alone |
| Ecn.DecapsulationMeans | src/ecn.rs:105-146 | For every packet with consistent lengths and every outer mark: dropped exactly when an unmarkable packet comes under a congestion mark; otherwise the output is that of figure 4 of RFC 6040, stated mark by mark, with the flag for its unused combinations; the packet reads as the output in the two bits of its version, and only those and the IPv4 header checksum change, which then verifies |
| ReportRecords.NoErrorMeansEncodable | src/membership.rs:695-734 | The builder's validation passes exactly when every record is encodable |
| ReportRecords.ParseSourceList | src/membership.rs:581-584 | The source loop reads the sources in order |
| ReportRecords.ReadRecord | src/membership.rs:565-592 | One pass of the record loop: the checks in the source's order, then the record and where the next one starts |
| ReportRecords.ParseRecordLoop | src/membership.rs:549-651 | The record loop of both parsers, with its limits and its early returns, equals the recursive reading of the list, which must end exactly with the message |
| ReportRecords.RecordRoundTrip | src/membership.rs:565-592 | A valid record anywhere in a message is read back whole; if it has more sources than allowed, that is the error |
| ReportRecords.AuxIsSkipped | src/membership.rs:565-592 | The same for every record a sender may write, of link-local groups too and with any auxiliary data, behind which reading goes on |
| ReportRecords.MessageRoundTrip | src/membership.rs:549-651 | The same for a whole record list behind any eight-byte head with the right count |
| ReportBuild.WriteRecords | src/membership.rs:265-290 | The record writer, moving its offset over a zeroed buffer, writes exactly the encoding of the records behind what was there |
| ReportBuild.Seal | src/membership.rs:291-295 | The message checksum, then the IPv4 header checksum, at their places |
| ReportBuild.ValidateRecords | src/membership.rs:695-734 | The first thing wrong with the records, in the source's order |
| ReportBuild.BuildMembershipReport | src/membership.rs:237-357 | For every report of either protocol, the first error or the complete packet |
| ReportParse.FindIpv4RouterAlert | src/ip.rs:67-89 | True exactly when the four octets of a router alert stand at an option boundary, the boundaries being those reached from the start option by option until the end marker or a malformed option |
| ReportParse.FindIpv6RouterAlert | src/ip.rs:91-111 | The same for hop-by-hop options |
| ReportParse.BuildParseRoundTrip | src/membership.rs:220-547 | Every packet the builder produces, with any padding behind it, parses to the same report, unless it exceeds the parser's limits: then the parser reports exactly the first limit exceeded |
| ReportParse.BuildInjective | src/membership.rs:237-357 | No two reports are built into the same packet |
| ReportParse.BuildsExactly | src/membership.rs:237-357 | A report is built exactly if it has 1 to 65535 records, each of a current kind, for a forwardable group and with valid sources of the protocol's family, and its length fits the length field |
| ReportParse.BuiltShape | src/membership.rs:237-357 | Every byte of a built packet outside checksums and records |
| ReportParse.LocatedExactly | src/membership.rs:359-510 | The header checks pass exactly for packets with verifying checksums, the IPv6 one over the packet's own addresses, a router alert, hop limit 1, consistent lengths, no fragment and a possible source |
| ReportParse.LegacyMeaning | src/membership.rs:411-547 | An IGMPv2 or MLDv1 message to its group, or to all routers, parses exactly if its group is multicast: a report to a record asking for everything, a leave or done to one asking for nothing |
| ReportParse.ParsedReportsAreSound | src/membership.rs:359-547 | Whatever bytes arrive, a packet that parses passes those header checks and has a known message type sent to the address of that type; its report is of the packet's own protocol, has only multicast groups of that family and valid sources of it, within the limits, a legacy message counting as one record whatever the limit |
| Wire.DecodeEncode | src/protocol.rs:200-331 | Every message of every type decodes from its encoding to itself, and its announced length is the encoded length |
| Wire.EncodeDecode | src/protocol.rs:384-560 | Whatever decodes is re-encoded to the same bytes with the reserved bits cleared: decoding loses nothing else |
| Wire.DecodesExactly | src/protocol.rs:384-560 | A datagram decodes exactly by its version, type and length, whatever its reserved bits |
| Wire.TeardownNamesTheGateway | src/protocol.rs:96-123 | The address form of query and teardown names its endpoint back exactly when it is IPv4 or its first twelve octets are not all zero |
| Wire.Ipv6LoopbackIsMistaken | src/relay.rs:280-285 | A concrete address on which it does not |
| DnsName.PutDnsName | src/driad.rs:1017-1035 | Accepts exactly the names of at most 253 bytes, trailing dots apart, with labels of 1 to 63, and appends their encoding; on failure exactly the labels before the first bad one have been appended, and none of a name that is too long |
| DnsName.TrimmedExactly | src/driad.rs:1018 | All trailing dots are cut off, and nothing else |
| DnsName.ParseDnsName | src/driad.rs:1037-1081 | The cursor loop with its 128 steps equals the recursive reading, pointers and errors included |
| DnsName.NameRoundTrip | src/driad.rs:1017-1081 | Every accepted name is read back without its trailing dots from any position in any message, and reading goes on right behind it |
| DnsName.CompressedName | src/driad.rs:1065-1075 | Labels and a pointer to a name written anywhere else read as the labels followed by that name, and reading goes on behind the pointer |
| DnsName.ParseAdvances | src/driad.rs:1037-1081 | Every successful parse, pointers included, returns an offset behind the start and inside the message |
| DnsName.LongestName | src/driad.rs:1017-1042 | No accepted name has more than 127 labels, and one has so many |
| DnsName.StepsNeeded | src/driad.rs:1042 | Labels need one step each and the terminator one more, so the step bound is tight |
| Interest.ApplyRecord | src/state.rs:391-457 | Each record kind changes the wanted sources of its group as section 6.4 of RFC 3376 says, touches no other group, and leaves no empty Include filter |
| Interest.ApplyAllFrame | src/state.rs:144-164 | A report changes only the groups it names |
| Interest.AppliedCountExactly | src/state.rs:120-164 | The applied count is the number of positions at which a record changes what the ones before it made of the filters |
| RelayState.BuildIndexes | src/state.rs:346-383 | The rebuild yields indexes that agree with the endpoint filters: the forwarding index holds exactly the listeners, the aggregate passes exactly what some endpoint passes, subscriptions are the merge rule's, the counters count |
| RelayState.SubscriptionsExact | src/state.rs:370-382 | Any-source for a group somebody excludes in, otherwise one join per included source, never both |
| RelayState.SummaryMeaning | src/state.rs:485-512 | Union of includes minus intersection of excludes passes exactly what some endpoint passes |
| RelayState.IndexesDetermined | src/state.rs:346-383 | The endpoint filters determine every index, so restoring them restores the state |
| RelayDatabase.Database.constructor | src/state.rs:109-118 | An empty database is valid |
| RelayDatabase.Database.PreviewReport | src/state.rs:120-142 | Predicts the applied count and whether the report changes anything |
| RelayDatabase.Database.ApplyReport | src/state.rs:144-164 | The endpoint's filters become those after the records, every index follows |
| RelayDatabase.Database.ApplyReportLimited | src/state.rs:166-252 | All or nothing: an error leaves the whole state, indexes included; the outcome is the first limit exceeded, in the source's order, or the applied count |
| RelayDatabase.AcceptsExactly | src/state.rs:166-252 | From a database within its limits a report is accepted if and only if neither its records nor the database it leads to exceed one, native subscriptions included |
| RelayDatabase.RefusedForTheFirst | src/state.rs:166-252 | A refusal names the first resource exceeded, in the source's order, with the amount needed and its limit |
| RelayDatabase.Database.RemoveEndpoint | src/state.rs:254-260 | Removes exactly that endpoint, indexes included |
| RelayDatabase.Database.MatchingEndpoints | src/state.rs:297-312 | The indexed lookup returns exactly the endpoints that want the packet |
| RelayDatabase.RunsKeepLimits | src/state.rs:166-260 | Every run of limited updates and removals keeps the endpoint, per-address, group and source limits, with no empty endpoint and no empty Include filter |
| RelayDatabase.RemovalChanges | src/state.rs:254-260 | A removal adds exactly the source joins of groups whose only excluder leaves, and drops exactly the joins that exist for the leaving endpoint alone |
| RelayDatabase.RemovalCount | src/state.rs:254-260 | The number of native joins after a removal is the number before, plus those gained, minus those lost |
| RelayDatabase.RemovalKeepsLimitExactly | src/state.rs:254-260 | A removal keeps every subscription limit that held if and only if it gains no more joins than it loses |
| RelayDatabase.RunsKeepSubscriptionLimitExactly | src/state.rs:166-260 | A run of limited updates and removals stays within the subscription limit throughout if and only if, at each removal, the joins held plus those gained are at most the limit plus those lost |
| RelayDatabase.EvenRemovalsKeepSubscriptionLimit | src/state.rs:166-260 | A run whose removals all lose at least as many joins as they gain ends within the subscription limit |
| RelayDatabase.RemovalCanExceedSubscriptionLimit | src/state.rs:254-260 | For any two endpoints, a group and two sources: two updates accepted under a limit of one native join, then the removal of the first endpoint, end with two joins |
| Upstream.UpstreamManager.Reconcile | src/upstream.rs:176-232 | For every outcome of the joins and leaves: succeeds exactly when everything missing can be joined; an error names a join that failed and leaves the active set and the receive context as before; after success exactly the desired joins and the stale ones that could not be left are active, ids of what stays kept, all counted exactly |
| Upstream.UpstreamManager.RollbackAdditions | src/upstream.rs:270-279 | Undoes exactly the additions it is given, whatever the leaves report |
| RelayRun.EveryRunCovered | src/daemon.rs:2764-2895 | In every run of updates, teardowns, prunes and syncs, with joins and leaves failing arbitrarily: each flow a committed endpoint wants is covered by an active any-source or source-specific join, the database is well formed and within its limits, and every gateway in it is watched for idleness |
| RelayRun.EveryRunRemembers | src/daemon.rs:2725-2874 | In every run the database holds of each endpoint exactly the filters its history gives it (accepted updates in order, nothing after a teardown or an expiry), and the activity table the time of its last sign of life: an update of its own that was neither ignored nor refused, or a failed transaction of its own while it was in the database |
| RelayRun.PruneAfterRun | src/daemon.rs:2748-2778 | A prune after any run removes exactly the gateways whose last sign of life is a timeout old, and spares every gateway with any sign of life younger than that |
| RelayRun.RefusesNewExactly | src/relay.rs:349-355 | New endpoints are refused by the flag or once nine tenths of a limit that is not zero are used, of the address's endpoints too |
| RelayRun.CoverSurvivesRemoval | src/daemon.rs:2764-2778 | A prune whose synchronisation fails still leaves every want covered |
| RelayRun.PruneExpiresExactly | src/daemon.rs:2748-2778 | A prune removes exactly the gateways idle for the timeout |
| RelayDaemon.RelayDaemon.HandleUpdate | src/relay.rs:220-270 | Preview, candidate, native joins, commit: takes exactly the step of the model, ignoring exactly a new endpoint at a relay near its limits; a changing, accepted update is committed exactly when its missing joins succeed |
| RelayDaemon.RelayDaemon.CommitUpdate | src/daemon.rs:2789-2840 | A changing update is refused by the limits, undone by a failed join, or committed, exactly when every missing join succeeds, with the activity table following |
| RelayDaemon.RelayDaemon.SyncUpstream | src/daemon.rs:2876-2895 | Succeeds exactly when every missing join does; then the native joins cover the candidate's subscriptions and nothing that was not held or wanted; on failure they are as before |
| RelayDaemon.RelayDaemon.HandleTeardown | src/daemon.rs:2841-2874 | A teardown takes the model's step for the endpoint it names: that endpoint goes exactly when the joins then missing succeed, otherwise nothing changes but the sender's mark |
| RelayDaemon.RelayDaemon.PruneStaleGateways | src/daemon.rs:2764-2778 | The prune loop removes exactly the stale gateways from table and database and counts those it removed |
| RelayDaemon.RelayDaemon.PruneAndSync | src/daemon.rs:398-413 | Prune and synchronisation together take the model's step |
| CaptureWorker.EveryInterleaving | src/upstream_worker.rs:340-432 | The joint invariant of counter, channel, notification and histories holds after every interleaving of the two threads' atomic steps |
| CaptureWorker.NoLostWakeUp | src/daemon.rs:424-469 | A relay blocked while packets are queued has a notification pending, or the producer is between its send and its notify, or that notify failed and stopped the worker |
| CaptureWorker.UnheardExactly | src/upstream_worker.rs:379-384 | The producer is in the last case exactly when some notification it owed was refused, and then it has recorded a failure |
| CaptureWorker.WakeUpLostExactly | src/upstream_worker.rs:379-384 | A relay blocked on queued packets with no notification pending has nobody left to wake it if and only if a notification has been refused |
| CaptureWorker.RefusedNotifyLosesWakeUp | src/upstream_worker.rs:379-384 | Such a run exists for every capacity |
| CaptureWorker.DepthCounterSound | src/upstream_worker.rs:64-82 | At every step the depth is channel length plus reserved-but-unsent plus popped-but-uncounted; it never underflows, and the high-water mark is at most capacity plus one |
| CaptureWorker.ReservationAlwaysTops | src/upstream_worker.rs:69-72 | At every step the reserved depth is at least the current one, so the smaller of the two is always the depth just read |
| CaptureWorker.HighWaterOverExactly | src/upstream_worker.rs:69-72 | The mark, or the value about to be raised into it, exceeds the capacity if and only if the depth was read at some step with the channel full and the relay between taking a packet and counting it |
| CaptureWorker.HighWaterBoundIsTight | src/upstream_worker.rs:161-173 | That bound is reached for every capacity |
| CaptureWorker.Conservation | src/upstream_worker.rs:359-395 | Every accepted packet is delivered, queued, dropped or in one thread's hand |
| CaptureWorker.DeliveryIsFifo | src/upstream_worker.rs:161-173 | Delivery is first-in first-out over the packets not dropped |
| Session.RelaySecrets.RotateSecretIfDue | src/relay.rs:357-381 | Changes the secrets only when the interval has passed, the retired secret is past its grace and a new one was generated; every secret live before is live after |
| Session.RelaySecrets.ValidResponseMac | src/relay.rs:326-347 | A MAC is accepted exactly when a live secret produces it for the address octets, port and nonce |
| Session.IssuedMacAccepted | src/relay.rs:326-381 | A MAC issued at any time is accepted for two query intervals after, through any run of rotation checks |
| Session.IssuedForOneEndpoint | src/relay.rs:405-420 | Within its lifetime a MAC is accepted for the address octets, port and nonce it was issued for and, where the hash does not collide, for no others |
| Session.RetiredSecretRefused | src/relay.rs:334-345 | A replaced secret not generated again is refused once its grace is over |
| Session.DueRotationEndsSecret | src/relay.rs:357-381 | A due rotation does end the current secret |
| Session.RotationDropsOnlyExpired | src/relay.rs:365-372 | A rotation happens no earlier than the interval, drops only a secret past its grace, and ends no live one |
| Session.EchoedTeardown | src/relay.rs:275-305 | A gateway echoing its query's endpoint fields within the grace is authenticated always; the endpoint named is its own exactly when the address form is unambiguous, and otherwise the IPv4 endpoint of its last four octets |
| RelayFailover.WithFallbackRelays | src/gateway.rs:54-66 | Each usable fallback once, in the order given, the relay and the other family left out |
| RelayFailover.ReplaceCandidates | src/gateway.rs:193-215 | A new candidate set takes over exactly if it has a relay of the family and differs from the one in use, each relay once and in order; the relay in use stays and the fallbacks are the other candidates |
| RelayFailover.EveryCandidateTriedOnce | src/gateway.rs:173-187 | Restarts go round robin: every candidate comes up once before any comes up again |
| RelayFailover.RetiredRelayNeverReturns | src/gateway.rs:173-187 | A relay outside the candidates is left at the first restart and never comes up again |
| Gateway.Gateway.constructor | src/gateway.rs:94-110 | A new gateway is discovering, a zero nonce replaced by a random one, with the relay and its fallbacks as candidates, which are in order for failover if the fallbacks are distinct and leave the relay out |
| Gateway.Gateway.BeginQueryCycle | src/gateway.rs:164-171 | A new nonce, a new request, or an error without a relay |
| Gateway.Gateway.RestartDiscovery | src/gateway.rs:173-187 | Next relay, new nonces in a discovery sent to it, session and endpoint forgotten, the filter kept |
| Gateway.Gateway.ReplaceRelayCandidates | src/gateway.rs:193-215 | New candidates leave the relay in use and all else alone, and are in order for failover |
| Gateway.Gateway.HandleDatagram | src/gateway.rs:230-377 | Peer, phase, nonce and address checks in the source's order, with the outer ECN mark given to the data arm; an error changes nothing |
| Gateway.Gateway.AcceptQuery | src/gateway.rs:277-336 | The query arm: new session, and a teardown for the old one if the endpoint moved |
| Gateway.Gateway.AcceptData | src/gateway.rs:337-370 | The data arm as `DataOutcome` says, changing no state |
| Gateway.Gateway.SendUpdate | src/gateway.rs:379-403 | A report that can be built is applied to the gateway's own filter and sent; one that cannot changes nothing |
| Gateway.Gateway.ReplaceMemberships | src/gateway.rs:405-427 | Sends the report plus one leave per reported group it does not name, or nothing if that is empty |
| Gateway.ReplacementExact | src/gateway.rs:405-427 | After a full report the gateway's filter is exactly the wanted one |
| Gateway.EveryRunKeepsInv | src/gateway.rs:93-471 | In every run, new candidate sets included: discovering exactly while no relay endpoint is known, a session only with one, established only with a session, and reported memberships only when there are some |
| Gateway.EveryRunKeepsFailover | src/gateway.rs:173-215 | In every run the candidates stay distinct and not empty, and the fallbacks are the candidates other than the relay in use |
| Gateway.DeliveredIsWanted | src/gateway.rs:337-370 | A delivered packet is wanted by the gateway's own filter; with ECN it keeps its length, reads as the decapsulated mark and carries every congestion mark of the tunnel; without, it is unchanged |
| Gateway.DataOutcome | src/gateway.rs:337-370 | Over a session: ignored exactly if the filter does not pass it, delivered exactly if it does and the gateway does no ECN or the packet is whole and can carry the tunnel's mark, dropped exactly if it cannot, an error exactly if it is malformed |
| Gateway.AdvertisementTaken | src/gateway.rs:245-276 | An advertisement is taken exactly while discovering, from the relay being discovered, for this round's nonce, with a possible address of its family, and sets the endpoint and the phase alone |
| Gateway.QueryTaken | src/gateway.rs:277-327 | A query is taken exactly from the relay endpoint, for the nonce outstanding or the session's, with an acceptable general query, and sets the session and the phase alone |
| Gateway.OthersIgnored | src/gateway.rs:371-375 | Messages only gateways send are ignored |
| Gateway.UpdateTaken | src/gateway.rs:379-403 | A report is sent exactly over a session and if it can be built; memberships count as reported exactly while there are some, and the session stays |
| Gateway.QueryNeverUnexpected | src/gateway.rs:284-297 | In every run the branch that blames the phase for a query is dead: a refused query lacks a relay endpoint, which is so exactly while discovering, or has a wrong nonce or an invalid general query |
| Gateway.SessionProvenance | src/gateway.rs:277-327 | A session exists only because the relay in use answered a nonce outstanding at that moment with a valid query, and discovery has not restarted since |
| Gateway.EndpointProvenance | src/gateway.rs:245-276 | The relay endpoint was named by an answer to this round's discovery nonce from the relay being discovered |
| Gateway.RequestsAreAnswerable | src/gateway.rs:150-171 | A request decodes to the nonce the gateway will hold the answer to and goes to the relay it will take it from |
| Gateway.OldSessionTornDown | src/gateway.rs:304-316 | When the endpoint moves, the old session is torn down under its own MAC, nonce and endpoint, and only then |
| Convergence.LastRecordDecides | src/state.rs:391-457 | In a list of records the last absolute record of a group decides its filter, whatever was there |
| Convergence.RecordForInterest | src/local_membership.rs:320-343 | The record made for a filter has exactly that filter as its effect |
| Convergence.DeltaRecords | src/local_membership.rs:280-318 | Names exactly the changed groups of its protocol, each with the current filter as effect |
| Convergence.DeltaMovesState | src/local_membership.rs:280-318 | Applied to the previous state it gives the current one on the protocol's groups and leaves the others |
| Convergence.ReplacementRecords | src/gateway.rs:405-427 | The loop that appends a leave for every reported group not named |
| Convergence.ReplacementConverges | src/gateway.rs:405-427 | The relay's entry becomes the wanted state, whatever filters it held, exactly when it held no group the gateway neither wants nor has on record |
| Convergence.DeliveryRestoresAgreement | src/gateway.rs:379-427 | However many full reports were lost and whenever the relay forgot the gateway, the records of one delivered full report leave both ends with exactly the wanted filters, if no lost report left a group |
| Convergence.LostLeavePersists | src/gateway.rs:405-427 | A group whose leave was lost stays at the relay through the records of every later full report that does not name it |
| Convergence.LeaveLost | src/gateway.rs:405-427 | From two ends that agree, one lost leave leaves the group at the relay alone |
| Convergence.LostLeaveNeverRepaired | src/gateway.rs:405-427 | From there no sequence of full reports that do not name the group, delivered or not, brings the ends together |
| DesiredState.ConfiguredJoinsReport | src/daemon.rs:2571-2602 | The loop that merges the joins yields nothing without joins, and otherwise a report that passes exactly what some join asks for: every source for a join without one |
| DesiredState.DesiredMembershipReport | src/daemon.rs:2545-2569 | One record per group; together they pass exactly what the configured joins or the local listeners ask for |
| DesiredState.SingleEndpointAggregate | src/gateway.rs:412-420 | The aggregate of a one-endpoint state is that endpoint's own filter |
| Lockstep.DiscoveryAnswered | src/relay.rs:190-199 | A discovery is answered with its own nonce and the advertised address unless the nonce is zero |
| Lockstep.HandshakeEstablishes | src/relay.rs:188-219 | Discovery, advertisement, request and query, each the answer to the one before, leave the gateway established with the MAC the relay computed for it and its filter as it was |
| Lockstep.ExchangeRenews | src/relay.rs:199-219 | A request and its answer give the gateway a session under the relay's current secret for the nonce just sent, with the filter kept, exactly when the gateway accepts the general query |
| Lockstep.HandshakeBegins | src/relay.rs:188-219 | A handshake with a relay whose entry is the gateway's filter ends in agreement with a session under the relay's current secret |
| Lockstep.UpdateArrives | src/gateway.rs:379-403 | The bytes a gateway sends for a report carry its session's MAC and nonce, and the relay reads exactly that report from them, or nothing if it exceeds the parser's limits |
| Lockstep.UpdateAuthenticates | src/relay.rs:326-347 | That MAC is still accepted two query intervals after it was issued |
| Lockstep.ReportHeard | src/relay.rs:220-247 | From the gateway's bytes the relay takes exactly the gateway's report, if the MAC is accepted, the gateway is not refused as new and the report is within the parser's limits, and otherwise nothing |
| Lockstep.ReactionIsStep | src/daemon.rs:2789-2840 | Whatever the relay does with a datagram, its daemon does nothing or takes an update step, so everything proved of daemon runs holds |
| Lockstep.ParsedIsWithin | src/state.rs:172-185 | A report parsed under the relay's limits passes the database's checks on records per report and sources per record if and only if the limit on records is not zero or the report is empty, and one that does not comes from a legacy message |
| Lockstep.LegacyIgnoresLimit | src/membership.rs:359-547 | With that limit zero, an IGMPv2 report for any group is still parsed and exceeds it |
| Lockstep.SessionStaysGood | src/relay.rs:326-381 | In every joint run the session's MAC is accepted for two query intervals after the query that issued it, whatever rotations and unanswered cycles come in between |
| Lockstep.CycleOutcome | src/gateway.rs:164-171 | A query cycle leaves both filters alone; without an acceptable answer the old session stays |
| Lockstep.ReportAgreement | src/relay.rs:220-270 | Two ends that agree still agree after a report, of which the relay sees the bytes alone, if and only if the gateway could not send it, or it changes nothing, or it arrives, its MAC is one of a live secret, the relay is not refusing the gateway as new, the limits allow what it makes of the database and the native joins succeed: all conditions on the state before |
| Lockstep.OthersSpareEntry | src/daemon.rs:2764-2895 | Updates and teardowns of other endpoints and prunes in which the gateway is not stale leave its entry alone, whether their synchronisation succeeds or fails |
| Lockstep.JointRunsAgree | src/daemon.rs:2764-2895 | In every run, however long, that begins as a handshake leaves it, reports going as bytes to a relay that rotates its secret, answers query cycles or not, and serves other gateways in between: as long as no report is lost, refused by the limits, failed by joins or sent later than two query intervals after the session's last renewal, and nothing removes the gateway, the relay's entry is the gateway's filter, so the relay has a listener for a packet exactly when the gateway lets it through |
| Lockstep.ForwardedIsHandedOn | src/gateway.rs:337-370 | In every such run a packet the relay forwards because the gateway's entry wants it is handed on by the gateway, unchanged without ECN, and with ECN unless it is malformed or cannot carry the tunnel's mark; any other would be ignored |
| DriadQueue.RetainUsable | src/daemon.rs:1659-1664 | Keeps each usable relay not held down and not in flight, once, and equals the filter by membership in what was kept before |
| DriadQueue.SortIsPermutation | src/daemon.rs:1665 | The rank sort loses and adds nothing |
| DriadQueue.SortIsSorted | src/daemon.rs:1665 | And orders by rank |
| DriadQueue.SortIsStable | src/daemon.rs:1665 | Candidates of equal rank keep their order |
| DriadQueue.RankOrder | src/daemon.rs:1397-1399 | Anycast before DNS, then the lower precedence first |
| DriadTunnel.DriadSourceTunnel.constructor | src/daemon.rs:1478-1514 | A new tunnel satisfies the joint invariant, with every usable candidate queued and the first probe due at once |
| DriadTunnel.CandidateRelays | src/daemon.rs:1644-1658 | The candidates are the two well-known relays, if wanted, and those of the source's DNS |
| DriadTunnel.QueuedRelays | src/daemon.rs:1659-1665 | A relay is queued exactly if it is a candidate of the family bound to, not held down and not in flight |
| DriadTunnel.DriadSourceTunnel.RebuildProbeQueue | src/daemon.rs:1632-1675 | Expired hold-downs go; the queue is exactly the sorted usable relays not held down and not in flight, each once; the invariant is kept |
| DriadTunnel.DriadSourceTunnel.LaunchProbeIfDue | src/daemon.rs:1709-1783 | Launches the front of the queue if and only if it is due, there is room and no other rank is in flight; never more than one; a failed launch loses only that candidate; a due retry round rebuilds the queue and launches from it only if the clock has not moved on meanwhile |
| DriadTunnel.DriadSourceTunnel.PollProbes | src/daemon.rs:1785-1892 | For every answer of the probes: a relay becomes active exactly if some probe wins, and it is a winner's; otherwise exactly the probes that still wait before their deadline stay, every relay found loaded is held down under both its addresses for its time and no other hold-down changes; progress exactly if some probe moved |
| DriadTunnel.DriadSourceTunnel.ProbeRound | src/daemon.rs:1553-1556 | A round without an active relay, from the state before it: the front of the queue is taken exactly if it is due, there is room and no other rank is in flight after polling, and is in flight if its socket works; the other probes and the queue stay; the retry timer is armed exactly when nothing is left, and one that has run out rebuilds the queue |
| DriadTunnel.DriadSourceTunnel.ScheduleNextRoundIfExhausted | src/daemon.rs:1894-1907 | Arms the retry timer exactly when nothing is active, in flight, queued or scheduled |
| DriadTunnel.DriadSourceTunnel.FailActive | src/daemon.rs:2098-2143 | A loaded or silent relay is held down for its own time, one whose query timed out is not; the queue is rebuilt at its own reading of the clock, and a held relay is not in it while its hold-down outlasts that reading |
| DriadTunnel.DriadSourceTunnel.PollRefresh | src/daemon.rs:1561-1630 | A withdrawal clears everything; new candidates never disturb an active relay or the probes in flight, and make a new queue exactly if they differ or end a withdrawal |
| DriadTunnel.DriadSourceTunnel.Poll | src/daemon.rs:1532-1559 | Every round keeps the joint invariant (active excludes probes, queue and timer; withdrawn excludes all four; one rank in flight; relays pairwise distinct; a timer only with nothing to try), and from the state before it: a withdrawal clears all, an active relay stays unless it failed, a winner becomes active, and otherwise the round does what `ProbeRound` says with the queue the refresh left |
| DriadTunnel.DriadSourceTunnel.SetDesired | src/daemon.rs:2165-2185 | A membership that cannot be sent gives up the active relay without holding it down, and a new queue follows; otherwise nothing changes |
| DriadTunnel.DriadSourceTunnel.Stop | src/daemon.rs:2187-2203 | Nothing is active or in flight afterwards |
| ControlLimiter.ControlRateLimiter.constructor | src/daemon.rs:2645-2661 | Rates and bursts are at least one; everything starts full |
| ControlLimiter.ControlRateLimiter.AllowSource | src/daemon.rs:2663-2689 | After cleanup on a second clock reading, allowed exactly when the table has room for the source and both buckets hold a token; a token of the source is spent exactly when the first two hold, other sources keep theirs, and the invariant is kept |
| ControlLimiter.CleanupExactly | src/daemon.rs:2665-2669 | A bucket is forgotten exactly when a minute has passed both since the last cleanup and since its source was heard |
| ControlLimiter.GlobalBound | src/daemon.rs:2712-2724 | Over any run, all sources together get at most the burst plus the rate times the time passed |
| ControlLimiter.SourceBound | src/daemon.rs:2663-2689 | So does each source although its bucket is forgotten after a minute, provided burst ≤ 60 · rate |
| ControlLimiter.SourceBoundExactly | src/daemon.rs:2663-2689 | For an integral burst and a rate: all configurations with them keep the per-source bound over all runs if and only if burst ≤ 60 · rate |
| ControlLimiter.GlobalShieldsSource | src/daemon.rs:2712-2724 | A configuration whose global burst and rate are no larger than the source's keeps the per-source bound whatever is forgotten |
| ControlLimiter.ForgottenBucketOverspends | src/daemon.rs:2665-2669 | A concrete run of two bursts a minute apart that exceeds it, for every integral burst above that, when the table has room and the global burst allows both |
| ControlLimiter.EveryRunKeepsInv | src/daemon.rs:2671-2673 | The table never exceeds its capacity and no bucket its burst |
| QueryLimiter.DnsQueryLimiter.ReserveAt | src/driad.rs:507-523 | Pops what has left the window, then grants or names the wait |
| QueryLimiter.GrantsPerWindow | src/driad.rs:507-523 | In every run a grant and the one `maximum` grants later are a whole window apart |
| QueryLimiter.WaitIsExact | src/driad.rs:515-522 | A refusal means a full window, and asked again the limiter grants if and only if the named wait has passed |
| FeedbackLimiter.FeedbackRateLimiter.AllowFlow | src/pmtu.rs:90-114 | Pops what has expired, then grants or refuses |
| FeedbackLimiter.FeedbackIsSpaced | src/pmtu.rs:80-115 | In every run, two messages for one flow are an interval apart, any capacity + 1 messages span one, and map and queue hold the same flows |
| FeedbackLimiter.RefusalIsJustified | src/pmtu.rs:90-114 | A flow is refused only while its own last message, or `capacity` messages, are younger than the interval |

## Left out

- Sockets, the poller, raw capture and transmission, OS options: each call is an arbitrary result.
- HMAC-SHA256, secrets and nonces: a function parameter and arbitrary values; only `Session.IssuedForOneEndpoint` asks that the inputs at hand do not collide.
- General-query building and validation, and parsing of data packets at the gateway: function parameters of `Gateway.Env`.
- ECN capability tracking at the relay.
- Metrics, logs, error texts and the field names in errors; command line and configuration files.
- DNS transport, response parsing beyond names, alias chasing, and the random ordering of resolved relays: the tunnel takes any list.
- ICMP path-MTU messages, local listener expiry and export filters.
- Retry delays and traffic timeouts of the DRIAD tunnel: any delay; its candidates are reduced to relay, precedence and origin.
- Shutdown of the capture worker while a command waits, and the channel's disconnected branch.
- 32-bit `usize`: lengths are unbounded, so the overflow errors of the report builder that only a 32-bit machine reaches are absent.
- Constant-time comparison of MACs: equality.
- Iteration order of sets and maps: any order; the sorted order of the source is one of them.
- ControlLimiter.SourceBound: tokens are reals, so rounding of the source's floating point is not covered.
- RelayDaemon.RelayDaemon.HandleUpdate: starts from an authenticated, parsed report; `Lockstep.ReportHeard` and `Session` supply that part.
- Lockstep.JointRunsAgree: its runs stay with one relay; a discovery restart, which drops the session and may pick another relay, ends them.
