# A verified model of Goxic's relay, bridge, discovery and SOCKS5 logic

Goxic is a proxy network on libp2p. A client accepts SOCKS5 connections, picks a server, opens
a relay stream whose protocol string lists the hops still to come, sends the target address in a
length-prefixed frame, and copies bytes both ways until one side is done. This project models
that path in Dafny and proves what it guarantees, over all inputs, all fragmentations and all
interleavings.

| file | models |
|---|---|
| `Segments.dfy`, `Routes.dfy` | source routing: printing, matching, splitting and popping hop lists, and whole routes |
| `Wire.dfy`, `Socks5.dfy` | connections that may read short, SOCKS5 negotiation and CONNECT (sections 3, 4 and 5 of RFC 1928), and the target frame |
| `Lanes.dfy`, `Bridges.dfy` | a chain of n bridges: two copying goroutines, a done channel and a teardown per hop, both directions |
| `Loads.dfy`, `ClientNode.dfy` | the load table, and all connection handlers of a client interleaved step by step |
| `Backoff.dfy`, `Passes.dfy`, `Discovery.dfy` | failure backoff over whole histories, discovery passes, and the `ServerDiscovery` object that is updated in place |
| `EndToEnd.dfy` | the composition, from the first SOCKS5 byte to what the exit reads |
| `Prelude.dfy`, `Counting.dfy` | shared types, and counting the elements of a sequence |

How to read the model:

- Code that changes things step by step is a method tied to a function (`Handle` to `Handling`,
  `RefreshServerList` to `Fold`, `TrackConnection` to `Track`); the theorems are about the function.
  Goroutines that run concurrently are step systems, and the theorems are about all their runs.
- A connection is a sequence of chunks, and one read never crosses a chunk, so quantifying over
  chunks quantifies over every way of reading short. A short read leaves zeros in the buffer,
  which the two SOCKS5 parsers do not notice; where they are correct is stated exactly
  (`NegotiationExact`, `RequestExact`).
- The environment enters as parameters: whether a dial succeeds, what a peer advertises, clock
  readings, the random draw, peer ID text (a `Codec` that round-trips, with non-empty,
  slash-free and newline-free text) and the text of an IPv6 address.
- In a run over n bridges, hop 0 is the SOCKS5 bridge and the others are relay hops; the exit is
  the sink of the forward lane. A single bridge, with arbitrary neighbours, is the case n = 1.
- A read or write of a copy loop may fail at any time (`Fault`), and the safety theorems allow it.
  The progress theorems never rest on such a fault: the steps they count on are those nothing
  can hold up, where a write may have to wait for its reader as long as the stream in front of it
  holds unread bytes (`Unhindered`). A chain is at rest when no such step is left and the two
  ends have read what has come to them.
- Both discovery loops are one fold with a flag: a server keeps up a mesh and applies the
  blacklist and capability checks, a client does not.
- Failure records are touched by one goroutine at a time, as the periodic discovery is wired
  (`server/handlers/discovery.go:413-436`), so one turn of the discovery loop is one step.

Where the code does less than its text suggests, the model follows the code:

- The connection limit: a rejected connection is taken off the counter without having been put
  on it, and the test is `>`; so the bound on live connections grows with every completed
  rejection (`AdmissionBound`), and is reached (`AdmissionBoundAttained`).
- Load release: a handler that fails after its server was counted never releases it, so a count
  is the number of users only as long as that has not happened (`CountExactIffLeakFree`), and an
  idle client may show any load (`IdleButLoaded`).
- Method negotiation: of the greetings that never offered no-authentication, those whose two
  header bytes arrive together but whose method list is cut short are accepted, and no others
  (`NegotiationAccepted`; `ShortGreetingAccepted` is one such greeting).
- Proxy IDs: an empty ID or one with a slash changes the route (`SourceRoutingExact`).
- Frame length: the length byte is truncated, so only targets of 1 to 255 bytes survive
  (`FrameRoundTrip`); which ones these are is `TargetFits`.
- A half-closed stream looks the same downstream whether the copy before it ended or failed, so
  a nil result speaks for what came to that hop (`FirstNilHandedOver`); `CompleteWhenAllNil` is the
  statement for a whole direction.

## Model

| member | source | states |
|---|---|---|
| Segments.SplitLoop | server/handlers/relay.go:117 | The loop of strings.Split on "/next/" returns the leftmost non-overlapping split |
| Segments.SplitUnique | server/handlers/relay.go:117 | The split is the one and only list of pieces that joins back to the string, whose last piece contains no separator, and whose other pieces put no separator earlier than the one that follows them |
| Segments.NormalForm | server/handlers/relay.go:132-138 | Dropping the empty pieces and joining the rest gives a string that splits into exactly the pieces kept, although the separator overlaps itself by one character |
| Routes.FindSubmatch | server/handlers/relay.go:93-102 | Scanning character by character gives the pattern's three submatches, or none |
| Routes.ParseExact | server/handlers/relay.go:33 | A string is accepted with a version, a proxy ID and a rest if and only if it is "/goxic-proxy/relay/", the version, "/proxy/", the ID and, if the rest is not empty, "/next/" and the rest, with version and ID non-empty and slash-free and the rest free of newlines |
| Routes.Handle | server/handlers/relay.go:87-113 | A node forwards when there is a tail, is the exit when there is none, and rejects what does not match |
| Routes.ForwardToNextPeer | server/handlers/relay.go:116-147 | The append loop rebuilds the protocol string from the non-empty remaining pieces; an empty first piece, an undecodable one and a failed dial are the three errors |
| Routes.OpenRelay | server/handlers/relay.go:293-319 | No peers is an error; otherwise the append loop prints the peers after the first into the protocol string sent to the first |
| Routes.ForwardStep | server/handlers/relay.go:92-147 | The string sent on, whatever accepted string it came from, matches the pattern again with the same version and proxy ID, asks for exactly the remaining non-empty pieces, and is at least seven characters shorter; it is forwarded if and only if the dial with that string succeeds |
| Routes.RunVisitsHops | server/handlers/relay.go:87-147 | The run of any accepted string visits its non-empty pieces in order, one forward each, until one fails to decode or cannot be dialled with the one string that asks for the pieces after it; if none fails the exit acts for the original proxy ID; forwards never outnumber non-empty pieces |
| Routes.LeadingEmptyPiece | server/handlers/relay.go:92-120 | A run ends as invalid relay protocol if and only if the original string did not match, and with the invalid-next-peers error if and only if it matched and its first piece was empty; no forwarded string ever causes either |
| Routes.OpeningHops | server/handlers/relay.go:293-308 | The string OpenRelay prints is accepted and asks for exactly the listed peers after the first |
| Routes.SourceRoutingExact | server/handlers/relay.go:87-147 | Running OpenRelay's string visits exactly the listed peers in order and ends with exit handling for the given proxy ID, if and only if that ID is non-empty and slash-free and each listed peer can be dialled by the one before it with the string it is sent |
| Wire.Conn.ReadFull | server/handlers/relay.go:231-234 | io.ReadFull fills the buffer with the next bytes of the stream, however they are cut into reads, and fails exactly when the stream is too short |
| Wire.FillPadded | server/handlers/socks5.go:181-196 | A single read puts the next bytes of the stream into its buffer, as many as it consumes, and leaves zeros after them |
| Socks5.HandleAuthentication | server/handlers/socks5.go:179-217 | Method negotiation on a connection that may read short, with its replies and the bytes it leaves unread |
| Socks5.NegotiationExact | server/handlers/socks5.go:179-217 | A greeting is accepted with exactly its own bytes consumed if and only if it offers no-authentication, the reply can be sent and no field is cut short |
| Socks5.NegotiationVerdict | server/handlers/socks5.go:186-216 | For every greeting of any version that arrives whole: which error or success it ends in, with which reply, and what stays unread |
| Socks5.NegotiationAccepted | server/handlers/socks5.go:179-217 | However the bytes of a greeting arrive, it is accepted if and only if the reply can be sent, the two header bytes come in one read, and either no-authentication was offered or the read of the methods is cut short; so a client that did not offer it is accepted exactly when that read is short |
| Socks5.GreetingMissing | server/handlers/socks5.go:182-196 | A stream that ends before the greeting, or before the methods it announces, is an error without a reply |
| Socks5.HandleRequest | server/handlers/socks5.go:220-285 | The CONNECT request parser on a connection that may read short, with its replies and the bytes it leaves unread |
| Socks5.ReadHost | server/handlers/socks5.go:245-274 | The address-type switch: four, length-prefixed or sixteen bytes, or reply 8 and an error |
| Socks5.SendConnectResponse | server/handlers/socks5.go:288-299 | The ten-byte reply, sent if the connection still accepts writes |
| Socks5.RequestRefusals | server/handlers/socks5.go:227-274 | Wrong version, unsupported command and unsupported address type: each exactly when the header deserves it, with no reply or with the ten bytes whose second is 7 or 8, before anything past the header is read |
| Socks5.RequestExact | server/handlers/socks5.go:220-285 | The parser returns the encoded host and port and leaves exactly the payload if and only if none of the fields is cut short |
| Socks5.RequestMeans | server/handlers/socks5.go:220-285 | An unshortened request for an IPv4 address, a name or an IPv6 address gives a target that reads back as that address, octet by octet, and that port; nothing is sent and the payload stays unread |
| Socks5.RequestMissing | server/handlers/socks5.go:221-281 | A stream that ends before the header, the length of a name, the address or the port is an error without a reply |
| Socks5.DecimalValue | server/handlers/socks5.go:283 | The decimal text of a number reads back as that number |
| Socks5.DottedReads | server/handlers/socks5.go:251 | Cutting a dotted text at its dots and reading each part as a number gives the four octets, in order |
| Socks5.HostPortReads | server/handlers/socks5.go:283 | Reading a joined target from its last colon, without the brackets around a host that has colons, gives the host and the port |
| Socks5.DottedInjective | server/handlers/socks5.go:251 | Different IPv4 addresses have different dotted forms |
| Socks5.HostPortInjective | server/handlers/socks5.go:283 | The joined host:port text determines host and port, whatever bytes the host contains |
| Socks5.SendTargetAddr | server/handlers/socks5.go:321-336 | Writes the truncated length byte, then the address, stopping at the first write that fails |
| Socks5.ReadTargetAddr | server/handlers/relay.go:218-237 | What is read and what stays unread depend only on the bytes of the stream, not on how they are cut into reads |
| Socks5.FrameRoundTrip | server/handlers/socks5.go:321-336 | The exit reads back exactly the framed target and leaves exactly the payload, if and only if the target has 1 to 255 bytes |
| Socks5.UnframeExact | server/handlers/relay.go:218-237 | The exit reads a target exactly when the stream starts with its length, from 1 to 255, and its bytes; an empty stream, a zero length and a stream that ends inside the target are refused, and only the zero length leaves anything unread |
| Socks5.LongTarget | server/handlers/socks5.go:321-336 | Of a target of 256 bytes or more the exit takes the first length modulo 256 bytes for the target and the rest for payload, or refuses it if that is none |
| Socks5.PartialFrame | server/handlers/relay.go:218-237 | An incomplete frame yields no target |
| Socks5.TargetFits | server/handlers/socks5.go:283 | A target fits the frame if and only if host, brackets, colon and port digits add up to at most 255; every colon-free host of up to 249 bytes does, whatever the port |
| Socks5.IPv4Fits | server/handlers/socks5.go:247-251 | Every IPv4 target fits the frame |
| Lanes.MoveKeepsInv | server/handlers/relay.go:152-178 | Every partial read, partial write, end, error, fault and teardown keeps, for every copier, what it wrote plus its buffer an initial part of what came to it, equal to all of that but the unread rest while it has dropped nothing, and keeps the sink whole |
| Lanes.DeliveredIsPrefix | server/handlers/relay.go:152-178 | Delivered bytes are an initial part of the bytes sent |
| Lanes.Conservation | server/handlers/relay.go:152-168 | While nothing has been dropped, sent is delivered followed by the bytes in pipes and buffers, in order |
| Lanes.NilMeansHandedOn | server/handlers/relay.go:154 | A copy loop that returned nil has written every byte that ever came to it, whatever the others lost, and its source has ended |
| Lanes.CleanEndIsNil | server/handlers/relay.go:152-168 | A copy loop posts nil exactly when it has met the end of its source with an empty buffer |
| Lanes.AllNilDrains | server/handlers/relay.go:152-168 | If every copy loop of a direction returned nil, everything sent is delivered or waits at the sink |
| Bridges.StepKeepsInv | server/handlers/relay.go:150-178 | Every step of every goroutine of every hop keeps the byte order in both directions, matches the channel's results to the copiers that posted them, and keeps each stream closed exactly by the teardown steps and CloseWrites that have run |
| Bridges.RunKeepsInv | server/handlers/relay.go:150-178 | The same over whole runs |
| Bridges.StreamConservation | server/handlers/relay.go:149-178 | Under every interleaving over n bridges and in both directions, delivered is a prefix of sent at all times, and nothing is missing while the bridges are open |
| Bridges.FirstNilHandedOver | server/handlers/relay.go:170-178 | If the first result a bridge receives is nil, that direction of it has handed on every byte that ever came to it, at any hop and whatever other hops lost, and its source has ended |
| Bridges.FirstNilIsCleanEnd | server/handlers/relay.go:150-178 | The first result a bridge receives is that of the first loop to post one, and it is nil if and only if that loop had met the end of its stream |
| Bridges.ResultsInOrder | server/handlers/relay.go:150-171 | What main has received and what waits on the channel are the results in the order they were posted |
| Bridges.CompleteWhenAllNil | server/handlers/relay.go:152-168 | If all copy loops of one direction have returned nil in a run, what was sent is what was delivered and what the last pipe still holds |
| Bridges.PostNeverBlocks | server/handlers/relay.go:150-168 | Neither copier ever finds the two-slot done channel full |
| Bridges.AdvancesCounted | server/handlers/socks5.go:340-385 | In any run a hop takes exactly as many steps, other than copying bytes, as its measure drops |
| Bridges.HopProgress | server/handlers/relay.go:150-178 | Once one loop of a hop is over, some goroutine of it has a next step that needs no fault and waits for no reader, until all have finished: the channel never blocks, and closed ends make the loops return |
| Bridges.LoopProgress | server/handlers/relay.go:152-168 | While neither loop of a hop is over, a loop that has bytes or has met the end of its stream has such a step too, unless its reader holds it up |
| Bridges.TeardownCascades | server/handlers/relay.go:150-178 | Once anything has ended at any hop, a chain can rest only with every goroutine of every hop finished: the teardown reaches both ends of the chain |
| Bridges.RestIsDoneOrDelivered | server/handlers/relay.go:149-178 | In any run, a chain that has come to rest is either finished at every hop, if anything ended, or has delivered in both directions exactly what was written |
| Bridges.WorkBoundsSteps | server/handlers/relay.go:150-178 | No run goes on for ever: from any state the hops take at most as many steps as there is work in it, plus two per hop for every byte the endpoints add |
| Bridges.NothingCopiedAfterReturn | server/handlers/relay.go:276-280 | Once main has closed both streams no byte is copied on that hop |
| Bridges.TeardownCompletes | server/handlers/relay.go:276-280 | After a teardown the hop has at most six further events in any run, and when its measure is used up both copiers have finished |
| Loads.LeastIsBelowAverage | server/handlers/discovery.go:185-212 | A least-loaded choice among at least n distinct servers carries at most an n-th of all active connections |
| Loads.BalancedShares | server/handlers/discovery.go:185-216 | Loads that pairwise differ by at most one are all the average, rounded down or up |
| ClientNode.CounterAccounting | server/handlers/socks5.go:99-110 | In every run the int32 counter is live handlers minus completed rejections, modulo 2^32 |
| ClientNode.AdmissionBound | server/handlers/socks5.go:104-110 | With at most P handlers between check and increment, live handlers never exceed the limit + P + completed rejections, from any such state and over all interleavings |
| ClientNode.AdmissionFromFresh | server/handlers/socks5.go:99-110 | The same from a fresh client whose MaxConnections fits an int32; the counter is live handlers minus completed rejections if and only if that has not fallen below -2^31 |
| ClientNode.AdmissionBoundAttained | server/handlers/socks5.go:99-110 | The bound is attained: for every limit, every P of at least 1 and every k, a fresh client has a run with k completed rejections and limit + P + k live handlers |
| ClientNode.Int32Exact | server/handlers/socks5.go:104-110 | The counter arithmetic is that of int32: the one value of that range equal modulo 2^32 |
| ClientNode.LifeCycle | server/handlers/socks5.go:99-174 | In every run, the stage of a handler tells exactly what it has done: which of check, increment, negotiation, request, choice, count, dial, announcement, release and return happened, with which outcome, each once and in order |
| ClientNode.ChosenAfterRequest | server/handlers/socks5.go:104-141 | A server is chosen only for a connection that was admitted and counted and whose negotiation and request have both succeeded |
| ClientNode.AccountedStep | server/handlers/socks5.go:137-174 | Every step of every handler keeps the load equations of every server, and the guard against negative counts never fires |
| ClientNode.LoadAccounting | server/handlers/discovery.go:246-275 | In every run active is tracks minus releases, which is holders plus handlers that left without releasing; total is the number of tracks; 0 <= active <= total |
| ClientNode.CountExactIffLeakFree | server/handlers/socks5.go:137-174 | After any run a server's active count is the number of handlers using it plus the number of times its relay stream could not be opened or its target address could not be sent; it is exact if and only if neither ever happened |
| ClientNode.IdleButLoaded | server/handlers/socks5.go:149-163 | For every k a fresh client has a run after which every connection is over and a server still has k active connections counted |
| ClientNode.ServedLeavesNoLoad | server/handlers/socks5.go:99-174 | For every k a fresh client has a run that serves k connections through one server and ends with none counted, by the load table or by the connection counter |
| ClientNode.PeakLoad | server/handlers/discovery.go:185-275 | If every choice is least-loaded among at least n distinct servers, the sum never exceeds C and at most P choices are pending, no server's active count ever exceeds C/n + P, with changing offers and interleaved releases |
| ClientNode.PeakLoadFromFresh | server/handlers/discovery.go:185-275 | The same from a fresh client |
| ClientNode.Fairness | server/handlers/discovery.go:188-262 | Without releases, over fixed servers, every server's count plus its pending choices is at most any server's count + P |
| ClientNode.SelectionsAreSpreadEvenly | server/handlers/discovery.go:188-262 | With one selection at a time and no releases, k selections leave every one of n servers at k/n rounded down or up |
| Backoff.AttemptMirrors | server/handlers/discovery.go:475-531 | One gated turn keeps the record of a peer in step with its history: the times of its last failure and success, and the count, which starts again after every maxFailures failures in a row |
| Backoff.BackoffGuarantee | server/handlers/discovery.go:475-531 | Over any gated history, any maxFailures + 1 consecutive failures of a peer contain two adjacent ones at least blacklistTime apart, and its count never exceeds maxFailures |
| Backoff.BlacklistExact | server/handlers/discovery.go:475-531 | At any moment after any gated history, a peer is blacklisted if and only if the history ends with a positive multiple of maxFailures failures since its last success and the last of them is less than blacklistTime ago; and no dial follows such a streak sooner than that |
| Backoff.BlacklistedAfterBurst | server/handlers/discovery.go:475-531 | A blacklisted peer has failed its last maxFailures dials, the last less than blacklistTime ago; a peer whose last maxFailures dials failed each less than blacklistTime after the one before, the last less than blacklistTime ago, is blacklisted |
| Backoff.TimesOnRecord | server/handlers/discovery.go:501-531 | The times on record are those of the last failure and of the last success |
| Backoff.CountBoundExact | server/handlers/discovery.go:485-513 | The bound on the count holds for all histories if and only if maxFailures is at least 1 |
| Passes.PassConservation | server/handlers/discovery.go:307-372 | For both kinds of pass: peers taken before the loop stops are each exactly one of self, skipped, dial-failed, filtered and accepted; the counters agree; the list is the accepted ones in order, at most max(0, MaxServers); the loop stops early only when the list is full, at a peer other than self |
| Passes.FatesJustified | server/handlers/discovery.go:316-369 | Each fate exactly when the peer deserves it, in the state it was met in: self; skipped if and only if blacklisted; dial-failed if and only if unconnected and not answering; accepted or filtered by its capability; dialled if and only if unconnected; and none but self once the list is full |
| Passes.ConnectionsCounted | server/handlers/discovery.go:337-349 | The number of connections reported is that of the peers taken, not blacklisted, unconnected, and answering |
| Passes.SelfNeverListed | server/handlers/discovery.go:317-319 | This node is never in the list |
| Passes.PassTidy | server/handlers/discovery.go:332-368 | Even with duplicate peers, a pass leaves every peer exactly as connected as it found it, except that the listed ones that had no connection have one; every listed server has one |
| Passes.ClientPass | server/handlers/discovery.go:535-585 | A client's pass never touches the failure records and drops a peer only if it is this node or cannot be dialled |
| Passes.PassIsGated | server/handlers/discovery.go:316-350 | A mesh pass changes the failure records as the visits say: every peer taken passes the gate, and every unconnected one that may be dialled is recorded as it answered |
| Passes.DiscoveryBacksOff | server/handlers/discovery.go:413-437 | Over any number of discovery rounds the backoff guarantee holds for every peer |
| Passes.DiscoveryBlacklists | server/handlers/discovery.go:413-437 | Over any number of rounds a peer is blacklisted exactly while its dials have failed a positive multiple of maxFailures times in a row, the last less than blacklistTime ago |
| Discovery.ServerDiscovery.constructor | server/handlers/discovery.go:55-69 | Starts empty, with three failures and ten minutes as the backoff policy, and with a list that is stale at any clock reading, so the first call refreshes it |
| Discovery.ServerDiscovery.TrackConnection | server/handlers/discovery.go:246-262 | Counts one more connection of the server, in place, and touches no other record |
| Discovery.ServerDiscovery.ReleaseConnection | server/handlers/discovery.go:265-275 | Takes one off the server's active count, never below zero, in place |
| Discovery.ServerDiscovery.OfferedServers | server/handlers/discovery.go:92-120 | The cached servers, in order, without this node, the unconnected ones and, in mesh mode, those that are not exit-capable |
| Discovery.ServerDiscovery.RefreshIfStale | server/handlers/discovery.go:74-90 | A list no older than the update interval is kept, as any list is when the search fails; otherwise a started node makes the mesh's pass and any other the client's, which leaves the failure records alone |
| Discovery.ServerDiscovery.GetAvailableServers | server/handlers/discovery.go:72-132 | The offered servers of the list after that refresh; load records stay as they were |
| Discovery.ServerDiscovery.SelectLoadBalancedServer | server/handlers/discovery.go:185-216 | The loop picks the first least-loaded server and counts it |
| Discovery.ServerDiscovery.PreferredServers | server/handlers/discovery.go:220-231 | The double loop collects the servers whose text form is in the preferred list |
| Discovery.ServerDiscovery.SelectPreferredServer | server/handlers/discovery.go:219-243 | If the text form of some server is in the preferred list, the pick is the first least-loaded of those, in the order given; else the first least-loaded of all |
| Discovery.ServerDiscovery.Pick | server/handlers/discovery.go:141-182 | None exactly when no server is available; otherwise what the strategy promises, with exactly the picked server counted |
| Discovery.ServerDiscovery.SelectServer | server/handlers/discovery.go:135-165 | The same on the servers available after a possible refresh, with list, connections and failure records as the refresh leaves them |
| Discovery.ServerDiscovery.IsBlacklisted | server/handlers/discovery.go:475-498 | The blacklist answer, and the reset of an expired count, in place |
| Discovery.ServerDiscovery.RecordConnectionFailure | server/handlers/discovery.go:501-516 | One more failure, with its time, in place |
| Discovery.ServerDiscovery.RecordConnectionSuccess | server/handlers/discovery.go:519-531 | Failures reset, success time noted, in place |
| Discovery.ServerDiscovery.DialPeer | server/handlers/discovery.go:339-349 | Dialling an unconnected peer and recording how it went |
| Discovery.ServerDiscovery.ExaminePeer | server/handlers/discovery.go:325-368 | The loop body acts on records and connections as the pass does, and gives the peer the fate it deserves |
| Discovery.ServerDiscovery.CollectServers | server/handlers/discovery.go:307-369 | The whole loop is the mesh pass over the peers found |
| Discovery.ServerDiscovery.CollectServersForClient | server/handlers/discovery.go:547-578 | The client's loop is the client pass over the peers found |
| Discovery.ServerDiscovery.RefreshServerListForClient | server/handlers/discovery.go:535-585 | A failed search changes nothing; otherwise list and connections are those of the client pass and the failure records are untouched |
| Discovery.ServerDiscovery.RefreshServerList | server/handlers/discovery.go:295-377 | A failed search changes nothing; otherwise list, records, connections and counters are those of the pass |
| Discovery.BestIsLeftmostLeast | server/handlers/discovery.go:186-211 | Within the range of a Go int the choice, fallback included, is always the first least-loaded server |
| Discovery.PreferredIsLeftmostLeast | server/handlers/discovery.go:219-243 | Within the range of a Go int the preferred choice is, fallback included, the first least-loaded server among those whose text form is preferred |
| Discovery.OfferedExactly | server/handlers/discovery.go:92-121 | The offer is every cached server that is not this node, is connected and, in mesh mode, exit-capable, and no other, in the order of the cache |
| Discovery.SelectedIsOffered | server/handlers/discovery.go:94-165 | Under every strategy the selected server is cached, connected, not this node, and exit-capable in mesh mode; none is selected if and only if no cached server is like that |
| Discovery.TrackTouchesOne | server/handlers/discovery.go:246-262 | Only the selected server's counts change, each by one |
| Discovery.ReleaseTouchesOne | server/handlers/discovery.go:265-275 | Releasing a server takes one off its active count if there is one to take, and changes nothing else |
| EndToEnd.AcceptConnection | server/handlers/socks5.go:121-132 | Negotiation and then the request on one connection: the result, the replies sent and the bytes left unread are those of the two parsers one after the other, with as many writes succeeding as the connection allows |
| EndToEnd.GreetingRefused | server/handlers/socks5.go:121-125 | A wrong version, an offer without no-authentication and a reply that cannot be sent each end the connection with their error and reply, and leave the request unread |
| EndToEnd.NoTargetWithoutGreeting | server/handlers/socks5.go:121-132 | However a greeting arrives, a target is returned only if the reply could be sent, its header came whole, and no-authentication was offered or the method list cut short |
| EndToEnd.NoTargetWithoutNegotiation | server/handlers/socks5.go:121-132 | For any bytes at all a target is returned only after an accepted negotiation, and after a refused one nothing more is read |
| EndToEnd.RequestRefused | server/handlers/socks5.go:121-132 | A refused request after an accepted greeting gives the error its header deserves, the replies as far as writes succeed, and nothing is read past the header |
| EndToEnd.HandshakeParsed | server/handlers/socks5.go:121-132 | Negotiation and request together yield the requested target, answer only the greeting, and leave exactly the bytes after the handshake |
| EndToEnd.TargetNames | server/handlers/socks5.go:121-132 | The target of that dialogue reads back as the address and port the client asked for |
| EndToEnd.ConnectionReachesItsTarget | server/handlers/socks5.go:121-171 | For any hop list whose dials succeed, any fragmentation and any interleaving: the handshake yields the target, the route runs through exactly the listed peers, the exit never makes out another target, and what it reads after the frame is at all times a prefix of the client's payload |
| EndToEnd.PayloadArrivesWhole | server/handlers/socks5.go:161-171 | When the bridges rest and nothing has ended, the exit has made out the target and read the client's whole payload |

## Left out

- Discovery.ServerDiscovery.TrackConnection: does not model 64-bit overflow of the counts, which would take 2^63 connections.
- Bridges.HopProgress: takes it as given that a read or write returns with an error once its own hop has closed that end, and that a stream whose reader has closed it does not hold up its writer.
- Bridges.RestIsDoneOrDelivered: is about chains that have come to rest; `WorkBoundsSteps` bounds the steps on the way there, and that the scheduler gives every goroutine its turn is not part of the model.
- Routes.Handle: ends at the decision to act as the exit; dialling the target from the exit is outside the model.
- The random strategy's distribution; only that it picks an available server.
- Error texts, logging, deadlines, keep-alive and other socket options, and which errors count as normal closures.
- `peer.Decode` and `String`, a parameter with stated properties, and the text of an IPv6 address, an arbitrary function.
- Host, DHT, relay and connection-manager setup, key files, configuration defaults, registry and command line are outside the model.
- Unsynchronised fields (`serverPeers`, `lastUpdate`, and the reset under a read lock in `isBlacklisted`) are accessed in atomic steps.
