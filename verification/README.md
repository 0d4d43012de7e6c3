# Verified model of an AnyTLS proxy

This project models the core of an AnyTLS proxy written in Go and states, as Dafny theorems, what that core is for:

- **Session layer.** Streams are multiplexed into frames with a seven-byte header; the client holds back, cuts and pads the byte
  stream according to a schedule; the server parses it back. `Frames`, `PaddedWriter`, `PaddingScheme`, `SessionWriter`,
  `Multiplex` and `StringMap` cover the wire, on top of `Text`, `Numerals` and `Sequences`; `ServerSession`, `ClientPool`, `IdleCleanup` and `Pipe` the state around it.
- **ACL engine.** First-match rules behind a cache, wildcard domains, and a binary search over networks: `RuleSet`, `Wildcard`,
  `GeoIp`, `NetIp` and `Sorting`.
- **Routing.** The decision procedure for one destination (`Route`) and the per-stream UDP router (`Router`).
- **Accounting.** Traffic counters (`Traffic`), reference-counted devices (`Devices`) and write-side rate limiting (`RateLimit`).

`dafny verify dfyconfig.toml` checks everything.

## How it is modelled

Objects with a single owner or a common lock are classes with the source's fields, and the source's loops are loops: the padding
splitter, the chunking of writes, the cleanup walk, the binary search, the wildcard matcher, the codecs, the rule scan, the
device tables and the token loops are methods proved against specification functions or predicates.

Parts in which goroutines interleave are state machines on values. Each critical section, atomic operation and `sync.Once` is one
event, and so is each I/O outcome, timer and random choice. `Apply` is total: an event that is not possible in a state changes
nothing. A theorem about `Run(es)` for every event sequence `es` is therefore a theorem about every interleaving, including those
in which something fails or a timer fires at the worst moment. Safety theorems are accompanied by progress lemmas that say what
the steps achieve when nothing stands in their way.

Library behaviour that is not in the repository is a parameter: `strings.ToLower`, `idna.ToUnicode`, GeoSite matching,
`isPrivateAddr`, what `net.ParseIP` makes of texts that no address has (the text of an address it reads), the system's resolver (which answers a
literal with itself), what resolvers look up, random draws and
clock readings. Where the code converts
integers (`uint16`, `uint32`, `int`), the model writes the truncation out.

## What the theorems found

Several expected properties fail in some cases. The model follows the code; for each there is a failing input, and a theorem that says
exactly when the property holds:

- A padding frame's length goes through `uint16`. Padding of `n` bytes is invisible to the peer exactly when `n / 65536` is a
  multiple of 7 (the bytes beyond the wrapped length then read as whole empty padding frames). Every `n` up to 65535 qualifies, and a
  scheme can only produce such sizes exactly when no range reaches beyond 65535 (65536 as an excluded upper end).
- A frame keeps the receive loop aligned exactly when its payload is at most 65535 bytes and its command is one whose payload the
  loop consumes. A padding scheme file of more than 65535 bytes, which the server sends in one frame, does not meet this.
- A closing stream deletes its id from the session's map, not itself. If the peer has reused the id meanwhile, the new stream is
  lost: alive, but unreachable. This happens exactly at such a deletion; without reuse of ids every live stream is found.
- The server stores the peer's version as `uint32(v)`. After a version of at least 2 has been dealt with, a stream's handshake
  report sends a SYNACK exactly when the low 32 bits of that version are at least 2; a peer of version 2^32 + 1 gets server
  settings and then no SYNACK.
- A session whose die hook is over can be in the idle pool: a step puts one there exactly when it is an insertion that comes after
  that hook. It does no harm to exclusiveness, and no stream is opened on it.
- A stream that dies before `CreateStream` has installed its die hook leaves its session open, outside the pool and leased to
  nobody. An open session is lost track of exactly when this happened to a stream on it.
- The binary search over networks can miss an address when networks overlap. On any sorted list an address is found exactly when a
  network at one of the positions probed for its place in the order contains it; so a positive answer is always right, and an
  address is found whenever all networks stored between it and one that contains it contain it too.
- Networks stored in IPv4-mapped form are kept with the IPv6 networks, where IPv4 addresses are never looked up. On disjoint
  databases matching is right for all addresses exactly when no such network contains an IPv4 address outside every four-byte network.
- Bytes can be missing from all clear results and counters. A step loses bytes exactly when it adds to a counter that a clear has
  already forgotten, or when it is the deletion of an offline user whose counter is not zero; both happen only to bytes that a session
  adds after its detach. Bytes added by attached sessions never disappear.
- A destination that is neither a name nor a valid address is not looked up and passes the private filter. With the filter on, an
  accepted route that is no redirect is safe exactly when the destination is a name or a valid address.

Three remarks besides. Decisions of the UDP router are cached under the destination's text, and two destinations have the same text
exactly when one is a name that spells the other's address; no harm comes of it, because the resolvers answer a literal with itself,
so that the policy decides alike on both. (The repository's own resolvers do so by `tryParseIP`; of the system's resolver, which is
asked when none is configured, it is assumed as behaviour of the Go library.) The private filter relies on resolver answers of 0, 4 or 16 bytes, which the answers of both resolvers are; an
answer of another length would be passed on to an outbound that dials itself. And a comment at limiter/limiter.go:14-15 says a
single frame always fits the smallest burst; the largest frame is 65542 bytes and the floor is 65536. The loops that portion requests by the burst make up for it, and the model follows them.

## Model

| member | source | states |
|---|---|---|
| Frames.AlignedExactlyWhenEmittable | proxy/session/session.go:208-391 | the receive loop reads a written frame back and continues right behind it, whatever follows, if and only if its length is not truncated and it is empty or of a command that may carry data: 0, 2, 4, 5, 6, 7 or 10 |
| Frames.HeaderDecodes | proxy/session/frame.go:37-49 | command, stream id and length come back from a written header, the length modulo 65536 |
| Frames.FrameLayout | proxy/session/session.go:459-477 | a frame is its command, its stream id and length in big-endian bytes, and its payload |
| Frames.PaddingInvisibleExactlyWhenSkippable | proxy/session/session.go:286-294 | the peer sees the same frames with and without a padding frame of n bytes, whatever follows, if and only if n / 65536 is a multiple of 7; true of every n up to 65535 |
| Frames.MisalignedWaste | proxy/session/session.go:568-577 | behind padding of any other length a SYN is not seen at all |
| Frames.SiftFrames | proxy/session/session.go:219-226 | a concatenation of frames parses into exactly these frames in order, and parsing resumes behind them |
| SessionWriter.Session.DoWriteConn | proxy/session/session.go:504-593 | new fields and writes equal the specification, with sizes that the factory picked for the number of this packet; the count returned is the payload without padding; on failure some whole writes and a part of the next were made |
| SessionWriter.Session.WritePacket | proxy/session/session.go:536-586 | the padding loop makes exactly the specified writes, or a truncated prefix of them if a write fails |
| SessionWriter.Session.NextPacket | proxy/session/session.go:546-578 | one round: all payload, the last payload with padding, or all padding |
| SessionWriter.Session.Greet | proxy/session/session.go:112-129 | the client's settings are held back and nothing is written |
| SessionWriter.Session.OpenStream | proxy/session/session.go:188-195 | the first SYN joins the held-back settings, a later one is written at once, and holding back ends; a write can fail only when nothing is being held back, and then the flag is unchanged, the buffer is gone and a part of the writes was made |
| PaddedWriter.CutKeepsPayload | proxy/session/session.go:536-586 | the writes concatenate to the whole payload in order, followed only by padding frames |
| PaddedWriter.PacketShape | proxy/session/session.go:536-586 | the i-th write is exactly the i-th scheduled size while more payload remains and within a header of it afterwards; leftover payload goes out in one last write |
| PaddedWriter.CheckMarkStops | proxy/session/session.go:538-544 | a check mark ends the packet exactly when the sizes before it cover the payload, and otherwise changes nothing |
| PaddedWriter.CutCount | proxy/session/session.go:536-586 | without check marks every size makes one write, also after the payload is exhausted, and leftover payload one more |
| PaddedWriter.PacketIsCutExactlyWhen | proxy/session/session.go:508-534 | in every run a client's packet, which carries the frames held back and the one submitted, is cut by its sizes if and only if no packet up to it has reached the stop number then in force; otherwise, and for a server, it is one write |
| PaddedWriter.WireIsExact | proxy/session/session.go:504-593 | the bytes on the wire after a run, by its events alone |
| PaddedWriter.ConstantStop | proxy/session/session.go:531-534 | under one stop number the k-th packet is cut if and only if k is below it |
| PaddedWriter.PaddingStaysOver | proxy/session/session.go:587-589 | padding that has ended does not come back, whatever stop numbers follow |
| PaddedWriter.PaddingIsTransparent | proxy/session/session.go:504-593 | over every run of submitted frames, schedules, random sizes and buffering switches, wire content without padding followed by the held-back buffer is exactly everything submitted, and the wire parses without remainder |
| PaddedWriter.SmallSizesAreSafe | proxy/session/session.go:559-572 | runs in which the sizes of every packet are at most 65535 meet the condition of that theorem |
| PaddedWriter.FailedWriteShowsPrefix | proxy/session/session.go:547-576 | after a failed write the peer has seen a prefix of the frames it would have seen |
| PaddedWriter.CutOffWire | proxy/session/session.go:219-230 | a cut-off byte stream shows the peer only a prefix of the frames |
| PaddingScheme.GenerateRecordPayloadSizes | proxy/padding/padding.go:66-96 | the sizes are one pick for each item of the packet's schedule, in order, and nothing for malformed items |
| PaddingScheme.Pick | proxy/padding/padding.go:70-92 | a well-formed range yields one size from it (its upper end only if it is also the lower), `c` a check mark, anything else nothing |
| PaddingScheme.ItemIsExact | proxy/padding/padding.go:70-91 | a part of the list is a range, in ascending order, if and only if it is two numbers above zero around a dash, in either order; a check mark if and only if it is `c`; otherwise nothing |
| PaddingScheme.SignedParses | proxy/padding/padding.go:73-79 | signs are read, and numbers beyond 64 bits are refused |
| PaddingScheme.NewPaddingFactory | proxy/padding/padding.go:48-64 | no factory without entries or a readable `stop`; otherwise the decoded scheme and `stop` modulo 2^32 |
| PaddingScheme.FactoryIsExact | proxy/padding/padding.go:53-63 | there is a factory if and only if `stop` reads as a number, and its stop is that number modulo 2^32, also for a negative one |
| PaddingScheme.ScheduleBack | proxy/padding/padding.go:66-96 | the text of every non-empty schedule reads back as that schedule |
| PaddingScheme.SchemeBack | proxy/padding/padding.go:48-96 | a scheme written as text in any order of its lines gives a factory with the written `stop` and schedules |
| PaddingScheme.SchemeFitsExactly | proxy/padding/padding.go:74-88 | all sizes a packet may get fit the 16-bit length field if and only if no range of its schedule reaches beyond |
| PaddingScheme.FittingSchemesAreTransparent | proxy/session/session.go:531-592 | if the k-th packet gets the stop number and sizes of a fitting scheme for packet number k, with schemes replaced at any time, padding is transparent whatever sizes are picked |
| Multiplex.WriteDataFrame | proxy/session/session.go:444-457 | the frames are the chunks of at most 65535 bytes in order; on failure a proper prefix of them, and the count returned is the bytes in it |
| Multiplex.ChunksCarryData | proxy/session/session.go:444-468 | the chunks of a write concatenate to its data and each fits its frame |
| Multiplex.ChunksAreFull | proxy/session/session.go:444-457 | all chunks but the last are of the largest size |
| Multiplex.OpenStreamsGrow | proxy/session/session.go:227-285 | whatever arrives, a stream that stays open keeps what it received and gains exactly the data pushed to it |
| Multiplex.PaddingIsIgnored | proxy/session/session.go:286-294 | padding frames leave the server's streams as they are, whatever happens around them |
| Multiplex.ServerHolds | proxy/session/session.go:227-285 | after any interleaving of the frames of any number of streams, with handlers closing streams at any time, each stream that is open or that the peer finished holds exactly what was written to it, and one closed by the server a prefix |
| Multiplex.MultiplexRoundTrip | proxy/session/session.go:444-593 | chunking, interleaving, holding back, cutting, padding, parsing and demultiplexing together deliver to each open or finished stream exactly its bytes, also while handlers of the server close others; no stream is refused if never more than 1024 were open at once |
| Multiplex.CutOffRoundTrip | proxy/session/session.go:444-593 | at any point of a run, with frames still held back, and on a wire that breaks off anywhere, every stream the server holds has received a prefix of the bytes written to it, and one whose FIN arrived all of them |
| StringMap.ToBytes | util/string_map.go:9-15 | the lines of the entries, in the order of iteration |
| StringMap.FromBytes | util/string_map.go:17-27 | the entries of the lines that contain "=", later ones overriding earlier ones |
| StringMap.EntriesAre | util/string_map.go:17-27 | a key has the value of the last line that starts with it and an equals sign, split at the first one, and no other keys are there |
| StringMap.RoundTripExactlyWhenClean | util/string_map.go:9-27 | decoding the encoding gives back the map, in every iteration order, if and only if no key contains "=" or a line break and no value a line break |
| StringMap.DecodedIsClean | util/string_map.go:17-27 | whatever the bytes, the decoded map is of that kind |
| ServerSession.SessionIsSafe | proxy/session/session.go:208-439 | for every frame sequence and interleaving: at most 1024 streams, none before a non-empty Settings, SYNACK and ServerSettings only after a version of at least 2, at most one SYNACK and one FIN per stream, one death, and no FIN after a local close |
| ServerSession.LiveStreamIsFound | proxy/session/session.go:277-285 | a live stream is in the map under its id unless its FIN is being handled or its id was used again |
| ServerSession.FoundUnlessStale | proxy/session/session.go:396-439 | a step leaves every live stream findable if and only if it is not the deletion of an id that now belongs to another live stream |
| ServerSession.FoundRun | proxy/session/session.go:208-439 | every live stream is findable at all times of a run if and only if there is no such deletion in it |
| ServerSession.ReusedIdLosesStream | proxy/session/session.go:430-439 | an interleaving in which reuse of an id loses a live stream |
| ServerSession.SynackExactlyWhenVersionFits | proxy/session/stream.go:174-201 | in every run, once the settings have been dealt with, the handshake report sends one SYNACK, under the stream's own id, if and only if the low 32 bits of the last version of at least 2 are at least 2 |
| ServerSession.WrappedVersionGetsNoSynack | proxy/session/session.go:316-329 | a run in which a peer of version 2^32 + 1 gets server settings and then no SYNACK |
| ServerSession.SynOpensStream | proxy/session/session.go:396-415 | in every run a SYN with a new id below the cap opens a stream that is found under it and of which nothing has been sent |
| ServerSession.CloseTellsPeerOnce | proxy/session/session.go:430-439 | every run in which a stream is alive on an open session can go on to its one and only FIN, under its own id, with the id off the map |
| ServerSession.FramesCarryOwnIds | proxy/session/session.go:430-434 | in every run every frame sent for a stream carries that stream's id |
| ServerSession.DialogueIsExact | proxy/session/session.go:226-428 | in every run a frame dealt with undisturbed gets exactly the answer that the history calls for (padding update and server settings; alert, nothing, refusal under the SYN's id or registration; local end on FIN; heartbeat echo), leaves exactly the right streams, and stops the loop if and only if it is an alert or a SYN before settings |
| ServerSession.ClosedSessionSendsNoFin | proxy/session/session.go:430-433 | a stream closed after its session never gets a FIN, whatever happens later |
| ServerSession.SweepKillsAll | proxy/session/session.go:154-159 | the sweep of a closing session ends only when every registered stream is dead, and empties the map |
| ServerSession.CloseEndsAll | proxy/session/session.go:142-164 | every run can go on to a closed session with no stream registered and those that were dead |
| ServerSession.FailedReplyCloses | proxy/session/session.go:490-495 | a reply of the receive loop that cannot be written closes the session and stops the loop |
| ServerSession.FailedFrameCloses | proxy/session/session.go:490-495 | so does a stream's FIN or SYNACK, which then was not sent |
| ClientPool.LeasesAreExclusive | proxy/session/client.go:70-149 | in every interleaving no session carries two live streams, none with a live stream is pooled, and each lease puts its session back at most once |
| ClientPool.FreshUnlessLate | proxy/session/client.go:109-129 | a step puts a session whose die hook is over into the pool if and only if it is an insertion that comes after that hook |
| ClientPool.FreshRun | proxy/session/client.go:109-181 | the pool holds no session whose die hook is over at any time of a run if and only if there is no such insertion in it |
| ClientPool.DeadSessionCanBePooled | proxy/session/client.go:111-128 | an interleaving that leaves a dead session in the pool |
| ClientPool.OpensOnlyOnOpenSessions | proxy/session/session.go:167-206 | in every interleaving a lease becomes live only on a session that is not closed, not pooled and not held by another lease |
| ClientPool.SessionsAreLocated | proxy/session/client.go:70-181 | in every interleaving an open session is pooled, leased, about to be closed, or was left by a stream that died before its hook was installed |
| ClientPool.StrandedExactlyWhenMissed | proxy/session/client.go:97-135 | an open session is neither pooled, leased nor about to be closed if and only if a stream on it died before its hook was installed |
| ClientPool.SessionCanBeStranded | proxy/session/client.go:97-109 | an interleaving in which the last case happens |
| ClientPool.DeadStreamFreesSession | proxy/session/client.go:109-149 | the death of a stream on an open session pools it, and the next call takes it if it is the newest |
| ClientPool.HookDecides | proxy/session/client.go:109-135 | in every interleaving the die hook does nothing with a closed session, goes on to put an open one back if sessions are reused and the client is open, and otherwise closes it |
| ClientPool.NoReuseNoPool | proxy/session/client.go:112-115 | with reuse switched off no session is ever pooled |
| ClientPool.ClosedClientClosesSessions | proxy/session/client.go:120-123 | once the client is closed the die hook closes the session |
| ClientPool.TakesNewest | proxy/session/client.go:140-149 | a call that finds the pool not empty leases its newest session |
| ClientPool.CleanupTakesOut | proxy/session/client.go:231-234 | a cleanup takes exactly its victims out of the pool, to be closed |
| IdleCleanup.Pool.Cleanup | proxy/session/client.go:205-242 | the walk that removes while iterating closes and keeps exactly the specified sequences |
| IdleCleanup.PositionIsRank | proxy/session/client.go:125-128 | the position in the skip list is the number of newer sessions in the pool |
| IdleCleanup.CleanupClosesExactly | proxy/session/client.go:205-242 | a session is closed if and only if it is expired and not among the `minIdleSession` highest numbers |
| IdleCleanup.CleanupKeepsExactly | proxy/session/client.go:220-229 | all others stay, under their numbers, with the current time as idle time if they were expired and their own otherwise |
| IdleCleanup.CleanupKeepsOrder | proxy/session/client.go:205-234 | the list stays ordered and every session is either kept or closed |
| Pipe.PipeDelivers | proxy/pipe/io_pipe.go:52-106 | under any racing of writers, readers, closes and deadlines: readers get, in order, the consumed prefixes of the writes in the order of their locks, which each write gets at most once; each read gets a transfer of its own; errors are the deadline's or those stored at a close |
| Pipe.WriteCountIsExact | proxy/pipe/io_pipe.go:82-106 | the transfers from a write concatenate to the prefix of its data that it counts; a returned count is exactly the bytes delivered from it, and success means all |
| Pipe.StoredErrorsStay | proxy/pipe/io_pipe.go:17-35 | the first error stored for an end is never replaced |
| Pipe.WriteCompletes | proxy/pipe/io_pipe.go:92-105 | a write on offer and a waiting reader with room complete the write |
| Pipe.CallsMeet | proxy/pipe/io_pipe.go:52-97 | every run of an open pipe that nobody is writing to can go on to a new write with all its bytes on offer and a new read waiting |
| Pipe.ReaderIsServed | proxy/pipe/io_pipe.go:62-98 | in every run a waiting read gets the next bytes of the write on offer, as many as fit, and the write returns if and only if none are left |
| Pipe.ReadFailsWithStored | proxy/pipe/io_pipe.go:117-124 | in every run of a closed pipe a read fails with the error stored for the write end, if the read end was not closed as well, and otherwise with the pipe's own |
| Pipe.WriteFailsWithStored | proxy/pipe/io_pipe.go:126-133 | a write fails with the error stored for the read end, if the write end was not closed as well, and otherwise with the pipe's own, keeps its count and gives up the lock |
| Pipe.CloseStores | proxy/pipe/io_pipe.go:73-115 | closing an end stores the error given, or the pipe's own for that end |
| Pipe.ReadDeadlineEnds | proxy/pipe/io_pipe.go:52-71 | a deadline that has passed ends a read |
| Pipe.WriteDeadlineEnds | proxy/pipe/io_pipe.go:82-104 | a deadline that has passed ends a write with its count |
| NetIp.EqualIsSameNorm | acl/matchers.go:24-26 | address equality is equality up to the IPv4-mapped form |
| NetIp.TextBack | acl/compile.go:41-43 | the text of an address determines it up to that form and contains no bar |
| Wildcard.DeepMatchRune | acl/matchers.go:58-73 | true if and only if strings can be put for the stars so that the pattern equals the name; no slice out of range, and it ends |
| GeoIp.NewMatcher | acl/matchers_v2geo.go:62-94 | fails exactly on an address that is neither 4 nor 16 bytes; otherwise holds a sorted permutation of each family's networks |
| GeoIp.MatchIn | acl/matchers_v2geo.go:34-45 | the loop over left and right computes the specified search |
| GeoIp.MatchIsSound | acl/matchers_v2geo.go:34-45 | a positive answer is right for any list |
| GeoIp.SearchAgreesWithScan | acl/matchers_v2geo.go:24-46 | on sorted lists of disjoint blocks the search answers as a scan of all networks does |
| GeoIp.FoundExactlyWhenProbed | acl/matchers_v2geo.go:34-45 | on any sorted list, overlapping or not, an address is found if and only if a network at one of the positions probed for its rank contains it |
| GeoIp.FoundWhenAllBetweenContain | acl/matchers_v2geo.go:34-45 | on any sorted list an address is found if a network contains it and so do all networks stored between the two |
| GeoIp.MatchIPAgreesExactlyUnlessHidden | acl/matchers_v2geo.go:24-94 | a matcher built from pairwise disjoint blocks with valid prefix lengths, stored under any member address, answers for an address whether some network contains it, if and only if it is not an IPv4 address contained in IPv4-mapped networks only |
| GeoIp.MatchIPAgreesWithDatabase | acl/matchers_v2geo.go:24-94 | it answers so for all addresses if and only if no IPv4-mapped network contains an IPv4 address outside every four-byte network; in particular when no network is in that form |
| GeoIp.MappedNetworkHides | acl/matchers_v2geo.go:72-77 | a database of one IPv4-mapped network that contains an address which is not matched |
| GeoIp.MatchMeansDatabase | acl/matchers_v2geo.go:48-60 | a host whose addresses are not hidden matches if and only if one of them is in the database, turned round for an inverse matcher |
| GeoIp.OverlapHidesAddress | acl/matchers_v2geo.go:34-45 | overlapping networks that make the search miss an address |
| RuleSet.KeyDeterminesHost | acl/compile.go:41-43 | equal cache keys mean the same name and equal addresses, also for names with bars |
| RuleSet.KeyDeterminesAnswer | acl/compile.go:58-66 | hosts with equal keys get the same answer from every matcher |
| RuleSet.KeyDeterminesVerdict | acl/compile.go:85-106 | and the same verdict from every rule list |
| RuleSet.FirstMatchIsLeast | acl/compile.go:58-106 | the verdict is that of the rule with the least index whose protocol, ports (start 0 meaning any) and matcher fit, and none if and only if none fits |
| RuleSet.NormalisedIs | acl/compile.go:87 | the host looked up has the name in lower case without trailing dots, and the same addresses |
| RuleSet.Evaluate | acl/matchers.go:24-56 | each matcher decides its meaning: the same address up to form, a network's members, the domain or a subdomain, substitution for the stars |
| RuleSet.CountryMeansDatabase | acl/matchers_v2geo.go:48-60 | a country rule accepts a host whose addresses are not hidden if and only if one of them is in the rule's database, or none for an inverse rule |
| RuleSet.Compiled.Match | acl/compile.go:85-106 | after any history of lookups and evictions the verdict is that of the first applicable rule on the normalised host; it is in the cache afterwards, which a hit leaves as it was |
| RuleSet.Compiled.Add | acl/compile.go:98-104 | filling a bounded cache, evicting any entry, keeps every entry equal to the scan |
| Route.AclIsObeyed | cmd/server/acl.go:133-142 | whatever the destination, answer, protocol and filter, a request is rejected if and only if the ACL, asked about the host's name and addresses, answers with the rejecting outbound; and a redirect is followed with the ACL's outbound |
| Route.UnfilteredRoute | cmd/server/acl.go:143-160 | without the filter, which destination is handed on: the one that came, to an outbound that resolves names or if nobody looked the name up; else the first address, if any |
| Route.PrivateFilterIsExact | cmd/server/acl.go:130-191 | with the filter on, a request that no rule rejects or redirects is unresolved without any address, accepted if all addresses the outbound may reach are public, with the public address or the destination itself as target, and otherwise refused as private; this holds if and only if the destination is a name or a valid address |
| Route.AcceptedRoutesAreSafe | cmd/server/acl.go:130-173 | an accepted route that is no redirect gives a locally resolving outbound a public address, and a name only to one that resolves it, after all addresses found were public, if and only if the destination is a name or a valid address |
| Route.InvalidDestinationPasses | cmd/server/acl.go:65-71 | a destination that is neither a name nor a valid address is accepted unchanged |
| Route.LocalOutboundGetsNameExactlyWhen | cmd/server/acl.go:64-80 | a locally resolving outbound gets a name if and only if there is no custom resolver, no ACL and no filter |
| Route.DialledIsPublicExactlyWhenWellFormed | cmd/server/acl.go:102-191 | for arbitrary destinations and answers, an outbound that dials itself is handed a public address if and only if the destination is a valid address or the preferred answer is 4 or 16 bytes long |
| Route.SystemResolve | cmd/server/acl.go:84-100 | the first address of each family, and a valid answer whenever the library returns addresses |
| Route.FirstAt | cmd/server/acl.go:90-98 | these are the ones of the least index of each family |
| Route.FirstAddress | resolver/standard.go:129-147 | the first record of the kind asked for, nil or in the form of its family; without one, whether there is an alias to follow |
| Route.MalformedAnswerPasses | cmd/server/acl.go:102-108 | the validity of answers is needed: one of another length would pass the filter |
| Route.SameTextExactlyWhenSpelled | cmd/server/acl.go:248 | two destinations have the same cache text if and only if they are equal or one is a name that spells the other's address |
| Route.LiteralAnswersItself | resolver/resolver.go:66-79 | the answer for a name that spells an address is that address |
| Route.NamesAreLookedUp | resolver/standard.go:75-82 | any other name is looked up |
| Route.SpelledRoutesAgree | cmd/server/acl.go:130-191 | the policy refuses a name that spells an address and that address for the same reason, or sends both through the same outbound to the same target, up to the form the destination came in |
| Route.SameTextSameRoute | cmd/server/acl.go:130-191 | different destinations of one text get the same decision, up to the text of the target |
| Router.SocketIsSafe | cmd/server/acl.go:236-326 | in every interleaving: at most 256 cached decisions, the outbound bound at most once, `ready` closed at most once, the socket closed at most once and exactly once when Close is done |
| Router.PacketsAreSafe | cmd/server/acl.go:247-293 | every packet buffer is released or handed on exactly once, and a forwarded packet went through the bound outbound to the target that some decision under its destination's text chose |
| Router.ForwardedOnOwnDecision | cmd/server/acl.go:236-293 | in every interleaving, with or without the filter, a forwarded packet took exactly the outbound and target of a decision made in the run, on its own destination or on one that a spelled address gives the same text, and the policy decides so on its own destination |
| Router.ForwardedPacketsAreSafe | cmd/server/acl.go:236-293 | under the private filter that very decision, with what was found for it, is safe on the destination it was made on and on the packet's own |
| Router.PacketMeetsFate | cmd/server/acl.go:247-293 | in every run a packet decided on a new or a cached decision and not disturbed is handed on, once, to the decision's target, unless the decision refuses it, the stream is closed, the socket cannot be opened or belongs to another outbound, and then it is released, once; the decision is in the cache |
| Router.PacketIsDroppedExactlyWhen | cmd/server/acl.go:262-292 | in every interleaving a step drops a packet if and only if it decides it under a decision that is not accepted, finds the stream closed, cannot open the socket, or finds it bound to another outbound |
| Router.CloseCompletes | cmd/server/acl.go:308-326 | in every run a call of Close leaves the stream closed and lets readers through, and the first one closes the socket if there is one |
| Router.ReaderIsLetThrough | cmd/server/acl.go:296-305 | a blocked reader gets the socket if there is one, the end if the stream was closed without one, and stays blocked otherwise |
| Traffic.SessionsAreJoined | stats/registry.go:193-219 | in every interleaving the user object in the map for an id has exactly the sessions attached to the id: an attach outside a clear and no detach since |
| Traffic.NoOrphanedCounters | stats/registry.go:193-261 | while a session is attached to an id, the map has one and the same user object for the id through every step, with the session in it |
| Traffic.OnlyOfflineIdsAreDeleted | stats/registry.go:247-261 | an id leaves the map only by a clear and only while no session is attached to it |
| Traffic.DetachEndsAttachment | stats/registry.go:209-219 | outside a clear, detaching an attached session ends its attachment and no other |
| Traffic.AttachedBytesAreShown | stats/registry.go:193-261 | in every interleaving clear results and current counter show all bytes added by sessions while attached |
| Traffic.TrafficIsConserved | stats/registry.go:193-261 | clear results, the current counter and lost bytes add up to all bytes added, each once, and lost bytes are at most those of sessions not attached |
| Traffic.BytesAreLostExactlyWhen | stats/registry.go:193-261 | in every interleaving clear results and current counter show at most the bytes added, and all of them if and only if no step added to a forgotten counter or deleted an offline user with a non-zero one |
| Traffic.ShownStep | stats/registry.go:251-258 | a single step shows all it adds on top of what was shown before if and only if it is not one of these |
| Traffic.LateBytesCanBeLost | stats/registry.go:251-258 | a run that loses bytes added between reading and deleting a user |
| Traffic.ForgottenBytesAreLost | stats/registry.go:256-258 | a run that loses bytes added after a whole clear, with none in progress |
| Traffic.ClearReportsUser | stats/registry.go:251-258 | in every run an undisturbed round of a clear moves a user's whole counter into the result and forgets the user if and only if it is offline |
| Traffic.ClearIsComplete | stats/registry.go:247-260 | in every interleaving the result of a clear has an entry for exactly the ids in the map when it began |
| Devices.Table.Acquire | limiter/limiter.go:70-85 | the device of the key, shared if present and made on first use, is held once more |
| Devices.Table.Release | limiter/limiter.go:90-100 | held once less, and the key leaves with the last handle |
| Devices.Table.Shared | limiter/limiter.go:67-100 | a key is present if and only if a handle for it is out, and all its holders share one object |
| Devices.FreshConnID | stats/registry.go:132-146 | the id drawn is not in use |
| Devices.AcquireConn | stats/registry.go:101-112 | live connection ids stay pairwise distinct |
| Devices.ReleaseConn | stats/registry.go:117-127 | and also when a handle is released |
| Devices.StreamNumbers.NextStreamID | stats/registry.go:93-95 | the numbers issued are consecutive modulo 2^32 |
| Devices.StreamNumbersRepeatOnlyAfterWrap | stats/registry.go:93-95 | equal stream numbers of one connection are at least 2^32 calls apart |
| RateLimit.NewLimiter | limiter/limiter.go:104-113 | no bucket exactly for rate 0; otherwise the rate, and as burst the rate if it is at least the floor and fits a signed integer, and else the floor |
| RateLimit.LargestFrameExceedsFloor | limiter/limiter.go:14-16 | the largest frame exceeds the smallest burst |
| RateLimit.LimitedConn.WaitWrite | limiter/conn.go:59-75 | makes exactly the requests for n tokens, in portions of at most the burst, or a proper prefix of them on failure |
| RateLimit.LimitedConn.WriteUnlimited | limiter/conn.go:89-108 | the chunks written concatenate to the input, or to the counted prefix of it on failure |
| RateLimit.LimitedConn.Write | limiter/conn.go:77-85 | no byte without a token, and exactly one token per byte if nothing fails |
| RateLimit.ChargingIsExact | proxy/session/session.go:470-528 | in every interleaving of control and data frames, requests for tokens, writes and failures: no request exceeds the burst; bytes on the wire and tokens reserved never exceed tokens acquired; as long as nothing failed they are equal, and the wire holds the frames in the order of their locks up to the one under way |
| RateLimit.FinishedSessionIsPaid | limiter/conn.go:59-108 | when all frames have been written, tokens acquired equal bytes on the wire, which holds exactly the frames, each once |
| RateLimit.FrameGoesOut | proxy/session/session.go:459-498 | a frame submitted in any run while nobody has the lock can go out whole, behind what is on the wire |
| RateLimit.RefusalEnds | limiter/conn.go:69-71 | a wait that is cut short ends its frame and gives up the lock if the frame has it |
| RateLimit.FailedPutEnds | limiter/conn.go:100-104 | a write that fails after some bytes leaves these on the wire, ends its frame and gives up the lock |
| RateLimit.PortionsAddUp | limiter/conn.go:63-74 | the requests for n tokens add up to n and none exceeds the burst |
| RateLimit.ServerWireIsPlain | proxy/session/session.go:504-592 | a server session puts exactly its frames on the wire: no padding and nothing held back |

## Left out

- TLS, dialing, SOCKS5, HTTP authentication, DNS exchange, configuration, file and geo-data loading: I/O and wiring around the modelled logic.
- Wall-clock behaviour: deadlines, the SYNACK watchdog, handshake timeouts and token refill are events that may happen at any step; when they happen is not modelled.
- Concurrent state (`ServerSession`, `ClientPool`, `Pipe`, `Router`, `Traffic`, the session in `RateLimit`): modelled on values with one event per critical section, not as classes updated in place, because Dafny has no interleaving methods; liveness under fair scheduling is not stated, only what the steps achieve undisturbed.
- The client's receive loop: padding updates and SYNACK errors are covered only by their effects (schedules may change at any submission, streams may die at any time).
- A control frame whose write fails counts as not sent; in truth the peer may have received it.
- `Client.Close` as a loop over all sessions: the client's closed flag and arbitrary closing of sessions are events.
- Stream.Read and Stream.Write beyond framing: deadlines and the error precedence of a dead stream.
- Snapshot, Online, Kick, stream dumps and the read side of the limiter: straight-line code.
- Overflow of the 64-bit traffic counters: they are natural numbers.
- The LRU order of the rule cache: the model lets any entry be evicted at any time.
- Compilation of rule text, GeoSite matching and regular expressions: matchers are given, GeoSite as any predicate on the name.
- A nil `net.IP` and an empty one are the same value, so a network with an invalid mask contains neither.
- FreshConnID: that an unused id comes up eventually is a precondition, since the draws are random.
- Router.PacketsAreSafe: speaks of a decision under the destination's text; that it is one on the packet's own destination is ForwardedOnOwnDecision. The text follows `net.JoinHostPort`; the address library that produces it is not part of this model.
- ForwardedOnOwnDecision: for packets whose destinations are names or valid addresses in their shortest form, as the address library delivers them; the text it gives an invalid destination is not part of this model.
- Failure of the system's random source: the pick of a padding size always succeeds.
