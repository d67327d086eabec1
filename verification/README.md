# NAT gateway: verified model

This project models the logic of an Ethernet-to-LTE gateway firmware: the port-mapping table and the
port generators, the translation of packets in both directions, the Internet checksum, the copying of
fragmented frames, the ARP cache, and the parser for AT command responses. Everything is proved with
Dafny 4.11: `dafny verify dfyconfig.toml`.

## How it is built

* **Port mapping.** `PortTable` describes the table as a value, `PortMap.Table` is the array the firmware
  updates in place, `PortChoice.Generator` the two generators with their shared sequence. `NatMachine` is
  a state machine over the same state plus history. The outbound thread looks up, chooses and opens in
  separate steps, and the port search may also go one row comparison at a time; inbound lookups, removals
  and the passing of time may come between any two steps. `Mapper.NatTable` runs the real table and
  generator and shows each call to be one step of the machine. `NatTheorems` holds what is true of every
  run, `Replies` how a flow gets its mapping and its answers, `Scenarios` runs from start-up that go wrong.
  In the terms of RFC 4787: the mapping is endpoint-independent (section 4.1: the client lookup ignores the
  server), filtering depends on the address the mapping was first made for (section 5), and a mapping is
  refreshed by packets both ways (section 4.3).
* **Time.** The clock is unbounded and read modulo 2^32. Every row of a sweep is judged by its own clock
  sample, as in the code, so a sweep comes with a sequence of sample times.
* **Packets.** `Packet` says what a translation is, independently of how it is made: which fields read
  what, that both checksum fields hold the RFC 1071 checksum in network byte order, and that nothing else
  changed. `Translate` makes it in place. `Gateway.Device` is the two handlers, which drive the port mapping
  and the ARP cache (`ArpCache.Resolver`) and are tied to the state machines of both; `RoundTrip` joins
  them, from a client's frame to the frame it gets back.
* **Fields.** `Wire` lays out IPv4, UDP, TCP, ICMP echo, Ethernet and ARP packets from named fields, position
  by position in plain numbers, with checksum functions of its own; it shares no offset with the model of
  the code. `WireTheorems` and `WireTrips` say what the gateway makes of such packets, in fields;
  `WireChecks` and `WireReads`, that exactly those with passing fields are accepted; `WireHandlers` and
  `WireArp`, what calls of the handlers do with them.
* **Checksums.** `Checksum` is RFC 1071 and the arithmetic modulo 65535; `ChecksumCode` the two routines.
* **AT responses.** `AtParser` is the five-state machine and the code, stale token buffer included;
  `AtGrammar`, `AtTheorems` and `AtBuffer` relate it to a grammar, a printer and its own left-overs.

## What turned out not to hold

* A mapping remembers only the first server. Answers to a later packet from the same client port to
  another server are refused while the mapping lives (`RoundTrip.AnswerGetsThroughIff`;
  `Scenarios.SecondServerIsRefused` is such a run for every client and every pair of servers).
* The identifier search for ICMP ends exactly when one of the 256 identifiers is free after the lookup's
  own sweep (`PortChoice.IdentifierFoundIff`, `NatTheorems.SearchEndsIff`). If none is, the outbound handler
  hangs until the other thread sweeps the table (`NatTheorems.StuckUntilSwept`); any 257 pings
  that differ in client or identifier can bring this about (`Scenarios.PingsGetStuck`). The handler's contract has this as an
  outcome of its own, `Hung`.
* A packet that lies in its frame is copied out of it correctly, whatever the bytes, exactly when the first
  buffer is at most 1280 bytes long or the packet at most 1266, and no empty buffer comes before the
  packet's end (`Fragments.CopyIsRightIff`). A packet of 1280 bytes in a single 1294-byte buffer loses its
  last 14 (`Fragments.FullSizedSingleFragment`). How long the network stack's buffers are is not fixed by
  the repository; that the first can be longer than 1280 bytes is an assumption.
* Nothing compares the declared length with the frame. The old content of the buffer shows in the packet
  exactly when the loop takes fewer bytes than declared (`Fragments.OldBytesShowIff`); such bytes are sent
  under checksums that verify (`RoundTrip.MissingBytesAreOld`).
* Transport checksums are not preserved end to end. Outbound, and inbound for TCP, a damaged segment is
  accepted (`Corruption.DamageAcceptedOut`, `Corruption.DamageRefusedUnlessTcp`) and leaves with a new
  checksum that verifies (`Corruption.PassedOnVerifies`).
* A UDP packet without a checksum, which RFC 768 allows, is refused from the LTE side unless its checksum
  would be 0 anyway (`WireChecks.UdpWithoutSumIff`).
* Expiry is not exact after every gap between sweeps. A sweep `gap` ms after the one before judges all rows
  right exactly when `gap` modulo 2^32 is at most 2^32 - 20000 and, from 2^32 on, at least 20000
  (`Clock.GapIsSafeIff`, and for all runs `Scenarios.GapIsExactIff`); after any other gap there is a run in
  which a row lives that is too old (`Scenarios.UnsafeGapFails`).
* `ip_checksum2` with an odd first buffer agrees with `check_ics` just when the two bytes at the seam are
  equal (`ChecksumCode.RoutinesAgreeIff`). The gateway only passes a 12-byte first buffer.
* The AT parser's token buffer is clean after a parse exactly unless the text breaks off inside a token: a
  number or sign that neither comma nor end follows, a sign alone, or an opening quote with characters after
  it and no closing one (`AtBuffer.ParseLeavesCleanIff`). What is left is the token, and the next response
  is misread: after ` 12x`, ` 7` is read as 72 (`AtBuffer.SevenReadAsSeventyTwo`). Only a clean buffer makes
  parsing independent of the past (`AtBuffer.IndependentIffClean`).

## Model

| member | source | states |
|---|---|---|
| Bytes.Swap16Involution | src/gateway.c:119-130 | `ip_htons` undoes itself |
| Checksum.OnesSumIsNorm | src/nrf91/nrf91_util.c:322-326 | deferring all carries gives the one's complement sum, the two zeros kept apart |
| Checksum.SumZeroIffAllZero | src/nrf91/nrf91_util.c:286-327 | the folded sum is 0 only when every byte is 0 |
| Checksum.ByteOrderIndependence | src/nrf91/nrf91_util.c:286-327 | summing little-endian words gives the byte-swapped network-order sum, for every length |
| Checksum.StoredBytesAreNetworkOrder | src/nrf91/nrf91_util.c:330-339 | the complement stored little-endian is the RFC 1071 checksum on the wire |
| Checksum.CarriedVerifies | src/gateway.c:253-259 | data that carry their own checksum sum up to all ones, so `check_ics` gives 0 |
| Checksum.VerifiesIff | src/gateway.c:253-259 | `check_ics` gives 0 exactly if the field holds the computed checksum, or 0xFFFF for 0 |
| ChecksumCode.AddWithCarry | src/nrf91/nrf91_util.c:292-299 | wrap-around plus end-around carry keeps the sum modulo 65535 and its zero-ness |
| ChecksumCode.FoldTo16 | src/nrf91/nrf91_util.c:322-326 | the folding loop ends with the 16-bit representative |
| ChecksumCode.CheckIcs | src/nrf91/nrf91_util.c:286-327 | returns the complement of the one's complement sum of 16-bit words |
| ChecksumCode.CalcIcs | src/nrf91/nrf91_util.c:330-339 | changes only the field, which then holds the network-order checksum of the range |
| ChecksumCode.AddLate | src/nrf91/nrf91_util.c:351-357 | an accumulator below 2^31 stays below 2^31 and never overflows |
| ChecksumCode.IpChecksum2 | src/nrf91/nrf91_util.c:342-393 | returns the complement of the joined sum, odd first buffer included |
| ChecksumCode.JoinedSumIsConcat | src/nrf91/nrf91_util.c:342-393 | for an even first buffer that is the sum of the concatenation, as `check_ics` takes it |
| ChecksumCode.RoutinesAgreeIff | src/nrf91/nrf91_util.c:359-368 | the two routines agree exactly for an even first buffer or equal bytes at the seam |
| Clock.TimeoutIsAgeModulo | src/pmap.c:15-25 | both branches of `is_timeout` compare the true age modulo 2^32 |
| Clock.GapIsSafeIff | src/pmap.c:15-40 | after exactly which gaps between two sweeps the test is right about every row the first one kept |
| PortTable.Find | src/pmap.c:68-85 | the first matching live row, or none |
| PortTable.SweepRowIs | src/pmap.c:26-40 | a live row is cleared, its stamp kept, exactly if its age modulo 2^32 is at least 20000 ms |
| PortMap.Table.constructor | src/pmap.c:178-181 | an all-zero table |
| PortMap.Table.Gc | src/pmap.c:26-40 | clears exactly the rows timed out at their own clock sample, keeping their stamp |
| PortMap.Table.Search | src/pmap.c:50-127 | sweeps, finds the first match by server or client side, re-stamps it and nothing else |
| PortMap.Table.SearchEmpty | src/pmap.c:41-49 | sweeps and finds the first free row |
| PortMap.Table.Remove | src/pmap.c:128-177 | sweeps and zeroes the first match, stamp included |
| PortMap.Table.Add | src/pmap.c:182-195 | sweeps twice and fills the first free row, or reports a full table |
| PortTable.CutAddSurvivesIff | src/pmap.c:188-193 | a sweep between two stores leaves the new row alive exactly when the stamp then in it has not timed out |
| PortTable.CutAddIsLost | src/pmap.c:188-193 | a row last used 20 s to 2^32 ms before is lost by it |
| PortChoice.CandidatesDiffer | src/gateway.c:62-71 | within one cycle of 8193 steps no port comes up twice |
| PortChoice.PortFoundWithin2049 | src/gateway.c:65-90 | a free port is found within 2049 steps whatever the table holds |
| PortChoice.EveryIdentifierComesUp | src/gateway.c:96-97 | any 257 consecutive steps run through all 256 identifiers, wrap included |
| PortChoice.IdentifierFoundIff | src/gateway.c:91-115 | the identifier search ends, within 257 steps, exactly when one is free |
| PortChoice.Generator.IsDuplicate | src/gateway.c:72-82 | whether a live row of the same kind holds the candidate |
| PortChoice.Generator.Generate | src/gateway.c:65-115 | returns the first free candidate after the current position, which is 32768 plus the position modulo 8193, or for ICMP that modulo 256, and moves the sequence there; there is none exactly when all identifiers are taken |
| NatMachine.InitHolds | src/gateway.c:779-779 | the invariant holds of the empty table |
| NatMachine.StepKeepsInv | src/gateway.c:262-335 | every step of either thread, at any interleaving, keeps the invariant |
| NatTheorems.RunKeepsInv | src/gateway.c:262-335 | so does every run |
| NatTheorems.ReachableRowsAreDistinct | src/pmap.c:50-85 | no two live rows share a client, a port, or an ICMP identifier; a packet matches at most one row |
| NatTheorems.SweepIsExact | src/pmap.c:26-40 | sweeps at most 2^32 - 20000 ms apart keep a row exactly when its true age is below 20 s at its sample |
| NatTheorems.ExpiryIsExactOverRuns | src/pmap.c:26-40 | this holds of every sweep of every step of every run, both sweeps of an add included, with no bound on the gap while the table is empty |
| Scenarios.GapIsExactIff | src/pmap.c:15-40 | a gap makes the next sweep right in all runs from start-up exactly when it is safe |
| Scenarios.UnsafeGapFails | src/pmap.c:15-40 | after every unsafe gap some run has a row alive that should have expired |
| NatTheorems.ForwardedOnlyToLatestHolder | src/gateway.c:644-694 | an inbound packet goes only to the most recent holder of its port, who had sent to that server before the row was made |
| NatTheorems.ForwardedIff | src/pmap.c:50-67 | it gets through exactly if the name's last holder is for that server and protocol and was active less than 20 s before the sweep looks at its row |
| NatTheorems.StepKeepsRow | src/pmap.c:68-85 | a fresh row survives any step unchanged; only its own flow stamps it and is translated with it |
| NatTheorems.MappingIsStable | src/gateway.c:280-334 | a flow kept alive keeps its row and its external port through any run |
| NatTheorems.ReuseDistance | src/gateway.c:64-72 | the same port is given out again only after a positive multiple of 8193 steps |
| NatTheorems.PortOfRow | src/gateway.c:62-115 | every live row has the port that its number in the sequence gives |
| NatTheorems.PortsInRange | src/gateway.c:62-97 | in every run from start-up ports lie from 32768 to 40960, identifiers below 256 |
| NatTheorems.FirstPort | src/gateway.c:62-97 | with no row alive the first flow gets port 32769, or identifier 1 |
| NatTheorems.SearchEndsIff | src/gateway.c:65-115 | after a miss a port can be chosen exactly unless the packet is ICMP and all identifiers are taken |
| NatTheorems.StuckUntilSwept | src/gateway.c:94-113 | a search with all identifiers taken goes on as long as the other thread does not sweep |
| Scenarios.PingsGetStuck | src/gateway.c:94-113 | for any 257 pings that differ in client or identifier, and any sequence position, a run that ends in a stuck search |
| Scenarios.SecondServerIsRefused | src/pmap.c:68-85 | a second server is sent to under the first one's mapping, and its answer refused |
| Replies.ReplyFindsRowIff | src/pmap.c:50-67 | while a row lives, an answer to its port gets through, to its client, exactly from its own server |
| Replies.ChoiceIsPossible | src/gateway.c:280-285 | whatever the other thread does after a miss, a port can be chosen unless the search is vain |
| Replies.NewFlowGetsRow | src/gateway.c:280-335 | however the threads interleave, a client without a row gets one for its server and chosen port if the lookup left a row free |
| Replies.NewFlowIsAnswered | src/gateway.c:280-335 | and while it is kept alive an answer gets through exactly from that server |
| Mapper.NatTable.constructor | src/gateway.c:775-779 | starts in the machine's initial state |
| Mapper.NatTable.LookUpClient | src/gateway.c:300-300 | the client lookup is the machine's outbound step |
| Mapper.NatTable.ChoosePort | src/gateway.c:284-284 | choosing is the machine's choose step; without an end exactly when all identifiers are taken |
| Mapper.NatTable.OpenRow | src/gateway.c:285-285 | adding is the machine's open step; the row is the request's with the chosen port |
| Mapper.NatTable.ChooseAndOpen | src/gateway.c:302-306 | after a miss: a port and a row for this very request, a full table, or no end |
| Mapper.NatTable.MapOutbound | src/gateway.c:295-333 | existing row or new one with its port, a full table, or, exactly when the lookup misses and its sweep leaves no identifier, no end |
| Mapper.NatTable.MapInbound | src/gateway.c:646-656 | the server-side lookup is the machine's inbound step |
| Fragments.Linearize | src/gateway.c:169-205 | the buffer holds the payload up to the wanted or available length, the rest is untouched |
| Fragments.CopyIsRightIff | src/gateway.c:169-205 | for given lengths, the buffer's first bytes are the packet whatever the contents exactly when the first fragment is at most 1280 bytes or the packet at most 1266, and no empty fragment comes before its end |
| Fragments.OldBytesShowIff | src/gateway.c:181-197 | what the buffer held before shows in the packet exactly when the loop takes fewer bytes than declared |
| Fragments.FullSizedSingleFragment | src/gateway.c:185-185 | a 1280-byte packet in one fragment loses its last 14 bytes to stale ones |
| Packet.TranslationIsUnique | src/gateway.c:390-413 | what a translation must be fixes every byte of it |
| Packet.TranslationVerifies | src/gateway.c:695-722 | header and transport checksum of any translated packet verify |
| Translate.FillPseudo | src/gateway.c:399-404 | the structure's bytes are the pseudo header in network order |
| Translate.SegmentChecksum | src/gateway.c:592-600 | the checksum of a segment, with pseudo header for UDP and TCP |
| Translate.StoreTransportChecksum | src/gateway.c:395-409 | changes only the field, which then holds the network-order checksum |
| Translate.TranslateInPlace | src/gateway.c:390-413 | turns the buffer into the translation of the packet it held |
| Gateway.KindCopied | src/gateway.c:263-263 | the protocol byte dispatched on is the one the frame was classified by |
| Gateway.OnlyRepliesTeach | src/gateway.c:208-218 | as called, only ARP replies reach the cache |
| Gateway.Device.constructor | src/gateway.c:775-779 | empty tables and zeroed transmit buffers |
| Gateway.Device.OperateArp | src/arp_cache.c:197-228 | which ARP packets are a step of the cache, and what they teach |
| Gateway.Device.Teach | src/gateway.c:344-344 | noting a MAC is one step of the cache, with its sweep at the time of the call |
| Gateway.Device.ScreenOut | src/gateway.c:244-276 | which frames go on to translation |
| Gateway.Device.MapAndLearn | src/gateway.c:280-344 | the table half of the handler, and the sender's MAC taught exactly when there is a mapping |
| Gateway.Device.TranslateOut | src/gateway.c:262-413 | the mapping is one of the packet's own client, and the packet is translated with it |
| Gateway.Device.HandleIp | src/gateway.c:219-413 | exactly the accepted frames are mapped; all others are dropped without effect on table and cache |
| Gateway.Device.EthReceive | src/gateway.c:143-428 | the whole outbound handler over a fragment chain: what it sends, its steps of the port mapping and of the cache, and exactly when it hangs |
| Gateway.Device.ScreenIn | src/gateway.c:556-639 | which inbound packets go on to the lookup |
| Gateway.Device.TranslateIn | src/gateway.c:642-722 | lookup by source, protocol and target port, then translation to the row's client |
| Gateway.Device.Frame | src/gateway.c:731-741 | one lookup step of the cache; the frame is the packet behind a header with the MAC it answers, or waits |
| Gateway.Device.Deliver | src/gateway.c:640-741 | lookup, translation and frame together |
| Gateway.Device.LteReceive | src/gateway.c:556-741 | the whole inbound handler, with its step of the port mapping and of the cache |
| RoundTrip.RoundTripRestores | src/gateway.c:640-722 | the answer is translated to the original address and port; both packets verify and change only the named bytes |
| RoundTrip.AnswerGetsThroughIff | src/pmap.c:77-77 | it gets through exactly when the mapping's server is the packet's destination |
| RoundTrip.CallsAreRuns | src/gateway.c:143-741 | handler calls in any number and order are a run of the port mapping and a run of the cache |
| RoundTrip.CallUsesRow | src/gateway.c:280-335 | after a call that forwarded a packet the row it found or opened is live with the packet's mapping |
| RoundTrip.ForwardFrame | src/gateway.c:143-428 | any call of the outbound handler that forwards is a premise of the round trip |
| RoundTrip.ReturnPacket | src/gateway.c:556-741 | any call of the inbound handler that accepts is the other one |
| RoundTrip.HandlersRoundTrip | src/gateway.c:556-722 | the two handlers' contracts make the round trip over any run in between that keeps the row alive |
| RoundTrip.AnswerIsFramed | src/gateway.c:728-741 | the answer is framed for the MAC the client's own packet came from, if the cache had room for it |
| RoundTrip.AnswerWaits | src/arp_cache.c:77-108 | without room, and not learnt since, the answer cannot be sent on |
| RoundTrip.FrameToFrame | src/gateway.c:169-741 | from the bytes of the client's frame to those of the frame it gets back: MAC, addresses and port return |
| RoundTrip.MissingBytesAreOld | src/gateway.c:181-413 | bytes a frame lacks of its declared length are sent from the buffer under checksums that verify |
| WireTheorems.TranslatedOutIs | src/gateway.c:308-413 | a packet translated on its way out has the gateway's address, the external port or identifier, both checksums anew, and every other field as it was |
| WireTheorems.TranslatedInIs | src/gateway.c:657-722 | one translated on its way in has the client's address and port or identifier, both checksums anew, and every other field as it was |
| WireTrips.ForwardedIs | src/gateway.c:143-413 | from the client's frame to the packet sent, in fields; the mapping is of the packet's protocol, source address and source port |
| WireTrips.FieldsReturn | src/gateway.c:143-741 | the whole round trip in fields: the answer comes back in a frame to the MAC the first frame came from, addressed to its source address and port, otherwise as the server sent it |
| WireChecks.AcceptedInIff | src/gateway.c:556-639 | an inbound packet is looked up exactly if it is for the gateway's address, its header agrees with its checksum, as UDP or ICMP its segment does too, and as ICMP it is an echo |
| WireChecks.UdpWithoutSumIff | src/gateway.c:590-604 | a UDP packet without checksum passes exactly if its checksum would be 0 |
| WireChecks.AcceptedOutIff | src/gateway.c:219-276 | a client's packet is mapped exactly if it is for the gateway's MAC, its header agrees with its checksum, and as ICMP it is an echo |
| WireReads.AcceptedInIsRead | src/gateway.c:556-639 | every inbound packet accepted with its whole transport header is the packet its fields describe, and they pass |
| WireReads.AcceptedOutIsRead | src/gateway.c:219-276 | the same for frames from a client |
| WireHandlers.SendPacket | src/gateway.c:143-428 | the outbound handler on any packet, in fields: when it is accepted, what it asks of the table, what it teaches the cache, what it sends |
| WireHandlers.ReceivePacket | src/gateway.c:556-741 | the inbound handler on any packet, in fields: when it is accepted, what it asks of the table, and the frame made of it |
| WireArp.LearntIff | src/arp_cache.c:197-228 | an ARP packet teaches its sender's address and MAC exactly if it is a reply to the gateway's MAC, or a broadcast request, and names the gateway's address |
| WireArp.OnlyArpTeaches | src/arp_cache.c:201-213 | whatever teaches is an ARP packet for IPv4 over Ethernet |
| WireArp.ReceiveArp | src/gateway.c:208-218 | the outbound handler on any ARP packet, in fields: what it teaches the cache, and that it does nothing else |
| WireArp.LearntIsFramed | src/arp_cache.c:219-226 | after that a packet for the sender's address is framed for the sender's MAC, for 20 minutes unless it is relearnt otherwise, if the cache had room |
| Corruption.OneByteFails | src/nrf91/nrf91_util.c:286-327 | the checksum notices every change of a single byte |
| Corruption.DamageRefusedUnlessTcp | src/gateway.c:590-638 | an inbound packet with one byte of its segment changed is still accepted exactly when it is TCP |
| Corruption.DamageAcceptedOut | src/gateway.c:346-389 | outbound a change behind the header is never noticed |
| Corruption.PassedOnVerifies | src/gateway.c:390-722 | whatever is passed on leaves with checksums that verify |
| ArpCache.Cache.constructor | src/arp_cache.c:13-13 | an empty cache |
| ArpCache.Cache.Gc | src/arp_cache.c:37-48 | frees exactly the rows timed out at their own sample |
| ArpCache.Cache.Search | src/arp_cache.c:60-76 | the first live row of an address; address 0 is never found |
| ArpCache.Cache.Update | src/arp_cache.c:77-108 | writes the address's row, else the first free one, else nothing |
| ArpCache.ArpSweepIsExact | src/arp_cache.c:37-48 | expiry is exact for 20 minutes across clock wrap, given sweeps not too far apart |
| ArpCache.ArpRunKeeps | src/arp_cache.c:60-108 | over every run one live row per address, and it is the latest update; with frequent sweeps what has no row is too old |
| ArpCache.LookupRefinesMap | src/arp_cache.c:60-76 | a lookup answers with the latest successful update exactly if that was less than 20 minutes before its sweep looks at the row |
| ArpCache.LearnRejectedIff | src/arp_cache.c:77-108 | an update is lost exactly when the table is full of other addresses |
| ArpCache.LearntIsAnswered | src/arp_cache.c:60-108 | what was learnt is answered for 20 minutes, however rare the sweeps, unless relearnt otherwise |
| ArpCache.Resolver.constructor | src/arp_cache.c:13-13 | starts in the cache machine's initial state |
| ArpCache.Resolver.LookUp | src/arp_cache.c:120-129 | the cache half of `resolve_arp` is one lookup step and returns its answer |
| ArpCache.Resolver.Teach | src/arp_cache.c:77-108 | an update is one learning step |
| AtParser.Parser.Clear | src/nrf91/nrf91_at_commands.c:60-71 | empties the list |
| AtParser.Parser.FileNumber | src/nrf91/nrf91_at_commands.c:182-187 | files what `atoi` reads and wipes the buffer |
| AtParser.Parser.FileText | src/nrf91/nrf91_at_commands.c:157-162 | files the string with its terminator and wipes the buffer |
| AtParser.Parser.ParseFrom | src/nrf91/nrf91_at_commands.c:72-235 | the recursive routine computes the machine's result, reading nothing past the first NUL |
| AtParser.Parser.AtResParse | src/nrf91/nrf91_at_commands.c:236-245 | result, list, count and left-over buffer of a whole parse, from any buffer |
| AtGrammar.ItemsRun | src/nrf91/nrf91_at_commands.c:96-222 | a comma-joined list of fields fits, and is filed, exactly within 42 fields of 128 characters |
| AtTheorems.ItemsFound | src/nrf91/nrf91_at_commands.c:96-222 | whatever is accepted is such a list |
| AtTheorems.AcceptsIffResponse | src/nrf91/nrf91_at_commands.c:72-235 | from a clean buffer exactly the strings of the grammar are accepted |
| AtTheorems.ResponseIsFiled | src/nrf91/nrf91_at_commands.c:72-235 | the fields are filed in order, less one trailing empty field, and the buffer is left clean |
| AtTheorems.AtoiOfPrinted | src/nrf91/nrf91_at_commands.c:183-183 | a printed integer is read back |
| AtTheorems.AtoiOfPlus | src/nrf91/nrf91_at_commands.c:183-183 | also with a plus sign |
| AtTheorems.AtoiIsWorth | src/nrf91/nrf91_at_commands.c:183-183 | every number of the grammar is read as what its digits are worth, negative after a minus |
| AtTheorems.ParsePrinted | src/nrf91/nrf91_at_commands.c:72-245 | parsing a printed list gives back types, values, lengths and positions |
| AtTheorems.ParsePrintedLine | src/nrf91/nrf91_at_commands.c:72-245 | so does parsing a line that ends in CR or LF, whatever comes after it |
| AtBuffer.ParseLeavesCleanIff | src/nrf91/nrf91_at_commands.c:153-221 | the buffer is clean afterwards exactly unless the text breaks off inside a token, and then it holds that token |
| AtBuffer.SuccessesAreIndependent | src/nrf91/nrf91_at_commands.c:236-245 | each of a sequence of successful parses finds a clean buffer and gives the result it would give as the first |
| AtBuffer.StaleDigitsAreRead | src/nrf91/nrf91_at_commands.c:124-126 | digits left behind are read as part of the next number |
| AtBuffer.TwelveStays | src/nrf91/nrf91_at_commands.c:215-220 | ` 12x` fails and leaves `12` in the buffer |
| AtBuffer.SevenReadAsSeventyTwo | src/nrf91/nrf91_at_commands.c:124-126 | the next response, ` 7`, is then read as 72 |
| AtBuffer.IndependentIffClean | src/nrf91/nrf91_at_commands.c:157-160 | parsing is independent of the past exactly when the buffer is clean |

## Left out

- Sockets, polling, network buffers and their reference counts, threads, LEDs, logging: calls into code that is not part of this model.
- The `lock` flag of `src/gateway.c`: its test and its set are separate, so it gives no mutual exclusion. Table calls, with the reading of the row they return, are atomic steps; the port search is modelled both as one step and comparison by comparison.
- PortMap.Table.Add: one atomic step, although a sweep by the other thread may come between its stores; what becomes of the row then is stated for the row alone (`PortTable.CutAddSurvivesIff`), not for whole runs.
- Late reads through a returned row pointer are not separate steps. `NatTheorems.MappingIsStable` says the row at that index stays the same for 20 s.
- The size checks in `__at_res_parse` (-9002) compare with sizes in bytes after the write; within capacity, which the parser requires, they never fire.
- AtParser.Atoi: integers are unbounded, because `atoi` outside the range of `int` has no defined result.
- Gateway.Device.EthReceive: the Internet header must lie in the first fragment, have at least five words if its checksum verifies, and the transport segment of an accepted packet must have room for the fields translated, because the code checks none of this and goes on to read or write other bytes. Frames rejected before that are covered whatever they hold.
- Gateway.Device.HandleIp: the same.
- Gateway.Device.ScreenOut: the same.
- Gateway.Device.ScreenIn: the header of an inbound packet must have at least five words if it passes, and the segment of an accepted one room for the fields translated.
- Gateway.Device.LteReceive: the same; the retry loop and transmission of `resolve_arp` after a cache miss are network I/O.
- The gateway's LTE address is one constant, used for `my_ip_addr` and `my_addr`; status flags of the modem are assumed to be on.
- `pmap_status`, `nrf91_util_htoa`, `nrf91_util_atoh` and the string comparison helpers: they would only add easy members.
- The unused functions `update_pmap_by_*` have the bodies of the corresponding searches and share their model; `remove_pmap_by_*` are modelled although nothing calls them.
- WireReads.AcceptedInIsRead: packets are described with their whole transport header. The code also accepts TCP segments of 18 or 19 bytes and ICMP messages of 6 or 7; for them the byte-level theorems hold (`RoundTrip.FrameToFrame`).
- WireReads.AcceptedOutIsRead: the same.
- UDP's convention of sending 0xFFFF for a checksum of 0, IP fragments, IP options and TCP state: the code has no cases for them.
- LTE connection handling and the AT command senders: modem I/O and timing.
