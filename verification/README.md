# Verified models of the MQTT broker's measurement and verification tools

The repository decides whether a benchmark rung, an audit stream or a test suite can be believed with a
set of Python tools. This project models the ones whose verdicts carry the weight, and proves what those
verdicts mean, for every input, every run and every interleaving.

- **MQTT framing and the packet reader** (`Framing`, `PacketStream`): the remaining-length codec of
  section 2.2.3 of MQTT 3.1.1, PUBLISH building and parsing, the incremental reader, the SUBSCRIBE
  handshake and the recording member.
- **The framed output stream** (`ChunkStream`): the emitter and its splitter.
- **The forwarding control** (`CanaryFlow`, `CanaryProtocol`, `CanaryInvariant`, `CanaryLedger`,
  `CanaryCompletes`): the pilot/burst protocol over N brokers as a step system with loss and
  redelivery, the invariant of all its runs, the counter ledger as imperative code, and what the ledger's
  pass means.
- **The crossing certificate** (`BrokerHistory`, `Certificate`, `CertificateTheorems`): broker processes
  that restart, counters that appear lazily, and what a certified counter delta says about them.
- **The measurement window** (`WindowTable`, `CpuRows`, `Rates`): the window table, times rebuilt across
  midnights, and rates bounded by scrape stamps.
- **The audit chain verifier** (`AuditChain`, `AuditVerify`, `AuditTheorems`): grouping, replay, gaps,
  closure; acceptance, tamper evidence and localisation.
- **The Rust surface lexer, block tree and `cfg` evaluator** (`SurfaceLexer`, `SurfaceSyntax`, `BlockTree`,
  `CfgPredicate`).
- **The identity ledger and the latency histograms** (`IdentityLedger`, `Histogram`).
- **The budget tree** (`Budgets`).

`Results` holds the option and result types, `Texts` what Python counts as white space and one text standing
inside another.

Code that works by changing things step by step is modelled by methods and classes with loops and
invariants, each proved against a specification function or property; pure code is modelled by functions.
`dafny verify dfyconfig.toml` checks the whole project.

## Where the code and what it promises differ

- The certificate is described as proving that one process answered both window scrapes. The PID is read
  before the scrape at each edge, so a restart between the close edge's PID reading and its scrape goes
  unseen. `CertificateTheorems.BoundWindow` gives the exact condition, the PID of the process that answers
  the close scrape, and `CertificateTheorems.RaceUnseen` a rung that passes the reset check and the certificate,
  receives in the window and reports a forwarded delta of zero although one message was forwarded. A restart
  can only make a delta too small.
- `split_stream` is described as the inverse of the emitter. The emitter also accepts a name that ends in a
  newline, and any content. `ChunkStream.SplitInvertsEmit` gives the exact condition and
  `ChunkStream.SplitCanFail` both ways it fails.
- `mpstat_rows` places rows correctly only while the first is in reach of the stream's start and each next
  one follows within a day; `CpuRows.RecoveredIff` is exact and `CpuRows.DayLost` shows a row placed a day early.
- `check` of the budget tree also reports a phase that is repeated no times, and does not report a phase without
  parts whose ceiling is negative; `Budgets.NeverRunIsReported` shows the first, and `Budgets.HoldsIff` is exact.
- `blank_noncode(strings=False)` is described as keeping string literals and blanking only comments. It takes what
  looks like a comment inside a literal for one; `SurfaceSyntax.BlankedIsKept` gives the exact condition and
  `SurfaceSyntax.StringCanBeLost` a string that is lost.
- The audit verifier is described as printing each violation. On a kept record whose head is not hex it raises
  where it resynchronises; `AuditVerify.Verify` says exactly when, and `AuditTheorems.AcceptedReadable` that it never
  does on a stream without a problem.

## Assumptions stated in the contracts

- Audit: no two of the inputs hashed in the streams under discussion collide, and digests have one size.
- Certificate: a broker's counters only rise while a process lives, start again at zero with a new process,
  and no PID is used twice; mqttd exports no process start time.
- Forwarding control: each pair's messages pass through the brokers in order; anything may be lost at a
  broker, on a link or on a socket, and at QoS 1 anything delivered may be sent again.

## Model

| member | source | states |
|---|---|---|
| Framing.EncodeRemainingLength | bench/scale/forward-canary.py:86-94 | succeeds exactly on 0 to 268435455, with one to four bytes, the base-128 digits of the length, low first |
| Framing.DecodePacket | bench/scale/forward-canary.py:136-154 | the byte loop computes the specified decoding: a packet, wait, or malformed |
| Framing.DecodePacketIff | bench/scale/forward-canary.py:136-154 | a packet is returned exactly when a frame with those parts stands at the front of the buffer |
| Framing.NeedMoreIff | bench/scale/forward-canary.py:136-154 | the decoder waits exactly on the proper prefixes of frames |
| Framing.MalformedIff | bench/scale/forward-canary.py:147-151 | it raises exactly when four length bytes in a row carry the continuation bit |
| Framing.DecodeStable | bench/scale/forward-canary.py:136-154 | once it does not wait, more bytes do not change its answer |
| Framing.RoundTrip | bench/scale/forward-canary.py:104-154 | for every body up to the limit and any tail, first byte, body and consumed length come back |
| Framing.ProperPrefixWaits | bench/scale/forward-canary.py:104-154 | every proper prefix of an encoded packet makes the decoder wait and never raises |
| Framing.PublishRoundTrip | bench/scale/forward-canary.py:117-164 | a PUBLISH is built exactly when its fields fit, and topic, payload and packet id come back at every QoS, whatever follows |
| Framing.PublishLayout | bench/scale/forward-canary.py:97-125 | where every field of a built PUBLISH stands: type and QoS in the first byte, the length field, topic length, topic, packet id above QoS 0, payload, two-byte numbers high byte first |
| Framing.ParsedIff | bench/scale/forward-canary.py:128-164 | any body at all parses exactly to the topic, payload and id laid out in it, and raises exactly when it ends before its payload |
| Framing.ParsedHasId | bench/scale/forward-canary.py:128-164 | a PUBLISH body that parses also yields its packet id, present exactly above QoS 0 |
| PacketStream.PacketReader.Read | bench/scale/forward-canary.py:184-211 | a read goes on exactly while buffer and bytes so far make no packet and no turn has ended it; it ends with stopped, deadline or closed exactly by what its last turn says, with a packet or a fault as soon as the bytes make one, and keeps every other byte |
| PacketStream.ReadIff | bench/scale/forward-canary.py:184-211 | that condition, stated from the polls alone, fixes outcome, buffer and number of turns: the reader has no other |
| PacketStream.PacketReader.ReadAll | bench/scale/forward-canary.py:184-211 | read after read until the connection ends or nothing more is polled, the packets, the rest of the buffer and the ending are those specified |
| PacketStream.ReadAgainstStream | bench/scale/forward-canary.py:184-211 | one read takes the next packet of buffer plus arriving bytes, or none, and loses no byte |
| PacketStream.ReadsAreTheStream | bench/scale/forward-canary.py:176-211 | for every chunking and every placing of timeouts, stops and deadlines, successive reads return exactly the packets of the byte stream in order, with the unparsed rest in the buffer |
| PacketStream.WireCut | bench/scale/forward-canary.py:136-211 | a stream of packets cut anywhere holds a prefix of them whole, then the start of the next, and nothing malformed |
| PacketStream.ReaderDelivers | bench/scale/forward-canary.py:176-211 | for every cutting of a packet stream, bytes received are the encodings returned followed by the buffer, nothing is reported malformed, and with all bytes in all packets are out |
| PacketStream.Conn.Subscribe | bench/scale/forward-canary.py:248-273 | publishes that race the SUBACKs are all set aside in order, and the outcome is that of the answers alone: right id, not refused, the QoS asked for |
| PacketStream.CheckSuback | bench/scale/forward-canary.py:260-272 | the chain of checks accepts exactly a three-byte SUBACK for this id at exactly the QoS asked for |
| PacketStream.Member.Record | bench/scale/forward-canary.py:299-312 | a parseable PUBLISH is appended to its topic and acknowledged at QoS 1 with its own id |
| PacketStream.Member.Run | bench/scale/forward-canary.py:314-329 | set-aside publishes first, then the reader's packets: recorded and counted exactly, an error exactly on a PUBLISH that does not parse |
| PacketStream.EarlyReplay | bench/scale/forward-canary.py:314-323 | replaying the set-aside publishes first loses none and keeps every topic's order and the order of acknowledgements |
| PacketStream.Subscriber | bench/scale/forward-canary.py:248-329 | subscribe then run: every topic's payloads, and from QoS 1 on the acknowledgements, are those of the whole packet stream, in order |
| PacketStream.SubscriberOnWire | bench/scale/forward-canary.py:176-329 | for every cutting of the bytes sent and every placing of timeouts and stops, a subscribed member's record holds every topic's payloads of a prefix of the packets sent, in order, and of all of them once all bytes are in; no error where every PUBLISH parses |
| PacketStream.BuiltIsDelivered | bench/scale/forward-canary.py:117-164 | a packet built for a message is a PUBLISH, parses, delivers that topic and payload, and is acknowledged with that id exactly above QoS 0 |
| PacketStream.SubscriberOfMessages | bench/scale/forward-canary.py:117-329 | from messages: however their bytes are cut, every topic's record is the payloads sent to it, in order, as far as they arrived, and from QoS 1 on each is acknowledged with its own id |
| ChunkStream.Emitter.Emit | bench/scale/forward-canary.py:385-394 | raises exactly on a name the pattern refuses; otherwise the framed chunk is appended, or the stream is marked broken and left alone from then on |
| ChunkStream.Emitter.EmitAll | bench/scale/forward-canary.py:376-394 | chunk after chunk onto a live stream gives their framed texts one after the other |
| ChunkStream.SplitStream | bench/scale/forward-canary.py:397-413 | the marker loop computes the specified splitting, errors included |
| ChunkStream.MarkIff | bench/scale/forward-canary.py:65-65 | the matcher finds exactly the marker lines, stated in characters, with their whole names |
| ChunkStream.SplitRaisesIff | bench/scale/forward-canary.py:400-405 | splitting raises exactly when something other than white space stands before the first marker line, or anywhere without one |
| ChunkStream.SplitIsSplittable | bench/scale/forward-canary.py:397-413 | whatever the text, the chunks it is split into have plain names and no marker line of their own |
| ChunkStream.SplitInvertsEmit | bench/scale/forward-canary.py:376-413 | splitting returns exactly the emitted chunks if and only if no name ends in a newline and no content line is a marker |
| ChunkStream.SplitCanFail | bench/scale/forward-canary.py:64-65 | the two ways it fails on accepted chunks |
| CanaryFlow.DeliveredIsOldest | bench/scale/forward-canary.py:568-577 | once a message is delivered, nothing older is left on its pair's way |
| CanaryFlow.PilotsAreThrough | bench/scale/forward-canary.py:568-578 | with pilot-end seen and no burst published, nothing of the pair is in flight and its tallies are zero |
| CanaryFlow.BurstIsThrough | bench/scale/forward-canary.py:582-595 | with burst-end seen, the whole burst was received, and what was not forwarded or delivered was lost at a broker |
| CanaryFlow.DistinctIff | bench/scale/forward-canary.py:470-473 | distinct sightings number the burst exactly when every message was seen |
| CanaryFlow.SeenMeansNotLost | bench/scale/forward-canary.py:582-595 | a burst seen whole was received, forwarded and delivered exactly, and lost nowhere |
| CanaryFlow.Sightings | bench/scale/forward-canary.py:782-791 | sightings are at least the distinct ones, and exactly those at QoS 0 |
| CanaryInvariant.EnvironmentKeeps | bench/scale/forward-canary.py:1491-1507 | every step of brokers and network, losses and redeliveries included, keeps order, tallies and counter accounts |
| CanaryInvariant.PublishKeeps | bench/scale/forward-canary.py:550-589 | every publish of the driver keeps them |
| CanaryInvariant.AdvanceKeeps | bench/scale/forward-canary.py:550-615 | every phase change and scrape keeps them: the pre scrape finds the pairs empty, the post scrape finds the burst through |
| CanaryInvariant.RunKeeps | bench/scale/forward-canary.py:494-615 | the invariant holds in every state of every run |
| CanaryInvariant.CompleteStays | bench/scale/forward-canary.py:614-617 | whatever happens after a run is complete, it stays so and its scrapes stay as taken |
| CanaryInvariant.EndsStay | bench/scale/forward-canary.py:614-617 | a run that is complete or has failed stays so under every step; giving up fails any other |
| CanaryInvariant.DeliveredAgain | bench/scale/forward-canary.py:782-791 | a delivered message may reach its member again, counted by the broker, exactly from QoS 1 on |
| CanaryInvariant.RunLit | bench/scale/forward-canary.py:550-567 | in every run, no pair goes past the pilots without having delivered one |
| CanaryInvariant.LitStays | bench/scale/forward-canary.py:554-566 | a pair that has delivered a pilot stays so and is sent no further one |
| CanaryLedger.WantPairsAre | bench/scale/forward-canary.py:758-758 | the listed pairs are exactly the directed pairs of the size |
| CanaryLedger.CheckRows | bench/scale/forward-canary.py:768-791 | no error exactly when every row names a pair of the size, no pair twice, with exact distinct sightings and no repeats at QoS 0 |
| CanaryLedger.CheckBroker | bench/scale/forward-canary.py:815-853 | no error exactly when all five deltas, the forwarding series and the links at both edges are as they must be |
| CanaryLedger.CheckBrokers | bench/scale/forward-canary.py:803-854 | no error exactly when every broker has both scrapes and passes; floors for exactly the brokers with both, from the post scrape |
| CanaryLedger.LedgerReport | bench/scale/forward-canary.py:729-864 | fail exactly when something is wrong with the evidence, otherwise pass, or local pass with one broker |
| CanaryLedger.NoQosIsZero | bench/scale/forward-canary.py:741-746 | a timeline without a QoS passes only with no message seen twice and every delivery count exact |
| CanaryLedger.ReceivedExactly | bench/scale/forward-canary.py:740-740 | in every complete run each broker received exactly the burst between its scrapes, whatever was lost later |
| CanaryLedger.CountersExact | bench/scale/forward-canary.py:822-846 | with every message seen, forwarding is exact, nothing was dropped, and delivery is exact at QoS 0 and at least that above |
| CanaryLedger.LedgerMeans | bench/scale/forward-canary.py:729-864 | on the evidence of any run the ledger passes if and only if the run completed, every member saw every burst message, and the mesh was whole at both scrapes of every broker |
| CanaryLedger.FloorsPositive | bench/scale/forward-canary.py:854-854 | a passing ledger's floors are the post scrape's counters, and positive |
| CanaryCompletes.MessageThrough | bench/scale/forward-canary.py:1491-1507 | from any state a due message can pass every stage, changing nothing else |
| CanaryCompletes.CanPass | bench/scale/forward-canary.py:494-615 | for every number of brokers and every burst there is a run whose evidence passes |
| BrokerHistory.SamePid | bench/scale/extract-lane-e.py:434-443 | two PID readings agree exactly when no restart came between them |
| BrokerHistory.CounterNames | bench/scale/extract-lane-e.py:186-186 | the names checked for a reset are exactly those with one of the four suffixes |
| BrokerHistory.SumPicks | bench/scale/extract-lane-e.py:134-147 | a sample counts for its family whatever its labels, and for a reason exactly when it has that reason |
| BrokerHistory.SumShown | bench/scale/extract-lane-e.py:134-147 | the sum over a scrape's series, absent ones reading zero, is the events of the process that answered |
| BrokerHistory.DeltaExactIff | bench/scale/extract-lane-e.py:192-193 | between two scrapes a positive sum grew by exactly what the broker performed if and only if one process answered both, and otherwise shows less |
| Certificate.Certify | bench/scale/extract-lane-e.py:562-616 | certifies exactly when links, control, floors at every label and PIDs are as demanded, with the right kind of certificate |
| Certificate.ValidateDeltas | bench/scale/extract-lane-e.py:181-189 | accepts exactly when no counter of any broker went down and no process start time changed |
| Certificate.ResetSeenIff | bench/scale/extract-lane-e.py:181-187 | two scrapes of a broker pass exactly when no counter stood lower at the second, whatever happened between |
| Certificate.StartTimeKept | bench/scale/extract-lane-e.py:188-189 | a process start time, where exported, must come again unchanged |
| CertificateTheorems.BoundMeans | bench/scale/extract-lane-e.py:562-616 | a bound certificate rules out a restart from the control's PID reading to the close edge's |
| CertificateTheorems.ControlFloors | bench/scale/forward-canary.py:854-854 | where the control's ledger passes, the floors it hands on are what the broker's process had counted at its post scrape, and positive |
| CertificateTheorems.DeltaMeans | bench/scale/extract-lane-e.py:673-679 | between any two labels of a rung certified against a passing control, received and forwarded deltas are what the broker performed if and only if it did not restart between them, and never more |
| CertificateTheorems.BoundWindow | bench/scale/extract-lane-e.py:562-679 | the window's deltas are what the broker performed if and only if the process at the close scrape has the certified PID; never too large |
| CertificateTheorems.CertifiedZero | bench/scale/extract-lane-e.py:562-679 | with that process at the close scrape, a forwarded delta of zero means nothing was forwarded in the window |
| CertificateTheorems.UnrestartedCertified | bench/scale/extract-lane-e.py:562-616 | brokers that live from the control to the last scrape are certified, and no pair of labels looks like a reset |
| CertificateTheorems.RaceUnseen | bench/scale/run-curve.sh:2516-2533 | a restart between the close edge's PID reading and its scrape, at both brokers: no pair of labels looks like a reset, the rung is certified, received grows, forwarded shows zero, and one message was forwarded |
| CertificateTheorems.UnboundRestart | bench/scale/extract-lane-e.py:582-585 | without a window a restart before the rung is certified as unbound |
| WindowTable.LoadWindow | bench/scale/extract-lane-e.py:383-450 | raises exactly on a table that is not usable: shape, repeats, stamps, both edges in order, one positive PID; otherwise the hosts returned are exactly those with both edges and the close after the open, with their rows' stamps, and the PIDs are the rows' own |
| CpuRows.MpstatRows | bench/scale/extract-lane-e.py:216-254 | one pass with a remembered time of day and day offset places every row where the reference does |
| CpuRows.RecoveredIff | bench/scale/extract-lane-e.py:247-253 | every row gets its true second, across any number of midnights, if and only if the first is in reach of the start and each next follows within a day |
| CpuRows.DayLost | bench/scale/extract-lane-e.py:247-253 | two rows exactly a day apart: the second is placed a day too early |
| CpuRows.StartIsInReach | bench/scale/extract-lane-e.py:248-249 | a first row from the stream's start to under 86399 seconds after it is in reach |
| CpuRows.KeptIff | bench/scale/extract-lane-e.py:257-267 | a row is kept exactly when every one-second interval it can stand for lies in the window |
| CpuRows.KeptIsTrue | bench/scale/extract-lane-e.py:216-267 | in reach, it is kept exactly when its true second cannot have sampled outside |
| CpuRows.WindowedIdle | bench/scale/extract-lane-e.py:257-267 | the idle figures are those of the kept rows, in order |
| Rates.TimedPoll | bench/scale/lane-e-evidence.py:610-657 | raises exactly on unreadable polls, a changed population, a reset or a span that cannot be divided by, whatever the saved stamps; otherwise each site has the sums of its endpoints' slowest and fastest rates |
| Rates.PerSecondIs | bench/scale/lane-e-evidence.py:648-655 | a rate times the seconds is the count |
| Rates.SteadyIff | bench/scale/lane-e-evidence.py:646-657 | steady if and only if there is an endpoint and, whenever within their stamps the readings happened, every site's true rate is within five percent of the offer |
| Rates.PollMeans | bench/scale/lane-e-evidence.py:636-657 | for two polls that can be compared, steady if and only if there is a subscriber and every true rate the two polls' stamps allow is within five percent of the offer |
| Rates.EndpointWindowIff | bench/scale/lane-e-evidence.py:59-65 | accepted if and only if the scrapes are in order and every possible true window is within two percent of the middle one |
| Rates.MiddleIsPossible | bench/scale/extract-lane-e.py:453-455 | the reported rate is one that the stamps allow |
| Rates.BandExact | bench/scale/extract-lane-e.py:697-710 | the brokers' band holds the reported rate and every rate the stamps allow, and both of its ends are allowed |
| AuditChain.LpInjective | scripts/audit-verify.py:42-44 | a length-prefixed field is read back unambiguously whatever follows |
| AuditChain.BigEndianAt | scripts/audit-verify.py:42-50 | each byte of a number by position, the highest first |
| AuditChain.StepLayout | scripts/audit-verify.py:47-57 | the hashed bytes by offset: head before, number, kind with its length, zero or one, subject with its length, detail with its length |
| AuditChain.GenesisLayout | scripts/audit-verify.py:35-39 | a boot's first head hashes the chain's name and version, spelt out, and the boot's name |
| AuditVerify.KindsSpelt | scripts/audit-verify.py:92-134 | the kinds that open and close a chain, as they are spelt |
| AuditChain.StepInputInjective | scripts/audit-verify.py:47-57 | two different records never hash the same bytes; an absent subject is not an empty one |
| AuditVerify.Replay | scripts/audit-verify.py:108-133 | the replay loop with its resynchronisation raises exactly when a record's head is not hex, and otherwise reports the specified problems and the last kind |
| AuditVerify.Verify | scripts/audit-verify.py:87-139 | grouping and checking boot after boot raises exactly when a kept record's head is not hex, and otherwise reports exactly the specified problems, in order; a head in other hex spelling is a mismatch |
| AuditTheorems.BuildGroups | scripts/audit-verify.py:89-95 | the table holds, for each boot named, the first record of every number and the last genesis record |
| AuditTheorems.BootsInOrder | scripts/audit-verify.py:89-97 | boots are checked in the order in which the stream first names them |
| AuditTheorems.ChainProblemsAre | scripts/audit-verify.py:107-133 | replay reports exactly the broken records and the maximal missing runs |
| AuditTheorems.GapsAreMissingRuns | scripts/audit-verify.py:110-123 | gaps are the maximal missing runs, each reported once |
| AuditTheorems.AcceptedIff | scripts/audit-verify.py:87-139 | no problem exactly when every boot named has a right genesis head, contiguous numbers from 0, heads that replay, and no record or a shutdown last |
| AuditTheorems.AcceptedReadable | scripts/audit-verify.py:122-131 | a stream without a problem never makes the verifier raise |
| AuditTheorems.DuplicateIgnored | scripts/audit-verify.py:94-95 | a record whose boot and number are present changes nothing, whatever it says |
| AuditTheorems.OrderIrrelevant | scripts/audit-verify.py:87-139 | reordering a stream without conflicting duplicates keeps the set of problems |
| AuditTheorems.TamperEvident | scripts/audit-verify.py:97-138 | two accepted streams with the same boot and the same final head agree on every number, kind, subject and detail |
| AuditTheorems.Localised | scripts/audit-verify.py:124-133 | altering one record's subject or detail in an accepted stream yields exactly one problem, a head mismatch there |
| AuditTheorems.ExportedAccepted | scripts/audit-verify.py:38-57 | every chain the broker writes and closes is accepted |
| SurfaceLexer.BlankNoncode | scripts/check-test-hygiene.py:127-198 | overwriting a character array with a moving index gives the specified blanking |
| SurfaceLexer.Hidden | scripts/check-test-hygiene.py:154-197 | each branch's own loop finds where its comment or literal ends |
| SurfaceLexer.MatchRaw | scripts/check-test-hygiene.py:123-123 | the loop over hashes finds a raw string's opening exactly where there is one, with its hashes |
| SurfaceLexer.FindRawEnd | scripts/check-test-hygiene.py:176-178 | the search ends after the first quote followed by as many hashes, or at the end of the text |
| SurfaceLexer.MatchChar | scripts/check-test-hygiene.py:124-124 | the loop finds the end of a character literal, plain or escaped, and none for a lifetime |
| SurfaceLexer.OffsetsPreserved | scripts/check-test-hygiene.py:127-198 | length is kept, newlines stay exactly where they were, characters change only to spaces |
| SurfaceLexer.NoQuoteLeft | scripts/check-test-hygiene.py:174-187 | no string quote is left |
| SurfaceLexer.NoCommentLeft | scripts/check-test-hygiene.py:154-171 | no comment opener is left, with strings blanked or kept |
| SurfaceLexer.LifetimeStays | scripts/check-test-hygiene.py:188-195 | a lifetime's quote does not become a character literal by blanking what follows |
| SurfaceLexer.BlankIdempotent | scripts/check-test-hygiene.py:127-198 | blanking a blanked text changes nothing, for every text and both modes |
| SurfaceSyntax.RemarkSkipped | scripts/check-test-hygiene.py:159-171 | a comment's inside, however nested, takes the scanner exactly to its own terminator |
| SurfaceSyntax.Recognised | scripts/check-test-hygiene.py:151-197 | a comment, string, raw string or character literal at an offset is hidden to its very end; no character of a name, raw name, lifetime or punctuation is hidden |
| SurfaceSyntax.BlankedIsShown | scripts/check-test-hygiene.py:127-198 | every text composed of names, raw names, lifetimes, punctuation, comments, strings, raw strings and character literals, told apart by their characters alone, is blanked to exactly its code |
| SurfaceSyntax.NothingToBlank | scripts/check-test-hygiene.py:172-173 | with strings kept, a text without anything that opens a comment comes back as it is |
| SurfaceSyntax.BlankedIsKept | scripts/check-test-hygiene.py:134-173 | with strings kept, a composed text loses exactly its comments if and only if no literal in it holds what would open one |
| SurfaceSyntax.StringCanBeLost | scripts/check-test-hygiene.py:134-140 | a string with two slashes, blanked from there on although strings are kept |
| BlockTree.Parse | scripts/check-test-hygiene.py:315-341 | the stack loop lists one block for every opening brace in order, with its matching close, header and parent, balanced or not |
| BlockTree.HeaderIs | scripts/check-test-hygiene.py:320-340 | a header is everything since the last brace or semicolon and holds none |
| BlockTree.ChainIsStack | scripts/check-test-hygiene.py:292-294 | the blocks around an offset are the stack of open braces there, outermost first |
| BlockTree.ParentIsPredecessor | scripts/check-test-hygiene.py:325-333 | in every chain each block's parent is its predecessor |
| BlockTree.NestedOrDisjoint | scripts/check-test-hygiene.py:321-341 | any two blocks are nested or disjoint |
| BlockTree.ChildrenAreDirect | scripts/check-test-hygiene.py:299-301 | the children of a block are those that open where it is innermost |
| BlockTree.BraceSpan | scripts/check-test-hygiene.py:1310-1324 | the counting loop returns the end of the first group at or after the start |
| BlockTree.BraceSpanIsBlock | scripts/check-test-hygiene.py:1310-1324 | counting braces finds the end the parser recorded |
| BlockTree.BraceSpanIsFirst | scripts/check-test-hygiene.py:1310-1324 | from any offset, the end of the first block that opens there or later, or of the text where none does |
| BlockTree.LineOf | scripts/check-test-hygiene.py:282-290 | the binary search returns one more than the newlines before the offset |
| CfgPredicate.SplitArgs | scripts/check-test-hygiene.py:1983-1994 | the depth-counting loop computes the specified arguments |
| CfgPredicate.SplitPrinted | scripts/check-test-hygiene.py:1983-1994 | the splitter finds printed arguments again, however nested |
| CfgPredicate.SettingRead | scripts/check-test-hygiene.py:1978-1979 | a printed setting is read back as its key and value |
| CfgPredicate.KeyValueIff | scripts/check-test-hygiene.py:1978-1979 | a key and value are found in any text exactly where a word, an equals sign and a quoted text stand at its front, white space between them |
| CfgPredicate.HostCfgIsValue | scripts/check-test-hygiene.py:1949-1994 | on every host the evaluator computes the Boolean value of every predicate from its text, padding included |
| IdentityLedger.Ledger | bench/scale/lane-e-evidence.py:145-172 | raises exactly on a missing, cut, impossible or repeating file; otherwise the table holds what the rows of the kind record and the total is their counts |
| IdentityLedger.Reconcile | bench/scale/lane-e-evidence.py:175-187 | each count, summed over topics, is the size of a difference of identities |
| IdentityLedger.TotalIff | bench/scale/lane-e-evidence.py:215-219 | a total never falls short of the identities, and equals them exactly when each was recorded once |
| IdentityLedger.ClosesIff | bench/scale/lane-e-evidence.py:215-219 | the ledger closes exactly when something was sent, each sent identity was recorded once across all rows, and sent, acked and received identities are equal |
| IdentityLedger.LossShows | bench/scale/lane-e-evidence.py:175-209 | duplicates are never negative and do not hide a loss: missing is positive exactly when a sent identity was not received |
| IdentityLedger.ReadLedgers | bench/scale/lane-e-evidence.py:190-220 | raises exactly on unusable files or a mismatch with the terminal counters; otherwise counts, totals, duplicates and closing mean the above |
| Histogram.Subtract | bench/scale/lane-e-evidence.py:125-142 | raises exactly on missing, different or reset buckets or ones that do not add up; otherwise the difference |
| Histogram.WindowHistogram | bench/scale/lane-e-evidence.py:125-142 | the difference of two cumulative histograms is accepted and is the histogram of the samples between them |
| Histogram.Merge | bench/scale/lane-e-evidence.py:535-555 | raises exactly when schemas differ; otherwise the sums are the histogram of all the subscribers' samples |
| Histogram.Percentile | bench/summarize.py:66-79 | the least bound among the buckets that reach the share, for buckets in any order; nothing without samples |
| Histogram.PercentileBounds | bench/summarize.py:74-78 | the reported bound is at least the true quantile, the element at the nearest rank of the samples in order, and a bucket bounds that quantile exactly when the reported bound does not exceed it |
| Histogram.QuantileExists | bench/summarize.py:74-78 | every non-empty list of samples has a nearest-rank quantile for every share |
| Histogram.QuantileUnique | bench/summarize.py:74-78 | and only one |
| Histogram.NeverFlatters | bench/scale/lane-e-evidence.py:77-82 | leaving out the fastest samples, however many, the reported bound still bounds the quantile of all samples |
| Histogram.ExcludingRaisesBound | bench/scale/lane-e-evidence.py:77-82 | the bound reported without the fastest samples is at least the one reported with them |
| Budgets.CheckMembers | bench/scale/budgets.py:368-369 | the nodes reported for a kind are exactly those of that kind, anywhere in the tree, that violate their budget |
| Budgets.CheckIff | bench/scale/budgets.py:161-175 | nothing is reported of either kind exactly when no node of the tree violates its budget |
| Budgets.CleanHolds | bench/scale/budgets.py:143-159 | executions have instants: parts one after another or all at once, repetitions one after another; where no node that is run violates its budget, from start to end every one takes at most its cost and no repetition exceeds its declared ceiling |
| Budgets.CeilingReaches | bench/scale/budgets.py:143-159 | in an execution where every phase takes all it may, every node takes at least its cost from start to end |
| Budgets.FullExecution | bench/scale/budgets.py:126-159 | from any instant on there is such an execution |
| Budgets.ViolationHappens | bench/scale/budgets.py:161-170 | a violating node that is run overruns its ceiling there |
| Budgets.NegativeOverruns | bench/scale/budgets.py:161-170 | a node run with a negative ceiling overruns it in every execution |
| Budgets.HoldsIff | bench/scale/budgets.py:143-170 | for every tree, every execution keeps every ceiling if and only if no node that is run violates its budget or has a negative one |
| Budgets.CheckMeans | bench/scale/budgets.py:368-369 | where no ceiling is negative an empty check rules out every overrun, and where every node is run at least once a report means an overrun is possible |
| Budgets.NeverRunIsReported | bench/scale/budgets.py:368-369 | a phase repeated no times is reported although it cannot overrun |

## Left out

- PacketStream.PacketReader.Read: sockets, threads and the clock are inputs; each wait is one poll with its outcome.
- PacketStream.Member.Run: payload text decoding and the locks around the record; packets arrive one at a time.
- PacketStream.SubscriberOnWire: the thread reads on until the given turns are used up; a stop ends it there, so what a stopped thread records is what the turns before the stop give.
- ChunkStream.Emitter.Emit: UTF-8 encoding of the text written; a write that fails part way is a limit on room.
- CanaryInvariant.RunKeeps: the wait for PUBACKs before the post scrape is only a chance to give up; pilots are numbered per pair, not per round, and the burst may interleave across pairs in any way.
- CanaryLedger.LedgerReport: the report's human-readable lines; files are read as parsed tables.
- CanaryLedger.LedgerMeans: no plain-subscriber forwarding happens in a run, since the control only uses shared subscriptions.
- Certificate.Certify: scrapes are parsed samples with integer values, hosts and labels already read.
- WindowTable.LoadWindow: hosts are their role and number, so spellings with leading zeros are not told apart; the widest bracket is not computed.
- Rates.TimedPoll: the state file, the history and the printed total; floating-point rounding throughout, since rates are exact.
- Rates.PollMeans: the saved poll's stamps are in order, as the tool wrote them; without that no reading fits them.
- AuditVerify.Verify: records without a boot or a head or outside the 64-bit number range, and hex decoding itself: a head is its bytes with whether it is spelt as the chain spells them, or not hex.
- AuditTheorems.Localised: a content change that happens to hash to the same digest is excluded by its premise.
- IdentityLedger.Ledger: base64 and hex parsing; a bitset is the set of its bits.
- Histogram.Percentile: the fixed list of three shares and the text around the bounds.
- CfgPredicate.HostCfgIsValue: atoms with commas or parentheses that the splitter would cut, which the code does cut; which characters above ASCII are letters is an input.
- SurfaceSyntax.BlankedIsShown: texts that end inside a comment or literal, and a name ending in `r` right before a hash or quote that is not its raw string (a reserved prefix in Rust), are not composed of pieces.
- `floor_check`, `gate_lines`, `balanced_span`, `_gaps`, `ingress_skew` and `core_saturation`: easy beside what is modelled.
- `load_canary`, `parse_prom`, `parse_snapshot`, `parse_records`: text and JSON parsing.
- The heuristics of the hygiene gate (wait vocabulary, skip wording, allow lists): deliberately incomplete.
- Charts, reports, dashboards, the run scripts and the fake and local clusters.
- The Rust broker itself: only what its tools observe of it is modelled.
