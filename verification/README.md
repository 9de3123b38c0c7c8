# Network threat engine: a verified model

A Dafny model of the engine between the network card and the alert database: the byte parsers that
take a captured frame apart, the table of flows, the detectors that watch each source address, the
suppression of repeated alerts, and the two queues that join the threads. `dafny verify dfyconfig.toml`
checks all of it.

Each piece of mutable state is a class, or a method with a cursor, and is proved against a simple
mathematical reading of what it has seen: a detector's few counters against the complete log of its
source, a parser's offsets against a grammar and a serialiser, a queue or table under many threads
against an atomic one. The theorems are then about those readings: over every log, every run, every
interleaving and every byte string.

| file | what it holds |
|---|---|
| `PortScan.dfy`, `PortScanRuns.dfy`, `PortScanGate.dfy`, `Ewma.dfy`, `EwmaRuns.dfy`, `SynFlood.dfy`, `SynFloodRuns.dfy` | the three window detectors and their theorems over whole logs and runs |
| `DetectorAnswers.dfy` | their exact answers, by counts, durations and products |
| `Suppression.dfy`, `AlertRules.dfy`, `RuleEffects.dfy`, `ThreatDetector.dfy` | withholding repeats; the simple rules; what one packet does to them; the detector that joins everything |
| `DnsExtractor.dfy`, `HttpExtractor.dfy`, `TlsExtractor.dfy` | the application-layer extractors and their round trips |
| `ParserAnswers.dfy`, `HttpAnswers.dfy` | their exact answers on arbitrary bytes |
| `Frames.dfy`, `FrameKinds.dfy`, `AddressText.dfy` | frame dissection; every kind of frame; addresses as text |
| `FlowKeys.dfy`, `TcpHistory.dfy`, `FlowRecords.dfy`, `RecordAnswers.dfy` | flow identity and hash; the TCP state machine; one flow's record; what its fields mean |
| `FlowTable.dfy`, `FlowTableSteps.dfy`, `FlowTableSweeps.dfy` | the flow table seen by one thread; the same table with updaters and the reaper interleaved; which flows a sweep spares |
| `RingBuffer.dfy`, `Delivery.dfy` | the packet queue and the alert queue, each as a class and as a step system |
| `NetTypes.dfy`, `RealProducts.dfy` | shared vocabulary; facts about products of reals |

Times and rates are exact reals and clocks never go backwards. A class keeps ghost fields (`logs`,
`absorbed`, `history`, `log`, `ruleLogs`) that record what it has seen; no result depends on them.

## What the proofs found

- A tumbling port-scan window keeps the promise of a rolling one up to a factor of two, and the factor
  is exact: with the ratio gate out of the way, 2N - 1 distinct ports within a window length are always
  reported against a threshold of N, and 2N - 2 can pass unreported (`DenseScansAreReported`,
  `SparseScansCanEscape`).
- The ratio gate breaks that promise even for scans that are nothing but SYNs, since other packets that
  opened an earlier window count against it. Every such scan is reported if and only if the ratio is 0 or
  less, or it is at most 1 and the threshold at most 1, or the threshold is out of reach of 65536 ports
  (`PureScansAreReportedIff`). The default, 20 ports and a ratio of 0.70, is not among these.
- Evicting an idle port-scan profile is invisible exactly when the threshold is at least 2 or the ratio
  gate is above 1. Evicting an idle EWMA profile is invisible exactly when it is past cold start, or the
  stale interval is zero; a profile evicted while cold changes later answers.
- Every long SYN flood at the configured rate is detected, wherever sweeps fall, if and only if 9 window
  lengths at that rate hold at least one packet; at slower rates sweeps in the pauses can hide one
  (`DetectsUnderSweepsIff`).
- A reopening packet that carries both SYN and FIN is not in the FIN count of the session it opens: the
  count restarts behind it (`TcpHistory.FinsFrom`).
- The longest label of a DNS name is found by the scan of the joined name exactly when some longest
  label holds no dot byte.
- A shutdown is missed exactly when its announcement falls between the consumer's check and its wait,
  and nothing has woken the consumer since (`ShutdownCanBeMissed`, `MissedIff`). That takes a flag stored
  in that gap, which the mutex would rule out. No notification of a push is ever lost.
- The reaper reads its clock before it gets the lock, and updaters read theirs before they get there. With
  one updater a flow seen at or after the reaper's reading is never evicted (`SweepSparesTheRecent`). With
  two it can be: a packet with an old time, absorbed after a newer one, sets the last-seen time back
  (`SweepCanEvictTheRecent`). A record is safe if and only if none of its packets is newer than the one
  absorbed last by more than its timeout (`RecentAreSparedIff`).
- Trailing bytes of an Ethernet frame are taken for payload, so a payload comes back unchanged exactly
  when there are none. Names in TLS and DNS and the fields of an HTTP request come back either way.

Where the code and its documentation differ, the model follows the code: port-scan windows tumble
(README.md:211 and include/Config.hpp call them rolling), the default EWMA constants are 0.125, 4 and 8
(README.md:204-206 says 0.15 and 5), a SYN flood is a rate and a fraction in one window (README.md:218-220
asks for an EWMA alarm and a ratio of 10 to 1), and SYN-flood profiles are evicted ten window lengths
after their window opened (the comment at include/SynFloodDetector.hpp:165 says two lengths of silence).

## Model

| member | source | states |
|---|---|---|
| `PortScanDetection.PortScanDetector.Inspect` | include/PortScanDetector.hpp:62-136 | the answer to a packet is the verdict on its source's whole log: distinct ports, SYN-only share and age of the tumbling window the packet falls into; a source rebuilt after eviction differs in the reported age only; all other sources are untouched |
| `PortScanDetection.PortScanDetector.EvictStale` | include/PortScanDetector.hpp:145-162 | exactly the profiles whose window opened more than two lengths ago go, and no source's log is forgotten |
| `DetectorAnswers.ScanAnswerIff` | include/PortScanDetector.hpp:83-136 | there is a report exactly when the open window holds the threshold of distinct ports and, with the gate on, its SYN-only packets are at least the ratio of its packets; ports, ratio and severity of the report in products of counts |
| `DetectorAnswers.ScanAgeIs` | include/PortScanDetector.hpp:70-81 | the reported age is the time since the window's opener, or a full window for a packet that opens one after another |
| `PortScanDetection.Accumulate` | include/PortScanDetector.hpp:70-93 | rolling the window and counting a packet keeps the profile equal to the summary of the log's open window |
| `PortScanDetection.ReportsAreRolling` | include/PortScanDetector.hpp:71-136 | no false report: whenever a packet is reported, a rolling window of the same length holds at least the threshold of distinct ports |
| `PortScanDetection.DenseScansAreReported` | include/PortScanDetector.hpp:71-136 | no scan missed by more than a factor of two: 2N - 1 distinct ports within less than a window length imply a report inside that span, given that the ratio gate, if on, lets through the open window and the window before it |
| `PortScanDetection.SynOnlyOpensBothGates` | include/PortScanDetector.hpp:104-115 | the gate lets both through when every packet since the previous window was opened is SYN-only and the ratio is at most 1 |
| `PortScanGate.PureScansAreReportedIff` | include/PortScanDetector.hpp:95-115 | every dense scan that is SYN-only throughout the span is reported in it, whatever came before, if and only if the ratio is at most 0, or it is at most 1 and the threshold at most 1, or the threshold exceeds half of all ports |
| `PortScanGate.GateCanHideScan` | include/PortScanDetector.hpp:104-115 | for every positive ratio and every other threshold: enough ACKs, then N SYNs, then N - 1 SYNs as the window expires are a pure dense scan of which nothing is reported |
| `PortScanDetection.SparseScansCanEscape` | include/PortScanDetector.hpp:74-102 | the factor is exact: for every threshold N >= 2 a chronological log with 2N - 2 distinct ports in one rolling window is never reported |
| `PortScanDetection.EarlyPortsInPreviousWindow` | include/PortScanDetector.hpp:74-81 | at most one reset falls into a span shorter than a window, so the ports before it were all held by one earlier window |
| `PortScanDetection.EvictionUnobservableIff` | include/PortScanDetector.hpp:145-162 | the answer to a source rebuilt after eviction is the one an uninterrupted profile would give, on every log, if and only if the threshold is at least 2 or the ratio gate is above 1 |
| `PortScanRuns.MakeCalls` | include/PortScanDetector.hpp:62-162 | under that condition, over every run in order of time, with sweeps made anywhere, all answers are the verdicts on the inspections alone |
| `PortScanRuns.SweepsDoNotMatter` | include/PortScanDetector.hpp:145-162 | logs and answers owed are the same for a run and for its inspections without the sweeps |
| `EwmaDetection.EwmaEngine.Update` | include/EWMAEngine.hpp:71-169 | the answer to a packet is the score of the window it completes against the weighted average of the windows since the last seed of its source's whole log; none while the window is open or seeds the baseline |
| `DetectorAnswers.VolumeAnswerIff` | include/EWMAEngine.hpp:99-160 | there is an answer exactly when a window after the seed is complete and its packets reach the medium multiple of baseline or floor over its duration, High from the high multiple on; all five numbers of the answer as products |
| `EwmaRuns.WindowsSplitTheLog` | include/EWMAEngine.hpp:78-166 | since the last stale reset, every packet and byte is in exactly one window, completed or open, and the windows follow one another without a gap |
| `EwmaDetection.EwmaEngine.EvictStaleProfiles` | include/EWMAEngine.hpp:194-213 | exactly the profiles silent for more than twice the stale interval go; only sources still cold lose their history |
| `EwmaDetection.EwmaEngine.BaselineOf` | include/EWMAEngine.hpp:172-178 | the queried baseline is the average of the source's window rates since its seed, 0 for an unknown source |
| `EwmaDetection.CloseWindow` | include/EWMAEngine.hpp:108-168 | seeding, blending, scoring against the previous baseline and resetting the window amount to one more window of history |
| `EwmaDetection.BaselineClosedForm` | include/EWMAEngine.hpp:117-135 | with n windows after the seed, the baseline is (1-a)^n times the seed plus the sum of a(1-a)^(n-i) times the i-th rate |
| `EwmaDetection.BaselineBounded` | include/EWMAEngine.hpp:126-135 | the baseline lies between the smallest and the largest window rate since the seed |
| `EwmaDetection.SteadyTrafficIsQuiet` | include/EWMAEngine.hpp:137-160 | no result while all rates lie in a band whose top is below the medium multiple of its bottom, or of the floor if that is higher |
| `EwmaDetection.BaselineAfterStep` | include/EWMAEngine.hpp:132-133 | k windows of one rate, whatever their lengths and bytes, leave the old baseline a weight of exactly (1-a)^k |
| `EwmaDetection.StepFades` | include/EWMAEngine.hpp:137-160 | a step of any height, in any windows of that rate, cannot reach a multiple m of the baseline once m(1 - (1-a)^k) >= 1 |
| `EwmaDetection.StepAlertsAtMostThrice` | include/Config.hpp:61-77 | with the default constants a step from a positive baseline to any windows of one rate raises at most three alerts, at most one of them High, however long it lasts |
| `EwmaRuns.AnswersAreAlerts` | include/EWMAEngine.hpp:99-168 | over a log without a stale reset, the packets answered with an alert are exactly the windows that score as one |
| `EwmaRuns.StepAnswersAtMostThrice` | include/EWMAEngine.hpp:71-169 | with the default constants, at most three packets of a log, at most one of them with High, are answered with an alert after a seeded source steps to a constant window rate, as long as no stale reset comes between |
| `EwmaDetection.BaselinesArePositive` | include/EWMAEngine.hpp:96-122 | every baseline met in a run is positive |
| `EwmaDetection.WarmPastIsIrrelevant` | include/EWMAEngine.hpp:82-91 | past cold start, a source silent for longer than the stale interval is read as if its past had never happened |
| `EwmaDetection.ColdEvictionShows` | include/EWMAEngine.hpp:82-122 | for every source still cold there is a future run in which having evicted it changes an answer |
| `EwmaDetection.EvictionUnobservableIff` | include/EWMAEngine.hpp:194-213 | dropping an idle profile changes no later answer if and only if its source is past cold start or the stale interval is zero |
| `SynFloodDetection.SynFloodDetector.Inspect` | include/SynFloodDetector.hpp:62-142 | the answer to a packet is the evaluation of the window it completes over the log its source's profile has counted, none while the window is open |
| `DetectorAnswers.FloodAnswerIff` | include/SynFloodDetector.hpp:72-141 | there is an answer exactly when the window is complete and its SYN-only packets reach the rate over its duration and the configured share of its packets, Critical from five times the rate on; its numbers as products and counts |
| `SynFloodDetection.SynFloodDetector.EvictStale` | include/SynFloodDetector.hpp:165-182 | exactly the profiles whose window opened more than ten lengths ago go, and their logs with them |
| `SynFloodDetection.SynFloodDetector.LifetimeSynRatio` | include/SynFloodDetector.hpp:151-163 | the lifetime ratio is the SYN-only share of everything the live profile has counted |
| `SynFloodDetection.FloodWindowsCloseInTime` | include/SynFloodDetector.hpp:88-114 | under a flood with every gap at most 1/rate, a window is evaluated less than window + 1/rate seconds after it opened |
| `SynFloodDetection.FloodClosesAreReported` | include/SynFloodDetector.hpp:97-141 | every window close of such a flood returns a result |
| `SynFloodDetection.FloodIsDetected` | include/SynFloodDetector.hpp:62-142 | guaranteed detection: once a flood that started the log has lasted a window length there is always a report less than a window length old |
| `SynFloodDetection.FloodAfterAnythingIsDetected` | include/SynFloodDetector.hpp:62-142 | the same after any past, for a profile that no sweep removes meanwhile: two window lengths and a gap into a flood there is always such a report, whatever the source sent before |
| `SynFloodRuns.MakeCalls` | include/SynFloodDetector.hpp:62-182 | over every run in order of time of one source's packets and sweeps, the answers are the verdicts on what its live profile has counted, which a sweep ends when the window is ten lengths old |
| `SynFloodRuns.FloodSurvivesSweeps` | include/SynFloodDetector.hpp:165-182 | no sweep removes the profile during a flood whose gaps are at most nine windows |
| `SynFloodRuns.DetectsUnderSweepsIff` | include/SynFloodDetector.hpp:62-182 | with a ratio of at most 1: every flood of two windows and a gap is detected, whatever the past and wherever sweeps fall, if and only if 9 times window times rate is at least 1 |
| `SynFloodDetection.ReportIsWitnessed` | include/SynFloodDetector.hpp:97-141 | each result counts SYN-only packets logged since its window opened, at least rate times age of them, and at least the configured fraction of the packets |
| `Suppression.LastFiredDecides` | src/ThreatDetector.cpp:11-22 | remembering only the last firing of a pair decides whether any firing of it is less than s seconds old |
| `Suppression.FiredIsGreedy` | src/ThreatDetector.cpp:30-42 | over every run, the firing times of a pair are the greedy selection from its detection times |
| `Suppression.GreedyIsSpacedAndCovers` | src/ThreatDetector.cpp:11-22 | fired alerts are at least s apart, and every detection has a fired one at or less than s before it |
| `Suppression.GreedyIsLargest` | src/ThreatDetector.cpp:11-22 | no selection of detections with that spacing is larger |
| `Suppression.SpanHoldsFew` | src/ThreatDetector.cpp:11-22 | a span of length T holds at most floor(T/s) + 1 alerts of one pair |
| `Suppression.TotalIsSumOverPairs` | src/ThreatDetector.cpp:77-82 | the number of alerts fired is the sum over all pairs of source and kind |
| `Suppression.FiringIsDetermined` | src/ThreatDetector.cpp:30-42 | the detections alone determine which of them fire |
| `AlertRules.KeptBooksAreGreedy` | src/ThreatDetector.cpp:30-42 | in every state of a detector: its alerts of one pair are the greedy ones, spaced, covering, and as many as possible, and so many of that pair were sent |
| `AlertRules.EnterKeeps` | src/ThreatDetector.cpp:77-82 | sending an alert exactly when its pair is clear keeps suppression exact, the count equal to the alerts sent, and the alerts sent equal to those fired, in order |
| `AlertRules.SuspiciousIffLongLabel` | src/ThreatDetector.cpp:169-181 | on a name joined from dot-free labels the tunnelling rule fires exactly when the name or one of its labels is too long |
| `AlertRules.RulesKeepTracked` | src/ThreatDetector.cpp:138-245 | one packet through the rules keeps every stored window equal to the run of all packets that reached it: guesses per source and port, payloads per source, and the TXT questions that reach the rate window |
| `AlertRules.StoredGuesses` | src/ThreatDetector.cpp:141-163 | a stored brute-force window holds exactly the guesses since its opener, all less than a second after it |
| `AlertRules.StoredQuestions` | src/ThreatDetector.cpp:191-214 | the same for the TXT questions of a source that reach the rate window (those whose suspicious name fires an alert do not), timed from the epoch until the first window closes |
| `AlertRules.BruteForceIsWitnessed` | src/ThreatDetector.cpp:142-160 | a brute-force alert rests on at least rate times duration guesses logged since the window opened, over at least a second |
| `AlertRules.TxtAlertIsWitnessed` | src/ThreatDetector.cpp:191-211 | a TXT alert rests on as many questions logged since its window opened |
| `AlertRules.SteadyGuessingIsReported` | src/ThreatDetector.cpp:138-164 | guessing that never pauses longer than 1/rate is reported on a packet if and only if that packet comes a second or more after the window's start |
| `AlertRules.StoredBytes` | src/ThreatDetector.cpp:217-227 | the bytes of all reported windows and of the stored one add up to every payload byte the source has sent |
| `ThreatDetection.ThreatDetector.Inspect` | src/ThreatDetector.cpp:247-275 | one packet: it is logged with exactly the engines and rules it concerns, and for every source and kind exactly the alert its verdict or window calls for is sent, when that pair is clear, and no other; an invalid packet or one without a source changes nothing |
| `RuleEffects.RulesAreExact` | src/ThreatDetector.cpp:91-275 | in terms of the packet: guesses are logged at sensitive ports only, bursts with a payload, TXT questions unless their name has just raised an alert; kind, severity, endpoints and numbers of each of the six alerts, by products; other sources stay untouched |
| `RuleEffects.BruteForceEffect` | src/ThreatDetector.cpp:138-164 | an alert is due exactly for a packet to a sensitive port a second or more after its window opened whose count reaches the rate over that time, Critical from three times the rate on |
| `RuleEffects.DnsEffect` | src/ThreatDetector.cpp:166-215 | at most one alert: for a long name or label, or else for a counted TXT question that finds the rate reached |
| `RuleEffects.ExfilEffect` | src/ThreatDetector.cpp:217-245 | an alert is due exactly for a payload that completes a window of a second or more at 5 MB per second, High from 20 on |
| `ThreatDetection.ThreatDetector.IsSuppressed` | src/ThreatDetector.cpp:30-37 | an alert is withheld exactly when an alert of its source and kind fired less than the interval ago |
| `ThreatDetection.ThreatDetector.Fire` | src/ThreatDetector.cpp:77-82 | firing appends the alert, counts it once, remembers it for its pair only, and keeps the gate invariant |
| `ThreatDetection.ThreatDetector.CheckBruteForce` | src/ThreatDetector.cpp:138-164 | the brute-force window of that source and port takes one step; an alert is due exactly when a closing window reaches the rate |
| `ThreatDetection.ThreatDetector.CheckDnsTunneling` | src/ThreatDetector.cpp:166-215 | a suspicious name whose alert fires ends the rule; otherwise a TXT question takes one step of the rate window |
| `ThreatDetection.ThreatDetector.CheckDataExfiltration` | src/ThreatDetector.cpp:217-245 | the byte window takes one step including this payload; an alert is due exactly from the medium rate on |
| `ThreatDetection.ThreatDetector.EvictStaleState` | src/ThreatDetector.cpp:84-89 | eviction touches the engines only: suppression, rule windows and books stay |
| `ThreatDetection.GateFires` | src/ThreatDetector.cpp:38-42 | recording a firing keeps the table equal to the last firing of every pair |
| `DnsExtractor.ExtractDns` | src/ProtocolDissector.cpp:461-521 | the loop over labels yields exactly what the grammar of labels yields, on every payload |
| `ParserAnswers.DnsAnswerIff` | src/ProtocolDissector.cpp:461-521 | on arbitrary bytes: a name, type and direction are returned exactly when they are spelled in the payload, labels of 1 to 191 bytes one behind the other up to a zero byte, the end, or 128 labels |
| `DnsExtractor.DecodeName` | src/ProtocolDissector.cpp:482-506 | cursor, hop count and dotted name follow the label grammar, giving up on compression pointers and on labels that run past the end |
| `DnsExtractor.DnsRoundTrip` | src/ProtocolDissector.cpp:461-521 | for every legal name and header the extractor returns the dot-joined name, QTYPE and QR bit of the encoded message, whatever follows the question |
| `DnsExtractor.FewLabels` | include/Config.hpp:229 | 255 octets allow at most 127 labels, so the limit of 128 hops never bites on a legal name |
| `DnsExtractor.LongestLabel` | src/ThreatDetector.cpp:169-178 | the scan returns the length of the longest dot-free stretch of the name |
| `DnsExtractor.ScanFindsLongestLabel` | src/ThreatDetector.cpp:169-178 | on a joined name it recovers the longest wire label if and only if some longest label holds no dot |
| `HttpExtractor.ExtractHttp` | src/ProtocolDissector.cpp:524-618 | the nested loops yield exactly the method, target and host of the line grammar, on every payload |
| `HttpAnswers.RequestIff` | src/ProtocolDissector.cpp:528-560 | on arbitrary bytes: there is a request exactly when the payload has sixteen bytes and begins with one of nine methods and a space; the target reaches to the next space or the end |
| `HttpAnswers.Words` | src/ProtocolDissector.cpp:531-533 | the nine methods and the Host prefix, byte by byte |
| `HttpAnswers.HostIff` | src/ProtocolDissector.cpp:562-609 | the host is what stands behind the first line that begins with `Host: `, up to the end of that line, and empty exactly without such a line before an empty one or with nothing on it |
| `HttpExtractor.FindHost` | src/ProtocolDissector.cpp:562-609 | the line-skipping loop stays at line starts or past the end and returns the value of the first Host line before an empty one |
| `HttpExtractor.HostIsALine` | src/ProtocolDissector.cpp:574-609 | on arbitrary bytes, a non-empty host is what follows `Host: ` at the start of a line up to that line's end, and no line before it is empty or starts so |
| `HttpExtractor.HttpRoundTrip` | src/ProtocolDissector.cpp:524-618 | for every request of a request line, CRLF-free header lines, an empty line and any body: method, target and the value of the first line beginning exactly `Host: `, empty if none |
| `TlsExtractor.ExtractTls` | src/ProtocolDissector.cpp:621-755 | the cursor and the two nested loops yield exactly the first host_name of the vector grammar, on every payload |
| `ParserAnswers.ExtensionsIff` | src/ProtocolDissector.cpp:626-698 | on arbitrary bytes, by absolute offsets: exactly when every length up to the extensions is in bounds of payload, record and message are extensions looked through, and which bytes they are |
| `ParserAnswers.SniIff` | src/ProtocolDissector.cpp:700-754 | extensions yield a name exactly when they begin with others, then hold one of type server name whose list begins with entries of other types and then one for that name |
| `ParserAnswers.HostNameIff` | src/ProtocolDissector.cpp:725-749 | a server name list yields a name exactly when it begins with entries of other types and then one of type host_name for it |
| `TlsExtractor.WalkExtensions` | src/ProtocolDissector.cpp:700-754 | the outer loop finds the first server name extension within the extensions |
| `TlsExtractor.WalkServerNames` | src/ProtocolDissector.cpp:714-750 | the inner loop finds the first host_name entry within the list |
| `TlsExtractor.NameLiesInExtensions` | src/ProtocolDissector.cpp:692-749 | on arbitrary bytes, a returned name is a contiguous piece of the extensions, which lie within handshake message and payload |
| `TlsExtractor.AppendingKeepsTheName` | src/ProtocolDissector.cpp:626-755 | bytes appended to a payload that yields a name never change the result |
| `TlsExtractor.TlsRoundTrip` | src/ProtocolDissector.cpp:621-755 | for every ClientHello in one record, with any session id, cipher suites, compression methods and extensions and anything behind it: the first host_name of the first server name extension and the record version, none if there is none |
| `AddressText.Ipv4RoundTrip` | src/ProtocolDissector.cpp:102-111 | parsing the dotted decimal text gives back all 2^32 addresses, and the text fits its buffer |
| `AddressText.PrintIpv6` | src/ProtocolDissector.cpp:113-172 | the printing loops produce the groups with their leftmost longest zero run replaced |
| `AddressText.FindZeroRun` | src/ProtocolDissector.cpp:123-145 | the scan finds a longest run of zero groups, the leftmost of these |
| `AddressText.WriteGroups` | src/ProtocolDissector.cpp:152-171 | the writer loop produces the groups before the run, the double colon and the groups behind it, with colons only between groups |
| `AddressText.Ipv6RoundTrip` | src/ProtocolDissector.cpp:113-172 | parsing the text by section 2.2 of RFC 4291 gives back all 2^128 addresses |
| `AddressText.TextIsCanonical` | src/ProtocolDissector.cpp:123-171 | the run left out is the leftmost longest, a double colon appears exactly when two neighbouring groups are zero, and groups have no leading zeros (sections 4.1, 4.2.2 and 4.2.3 of RFC 5952) |
| `AddressText.TextAndAddressAgree` | src/FlowTracker.cpp:39-54 | within each family the strings that key the detectors and the 128-bit addresses that key the flow table distinguish exactly the same sources |
| `Frames.Dissect` | src/ProtocolDissector.cpp:180-458 | reading at absolute offsets, in bounds, yields exactly what peeling header after header yields, with the same truncated and valid marks, on every frame |
| `Frames.PayloadIsSuffix` | src/ProtocolDissector.cpp:255-345 | whatever the frame, the payload handed to an extractor is its tail |
| `Frames.EthernetRoundTrip` | src/ProtocolDissector.cpp:193-220 | addresses and type come back from every Ethernet header, with one 802.1Q tag or none |
| `Frames.Ipv4LayerRoundTrip` | src/ProtocolDissector.cpp:222-256 | every IPv4 header with any legal options and fragmentation bits comes back, and the rest is what follows the options |
| `Frames.Ipv6LayerRoundTrip` | src/ProtocolDissector.cpp:356-383 | the same for the fixed IPv6 header; the reported total length is kept in sixteen bits |
| `Frames.TcpRoundTrip` | src/ProtocolDissector.cpp:259-291 | every TCP header with any legal data offset comes back: ports, sequence numbers, flags, window and payload |
| `FrameKinds.Udp4FrameRoundTrip` | src/ProtocolDissector.cpp:316-345 | a datagram over IPv4 comes back whole, with its payload on any ports and any trailing bytes, and DNS read on port 53 only |
| `FrameKinds.Udp6FrameRoundTrip` | src/ProtocolDissector.cpp:422-443 | over IPv6 its payload is kept on port 53 only |
| `FrameKinds.DnsOverTcp` | src/ProtocolDissector.cpp:293-298 | a segment on port 53 is read as DNS from its first byte on over IPv4, and not over IPv6 |
| `FrameKinds.Icmp4Frame` | src/ProtocolDissector.cpp:346-353 | protocols other than TCP and UDP over IPv4: ICMP or other, without payload |
| `FrameKinds.Icmp6Frame` | src/ProtocolDissector.cpp:444-447 | the same over IPv6, where others leave no trace |
| `FrameKinds.OtherFrame` | src/ProtocolDissector.cpp:450-457 | ARP is valid without more; any other type is not valid |
| `FrameKinds.ValidIff` | src/ProtocolDissector.cpp:190-256 | on arbitrary bytes: valid exactly when a complete network header of the frame's type is there |
| `FrameKinds.TruncatedIff` | src/ProtocolDissector.cpp:193-322 | on arbitrary bytes: truncated exactly when a header that should be there does not fit or claims too small a size; over IPv6 transport headers are not among them |
| `Frames.Tcp4FrameRoundTrip` | src/ProtocolDissector.cpp:180-315 | a whole IPv4/TCP frame comes back, dispatched by port; trailing bytes count as payload |
| `Frames.Tcp6FrameRoundTrip` | src/ProtocolDissector.cpp:356-421 | the same over IPv6, with printed addresses that parse back |
| `Frames.SniFromFrame` | src/ProtocolDissector.cpp:293-303 | a ClientHello in an IPv4 frame with the HTTPS port at either end, and that of DNS at neither, yields exactly the name it asks for, padded or not |
| `Frames.SniFromFrame6` | src/ProtocolDissector.cpp:409-413 | the same over IPv6, where DNS over TCP is not looked for |
| `Frames.DnsFromFrame` | src/ProtocolDissector.cpp:316-344 | a DNS message in a datagram over IPv4 with the DNS port at either end yields name, type and direction of its question, padded or not |
| `Frames.DnsFromFrame6` | src/ProtocolDissector.cpp:422-443 | the same over IPv6 |
| `Frames.RequestFromFrame` | src/ProtocolDissector.cpp:304-313 | an HTTP request in an IPv4 frame with the ports of DNS and HTTPS at neither end yields method, target and host, padded or not |
| `Frames.RequestFromFrame6` | src/ProtocolDissector.cpp:409-418 | over IPv6 it does so with the HTTP port at either end, and nothing otherwise, when the HTTPS port is at neither |
| `FlowKeys.KeysIdentifyConversations` | include/FlowKey.hpp:51-83 | two keys are equal if and only if protocol and unordered pair of endpoints agree |
| `FlowKeys.Hash` | include/FlowKey.hpp:138-166 | the byte loops compute FNV-1a modulo 2^64 over the 37 bytes of the key |
| `FlowKeys.KnownHashes` | include/FlowKey.hpp:142-156 | offset and prime: the published FNV-1a hashes of no bytes and of one |
| `FlowKeys.KeyBytesAre` | include/FlowKey.hpp:158-162 | the order of the mixed bytes |
| `FlowKeys.XorInIsMachineXor` | include/FlowKey.hpp:153 | the modelled xor step on numbers is the xor of the 64-bit word and the byte they stand for |
| `FlowKeys.MixAllInjective` | include/FlowKey.hpp:148-156 | mixing in the same bytes keeps different states different: each round is a bijection |
| `FlowKeys.NeighboursSeparate` | include/FlowKey.hpp:148-156 | byte strings that differ within two neighbouring positions never collide |
| `FlowKeys.KeysOneByteApart` | include/FlowKey.hpp:138-166 | keys that differ in exactly one of the mixed bytes never collide |
| `FlowKeys.PortSweepNeverCollides` | include/FlowKey.hpp:138-166 | keys that differ in a single port never collide |
| `FlowKeys.KeyBytesInjective` | include/FlowKey.hpp:158-162 | the mixed bytes determine the key |
| `TcpHistory.StateIsLongestMatch` | include/FlowRecord.hpp:134-239 | the state tells exactly how much of SYN, SYN+ACK, ACK, FIN, FIN+ACK has occurred in order since the session opened, unless a reset has closed it |
| `TcpHistory.SynReceivedIsEvidence` | include/FlowRecord.hpp:189-198 | SYN_RECEIVED implies a SYN and then a SYN+ACK since the last reopening |
| `TcpHistory.EstablishedIsEvidence` | include/FlowRecord.hpp:200-206 | ESTABLISHED implies a pure ACK after those |
| `TcpHistory.FinWaitIsEvidence` | include/FlowRecord.hpp:208-213 | FIN_WAIT implies a FIN after those |
| `TcpHistory.ClosedIsEvidence` | include/FlowRecord.hpp:173-178 | CLOSED implies a reset or two different FIN packets since the last reopening |
| `TcpHistory.HandshakesAreSparse` | include/FlowRecord.hpp:200-206 | 4 times the completed handshakes is at most packets + 1 |
| `TcpHistory.FlagsSeenIsUnion` | include/FlowRecord.hpp:138 | a bit is accumulated if and only if some packet ever carried it |
| `FlowRecords.FlowRecord.AdvanceTcpState` | include/FlowRecord.hpp:134-239 | state and all flag counters are functions of the flag history with this packet appended; true exactly when the state changed |
| `FlowRecords.FlowRecord.UpdateRecord` | src/FlowTracker.cpp:108-149 | every field of the record is a function of the packets it has absorbed, which grow by this one |
| `FlowRecords.CountsPush` | include/FlowRecord.hpp:145-169 | how each flag count that makes up the record's fields grows: by exactly its own packets from the reopening SYN onward (FIN: from behind it), restarting there |
| `RecordAnswers.FlagFieldsAre` | include/FlowRecord.hpp:140-169 | the record's flag counters are the numbers of packets with those bits since the session started; pushes since ever, FINs from behind a reopening packet |
| `RecordAnswers.SessionStartIs` | include/FlowRecord.hpp:222-234 | the session starts with the last SYN without ACK or RST that found the connection closed, or with the first packet |
| `RecordAnswers.HandshakesAre` | include/FlowRecord.hpp:200-206 | completed handshakes are exactly the pure ACKs without RST that found a SYN answered |
| `RecordAnswers.ScanWindowIs` | src/FlowTracker.cpp:129-138 | the contacted ports are exactly those of the packets since the window's opener, all less than ten seconds after it |
| `RecordAnswers.SynWindowIs` | src/FlowTracker.cpp:139-148 | the SYN window counts exactly the SYN-only packets since its opener, all less than a second after it |
| `RecordAnswers.PacketsAre` | src/FlowTracker.cpp:115-124 | each direction counts exactly its own packets |
| `RecordAnswers.BytesPush` | src/FlowTracker.cpp:115-124 | a packet adds its bytes to its own direction and nothing to the other |
| `RecordAnswers.DirectionIs` | src/FlowTracker.cpp:74-75 | a packet counts as low to high exactly when it comes from the key's low address, and always between equal addresses |
| `FlowRecords.DirectionsAddUp` | src/FlowTracker.cpp:113-124 | total packets and bytes are the sums of the two directions |
| `FlowRecords.SynRatioInUnit` | include/FlowRecord.hpp:146-149 | the SYN-only share of a record's packets lies between 0 and 1 |
| `FlowRecords.ContactedPortsAreEnds` | src/FlowTracker.cpp:129-138 | contacted ports are ends of the flow, only the high end when the addresses differ |
| `FlowTable.FlowTracker.Update` | src/FlowTracker.cpp:56-106 | find or insert: the packet is absorbed by the record of its own key and no other; no record is made in a full table |
| `FlowTable.FlowTracker.EvictExpiredFlows` | src/FlowTracker.cpp:200-227 | exactly the expired flows go, each counted once |
| `FlowTable.ExpiredIff` | src/FlowTracker.cpp:207-212 | a flow is expired exactly when idle for longer than the timeout of its protocol, or a closed TCP flow for longer than five seconds |
| `FlowTableSteps.NextInv` | src/FlowTracker.cpp:78-105 | every step of updaters and reaper keeps exclusion, counts, filing and the correspondence with the atomic table |
| `FlowTableSteps.RunsAreLinearizable` | src/FlowTracker.cpp:78-105 | every interleaving refines an atomic find-or-insert table with evictions |
| `FlowTableSteps.CountersAtRest` | src/FlowTracker.cpp:200-227 | whenever nobody holds the exclusive lock: active = size of the table, at most the limit, and created = active + evicted |
| `FlowTableSteps.EveryUpdateAnsweredOnce` | src/FlowTracker.cpp:56-106 | for every packet and time: it has been answered as often as it arrived, less the updates with it under way; none is answered twice or in place of another |
| `FlowTableSteps.NeverCreatedTwiceWhileLive` | src/FlowTracker.cpp:88-102 | between two creations of a key its first record was evicted |
| `FlowTableSteps.RecordsHoldTheirPackets` | src/FlowTracker.cpp:78-105 | a live record holds exactly the packets answered for its key since its insertion, in order |
| `FlowTableSweeps.RecentAreSparedIff` | src/FlowTracker.cpp:200-213 | a record is safe from every sweep whose clock it has been seen at or after, if and only if none of its packets is newer than the last one absorbed by more than its timeout |
| `FlowTableSweeps.EvictedWereOld` | src/FlowTracker.cpp:200-213 | in every legal history a flow is evicted only when idle, and then all its packets are older than the sweep's clock if the last one was recent in that sense |
| `FlowTableSweeps.SweepSparesTheRecent` | src/main.cpp:265-275 | over every run with one updater, no sweep evicts a flow of which any packet was seen at or after the moment it read its clock |
| `FlowTableSweeps.SweepCanEvictTheRecent` | src/FlowTracker.cpp:76-86 | a run with two updaters in which a sweep evicts a flow seen after its clock was read |
| `RingBuffer.PacketRingBuffer.Push` | include/PacketRingBuffer.hpp:35-53 | accepted exactly below capacity, then last in the queue and counted as pushed; otherwise only counted as dropped |
| `RingBuffer.PacketRingBuffer.Pop` | include/PacketRingBuffer.hpp:56-73 | the oldest packet, counted once; nothing only over an empty queue after shutdown |
| `RingBuffer.NextInv` | include/PacketRingBuffer.hpp:35-81 | every step keeps: popped then queued = accepted, pushed = popped + depth, depth at most capacity, and no waiting consumer over a non-empty queue unless a notification is owed |
| `RingBuffer.RunsConserve` | include/PacketRingBuffer.hpp:35-81 | that invariant in every state of every interleaving |
| `RingBuffer.AttemptsAreCalls` | include/PacketRingBuffer.hpp:40-47 | every push is counted exactly once, as pushed or as dropped |
| `RingBuffer.StopsOnlyWhenDrained` | include/PacketRingBuffer.hpp:63-67 | `pop` returns false only after shutdown over an empty queue, with everything accepted delivered |
| `RingBuffer.ShutdownCanBeMissed` | include/PacketRingBuffer.hpp:60-81 | some run leaves the consumer waiting forever although shutdown was announced |
| `RingBuffer.MissedIff` | include/PacketRingBuffer.hpp:60-81 | over every run: the shutdown is missed if and only if its announcement fell between the consumer's check and its next wait and nothing has notified or woken it since |
| `RingBuffer.MissedOnlyThroughUnlockedStore` | include/PacketRingBuffer.hpp:77-81 | a missed shutdown takes a flag stored between that check and that wait, so storing it under the mutex rules it out |
| `Delivery.Show` | src/DeliveryLayer.cpp:103-105 | the display ring holds the last 50 of what was pushed onto it |
| `Delivery.DeliveryLayer.WriteOne` | src/DeliveryLayer.cpp:94-106 | one round hands over and shows exactly the oldest alert |
| `Delivery.DeliveryLayer.Drain` | src/DeliveryLayer.cpp:107-108 | the drain hands over the rest in order and shows none |
| `Delivery.RunsConserve` | src/DeliveryLayer.cpp:92-109 | over every interleaving: handed over, then the alert in hand, then the queue = enqueued; the ring shows the last 50 of the main loop |
| `Delivery.RingShowsTheLast` | src/DeliveryLayer.cpp:103-105 | in every state of every run the ring holds the last fifty alerts of the main loop, or all of them |
| `Delivery.DrainedWhenQuiet` | src/DeliveryLayer.cpp:107-108 | if enqueuing has ceased when the writer returns, every alert was handed over exactly once, in order |
| `Delivery.NothingHandedTwice` | src/DeliveryLayer.cpp:92-109 | however late an alert comes, what was handed over is a prefix of what was enqueued |

## Left out

- Packet capture, interface discovery, signals, the command line and the start of the threads: foreign calls and plumbing. Producers and consumers are steps.
- The dashboard, stdout, evidence strings, ISO timestamps and names of enumerators and services.
- SQLite: storing an alert is an append with a success flag.
- Rounding of floating-point numbers (exact reals) and wrap-around of the 64-bit counters (unbounded). The hash, the IPv6 length and all wire fields keep their widths.
- The insides of `sscanf` and `inet_pton`: both are parsers for the stated grammars, and the form of IPv6 text with an embedded dotted quad, which the printer never writes, is not one of them.
- Liveness after a shutdown: both flags are stored without the mutex, so only safety is claimed.
- RingBuffer.StopsOnlyWhenDrained: is about `pop`. The consumer also leaves its loop after a packet once the shutdown flag is set, with packets still queued (src/main.cpp:286-287); that exit is not a step of the model.
- A fresh profile's window, and a fresh brute-force window, start at the call's own time instead of a clock reading made while the call runs.
- The order in which hash tables are swept, and allocation failures.
- FlowTableSteps.NextInv: absorbing a packet is one atomic step, by one updater at a time, because updates of one record under the shared lock are unordered in the code; use of a record pointer after the update has returned is not modelled either.
- FlowRecords.FlowRecord.UpdateRecord: the copies of application-layer indicators (src/FlowTracker.cpp:150-165) are not modelled, and the record's fields are grouped into two values, one for flags and one for accounts.
- FlowKeys.Hash: the two bytes of a port are mixed low byte first, as on a little-endian host.
- FlowTable.FlowTracker.Update: takes the addresses of a packet in binary form; `AddressText.TextAndAddressAgree` relates them to the strings that carry them in the code.
- SynFloodDetection.SynFloodDetector.EvictStale: eviction loses the counts of the evicted source and is not claimed to be invisible; `SynFloodRuns.DetectsUnderSweepsIff` says when detection survives it.
- Frames.Dissect: the record's fields are grouped by layer; capture time and lengths, which are copied, are not modelled, and the payload is its bytes, not a pointer.
- Frames.Ipv4LayerRoundTrip: a fragment other than the first is dissected as if it began with a transport header, as in the code.
- DNS over TCP: the two length bytes before a message are not skipped by the code, and the model says the same.
- ThreatDetection.ThreatDetector.Inspect: takes the fields of a dissected packet that the rules read; alerts carry kind, severity, endpoints and the three numbers, not the texts; the delivery layer is a sequence of alerts.
