/** What the threat detector makes of one packet: the alerts its verdicts call for, the rate windows of
    the simple rules, and the books of fired and withheld detections. */
module AlertRules {
  import opened NetTypes
  import opened Suppression
  import opened RealProducts
  import DnsExtractor
  import EwmaDetection
  import PortScanDetection
  import SynFloodDetection

  datatype DetectorConfig = DetectorConfig(
    ewma: EwmaDetection.EwmaConfig, portScan: PortScanDetection.PortScanConfig, synFlood: SynFloodDetection.SynFloodConfig,
    bruteForceRate: real, sensitivePorts: seq<Port>,
    maxLabelLength: nat, maxFqdnLength: nat, txtRate: real,
    suppressionSec: real)

  // The fields of a dissected packet that the rules read.
  datatype PacketView = PacketView(
    valid: bool, src: string, dst: string, srcPort: Port, dstPort: Port,
    totalLength: nat, isTcp: bool, tcpFlags: bv8, payloadLength: nat,
    dns: Option<DnsExtractor.DnsInfo>)

  datatype ThreatAlert = ThreatAlert(
    kind: AttackType, severity: Severity, src: string, dst: string, srcPort: Port, dstPort: Port,
    observed: real, baseline: real, threshold: real)

  const DNS_QTYPE_TXT := 16
  const EXFIL_MEDIUM := 5000000.0
  const EXFIL_HIGH := 20000000.0

  function AlertOn(info: PacketView, kind: AttackType, severity: Severity, observed: real, baseline: real, threshold: real): ThreatAlert {
    ThreatAlert(kind, severity, info.src, info.dst, info.srcPort, info.dstPort, observed, baseline, threshold)
  }

  // ---------------------------------------------------------------- which alerts are called for

  function VolumeAlert(cfg: DetectorConfig, info: PacketView, r: EwmaDetection.EwmaResult): ThreatAlert {
    AlertOn(info, VolumeAnomaly, r.severity, r.observedPps, r.baselinePps, r.baselinePps * cfg.ewma.mediumMultiplier)
  }

  function FloodAlert(cfg: DetectorConfig, info: PacketView, r: SynFloodDetection.SynFloodResult): ThreatAlert {
    AlertOn(info, SynFlood, r.severity, r.synRatePps, 0.0, cfg.synFlood.synRatePps)
  }

  function ScanAlert(cfg: DetectorConfig, info: PacketView, r: PortScanDetection.PortScanResult): ThreatAlert {
    AlertOn(info, PortScan, r.severity, r.distinctPorts as real, 0.0, cfg.portScan.distinctPortThreshold as real)
  }

  // The alert for the rate, if any, that a window has reported.
  function BruteForceAlert(cfg: DetectorConfig, info: PacketView, reported: Option<real>): Option<ThreatAlert> {
    if reported == None || reported.value < cfg.bruteForceRate then None
    else
      var severity := if reported.value >= cfg.bruteForceRate * 3.0 then Critical else High;
      Some(AlertOn(info, BruteForce, severity, reported.value, 0.0, cfg.bruteForceRate))
  }

  // A name is suspicious if it is long or has a long stretch without a dot.
  ghost predicate SuspiciousName(cfg: DetectorConfig, name: Bytes) {
    || |name| >= cfg.maxFqdnLength
    || exists i, j :: 0 <= i <= j <= |name| && j - i >= cfg.maxLabelLength && DnsExtractor.DotFree(name, i, j)
  }

  function QueryAlert(info: PacketView, name: Bytes): ThreatAlert {
    AlertOn(info, DnsTunneling, High, |name| as real, 0.0, 0.0)
  }

  function TxtAlert(cfg: DetectorConfig, info: PacketView, reported: Option<real>): Option<ThreatAlert> {
    if reported == None || reported.value < cfg.txtRate then None
    else Some(AlertOn(info, DnsTunneling, High, reported.value, 0.0, cfg.txtRate))
  }

  function ExfilAlert(info: PacketView, reported: Option<real>): Option<ThreatAlert> {
    if reported == None || reported.value < EXFIL_MEDIUM then None
    else
      var severity := if reported.value >= EXFIL_HIGH then High else Medium;
      Some(AlertOn(info, DataExfiltration, severity, reported.value, 0.0, EXFIL_MEDIUM))
  }

  // On a name joined from dot-free labels the rule looks at the labels themselves.
  lemma SuspiciousIffLongLabel(cfg: DetectorConfig, labels: DnsExtractor.Labels)
    requires labels != [] && forall k :: 0 <= k < |labels| ==> DnsExtractor.DotFree(labels[k], 0, |labels[k]|)
    ensures SuspiciousName(cfg, DnsExtractor.Join(labels)) <==>
      |DnsExtractor.Join(labels)| >= cfg.maxFqdnLength || exists k :: 0 <= k < |labels| && |labels[k]| >= cfg.maxLabelLength
  {
    hide DnsExtractor.Join;
    var name := DnsExtractor.Join(labels);
    if i, j :| 0 <= i <= j <= |name| && j - i >= cfg.maxLabelLength && DnsExtractor.DotFree(name, i, j) {
      var k := DnsExtractor.RunWithinLabel(labels, i, j);
      assert |labels[k]| >= cfg.maxLabelLength;
    }
    if k :| 0 <= k < |labels| && |labels[k]| >= cfg.maxLabelLength {
      LabelIsStretch(labels, k);
    }
  }

  lemma LabelIsStretch(labels: DnsExtractor.Labels, k: nat)
    requires k < |labels| && DnsExtractor.DotFree(labels[k], 0, |labels[k]|)
    ensures var i := DnsExtractor.LabelStart(labels, k);
      i + |labels[k]| <= |DnsExtractor.Join(labels)| && DnsExtractor.DotFree(DnsExtractor.Join(labels), i, i + |labels[k]|)
  {
    hide DnsExtractor.Join, DnsExtractor.LabelStart;
    DnsExtractor.LabelInJoin(labels, k);
    var name, i := DnsExtractor.Join(labels), DnsExtractor.LabelStart(labels, k);
    assert forall m :: i <= m < i + |labels[k]| ==> name[m] == name[i..i + |labels[k]|][m - i] == labels[k][m - i];
  }

  // ---------------------------------------------------------------- one-second rate windows

  datatype RateWindow = RateWindow(start: real, count: nat)

  // Packets are counted until one arrives a second or more after the start; it opens the next window.
  function CountStep(w: RateWindow, now: real): (step: (RateWindow, Option<real>)) {
    var age := now - w.start;
    if age >= 1.0 then (RateWindow(now, 1), Some(w.count as real / age)) else (w.(count := w.count + 1), None)
  }

  // Bytes are added first; the packet that completes the window is part of it.
  function BytesStep(w: RateWindow, amount: nat, now: real): (step: (RateWindow, Option<real>)) {
    var age := now - w.start;
    if age < 1.0 then (w.(count := w.count + amount), None)
    else (RateWindow(now, 0), Some((w.count + amount) as real / age))
  }

  // The window after a whole run of packets from a fresh state.
  function CountRun(fresh0: RateWindow, times: seq<real>): RateWindow {
    if times == [] then fresh0 else CountStep(CountRun(fresh0, times[..|times| - 1]), times[|times| - 1]).0
  }

  // The open window holds the packets from its opener on, all less than a second after its start: the
  // opener itself, or the creation of the state as long as no window has closed.
  lemma {:induction false} CountRunMeaning(start: real, times: seq<real>) returns (opener: nat)
    ensures var w := CountRun(RateWindow(start, 0), times);
      && opener <= |times| && w.count == |times| - opener
      && ((opener == 0 && w.start == start) || (opener < |times| && w.start == times[opener]))
      && forall k :: opener <= k < |times| ==> times[k] - w.start < 1.0
  {
    opener := 0;
    if times != [] {
      var n := |times| - 1;
      opener := CountRunMeaning(start, times[..n]);
      var w := CountRun(RateWindow(start, 0), times[..n]);
      if times[n] - w.start >= 1.0 {
        opener := n;
      }
    }
  }

  // A reported rate is that of the packets since the window opened, over at least a second.
  lemma ReportedRateIsWitnessed(start: real, times: seq<real>, now: real, rate: real) returns (opener: nat)
    requires CountStep(CountRun(RateWindow(start, 0), times), now).1 == Some(rate)
    ensures opener <= |times|
    ensures var from := CountRun(RateWindow(start, 0), times).start;
      && now - from >= 1.0 && rate * (now - from) == (|times| - opener) as real
      && ((opener == 0 && from == start) || (opener < |times| && from == times[opener]))
  {
    opener := CountRunMeaning(start, times);
  }

  // No two neighbours are further apart than the rate allows.
  ghost predicate Steady(rate: real, times: seq<real>) {
    forall k, m :: 0 <= k && m == k + 1 && m < |times| ==> GapAtMost(rate, times[k], times[m])
  }

  ghost predicate GapAtMost(rate: real, a: real, b: real) {
    (b - a) * rate <= 1.0
  }

  lemma {:induction false} SteadySpan(rate: real, times: seq<real>, i: nat, j: nat)
    requires Steady(rate, times) && i <= j < |times|
    ensures (times[j] - times[i]) * rate <= (j - i) as real
    decreases j
  {
    if i < j {
      SteadySpan(rate, times, i, j - 1);
      assert GapAtMost(rate, times[j - 1], times[j]);
      Distribute(rate, times[j] - times[i], times[j - 1] - times[i], times[j] - times[j - 1]);
    }
  }

  // Steady guessing is caught: when a source never pauses longer than 1 / rate, every window that closes
  // reports at least that rate, and one closes on the first packet a second or more after its start.
  lemma SteadyRateIsReported(rate: real, times: seq<real>)
    requires |times| > 1 && rate > 0.0 && Steady(rate, times)
    ensures var n := |times| - 1;
      var w := CountRun(RateWindow(times[0], 0), times[..n]);
      var reported := CountStep(w, times[n]).1;
      && (reported.Some? <==> times[n] - w.start >= 1.0)
      && (reported.Some? ==> reported.value >= rate)
  {
    var n := |times| - 1;
    var w := CountRun(RateWindow(times[0], 0), times[..n]);
    var opener := CountRunMeaning(times[0], times[..n]);
    SteadySpan(rate, times, opener, n);
    var age := times[n] - w.start;
    if age >= 1.0 {
      assert rate * age <= w.count as real;
      QuotientAtLeast(w.count as real, age, rate);
    }
  }

  // ---------------------------------------------------------------- bytes over a whole run

  datatype Burst = Burst(time: real, amount: nat)

  function BytesRun(fresh0: RateWindow, log: seq<Burst>): RateWindow {
    if log == [] then fresh0
    else var e := log[|log| - 1]; BytesStep(BytesRun(fresh0, log[..|log| - 1]), e.amount, e.time).0
  }

  function Total(log: seq<Burst>): nat {
    if log == [] then 0 else Total(log[..|log| - 1]) + log[|log| - 1].amount
  }

  // What the closed windows have reported, in bytes: each rate times its duration.
  function Reported(fresh0: RateWindow, log: seq<Burst>): real {
    if log == [] then 0.0
    else
      var e, w := log[|log| - 1], BytesRun(fresh0, log[..|log| - 1]);
      Reported(fresh0, log[..|log| - 1]) + ReportedBy(w, e)
  }

  function ReportedBy(w: RateWindow, e: Burst): real {
    match BytesStep(w, e.amount, e.time).1 case None => 0.0 case Some(bps) => bps * (e.time - w.start)
  }

  lemma StepConserves(w: RateWindow, e: Burst)
    ensures ReportedBy(w, e) + BytesStep(w, e.amount, e.time).0.count as real == (w.count + e.amount) as real
  {
    var age := e.time - w.start;
    if age >= 1.0 {
      QuotientTimes((w.count + e.amount) as real, age);
    }
  }

  // No byte is lost or counted twice: reported and pending bytes add up to all that were seen.
  lemma {:induction false} BytesAreConserved(start: real, log: seq<Burst>)
    ensures var w := BytesRun(RateWindow(start, 0), log);
      Reported(RateWindow(start, 0), log) + w.count as real == Total(log) as real
  {
    if log != [] {
      BytesAreConserved(start, log[..|log| - 1]);
      StepConserves(BytesRun(RateWindow(start, 0), log[..|log| - 1]), log[|log| - 1]);
      hide ReportedBy, BytesStep;
    }
  }

  // ---------------------------------------------------------------- the books

  // Every detection of a run, and the alerts handed to delivery.
  datatype Books = Books(log: seq<Entry>, sent: seq<ThreatAlert>)

  function PairOf(a: ThreatAlert): Pair {
    Pair(a.src, a.kind)
  }

  // One detection entered: the alert is sent exactly when its pair is clear.
  ghost function Enter(s: real, b: Books, a: ThreatAlert, now: real): Books {
    var fired := Clear(s, b.log, PairOf(a), now);
    Books(b.log + [Entry(PairOf(a), now, fired)], if fired then b.sent + [a] else b.sent)
  }

  ghost function EnterAny(s: real, b: Books, a: Option<ThreatAlert>, now: real): Books {
    match a case None => b case Some(alert) => Enter(s, b, alert, now)
  }

  function FiredPairs(log: seq<Entry>): seq<Pair> {
    if log == [] then []
    else FiredPairs(log[..|log| - 1]) + (if log[|log| - 1].fired then [log[|log| - 1].pair] else [])
  }

  function PairsOf(sent: seq<ThreatAlert>): (pairs: seq<Pair>)
    ensures |pairs| == |sent|
  {
    seq(|sent|, i requires 0 <= i < |sent| => PairOf(sent[i]))
  }

  // The books of an honest run: suppression was exact, and the alerts sent are the ones fired, in order.
  ghost predicate Kept(s: real, b: Books, clock: real) {
    && Honest(s, b.log) && Chronological(b.log)
    && (forall i :: 0 <= i < |b.log| ==> b.log[i].time <= clock)
    && PairsOf(b.sent) == FiredPairs(b.log) && |b.sent| == Fired(b.log)
  }

  lemma EnterKeeps(s: real, b: Books, a: ThreatAlert, now: real)
    requires Kept(s, b, now)
    ensures Kept(s, Enter(s, b, a, now), now)
  {
    hide Clear, Honest, FiredPairs, Fired, PairsOf;
    LogPush(s, b.log, Entry(PairOf(a), now, Clear(s, b.log, PairOf(a), now)));
    PairsPush(b.sent, a);
  }

  lemma PairsPush(sent: seq<ThreatAlert>, a: ThreatAlert)
    ensures PairsOf(sent + [a]) == PairsOf(sent) + [PairOf(a)]
  {
  }

  lemma LogPush(s: real, log: seq<Entry>, e: Entry)
    ensures var l := log + [e];
      && (Honest(s, l) <==> Honest(s, log) && (e.fired <==> Clear(s, log, e.pair, e.time)))
      && FiredPairs(l) == FiredPairs(log) + (if e.fired then [e.pair] else [])
      && Fired(l) == Fired(log) + (if e.fired then 1 else 0)
  {
    hide Clear;
    assert (log + [e])[..|log|] == log;
  }

  lemma LastFiredPush(log: seq<Entry>, e: Entry, pair: Pair)
    ensures LastFired(log + [e], pair) == (if e.fired && e.pair == pair then Some(e.time) else LastFired(log, pair))
  {
    assert (log + [e])[..|log|] == log;
  }

  // On the books of any run: alerts of one source and kind are s apart, every detection has one in the s
  // seconds up to it, no selection of detections with that spacing has more, and so many were sent.
  lemma KeptBooksAreGreedy(s: real, b: Books, clock: real, pair: Pair, other: seq<real>)
    requires s > 0.0 && Kept(s, b, clock)
    requires Separated(s, other) && forall t :: t in other ==> t in Times(b.log, pair)
    ensures FiredTimes(b.log, pair) == Greedy(s, Times(b.log, pair))
    ensures Separated(s, FiredTimes(b.log, pair)) && |other| <= |FiredTimes(b.log, pair)|
    ensures forall i :: 0 <= i < |Times(b.log, pair)| ==> Covered(s, FiredTimes(b.log, pair), Times(b.log, pair)[i])
    ensures multiset(PairsOf(b.sent))[pair] == |Greedy(s, Times(b.log, pair))|
  {
    hide Honest, Chronological, FiredPairs, FiredTimes, Times, Greedy, Separated, Covered;
    FiredIsGreedy(s, b.log, pair);
    FiredAreGreedyMaximal(s, b.log, pair, other);
    SentOf(b.log, pair);
  }

  // Each pair has as many alerts among those sent as it has fired.
  lemma {:induction false} SentOf(log: seq<Entry>, pair: Pair)
    ensures multiset(FiredPairs(log))[pair] == |FiredTimes(log, pair)|
  {
    if log != [] {
      SentOf(log[..|log| - 1], pair);
    }
  }

  // ---------------------------------------------------------------- one packet through all rules

  // What has reached the windows of the simple rules: when each source tried each sensitive port, when it
  // asked for TXT records without a suspicious-name alert, and what payloads it sent.
  datatype RuleLogs = RuleLogs(
    guesses: map<string, map<Port, seq<real>>>, asked: map<string, seq<real>>, bursts: map<string, seq<Burst>>)

  // The tables of the simple rules, the books, and what was logged.
  datatype RuleState = RuleState(
    books: Books, bruteForce: map<string, map<Port, RateWindow>>, dnsTxt: map<string, RateWindow>, exfil: map<string, RateWindow>,
    logs: RuleLogs)

  // A source that has asked for nothing yet is timed from the epoch of the clock.
  function WindowOf(windows: map<string, RateWindow>, src: string): RateWindow {
    if src in windows then windows[src] else RateWindow(0.0, 0)
  }

  function Find<A>(table: map<string, map<Port, A>>, src: string, port: Port): Option<A> {
    if src in table && port in table[src] then Some(table[src][port]) else None
  }

  function With<A>(table: map<string, map<Port, A>>, src: string, port: Port, a: A): map<string, map<Port, A>> {
    table[src := (if src in table then table[src] else map[])[port := a]]
  }

  lemma WithFinds<A>(table: map<string, map<Port, A>>, src: string, port: Port, a: A)
    ensures forall s, p :: Find(With(table, src, port, a), s, p) == if s == src && p == port then Some(a) else Find(table, s, p)
  {
  }

  // The window of a port not tried before is timed from its first packet.
  function PortWindowOf(windows: map<string, map<Port, RateWindow>>, src: string, port: Port, now: real): RateWindow {
    match Find(windows, src, port) case Some(w) => w case None => RateWindow(now, 0)
  }

  function GuessLog(logs: RuleLogs, src: string, port: Port): seq<real> {
    match Find(logs.guesses, src, port) case Some(g) => g case None => []
  }

  function AskedLog(logs: RuleLogs, src: string): seq<real> {
    if src in logs.asked then logs.asked[src] else []
  }

  function BurstLog(logs: RuleLogs, src: string): seq<Burst> {
    if src in logs.bursts then logs.bursts[src] else []
  }

  // The window that a log of guesses amounts to, timed from the first of them.
  function GuessWindow(g: seq<real>): Option<RateWindow> {
    if g == [] then None else Some(CountRun(RateWindow(g[0], 0), g))
  }

  // Every stored window is the run of its whole log.
  ghost predicate Tracked(bruteForce: map<string, map<Port, RateWindow>>, dnsTxt: map<string, RateWindow>,
                          exfil: map<string, RateWindow>, logs: RuleLogs)
  {
    && (forall src, port :: Find(bruteForce, src, port) == GuessWindow(GuessLog(logs, src, port)))
    && (forall src :: WindowOf(dnsTxt, src) == CountRun(RateWindow(0.0, 0), AskedLog(logs, src)))
    && (forall src :: WindowOf(exfil, src) == BytesRun(RateWindow(0.0, 0), BurstLog(logs, src)))
  }

  ghost predicate TrackedState(st: RuleState) {
    Tracked(st.bruteForce, st.dnsTxt, st.exfil, st.logs)
  }

  ghost function AfterBruteForce(cfg: DetectorConfig, st: RuleState, info: PacketView, now: real): RuleState {
    var step := CountStep(PortWindowOf(st.bruteForce, info.src, info.dstPort, now), now);
    st.(books := EnterAny(cfg.suppressionSec, st.books, BruteForceAlert(cfg, info, step.1), now),
        bruteForce := With(st.bruteForce, info.src, info.dstPort, step.0),
        logs := LogGuess(st.logs, info, now))
  }

  function LogGuess(logs: RuleLogs, info: PacketView, now: real): RuleLogs {
    logs.(guesses := With(logs.guesses, info.src, info.dstPort, GuessLog(logs, info.src, info.dstPort) + [now]))
  }

  function LogAsked(logs: RuleLogs, info: PacketView, now: real): RuleLogs {
    logs.(asked := logs.asked[info.src := AskedLog(logs, info.src) + [now]])
  }

  function LogBurst(logs: RuleLogs, info: PacketView, now: real): RuleLogs {
    logs.(bursts := logs.bursts[info.src := BurstLog(logs, info.src) + [Burst(now, info.payloadLength)]])
  }

  // A suspicious name whose alert fires ends the rule; otherwise a TXT question is counted.
  ghost function AfterDns(cfg: DetectorConfig, st: RuleState, info: PacketView, dns: DnsExtractor.DnsInfo, now: real): RuleState {
    var q := QueryAlert(info, dns.queryName);
    var suspicious := SuspiciousName(cfg, dns.queryName);
    var st' := if suspicious then st.(books := Enter(cfg.suppressionSec, st.books, q, now)) else st;
    if suspicious && Clear(cfg.suppressionSec, st.books.log, PairOf(q), now) then st'
    else if dns.queryType == DNS_QTYPE_TXT then AfterTxt(cfg, st', info, now)
    else st'
  }

  ghost function AfterTxt(cfg: DetectorConfig, st: RuleState, info: PacketView, now: real): RuleState {
    var step := CountStep(WindowOf(st.dnsTxt, info.src), now);
    st.(books := EnterAny(cfg.suppressionSec, st.books, TxtAlert(cfg, info, step.1), now),
        dnsTxt := st.dnsTxt[info.src := step.0],
        logs := LogAsked(st.logs, info, now))
  }

  ghost function AfterExfil(cfg: DetectorConfig, st: RuleState, info: PacketView, now: real): RuleState {
    var step := BytesStep(WindowOf(st.exfil, info.src), info.payloadLength, now);
    st.(books := EnterAny(cfg.suppressionSec, st.books, ExfilAlert(info, step.1), now),
        exfil := st.exfil[info.src := step.0],
        logs := LogBurst(st.logs, info, now))
  }

  // The window detectors, each given its verdict.
  ghost function AfterVolume(cfg: DetectorConfig, b: Books, info: PacketView, now: real, r: Option<EwmaDetection.EwmaResult>): Books {
    if r.Some? then Enter(cfg.suppressionSec, b, VolumeAlert(cfg, info, r.value), now) else b
  }

  ghost function AfterFlood(cfg: DetectorConfig, b: Books, info: PacketView, now: real, r: Option<SynFloodDetection.SynFloodResult>): Books {
    if r.Some? then Enter(cfg.suppressionSec, b, FloodAlert(cfg, info, r.value), now) else b
  }

  ghost function AfterScan(cfg: DetectorConfig, b: Books, info: PacketView, now: real, r: Option<PortScanDetection.PortScanResult>): Books {
    if r.Some? then Enter(cfg.suppressionSec, b, ScanAlert(cfg, info, r.value), now) else b
  }

  ghost function AfterDetectors(cfg: DetectorConfig, b: Books, info: PacketView, now: real,
                                volume: Option<EwmaDetection.EwmaResult>, flood: Option<SynFloodDetection.SynFloodResult>,
                                scan: Option<PortScanDetection.PortScanResult>): Books {
    AfterScan(cfg, AfterFlood(cfg, AfterVolume(cfg, b, info, now, volume), info, now, flood), info, now, scan)
  }

  // Then the simple rules, each when the packet concerns it.
  ghost function AfterRules(cfg: DetectorConfig, st: RuleState, info: PacketView, now: real): RuleState {
    var st1 := if info.dstPort != 0 && info.dstPort in cfg.sensitivePorts then AfterBruteForce(cfg, st, info, now) else st;
    var st2 := if info.dns.Some? then AfterDns(cfg, st1, info, info.dns.value, now) else st1;
    if info.payloadLength > 0 then AfterExfil(cfg, st2, info, now) else st2
  }

  // ---------------------------------------------------------------- what the stored windows mean

  lemma CountRunPush(fresh0: RateWindow, times: seq<real>, now: real)
    ensures CountRun(fresh0, times + [now]) == CountStep(CountRun(fresh0, times), now).0
  {
    assert (times + [now])[..|times|] == times;
  }

  lemma BytesRunPush(fresh0: RateWindow, log: seq<Burst>, e: Burst)
    ensures BytesRun(fresh0, log + [e]) == BytesStep(BytesRun(fresh0, log), e.amount, e.time).0
  {
    assert (log + [e])[..|log|] == log;
  }

  lemma GuessWindowPush(g: seq<real>, now: real)
    ensures var w := match GuessWindow(g) case Some(w) => w case None => RateWindow(now, 0);
      GuessWindow(g + [now]) == Some(CountStep(w, now).0)
  {
    hide CountStep;
    CountRunPush(RateWindow(if g == [] then now else g[0], 0), g, now);
    assert (g + [now])[0] == if g == [] then now else g[0];
    assert CountRun(RateWindow(now, 0), []) == RateWindow(now, 0);
  }

  lemma BruteForceTracked(cfg: DetectorConfig, st: RuleState, info: PacketView, now: real)
    requires TrackedState(st)
    ensures TrackedState(AfterBruteForce(cfg, st, info, now))
  {
    hide GuessWindow, CountStep, CountRun, BytesRun, Find, With, EnterAny, BruteForceAlert;
    var g := GuessLog(st.logs, info.src, info.dstPort);
    GuessWindowPush(g, now);
    WithFinds(st.logs.guesses, info.src, info.dstPort, g + [now]);
    WithFinds(st.bruteForce, info.src, info.dstPort, CountStep(PortWindowOf(st.bruteForce, info.src, info.dstPort, now), now).0);
  }

  lemma TxtTracked(cfg: DetectorConfig, st: RuleState, info: PacketView, now: real)
    requires TrackedState(st)
    ensures TrackedState(AfterTxt(cfg, st, info, now))
  {
    hide GuessWindow, CountStep, CountRun, BytesRun, Find, EnterAny, TxtAlert;
    var q := AskedLog(st.logs, info.src);
    CountRunPush(RateWindow(0.0, 0), q, now);
    var st' := AfterTxt(cfg, st, info, now);
    forall src
      ensures WindowOf(st'.dnsTxt, src) == CountRun(RateWindow(0.0, 0), AskedLog(st'.logs, src))
    {
      assert WindowOf(st.dnsTxt, src) == CountRun(RateWindow(0.0, 0), AskedLog(st.logs, src));
    }
    assert forall src, port :: GuessLog(st'.logs, src, port) == GuessLog(st.logs, src, port);
    assert forall src :: BurstLog(st'.logs, src) == BurstLog(st.logs, src);
  }

  lemma ExfilTracked(cfg: DetectorConfig, st: RuleState, info: PacketView, now: real)
    requires TrackedState(st)
    ensures TrackedState(AfterExfil(cfg, st, info, now))
  {
    hide GuessWindow, BytesStep, CountRun, BytesRun, Find, EnterAny, ExfilAlert;
    var log := BurstLog(st.logs, info.src);
    BytesRunPush(RateWindow(0.0, 0), log, Burst(now, info.payloadLength));
    var st' := AfterExfil(cfg, st, info, now);
    forall src
      ensures WindowOf(st'.exfil, src) == BytesRun(RateWindow(0.0, 0), BurstLog(st'.logs, src))
    {
      assert WindowOf(st.exfil, src) == BytesRun(RateWindow(0.0, 0), BurstLog(st.logs, src));
    }
    assert forall src, port :: GuessLog(st'.logs, src, port) == GuessLog(st.logs, src, port);
    assert forall src :: AskedLog(st'.logs, src) == AskedLog(st.logs, src);
  }

  // One packet through the rules keeps every stored window the run of its log.
  lemma RulesKeepTracked(cfg: DetectorConfig, st: RuleState, info: PacketView, now: real)
    requires TrackedState(st)
    ensures TrackedState(AfterRules(cfg, st, info, now))
  {
    hide AfterBruteForce, AfterTxt, AfterExfil, Tracked, SuspiciousName, Clear, Enter;
    var st1 := if info.dstPort != 0 && info.dstPort in cfg.sensitivePorts then AfterBruteForce(cfg, st, info, now) else st;
    BruteForceTracked(cfg, st, info, now);
    var st2 := if info.dns.Some? then AfterDns(cfg, st1, info, info.dns.value, now) else st1;
    if info.dns.Some? {
      DnsTracked(cfg, st1, info, info.dns.value, now);
    }
    ExfilTracked(cfg, st2, info, now);
  }

  lemma DnsTracked(cfg: DetectorConfig, st: RuleState, info: PacketView, dns: DnsExtractor.DnsInfo, now: real)
    requires TrackedState(st)
    ensures TrackedState(AfterDns(cfg, st, info, dns, now))
  {
    hide AfterTxt, Tracked, SuspiciousName, Clear, Enter;
    var st' := if SuspiciousName(cfg, dns.queryName)
      then st.(books := Enter(cfg.suppressionSec, st.books, QueryAlert(info, dns.queryName), now)) else st;
    TxtTracked(cfg, st', info, now);
  }

  // A stored window of guesses holds exactly the guesses since its opener, all less than a second after it.
  lemma StoredGuesses(st: RuleState, src: string, port: Port) returns (opener: nat)
    requires TrackedState(st) && Find(st.bruteForce, src, port).Some?
    ensures var w, g := Find(st.bruteForce, src, port).value, GuessLog(st.logs, src, port);
      && opener < |g| && w == RateWindow(g[opener], |g| - opener)
      && forall k :: opener <= k < |g| ==> g[k] - w.start < 1.0
  {
    hide CountRun;
    var g := GuessLog(st.logs, src, port);
    assert Find(st.bruteForce, src, port) == GuessWindow(g);
    opener := CountRunMeaning(g[0], g);
    OneIsCounted(g[0], g);
  }

  // The opener of a window is always in it.
  lemma OneIsCounted(start: real, times: seq<real>)
    requires times != []
    ensures CountRun(RateWindow(start, 0), times).count > 0
  {
  }

  // The same for the TXT questions that reach the rate window, counted from the epoch of the clock until
  // the first window closes.
  lemma StoredQuestions(st: RuleState, src: string) returns (opener: nat)
    requires TrackedState(st)
    ensures var w, q := WindowOf(st.dnsTxt, src), AskedLog(st.logs, src);
      && opener <= |q| && w.count == |q| - opener
      && ((opener == 0 && w.start == 0.0) || (opener < |q| && w.start == q[opener]))
      && forall k :: opener <= k < |q| ==> q[k] - w.start < 1.0
  {
    hide CountRun;
    opener := CountRunMeaning(0.0, AskedLog(st.logs, src));
  }

  // A brute-force alert rests on guesses logged since the window opened: rate times duration of them.
  lemma BruteForceIsWitnessed(cfg: DetectorConfig, st: RuleState, info: PacketView, now: real) returns (opener: nat)
    requires TrackedState(st)
    requires BruteForceAlert(cfg, info, CountStep(PortWindowOf(st.bruteForce, info.src, info.dstPort, now), now).1).Some?
    ensures var g := GuessLog(st.logs, info.src, info.dstPort);
      && opener < |g| && now - g[opener] >= 1.0
      && (|g| - opener) as real >= cfg.bruteForceRate * (now - g[opener])
  {
    hide Find, GuessWindow, Tracked;
    opener := StoredGuesses(st, info.src, info.dstPort);
    var g := GuessLog(st.logs, info.src, info.dstPort);
    QuotientReaches((|g| - opener) as real, now - g[opener], cfg.bruteForceRate);
  }

  // A tunnelling alert for TXT questions rests on as many of them.
  lemma TxtAlertIsWitnessed(cfg: DetectorConfig, st: RuleState, info: PacketView, now: real) returns (opener: nat)
    requires TrackedState(st)
    requires TxtAlert(cfg, info, CountStep(WindowOf(st.dnsTxt, info.src), now).1).Some?
    ensures var w, q := WindowOf(st.dnsTxt, info.src), AskedLog(st.logs, info.src);
      && opener <= |q| && now - w.start >= 1.0
      && ((opener == 0 && w.start == 0.0) || (opener < |q| && w.start == q[opener]))
      && (|q| - opener) as real >= cfg.txtRate * (now - w.start)
  {
    hide CountRun, CountStep;
    var w, q := WindowOf(st.dnsTxt, info.src), AskedLog(st.logs, info.src);
    assert w == CountRun(RateWindow(0.0, 0), q);
    var rate := CountStep(w, now).1.value;
    opener := ReportedRateIsWitnessed(0.0, q, now, rate);
    ProductOrder(now - w.start, cfg.txtRate, rate);
  }

  // Guessing that never pauses longer than 1 / rate raises an alert at every close.
  lemma SteadyGuessingIsReported(cfg: DetectorConfig, st: RuleState, info: PacketView, now: real)
    requires TrackedState(st) && cfg.bruteForceRate > 0.0
    requires var g := GuessLog(st.logs, info.src, info.dstPort); g != [] && Steady(cfg.bruteForceRate, g + [now])
    ensures var w := PortWindowOf(st.bruteForce, info.src, info.dstPort, now);
      BruteForceAlert(cfg, info, CountStep(w, now).1).Some? <==> now - w.start >= 1.0
  {
    hide CountRun, CountStep, Steady;
    var g := GuessLog(st.logs, info.src, info.dstPort);
    assert Find(st.bruteForce, info.src, info.dstPort) == GuessWindow(g);
    assert (g + [now])[..|g|] == g && (g + [now])[0] == g[0];
    SteadyRateIsReported(cfg.bruteForceRate, g + [now]);
  }

  // Reported and pending bytes add up to all the payload bytes the source has sent.
  lemma StoredBytes(st: RuleState, src: string)
    requires TrackedState(st)
    ensures var log := BurstLog(st.logs, src);
      Reported(RateWindow(0.0, 0), log) + WindowOf(st.exfil, src).count as real == Total(log) as real
  {
    hide BytesRun, Reported, Total;
    BytesAreConserved(0.0, BurstLog(st.logs, src));
  }
}
