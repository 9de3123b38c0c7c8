/** What one packet does to the rules and the books, in terms of the packet alone: which packets reach which
    rule, and exactly which alert each kind of detection sends. */
module RuleEffects {
  import opened NetTypes
  import opened Suppression
  import opened RealProducts
  import opened AlertRules
  import opened DetectorAnswers
  import DnsExtractor
  import EwmaDetection
  import PortScanDetection
  import SynFloodDetection

  // ---------------------------------------------------------------- the books, pair by pair

  // The alerts of one source and kind among those sent.
  function AlertsOf(sent: seq<ThreatAlert>, pair: Pair): seq<ThreatAlert> {
    if sent == [] then []
    else
      var a := sent[|sent| - 1];
      AlertsOf(sent[..|sent| - 1], pair) + (if a.src == pair.src && a.kind == pair.kind then [a] else [])
  }

  // Nothing was detected of this pair.
  ghost predicate Untouched(s: real, b: Books, b': Books, pair: Pair, now: real) {
    && AlertsOf(b'.sent, pair) == AlertsOf(b.sent, pair)
    && Times(b'.log, pair) == Times(b.log, pair)
    && (Clear(s, b'.log, pair, now) <==> Clear(s, b.log, pair, now))
  }

  // So many detections of this pair now, and at most one alert: the given one, if the pair was clear.
  ghost predicate Sends(s: real, b: Books, b': Books, pair: Pair, now: real, detections: nat, a: Option<ThreatAlert>) {
    && AlertsOf(b'.sent, pair)
       == AlertsOf(b.sent, pair) + (if a.Some? && Clear(s, b.log, pair, now) then [a.value] else [])
    && Times(b'.log, pair) == Times(b.log, pair) + seq(detections, _ => now)
  }

  lemma EnterEffect(s: real, b: Books, a: ThreatAlert, now: real, pair: Pair)
    ensures var b' := Enter(s, b, a, now);
      if PairOf(a) == pair then
        Sends(s, b, b', pair, now, 1, Some(a)) && (Clear(s, b.log, pair, now) || !Clear(s, b'.log, pair, now))
      else Untouched(s, b, b', pair, now)
  {
    var fired := Clear(s, b.log, PairOf(a), now);
    var e := Entry(PairOf(a), now, fired);
    AlertsPush(b.sent, a, pair);
    TimesPush(b.log, e, pair);
    ClearPush(s, b.log, e, pair, now);
    hide AlertsOf, Times, Clear;
    assert seq(1, _ => now) == [now];
  }

  lemma AlertsPush(sent: seq<ThreatAlert>, a: ThreatAlert, pair: Pair)
    ensures AlertsOf(sent + [a], pair) == AlertsOf(sent, pair) + (if PairOf(a) == pair then [a] else [])
  {
    assert (sent + [a])[..|sent|] == sent;
  }

  lemma TimesPush(log: seq<Entry>, e: Entry, pair: Pair)
    ensures Times(log + [e], pair) == Times(log, pair) + (if e.pair == pair then [e.time] else [])
  {
    assert (log + [e])[..|log|] == log;
  }

  lemma ClearPush(s: real, log: seq<Entry>, e: Entry, pair: Pair, now: real)
    ensures Clear(s, log + [e], pair, now) <==> Clear(s, log, pair, now) && (e.fired && e.pair == pair ==> now - e.time >= s)
  {
    var l := log + [e];
    assert forall i :: 0 <= i < |log| ==> l[i] == log[i];
    assert l[|log|] == e;
  }

  lemma Unchanged(s: real, b: Books, pair: Pair, now: real)
    ensures Untouched(s, b, b, pair, now) && Sends(s, b, b, pair, now, 0, None)
  {
    assert Times(b.log, pair) + [] == Times(b.log, pair);
  }

  lemma UntouchedTwice(s: real, b: Books, b1: Books, b2: Books, pair: Pair, now: real)
    requires Untouched(s, b, b1, pair, now) && Untouched(s, b1, b2, pair, now)
    ensures Untouched(s, b, b2, pair, now)
  {
  }

  lemma SendsBetween(s: real, b: Books, b1: Books, b2: Books, b3: Books, pair: Pair, now: real, n: nat, a: Option<ThreatAlert>)
    requires Untouched(s, b, b1, pair, now) && Sends(s, b1, b2, pair, now, n, a) && Untouched(s, b2, b3, pair, now)
    ensures Sends(s, b, b3, pair, now, n, a)
  {
  }

  // ---------------------------------------------------------------- which alert each detection is

  // The alert that carries the endpoints of the packet.
  ghost predicate About(a: ThreatAlert, info: PacketView, kind: AttackType) {
    a.kind == kind && a.src == info.src && a.dst == info.dst && a.srcPort == info.srcPort && a.dstPort == info.dstPort
  }

  ghost predicate IsVolumeAlert(cfg: DetectorConfig, info: PacketView, v: Option<EwmaDetection.EwmaResult>, a: Option<ThreatAlert>) {
    && (a.Some? <==> v.Some?)
    && (a.Some? ==>
          && About(a.value, info, VolumeAnomaly) && a.value.severity == v.value.severity
          && a.value.observed == v.value.observedPps && a.value.baseline == v.value.baselinePps
          && a.value.threshold == v.value.baselinePps * cfg.ewma.mediumMultiplier)
  }

  ghost predicate IsFloodAlert(cfg: DetectorConfig, info: PacketView, v: Option<SynFloodDetection.SynFloodResult>, a: Option<ThreatAlert>) {
    && (a.Some? <==> v.Some?)
    && (a.Some? ==>
          && About(a.value, info, AttackType.SynFlood) && a.value.severity == v.value.severity
          && a.value.observed == v.value.synRatePps && a.value.baseline == 0.0
          && a.value.threshold == cfg.synFlood.synRatePps)
  }

  ghost predicate IsScanAlert(cfg: DetectorConfig, info: PacketView, v: Option<PortScanDetection.PortScanResult>, a: Option<ThreatAlert>) {
    && (a.Some? <==> v.Some?)
    && (a.Some? ==>
          && About(a.value, info, AttackType.PortScan) && a.value.severity == v.value.severity
          && a.value.observed == v.value.distinctPorts as real && a.value.baseline == 0.0
          && a.value.threshold == cfg.portScan.distinctPortThreshold as real)
  }

  // A packet to a sensitive port, a second or more after its window w opened, that finds the rate reached.
  ghost predicate IsBruteForceAlert(cfg: DetectorConfig, info: PacketView, now: real, w: RateWindow, a: Option<ThreatAlert>) {
    var age := now - w.start;
    && (a.Some? <==>
          && info.dstPort != 0 && info.dstPort in cfg.sensitivePorts
          && age >= 1.0 && w.count as real >= cfg.bruteForceRate * age)
    && (a.Some? ==>
          && About(a.value, info, BruteForce)
          && a.value.severity == (if w.count as real >= cfg.bruteForceRate * 3.0 * age then Critical else High)
          && a.value.observed * age == w.count as real && a.value.baseline == 0.0 && a.value.threshold == cfg.bruteForceRate)
  }

  // A payload that completes a window w of a second or more at 5 MB per second, or 20 for High.
  ghost predicate IsExfilAlert(info: PacketView, now: real, w: RateWindow, a: Option<ThreatAlert>) {
    var age, bytes := now - w.start, (w.count + info.payloadLength) as real;
    && (a.Some? <==> info.payloadLength > 0 && age >= 1.0 && bytes >= 5000000.0 * age)
    && (a.Some? ==>
          && About(a.value, info, DataExfiltration)
          && a.value.severity == (if bytes >= 20000000.0 * age then High else Medium)
          && a.value.observed * age == bytes && a.value.baseline == 0.0 && a.value.threshold == 5000000.0)
  }

  // A name that is long, or has a long stretch without a dot.
  ghost predicate LongName(cfg: DetectorConfig, info: PacketView) {
    info.dns.Some? &&
      var name := info.dns.value.queryName;
      || |name| >= cfg.maxFqdnLength
      || exists i, j :: 0 <= i <= j <= |name| && j - i >= cfg.maxLabelLength && NoDots(name, i, j)
  }

  ghost predicate NoDots(name: Bytes, i: int, j: int) {
    forall k :: 0 <= i <= k < j <= |name| ==> name[k] != 46
  }

  // A TXT question that is counted: it is not when an alert for its own name has just fired.
  ghost predicate Counted(cfg: DetectorConfig, b: Books, info: PacketView, now: real) {
    && info.dns.Some? && info.dns.value.queryType == 16
    && !(LongName(cfg, info) && Clear(cfg.suppressionSec, b.log, Pair(info.src, DnsTunneling), now))
  }

  ghost predicate RateReached(cfg: DetectorConfig, now: real, w: RateWindow) {
    now - w.start >= 1.0 && w.count as real >= cfg.txtRate * (now - w.start)
  }

  // The alert of the tunnelling rule: for the name, or else for the rate of TXT questions.
  ghost predicate IsDnsAlert(cfg: DetectorConfig, b: Books, info: PacketView, now: real, w: RateWindow, a: Option<ThreatAlert>) {
    && (a.Some? <==> LongName(cfg, info) || (Counted(cfg, b, info, now) && RateReached(cfg, now, w)))
    && (a.Some? ==>
          && About(a.value, info, DnsTunneling) && a.value.severity == High && a.value.baseline == 0.0
          && (if LongName(cfg, info) then a.value.observed == |info.dns.value.queryName| as real && a.value.threshold == 0.0
              else a.value.observed * (now - w.start) == w.count as real && a.value.threshold == cfg.txtRate))
  }

  // ---------------------------------------------------------------- one detector, one rule

  // What an entry for at most one alert, of the given kind, does to every pair.
  ghost predicate OneKind(s: real, b: Books, b': Books, mine: Pair, now: real, a: Option<ThreatAlert>) {
    && Sends(s, b, b', mine, now, if a.Some? then 1 else 0, a)
    && forall pair :: pair != mine ==> Untouched(s, b, b', pair, now)
  }

  lemma EnterIsOneKind(s: real, b: Books, a: Option<ThreatAlert>, now: real, mine: Pair)
    requires a.Some? ==> PairOf(a.value) == mine
    ensures OneKind(s, b, EnterAny(s, b, a, now), mine, now, a)
  {
    hide Sends, Untouched, Enter;
    Unchanged(s, b, mine, now);
    forall pair | pair != mine
      ensures Untouched(s, b, EnterAny(s, b, a, now), pair, now)
    {
      Unchanged(s, b, pair, now);
      if a.Some? {
        EnterEffect(s, b, a.value, now, pair);
      }
    }
    if a.Some? {
      EnterEffect(s, b, a.value, now, mine);
    }
  }

  lemma VolumeEffect(cfg: DetectorConfig, b: Books, info: PacketView, now: real, v: Option<EwmaDetection.EwmaResult>)
    returns (a: Option<ThreatAlert>)
    ensures IsVolumeAlert(cfg, info, v, a)
    ensures OneKind(cfg.suppressionSec, b, AfterVolume(cfg, b, info, now, v), Pair(info.src, VolumeAnomaly), now, a)
  {
    hide OneKind, Enter;
    a := if v.Some? then Some(VolumeAlert(cfg, info, v.value)) else None;
    EnterIsOneKind(cfg.suppressionSec, b, a, now, Pair(info.src, VolumeAnomaly));
  }

  lemma FloodEffect(cfg: DetectorConfig, b: Books, info: PacketView, now: real, v: Option<SynFloodDetection.SynFloodResult>)
    returns (a: Option<ThreatAlert>)
    ensures IsFloodAlert(cfg, info, v, a)
    ensures OneKind(cfg.suppressionSec, b, AfterFlood(cfg, b, info, now, v), Pair(info.src, AttackType.SynFlood), now, a)
  {
    hide OneKind, Enter;
    a := if v.Some? then Some(FloodAlert(cfg, info, v.value)) else None;
    EnterIsOneKind(cfg.suppressionSec, b, a, now, Pair(info.src, AttackType.SynFlood));
  }

  lemma ScanEffect(cfg: DetectorConfig, b: Books, info: PacketView, now: real, v: Option<PortScanDetection.PortScanResult>)
    returns (a: Option<ThreatAlert>)
    ensures IsScanAlert(cfg, info, v, a)
    ensures OneKind(cfg.suppressionSec, b, AfterScan(cfg, b, info, now, v), Pair(info.src, AttackType.PortScan), now, a)
  {
    hide OneKind, Enter;
    a := if v.Some? then Some(ScanAlert(cfg, info, v.value)) else None;
    EnterIsOneKind(cfg.suppressionSec, b, a, now, Pair(info.src, AttackType.PortScan));
  }

  // The packet concerns the brute-force rule, and what the rule then does.
  ghost function BruteForcePart(cfg: DetectorConfig, st: RuleState, info: PacketView, now: real): RuleState {
    if info.dstPort != 0 && info.dstPort in cfg.sensitivePorts then AfterBruteForce(cfg, st, info, now) else st
  }

  lemma BruteForceEffect(cfg: DetectorConfig, st: RuleState, info: PacketView, now: real) returns (a: Option<ThreatAlert>)
    ensures IsBruteForceAlert(cfg, info, now, PortWindowOf(st.bruteForce, info.src, info.dstPort, now), a)
    ensures OneKind(cfg.suppressionSec, st.books, BruteForcePart(cfg, st, info, now).books, Pair(info.src, BruteForce), now, a)
  {
    hide OneKind, Enter, EnterAny, PortWindowOf, With, LogGuess;
    var w := PortWindowOf(st.bruteForce, info.src, info.dstPort, now);
    var age, rate := now - w.start, cfg.bruteForceRate;
    a := None;
    if info.dstPort != 0 && info.dstPort in cfg.sensitivePorts {
      if age >= 1.0 {
        QuotientIff(w.count as real, age, rate);
        QuotientIff(w.count as real, age, rate * 3.0);
        QuotientTimes(w.count as real, age);
      }
      a := BruteForceAlert(cfg, info, CountStep(w, now).1);
    }
    EnterIsOneKind(cfg.suppressionSec, st.books, a, now, Pair(info.src, BruteForce));
    NoneEntered(cfg.suppressionSec, st.books, now);
  }

  lemma NoneEntered(s: real, b: Books, now: real)
    ensures EnterAny(s, b, None, now) == b
  {
  }

  ghost function ExfilPart(cfg: DetectorConfig, st: RuleState, info: PacketView, now: real): RuleState {
    if info.payloadLength > 0 then AfterExfil(cfg, st, info, now) else st
  }

  lemma ExfilEffect(cfg: DetectorConfig, st: RuleState, info: PacketView, now: real) returns (a: Option<ThreatAlert>)
    ensures IsExfilAlert(info, now, WindowOf(st.exfil, info.src), a)
    ensures OneKind(cfg.suppressionSec, st.books, ExfilPart(cfg, st, info, now).books, Pair(info.src, DataExfiltration), now, a)
  {
    hide OneKind, Enter, EnterAny, WindowOf, LogBurst;
    var w := WindowOf(st.exfil, info.src);
    var age, bytes := now - w.start, (w.count + info.payloadLength) as real;
    a := None;
    if info.payloadLength > 0 {
      if age >= 1.0 {
        QuotientIff(bytes, age, 5000000.0);
        QuotientIff(bytes, age, 20000000.0);
        QuotientTimes(bytes, age);
      }
      a := ExfilAlert(info, BytesStep(w, info.payloadLength, now).1);
    }
    EnterIsOneKind(cfg.suppressionSec, st.books, a, now, Pair(info.src, DataExfiltration));
    NoneEntered(cfg.suppressionSec, st.books, now);
  }

  ghost function DnsPart(cfg: DetectorConfig, st: RuleState, info: PacketView, now: real): RuleState {
    if info.dns.Some? then AfterDns(cfg, st, info, info.dns.value, now) else st
  }

  lemma SuspiciousIsLong(cfg: DetectorConfig, info: PacketView)
    requires info.dns.Some?
    ensures SuspiciousName(cfg, info.dns.value.queryName) <==> LongName(cfg, info)
  {
    var name := info.dns.value.queryName;
    forall i, j | 0 <= i <= j <= |name|
      ensures DnsExtractor.DotFree(name, i, j) <==> NoDots(name, i, j)
    {
    }
  }

  // Detections of the tunnelling rule: one for the name, one for the rate.
  ghost function DnsDetections(cfg: DetectorConfig, b: Books, info: PacketView, now: real, w: RateWindow): nat {
    (if LongName(cfg, info) then 1 else 0) + (if Counted(cfg, b, info, now) && RateReached(cfg, now, w) then 1 else 0)
  }

  ghost predicate DnsKind(cfg: DetectorConfig, b: Books, b': Books, info: PacketView, now: real, w: RateWindow, a: Option<ThreatAlert>) {
    && IsDnsAlert(cfg, b, info, now, w, a)
    && Sends(cfg.suppressionSec, b, b', Pair(info.src, DnsTunneling), now, DnsDetections(cfg, b, info, now, w), a)
    && forall pair :: pair != Pair(info.src, DnsTunneling) ==> Untouched(cfg.suppressionSec, b, b', pair, now)
  }

  lemma RateIff(cfg: DetectorConfig, info: PacketView, now: real, w: RateWindow)
    ensures var t := TxtAlert(cfg, info, CountStep(w, now).1);
      && (t.Some? <==> RateReached(cfg, now, w))
      && (t.Some? ==>
            && About(t.value, info, DnsTunneling) && t.value.severity == High && t.value.baseline == 0.0
            && t.value.observed * (now - w.start) == w.count as real && t.value.threshold == cfg.txtRate)
  {
    var age := now - w.start;
    if age >= 1.0 {
      QuotientIff(w.count as real, age, cfg.txtRate);
      QuotientTimes(w.count as real, age);
    }
  }

  // Two detections at once send at most the first, since a withheld one leaves the pair as it is.
  lemma DnsEffect(cfg: DetectorConfig, st: RuleState, info: PacketView, now: real) returns (a: Option<ThreatAlert>)
    ensures DnsKind(cfg, st.books, DnsPart(cfg, st, info, now).books, info, now, WindowOf(st.dnsTxt, info.src), a)
  {
    hide Enter, WindowOf, LogAsked, SuspiciousName, LongName, Clear, CountStep, TxtAlert, RateReached, Sends, Untouched, Times, AlertsOf;
    var s, b, w, mine := cfg.suppressionSec, st.books, WindowOf(st.dnsTxt, info.src), Pair(info.src, DnsTunneling);
    a := None;
    if !info.dns.Some? {
      assert !LongName(cfg, info) by {
        NoQuestion(cfg, info);
      }
      EnterIsOneKind(s, b, None, now, mine);
      NoneEntered(s, b, now);
    } else {
      SuspiciousIsLong(cfg, info);
      RateIff(cfg, info, now, w);
      var t := TxtAlert(cfg, info, CountStep(w, now).1);
      var q := QueryAlert(info, info.dns.value.queryName);
      if LongName(cfg, info) {
        a := Some(q);
        EnterIsOneKind(s, b, a, now, mine);
        if !Clear(s, b.log, mine, now) && info.dns.value.queryType == 16 {
          WithheldTwice(s, b, q, t, now, mine);
        }
      } else if info.dns.value.queryType == 16 {
        a := t;
        EnterIsOneKind(s, b, t, now, mine);
      } else {
        EnterIsOneKind(s, b, None, now, mine);
        NoneEntered(s, b, now);
      }
    }
  }

  lemma NoQuestion(cfg: DetectorConfig, info: PacketView)
    ensures info.dns == None ==> !LongName(cfg, info)
  {
  }

  // Over a pair that is not clear a second detection changes nothing but the count of detections.
  lemma WithheldTwice(s: real, b: Books, q: ThreatAlert, t: Option<ThreatAlert>, now: real, mine: Pair)
    requires !Clear(s, b.log, mine, now) && PairOf(q) == mine && (t.Some? ==> PairOf(t.value) == mine)
    ensures var b2 := EnterAny(s, Enter(s, b, q, now), t, now);
      && Sends(s, b, b2, mine, now, 1 + (if t.Some? then 1 else 0), Some(q))
      && forall pair :: pair != mine ==> Untouched(s, b, b2, pair, now)
  {
    hide Enter, Clear, Times, AlertsOf;
    var b1 := Enter(s, b, q, now);
    var b2 := EnterAny(s, b1, t, now);
    EnterEffect(s, b, q, now, mine);
    EnterIsOneKind(s, b, Some(q), now, mine);
    EnterIsOneKind(s, b1, t, now, mine);
    assert EnterAny(s, b, Some(q), now) == b1;
    var n := if t.Some? then 1 else 0;
    TwoSends(s, b, b1, b2, mine, now, n, Some(q), t);
    forall pair | pair != mine
      ensures Untouched(s, b, b2, pair, now)
    {
      UntouchedTwice(s, b, b1, b2, pair, now);
    }
  }

  lemma TwoSends(s: real, b: Books, b1: Books, b2: Books, mine: Pair, now: real, n: nat, q: Option<ThreatAlert>, t: Option<ThreatAlert>)
    requires Sends(s, b, b1, mine, now, 1, q) && Sends(s, b1, b2, mine, now, n, t) && !Clear(s, b1.log, mine, now)
    ensures Sends(s, b, b2, mine, now, 1 + n, q)
  {
    hide Clear, Times, AlertsOf;
    var one, more := seq(1, _ => now), seq(n, _ => now);
    assert one + more == seq(1 + n, _ => now);
    assert Times(b.log, mine) + one + more == Times(b.log, mine) + (one + more);
    assert AlertsOf(b1.sent, mine) + [] == AlertsOf(b1.sent, mine);
  }

  // ---------------------------------------------------------------- the whole packet

  // Untouched by each of several changes in a row.
  lemma {:induction false} UntouchedRun(s: real, bs: seq<Books>, first: nat, last: nat, pair: Pair, now: real)
    requires first <= last < |bs|
    requires forall i, j :: first <= i && j == i + 1 && j <= last ==> Untouched(s, bs[i], bs[j], pair, now)
    ensures Untouched(s, bs[first], bs[last], pair, now)
    decreases last
  {
    hide Untouched;
    if first == last {
      Unchanged(s, bs[first], pair, now);
    } else {
      UntouchedRun(s, bs, first, last - 1, pair, now);
      UntouchedTwice(s, bs[first], bs[last - 1], bs[last], pair, now);
    }
  }

  // Sent by one of them.
  lemma SentInRun(s: real, bs: seq<Books>, m: nat, pair: Pair, now: real, n: nat, a: Option<ThreatAlert>)
    requires m + 1 < |bs| && Sends(s, bs[m], bs[m + 1], pair, now, n, a)
    requires forall i, j :: 0 <= i && i != m && j == i + 1 && j < |bs| ==> Untouched(s, bs[i], bs[j], pair, now)
    ensures Sends(s, bs[0], bs[|bs| - 1], pair, now, n, a)
    ensures Untouched(s, bs[0], bs[m], pair, now)
  {
    hide Untouched, Sends;
    UntouchedRun(s, bs, 0, m, pair, now);
    UntouchedRun(s, bs, m + 1, |bs| - 1, pair, now);
    SendsBetween(s, bs[0], bs[m], bs[m + 1], bs[|bs| - 1], pair, now, n, a);
  }

  // A guess is logged at its own port only, when that is sensitive.
  ghost predicate GuessesGrew(cfg: DetectorConfig, logs: RuleLogs, logs': RuleLogs, info: PacketView, now: real) {
    forall src, port ::
      var mine := src == info.src && port == info.dstPort && port != 0 && port in cfg.sensitivePorts;
      GuessLog(logs', src, port) == GuessLog(logs, src, port) + (if mine then [now] else [])
  }

  // A burst is logged when there is a payload.
  ghost predicate BurstsGrew(logs: RuleLogs, logs': RuleLogs, info: PacketView, now: real) {
    forall src ::
      var mine := src == info.src && info.payloadLength > 0;
      BurstLog(logs', src) == BurstLog(logs, src) + (if mine then [Burst(now, info.payloadLength)] else [])
  }

  // A question is logged when it is counted.
  ghost predicate QuestionsGrew(cfg: DetectorConfig, b: Books, logs: RuleLogs, logs': RuleLogs, info: PacketView, now: real) {
    forall src ::
      var mine := src == info.src && Counted(cfg, b, info, now);
      AskedLog(logs', src) == AskedLog(logs, src) + (if mine then [now] else [])
  }

  // Which packets reach which rule.
  ghost predicate LogsGrow(cfg: DetectorConfig, b: Books, logs: RuleLogs, logs': RuleLogs, info: PacketView, now: real) {
    GuessesGrew(cfg, logs, logs', info, now) && BurstsGrew(logs, logs', info, now) && QuestionsGrew(cfg, b, logs, logs', info, now)
  }

  // The six alerts a packet can send, and how many detections each stands for.
  datatype Outcome = Outcome(
    volume: Option<ThreatAlert>, flood: Option<ThreatAlert>, scan: Option<ThreatAlert>,
    brute: Option<ThreatAlert>, dns: Option<ThreatAlert>, exfil: Option<ThreatAlert>)

  function One(a: Option<ThreatAlert>): nat {
    if a.Some? then 1 else 0
  }

  // Each alert is the one its verdict or window calls for.
  ghost predicate CalledFor(cfg: DetectorConfig, st: RuleState, info: PacketView, now: real,
                            v: Option<EwmaDetection.EwmaResult>, f: Option<SynFloodDetection.SynFloodResult>,
                            sc: Option<PortScanDetection.PortScanResult>, x: Outcome)
  {
    && IsVolumeAlert(cfg, info, v, x.volume)
    && IsFloodAlert(cfg, info, f, x.flood)
    && IsScanAlert(cfg, info, sc, x.scan)
    && IsBruteForceAlert(cfg, info, now, PortWindowOf(st.bruteForce, info.src, info.dstPort, now), x.brute)
    && IsDnsAlert(cfg, st.books, info, now, WindowOf(st.dnsTxt, info.src), x.dns)
    && IsExfilAlert(info, now, WindowOf(st.exfil, info.src), x.exfil)
  }

  // Each goes to its own pair, when that is clear, and nothing else happens.
  ghost predicate Delivered(cfg: DetectorConfig, st: RuleState, b': Books, info: PacketView, now: real, x: Outcome) {
    var s, b := cfg.suppressionSec, st.books;
    && Sends(s, b, b', Pair(info.src, VolumeAnomaly), now, One(x.volume), x.volume)
    && Sends(s, b, b', Pair(info.src, AttackType.SynFlood), now, One(x.flood), x.flood)
    && Sends(s, b, b', Pair(info.src, AttackType.PortScan), now, One(x.scan), x.scan)
    && Sends(s, b, b', Pair(info.src, BruteForce), now, One(x.brute), x.brute)
    && Sends(s, b, b', Pair(info.src, DnsTunneling), now, DnsDetections(cfg, b, info, now, WindowOf(st.dnsTxt, info.src)), x.dns)
    && Sends(s, b, b', Pair(info.src, DataExfiltration), now, One(x.exfil), x.exfil)
    && forall pair: Pair :: pair.src != info.src ==> Untouched(s, b, b', pair, now)
  }

  ghost predicate InspectedExactly(cfg: DetectorConfig, st: RuleState, st': RuleState, info: PacketView, now: real,
                                   v: Option<EwmaDetection.EwmaResult>, f: Option<SynFloodDetection.SynFloodResult>,
                                   sc: Option<PortScanDetection.PortScanResult>)
  {
    && LogsGrow(cfg, st.books, st.logs, st'.logs, info, now)
    && exists x :: CalledFor(cfg, st, info, now, v, f, sc, x) && Delivered(cfg, st, st'.books, info, now, x)
  }

  // The order of the six.
  ghost predicate Stages(cfg: DetectorConfig, info: PacketView, now: real, bs: seq<Books>, x: Outcome, w: RateWindow) {
    var s := cfg.suppressionSec;
    && |bs| == 7
    && OneKind(s, bs[0], bs[1], Pair(info.src, VolumeAnomaly), now, x.volume)
    && OneKind(s, bs[1], bs[2], Pair(info.src, AttackType.SynFlood), now, x.flood)
    && OneKind(s, bs[2], bs[3], Pair(info.src, AttackType.PortScan), now, x.scan)
    && OneKind(s, bs[3], bs[4], Pair(info.src, BruteForce), now, x.brute)
    && DnsKind(cfg, bs[4], bs[5], info, now, w, x.dns)
    && OneKind(s, bs[5], bs[6], Pair(info.src, DataExfiltration), now, x.exfil)
  }

  lemma StagesDeliver(cfg: DetectorConfig, st: RuleState, info: PacketView, now: real, bs: seq<Books>, x: Outcome)
    requires Stages(cfg, info, now, bs, x, WindowOf(st.dnsTxt, info.src)) && bs[0] == st.books
    ensures Delivered(cfg, st, bs[6], info, now, x)
    ensures IsDnsAlert(cfg, st.books, info, now, WindowOf(st.dnsTxt, info.src), x.dns)
    ensures Counted(cfg, bs[4], info, now) <==> Counted(cfg, st.books, info, now)
  {
    hide Sends, Untouched, LongName, RateReached, WindowOf;
    var s := cfg.suppressionSec;
    SentInRun(s, bs, 0, Pair(info.src, VolumeAnomaly), now, One(x.volume), x.volume);
    SentInRun(s, bs, 1, Pair(info.src, AttackType.SynFlood), now, One(x.flood), x.flood);
    SentInRun(s, bs, 2, Pair(info.src, AttackType.PortScan), now, One(x.scan), x.scan);
    SentInRun(s, bs, 3, Pair(info.src, BruteForce), now, One(x.brute), x.brute);
    var dns := Pair(info.src, DnsTunneling);
    SentInRun(s, bs, 4, dns, now, DnsDetections(cfg, bs[4], info, now, WindowOf(st.dnsTxt, info.src)), x.dns);
    SameClear(s, bs[0], bs[4], dns, now);
    SentInRun(s, bs, 5, Pair(info.src, DataExfiltration), now, One(x.exfil), x.exfil);
    forall pair: Pair | pair.src != info.src
      ensures Untouched(s, bs[0], bs[6], pair, now)
    {
      UntouchedRun(s, bs, 0, 6, pair, now);
    }
  }

  lemma SameClear(s: real, b: Books, b': Books, pair: Pair, now: real)
    requires Untouched(s, b, b', pair, now)
    ensures Clear(s, b.log, pair, now) <==> Clear(s, b'.log, pair, now)
  {
  }

  // The three rules in turn.
  lemma RulesAreParts(cfg: DetectorConfig, st: RuleState, info: PacketView, now: real)
    ensures var st4 := BruteForcePart(cfg, st, info, now);
      var st5 := DnsPart(cfg, st4, info, now);
      && AfterRules(cfg, st, info, now) == ExfilPart(cfg, st5, info, now)
      && st4.dnsTxt == st.dnsTxt && st4.exfil == st.exfil && st5.exfil == st.exfil
  {
    hide EnterAny, Enter, With, LogGuess, LogAsked, LogBurst, WindowOf, CountStep, SuspiciousName, Clear;
  }

  lemma GuessesGrow(cfg: DetectorConfig, st: RuleState, info: PacketView, now: real)
    ensures var logs := BruteForcePart(cfg, st, info, now).logs;
      GuessesGrew(cfg, st.logs, logs, info, now) && logs.bursts == st.logs.bursts && logs.asked == st.logs.asked
  {
    hide EnterAny, Find, With, CountStep, BruteForceAlert, PortWindowOf;
    WithFinds(st.logs.guesses, info.src, info.dstPort, GuessLog(st.logs, info.src, info.dstPort) + [now]);
  }

  lemma QuestionsGrow(cfg: DetectorConfig, st: RuleState, info: PacketView, now: real)
    ensures var logs := DnsPart(cfg, st, info, now).logs;
      && QuestionsGrew(cfg, st.books, st.logs, logs, info, now)
      && logs.bursts == st.logs.bursts && logs.guesses == st.logs.guesses
  {
    hide Enter, EnterAny, CountStep, TxtAlert, WindowOf, SuspiciousName, LongName, Clear;
    if info.dns.Some? {
      SuspiciousIsLong(cfg, info);
    }
  }

  lemma BurstsGrow(cfg: DetectorConfig, st: RuleState, info: PacketView, now: real)
    ensures var logs := ExfilPart(cfg, st, info, now).logs;
      BurstsGrew(st.logs, logs, info, now) && logs.asked == st.logs.asked && logs.guesses == st.logs.guesses
  {
    hide EnterAny, BytesStep, ExfilAlert, WindowOf;
  }

  // One packet through all detectors and rules does exactly that.
  lemma RulesAreExact(cfg: DetectorConfig, st: RuleState, info: PacketView, now: real,
                      v: Option<EwmaDetection.EwmaResult>, f: Option<SynFloodDetection.SynFloodResult>,
                      sc: Option<PortScanDetection.PortScanResult>)
    ensures InspectedExactly(cfg, st,
      AfterRules(cfg, st.(books := AfterDetectors(cfg, st.books, info, now, v, f, sc)), info, now), info, now, v, f, sc)
  {
    hide AfterRules, AfterVolume, AfterFlood, AfterScan, BruteForcePart, DnsPart, ExfilPart;
    hide OneKind, DnsKind, Delivered, WindowOf, PortWindowOf, Counted, GuessesGrew, BurstsGrew, QuestionsGrew, LogsGrow;
    hide IsVolumeAlert, IsFloodAlert, IsScanAlert, IsBruteForceAlert, IsDnsAlert, IsExfilAlert;
    var b0 := st.books;
    var b1 := AfterVolume(cfg, b0, info, now, v);
    var b2 := AfterFlood(cfg, b1, info, now, f);
    var b3 := AfterScan(cfg, b2, info, now, sc);
    var st3 := st.(books := b3);
    var st4 := BruteForcePart(cfg, st3, info, now);
    var st5 := DnsPart(cfg, st4, info, now);
    var st6 := ExfilPart(cfg, st5, info, now);
    RulesAreParts(cfg, st3, info, now);
    var volume := VolumeEffect(cfg, b0, info, now, v);
    var flood := FloodEffect(cfg, b1, info, now, f);
    var scan := ScanEffect(cfg, b2, info, now, sc);
    var brute := BruteForceEffect(cfg, st3, info, now);
    var dns := DnsEffect(cfg, st4, info, now);
    var exfil := ExfilEffect(cfg, st5, info, now);
    var x := Outcome(volume, flood, scan, brute, dns, exfil);
    var bs := [b0, b1, b2, b3, st4.books, st5.books, st6.books];
    StagesDeliver(cfg, st, info, now, bs, x);
    assert CalledFor(cfg, st, info, now, v, f, sc, x);
    GuessesGrow(cfg, st3, info, now);
    QuestionsGrow(cfg, st4, info, now);
    BurstsGrow(cfg, st5, info, now);
    LogsCompose(cfg, st, st4, st5, st6, info, now);
  }

  // Each log changes in its own rule only.
  lemma LogsCompose(cfg: DetectorConfig, st: RuleState, st4: RuleState, st5: RuleState, st6: RuleState, info: PacketView, now: real)
    requires GuessesGrew(cfg, st.logs, st4.logs, info, now)
    requires st4.logs.bursts == st.logs.bursts && st4.logs.asked == st.logs.asked
    requires QuestionsGrew(cfg, st4.books, st4.logs, st5.logs, info, now)
    requires st5.logs.bursts == st4.logs.bursts && st5.logs.guesses == st4.logs.guesses
    requires BurstsGrew(st5.logs, st6.logs, info, now)
    requires st6.logs.asked == st5.logs.asked && st6.logs.guesses == st5.logs.guesses
    requires Counted(cfg, st4.books, info, now) <==> Counted(cfg, st.books, info, now)
    ensures LogsGrow(cfg, st.books, st.logs, st6.logs, info, now)
  {
    hide Counted, GuessLog, AskedLog, BurstLog;
    SameLogs(st4.logs, st6.logs);
    SameLogs(st5.logs, st6.logs);
    SameLogs(st.logs, st4.logs);
    SameLogs(st.logs, st5.logs);
  }

  lemma SameLogs(logs: RuleLogs, logs': RuleLogs)
    ensures logs.guesses == logs'.guesses ==> forall src, port :: GuessLog(logs', src, port) == GuessLog(logs, src, port)
    ensures logs.asked == logs'.asked ==> forall src :: AskedLog(logs', src) == AskedLog(logs, src)
    ensures logs.bursts == logs'.bursts ==> forall src :: BurstLog(logs', src) == BurstLog(logs, src)
  {
    hide Find;
  }
}
