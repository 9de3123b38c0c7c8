/** The threat detector: every valid packet goes through the window detectors and the simple rules, and
    each detection becomes an alert unless its source and kind have raised one too recently. */
module ThreatDetection {
  import opened NetTypes
  import opened Suppression
  import opened AlertRules
  import opened RuleEffects
  import DnsExtractor
  import EwmaDetection
  import PortScanDetection
  import SynFloodDetection

  // When a pair last fired, as the suppression table remembers it.
  function Remembered(table: map<string, map<AttackType, real>>, pair: Pair): Option<real> {
    if pair.src in table && pair.kind in table[pair.src] then Some(table[pair.src][pair.kind]) else None
  }

  function WithFired(table: map<string, map<AttackType, real>>, pair: Pair, now: real): map<string, map<AttackType, real>> {
    table[pair.src := (if pair.src in table then table[pair.src] else map[])[pair.kind := now]]
  }

  // The table remembers exactly the last firing of each pair, and the counter counts the alerts sent.
  ghost predicate Gate(s: real, table: map<string, map<AttackType, real>>, total: nat, b: Books, clock: real) {
    Kept(s, b, clock) && total == |b.sent| && forall pair :: Remembered(table, pair) == LastFired(b.log, pair)
  }

  lemma GateDecides(s: real, table: map<string, map<AttackType, real>>, total: nat, b: Books, pair: Pair, now: real)
    requires Gate(s, table, total, b, now)
    ensures Clear(s, b.log, pair, now) <==> (Remembered(table, pair) == None || now - Remembered(table, pair).value >= s)
  {
    hide Honest, Clear, LastFired, Remembered;
    LastFiredDecides(s, b.log, pair, now);
  }

  lemma GateFires(s: real, table: map<string, map<AttackType, real>>, total: nat, b: Books, a: ThreatAlert, now: real)
    requires Gate(s, table, total, b, now) && Clear(s, b.log, PairOf(a), now)
    ensures Gate(s, WithFired(table, PairOf(a), now), total + 1, Enter(s, b, a, now), now)
  {
    EnterKeeps(s, b, a, now);
    hide Honest, Clear, LastFired, Kept;
    var table', b' := WithFired(table, PairOf(a), now), Enter(s, b, a, now);
    forall pair
      ensures Remembered(table', pair) == LastFired(b'.log, pair)
    {
      LastFiredPush(b.log, Entry(PairOf(a), now, true), pair);
    }
  }

  lemma GateWithholds(s: real, table: map<string, map<AttackType, real>>, total: nat, b: Books, a: ThreatAlert, now: real)
    requires Gate(s, table, total, b, now) && !Clear(s, b.log, PairOf(a), now)
    ensures Gate(s, table, total, Enter(s, b, a, now), now)
  {
    EnterKeeps(s, b, a, now);
    hide Honest, Clear, LastFired, Remembered, Kept;
    var b' := Enter(s, b, a, now);
    forall pair
      ensures Remembered(table, pair) == LastFired(b'.log, pair)
    {
      LastFiredPush(b.log, Entry(PairOf(a), now, false), pair);
    }
  }

  lemma GateLater(s: real, table: map<string, map<AttackType, real>>, total: nat, b: Books, clock: real, now: real)
    requires Gate(s, table, total, b, clock) && clock <= now
    ensures Gate(s, table, total, b, now)
  {
    hide Honest, LastFired, Remembered, PairsOf, FiredPairs;
    assert forall i :: 0 <= i < |b.log| ==> b.log[i].time <= clock;
  }

  class ThreatDetector {
    const cfg: DetectorConfig
    const ewma: EwmaDetection.EwmaEngine
    const portScan: PortScanDetection.PortScanDetector
    const synFlood: SynFloodDetection.SynFloodDetector

    var suppression: map<string, map<AttackType, real>>
    var bruteForceState: map<string, map<Port, RateWindow>>
    var exfilState: map<string, RateWindow>
    var dnsTxtState: map<string, RateWindow>
    var totalAlertsFired: nat

    // Alerts handed to the delivery layer, oldest first.
    var sent: seq<ThreatAlert>

    ghost var log: seq<Entry>
    ghost var ruleLogs: RuleLogs
    ghost var clock: real

    ghost function State(): RuleState
      reads this
    {
      RuleState(Books(log, sent), bruteForceState, dnsTxtState, exfilState, ruleLogs)
    }

    ghost predicate GateValid()
      reads this
    {
      Gate(cfg.suppressionSec, suppression, totalAlertsFired, Books(log, sent), clock)
    }

    // Every window of the simple rules is the run of what has reached it.
    ghost predicate RulesValid()
      reads this
    {
      Tracked(bruteForceState, dnsTxtState, exfilState, ruleLogs)
    }

    ghost predicate EnginesValid()
      reads this, ewma, portScan, synFlood
    {
      && ewma.Valid() && portScan.Valid() && synFlood.Valid()
      && ewma.cfg == cfg.ewma && portScan.cfg == cfg.portScan && synFlood.cfg == cfg.synFlood
      && ewma.clock <= clock && portScan.clock <= clock && synFlood.clock <= clock
    }

    ghost predicate Valid()
      reads this, ewma, portScan, synFlood
    {
      GateValid() && RulesValid() && EnginesValid()
    }

    constructor (cfg: DetectorConfig)
      requires cfg.ewma.Sane() && cfg.synFlood.Sane() && cfg.portScan.windowSec > 0.0
      ensures Valid() && this.cfg == cfg && clock == 0.0
      ensures fresh(ewma) && fresh(portScan) && fresh(synFlood)
      ensures ewma.logs == map[] && portScan.logs == map[] && synFlood.logs == map[]
      ensures totalAlertsFired == 0 && State() == RuleState(Books([], []), map[], map[], map[], RuleLogs(map[], map[], map[]))
    {
      this.cfg := cfg;
      ewma := new EwmaDetection.EwmaEngine(cfg.ewma);
      portScan := new PortScanDetection.PortScanDetector(cfg.portScan);
      synFlood := new SynFloodDetection.SynFloodDetector(cfg.synFlood);
      suppression, bruteForceState, exfilState, dnsTxtState := map[], map[], map[], map[];
      totalAlertsFired, sent := 0, [];
      log := [];
      ruleLogs := RuleLogs(map[], map[], map[]);
      clock := 0.0;
    }

    // ---------------------------------------------------------------- the gate

    method IsSuppressed(src: string, kind: AttackType, now: real) returns (held: bool)
      requires GateValid() && clock == now
      ensures held <==> !Clear(cfg.suppressionSec, log, Pair(src, kind), now)
    {
      hide Gate, Clear;
      GateDecides(cfg.suppressionSec, suppression, totalAlertsFired, Books(log, sent), Pair(src, kind), now);
      if src !in suppression || kind !in suppression[src] {
        return false;
      }
      held := now - suppression[src][kind] < cfg.suppressionSec;
    }

    method RecordSuppression(src: string, kind: AttackType, now: real)
      modifies this`suppression
      ensures suppression == WithFired(old(suppression), Pair(src, kind), now)
    {
      var state := if src in suppression then suppression[src] else map[];
      suppression := suppression[src := state[kind := now]];
    }

    method Fire(alert: ThreatAlert, now: real)
      requires GateValid() && clock == now
      requires Clear(cfg.suppressionSec, log, PairOf(alert), now)
      modifies this`suppression, this`totalAlertsFired, this`sent, this`log
      ensures GateValid()
      ensures totalAlertsFired == old(totalAlertsFired) + 1
      ensures suppression == WithFired(old(suppression), PairOf(alert), now)
      ensures Books(log, sent) == Enter(cfg.suppressionSec, old(Books(log, sent)), alert, now)
    {
      hide Gate, Clear, WithFired;
      GateFires(cfg.suppressionSec, suppression, totalAlertsFired, Books(log, sent), alert, now);
      RecordSuppression(alert.src, alert.kind, now);
      totalAlertsFired := totalAlertsFired + 1;
      sent := sent + [alert];
      log := log + [Entry(PairOf(alert), now, true)];
    }

    // A detection that comes too soon leaves a trace in the log only.
    ghost method Withhold(alert: ThreatAlert, now: real)
      requires GateValid() && clock == now
      requires !Clear(cfg.suppressionSec, log, PairOf(alert), now)
      modifies this`log
      ensures GateValid()
      ensures Books(log, sent) == Enter(cfg.suppressionSec, old(Books(log, sent)), alert, now)
    {
      hide Gate, Clear;
      GateWithholds(cfg.suppressionSec, suppression, totalAlertsFired, Books(log, sent), alert, now);
      log := log + [Entry(PairOf(alert), now, false)];
    }

    // ---------------------------------------------------------------- verdicts of the window detectors

    method HandleEwmaAnomaly(info: PacketView, r: EwmaDetection.EwmaResult, now: real)
      requires GateValid() && clock == now
      modifies this`suppression, this`totalAlertsFired, this`sent, this`log
      ensures GateValid()
      ensures Books(log, sent) == Enter(cfg.suppressionSec, old(Books(log, sent)), VolumeAlert(cfg, info, r), now)
    {
      hide Gate, Clear, Enter, WithFired;
      var held := IsSuppressed(info.src, VolumeAnomaly, now);
      if held {
        Withhold(VolumeAlert(cfg, info, r), now);
        return;
      }
      Fire(VolumeAlert(cfg, info, r), now);
    }

    method HandleSynFlood(info: PacketView, r: SynFloodDetection.SynFloodResult, now: real)
      requires GateValid() && clock == now
      modifies this`suppression, this`totalAlertsFired, this`sent, this`log
      ensures GateValid()
      ensures Books(log, sent) == Enter(cfg.suppressionSec, old(Books(log, sent)), FloodAlert(cfg, info, r), now)
    {
      hide Gate, Clear, Enter, WithFired;
      var held := IsSuppressed(info.src, AttackType.SynFlood, now);
      if held {
        Withhold(FloodAlert(cfg, info, r), now);
        return;
      }
      Fire(FloodAlert(cfg, info, r), now);
    }

    method HandlePortScan(info: PacketView, r: PortScanDetection.PortScanResult, now: real)
      requires GateValid() && clock == now
      modifies this`suppression, this`totalAlertsFired, this`sent, this`log
      ensures GateValid()
      ensures Books(log, sent) == Enter(cfg.suppressionSec, old(Books(log, sent)), ScanAlert(cfg, info, r), now)
    {
      hide Gate, Clear, Enter, WithFired;
      var held := IsSuppressed(info.src, AttackType.PortScan, now);
      if held {
        Withhold(ScanAlert(cfg, info, r), now);
        return;
      }
      Fire(ScanAlert(cfg, info, r), now);
    }

    // ---------------------------------------------------------------- the simple rules

    method IsSensitivePort(port: Port) returns (sensitive: bool)
      ensures sensitive <==> port in cfg.sensitivePorts
    {
      for i := 0 to |cfg.sensitivePorts|
        invariant port !in cfg.sensitivePorts[..i]
      {
        if cfg.sensitivePorts[i] == port {
          return true;
        }
      }
      sensitive := false;
    }

    method CheckBruteForce(info: PacketView, now: real)
      requires GateValid() && clock == now
      modifies this`suppression, this`totalAlertsFired, this`sent, this`log, this`bruteForceState, this`ruleLogs
      ensures GateValid()
      ensures State() == AfterBruteForce(cfg, old(State()), info, now)
    {
      hide Gate, Clear, Enter, WithFired;
      var win := PortWindowOf(bruteForceState, info.src, info.dstPort, now);
      ruleLogs := LogGuess(ruleLogs, info, now);
      var age := now - win.start;
      if age >= 1.0 {
        var rate := win.count as real / age;
        win := RateWindow(now, 1);
        bruteForceState := With(bruteForceState, info.src, info.dstPort, win);
        if rate >= cfg.bruteForceRate {
          var sev := if rate >= cfg.bruteForceRate * 3.0 then Critical else High;
          var a := AlertOn(info, BruteForce, sev, rate, 0.0, cfg.bruteForceRate);
          var held := IsSuppressed(info.src, BruteForce, now);
          if held {
            Withhold(a, now);
          } else {
            Fire(a, now);
          }
        }
      } else {
        win := win.(count := win.count + 1);
        bruteForceState := With(bruteForceState, info.src, info.dstPort, win);
      }
    }

    method CheckDnsTunneling(info: PacketView, dns: DnsExtractor.DnsInfo, now: real)
      requires GateValid() && clock == now
      modifies this`suppression, this`totalAlertsFired, this`sent, this`log, this`dnsTxtState, this`ruleLogs
      ensures GateValid()
      ensures State() == AfterDns(cfg, old(State()), info, dns, now)
    {
      hide Gate, Clear, Enter, WithFired, DnsExtractor.DotFree, AfterTxt;
      var qname := dns.queryName;
      var maxLabel := DnsExtractor.LongestLabel(qname);
      ScanDecides(cfg, qname, maxLabel);
      hide SuspiciousName;
      if |qname| >= cfg.maxFqdnLength || maxLabel >= cfg.maxLabelLength {
        var held := IsSuppressed(info.src, DnsTunneling, now);
        if !held {
          Fire(QueryAlert(info, qname), now);
          return;
        }
        Withhold(QueryAlert(info, qname), now);
      }
      if dns.queryType == DNS_QTYPE_TXT {
        CountTxt(info, now);
      }
    }

    method CountTxt(info: PacketView, now: real)
      requires GateValid() && clock == now
      modifies this`suppression, this`totalAlertsFired, this`sent, this`log, this`dnsTxtState, this`ruleLogs
      ensures GateValid()
      ensures State() == AfterTxt(cfg, old(State()), info, now)
    {
      hide Gate, Clear, Enter, WithFired;
      var win := WindowOf(dnsTxtState, info.src);
      ruleLogs := LogAsked(ruleLogs, info, now);
      var age := now - win.start;
      if age >= 1.0 {
        var rate := win.count as real / age;
        dnsTxtState := dnsTxtState[info.src := RateWindow(now, 1)];
        if rate >= cfg.txtRate {
          var a := AlertOn(info, DnsTunneling, High, rate, 0.0, cfg.txtRate);
          var held := IsSuppressed(info.src, DnsTunneling, now);
          if held {
            Withhold(a, now);
          } else {
            Fire(a, now);
          }
        }
      } else {
        dnsTxtState := dnsTxtState[info.src := win.(count := win.count + 1)];
      }
    }

    method CheckDataExfiltration(info: PacketView, now: real)
      requires GateValid() && clock == now
      modifies this`suppression, this`totalAlertsFired, this`sent, this`log, this`exfilState, this`ruleLogs
      ensures GateValid()
      ensures State() == AfterExfil(cfg, old(State()), info, now)
    {
      hide Gate, Clear, Enter, WithFired;
      var win := WindowOf(exfilState, info.src);
      ruleLogs := LogBurst(ruleLogs, info, now);
      var bytes := win.count + info.payloadLength;
      var age := now - win.start;
      if age < 1.0 {
        exfilState := exfilState[info.src := win.(count := bytes)];
        return;
      }
      var bps := bytes as real / age;
      exfilState := exfilState[info.src := RateWindow(now, 0)];
      if bps < EXFIL_MEDIUM {
        return;
      }
      var sev := if bps >= EXFIL_HIGH then High else Medium;
      var a := AlertOn(info, DataExfiltration, sev, bps, 0.0, EXFIL_MEDIUM);
      var held := IsSuppressed(info.src, DataExfiltration, now);
      if held {
        Withhold(a, now);
        return;
      }
      Fire(a, now);
    }

    method ApplyRules(info: PacketView, now: real)
      requires GateValid() && clock == now
      modifies this`suppression, this`totalAlertsFired, this`sent, this`log, this`bruteForceState, this`dnsTxtState, this`exfilState, this`ruleLogs
      ensures GateValid()
      ensures State() == AfterRules(cfg, old(State()), info, now)
    {
      hide Gate, AfterBruteForce, AfterDns, AfterExfil;
      var sensitive := IsSensitivePort(info.dstPort);
      if info.dstPort != 0 && sensitive {
        CheckBruteForce(info, now);
      }
      if info.dns.Some? {
        CheckDnsTunneling(info, info.dns.value, now);
      }
      if info.payloadLength > 0 {
        CheckDataExfiltration(info, now);
      }
    }

    // ---------------------------------------------------------------- one packet

    method InspectVolume(info: PacketView, now: real)
      requires Valid() && clock == now
      modifies this`suppression, this`totalAlertsFired, this`sent, this`log, ewma
      ensures Valid()
      ensures ewma.logs == old(ewma.logs)[info.src := old(ewma.LogOf(info.src)) + [EwmaDetection.EwmaEvent(now, info.totalLength)]]
      ensures Books(log, sent) == AfterVolume(cfg, old(Books(log, sent)), info, now, VolumeVerdict(info.src))
    {
      hide Gate, Enter, EwmaDetection.Verdict, EwmaDetection.Tracks, PortScanDetection.Tracks, SynFloodDetection.Tracks;
      var r := ewma.Update(info.src, info.totalLength, now);
      if r.Some? {
        HandleEwmaAnomaly(info, r.value, now);
      }
    }

    method InspectSyns(info: PacketView, now: real)
      requires Valid() && clock == now
      modifies this`suppression, this`totalAlertsFired, this`sent, this`log, synFlood
      ensures Valid()
      ensures synFlood.logs == if !info.isTcp then old(synFlood.logs)
        else old(synFlood.logs)[info.src := old(synFlood.LogOf(info.src)) + [SynFloodDetection.SynEvent(now, info.tcpFlags)]]
      ensures Books(log, sent) ==
        AfterFlood(cfg, old(Books(log, sent)), info, now, if info.isTcp then FloodVerdict(info.src) else None)
    {
      hide Gate, Enter, SynFloodDetection.Verdict, EwmaDetection.Tracks, PortScanDetection.Tracks, SynFloodDetection.Tracks;
      if info.isTcp {
        var r := synFlood.Inspect(info.src, info.tcpFlags, now);
        if r.Some? {
          HandleSynFlood(info, r.value, now);
        }
      }
    }

    method InspectPorts(info: PacketView, now: real)
      requires Valid() && clock == now
      modifies this`suppression, this`totalAlertsFired, this`sent, this`log, portScan
      ensures Valid()
      ensures portScan.logs == if info.dstPort == 0 then old(portScan.logs)
        else old(portScan.logs)[info.src := old(portScan.LogOf(info.src)) + [ScanEventOf(info, now)]]
      ensures Books(log, sent) ==
        AfterScan(cfg, old(Books(log, sent)), info, now, if info.dstPort != 0 then ScanVerdict(info.src) else None)
    {
      hide Gate, Enter, PortScanDetection.Verdict, EwmaDetection.Tracks, PortScanDetection.Tracks, SynFloodDetection.Tracks;
      if info.dstPort != 0 {
        var r := portScan.Inspect(info.src, info.dstPort, if info.isTcp then info.tcpFlags else 0, now);
        if r.Some? {
          HandlePortScan(info, r.value, now);
        }
      }
    }

    // What the engines answer to the last event of a source.
    ghost function VolumeVerdict(src: string): Option<EwmaDetection.EwmaResult>
      reads this, ewma
      requires ewma.cfg.Sane()
    {
      if ewma.LogOf(src) == [] then None else EwmaDetection.Verdict(ewma.cfg, ewma.LogOf(src))
    }

    ghost function FloodVerdict(src: string): Option<SynFloodDetection.SynFloodResult>
      reads this, synFlood
      requires synFlood.cfg.Sane()
    {
      if synFlood.LogOf(src) == [] then None else SynFloodDetection.Verdict(synFlood.cfg, synFlood.LogOf(src))
    }

    ghost function ScanVerdict(src: string): Option<PortScanDetection.PortScanResult>
      reads this, portScan
    {
      if portScan.LogOf(src) == [] then None else PortScanDetection.Verdict(portScan.cfg, portScan.LogOf(src))
    }

    // Every valid packet of a known source is logged with the engines it concerns, and exactly the alerts
    // that their verdicts and the rules call for, and that are not withheld, are sent.
    method Inspect(info: PacketView, now: real)
      requires Valid() && clock <= now
      modifies this, ewma, synFlood, portScan
      ensures Valid() && clock == now
      ensures !info.valid || info.src == "" ==>
        && State() == old(State()) && ewma.logs == old(ewma.logs)
        && synFlood.logs == old(synFlood.logs) && portScan.logs == old(portScan.logs)
      ensures info.valid && info.src != "" ==>
        && ewma.logs == old(ewma.logs)[info.src := old(ewma.LogOf(info.src)) + [EwmaDetection.EwmaEvent(now, info.totalLength)]]
        && synFlood.logs == (if !info.isTcp then old(synFlood.logs)
            else old(synFlood.logs)[info.src := old(synFlood.LogOf(info.src)) + [SynFloodDetection.SynEvent(now, info.tcpFlags)]])
        && portScan.logs == (if info.dstPort == 0 then old(portScan.logs)
            else old(portScan.logs)[info.src := old(portScan.LogOf(info.src)) + [ScanEventOf(info, now)]])
      ensures info.valid && info.src != "" ==>
        State() == AfterRules(cfg,
          old(State()).(books := AfterDetectors(cfg, old(Books(log, sent)), info, now,
            VolumeVerdict(info.src),
            if info.isTcp then FloodVerdict(info.src) else None,
            if info.dstPort != 0 then ScanVerdict(info.src) else None)),
          info, now)
      ensures info.valid && info.src != "" ==>
        InspectedExactly(cfg, old(State()), State(), info, now,
          VolumeVerdict(info.src),
          if info.isTcp then FloodVerdict(info.src) else None,
          if info.dstPort != 0 then ScanVerdict(info.src) else None)
    {
      hide EwmaDetection.Tracks, PortScanDetection.Tracks, SynFloodDetection.Tracks;
      hide EwmaDetection.Verdict, PortScanDetection.Verdict, SynFloodDetection.Verdict;
      hide InspectedExactly;
      ghost var before := State();
      hide Tracked, Gate, AfterRules, AfterVolume, AfterFlood, AfterScan;
      GateLater(cfg.suppressionSec, suppression, totalAlertsFired, Books(log, sent), clock, now);
      clock := now;
      if !info.valid || info.src == "" {
        return;
      }
      InspectVolume(info, now);
      InspectSyns(info, now);
      InspectPorts(info, now);
      RulesKeepTracked(cfg, State(), info, now);
      RulesAreExact(cfg, before, info, now, VolumeVerdict(info.src),
        if info.isTcp then FloodVerdict(info.src) else None, if info.dstPort != 0 then ScanVerdict(info.src) else None);
      ApplyRules(info, now);
    }

    // The engines forget idle sources; suppression and the simple rules forget nothing.
    method EvictStaleState(now: real, ewmaNow: real)
      requires Valid() && clock <= now <= ewmaNow
      modifies this`clock, ewma, synFlood, portScan
      ensures Valid() && clock == ewmaNow && State() == old(State())
      ensures portScan.logs == old(portScan.logs)
      ensures forall src :: src in ewma.logs ==> src in old(ewma.logs) && ewma.logs[src] == old(ewma.logs)[src]
      ensures forall src :: src in synFlood.logs ==> src in old(synFlood.logs) && synFlood.logs[src] == old(synFlood.logs)[src]
    {
      hide Gate;
      GateLater(cfg.suppressionSec, suppression, totalAlertsFired, Books(log, sent), clock, ewmaNow);
      ewma.EvictStaleProfiles(ewmaNow);
      portScan.EvictStale(now);
      synFlood.EvictStale(now);
      clock := ewmaNow;
    }
  }

  function ScanEventOf(info: PacketView, now: real): PortScanDetection.ScanEvent {
    PortScanDetection.ScanEvent(now, info.dstPort, if info.isTcp then info.tcpFlags else 0)
  }

  // Comparing the longest label with the limit tells whether some stretch reaches it.
  lemma ScanDecides(cfg: DetectorConfig, name: Bytes, maxLabel: nat)
    requires DnsExtractor.IsLongestRun(name, maxLabel)
    ensures SuspiciousName(cfg, name) <==> |name| >= cfg.maxFqdnLength || maxLabel >= cfg.maxLabelLength
  {
  }
}
