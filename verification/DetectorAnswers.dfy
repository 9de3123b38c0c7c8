/** The exact answers of the three window detectors, stated by counts, durations and products: when there
    is one, how severe it is, and what its numbers mean. */
module DetectorAnswers {
  import opened NetTypes
  import opened RealProducts
  import E = EwmaDetection
  import P = PortScanDetection
  import F = SynFloodDetection

  // ---------------------------------------------------------------- quotients as products

  lemma QuotientIff(a: real, b: real, k: real)
    requires b > 0.0
    ensures a / b >= k <==> a >= k * b
  {
    if a >= k * b {
      QuotientAtLeast(a, b, k);
    } else {
      QuotientBelow(a, b, k);
    }
  }

  lemma DoubleQuotientIff(a: real, b: real, c: real, k: real)
    requires b > 0.0 && c > 0.0
    ensures a / b / c >= k <==> a >= k * c * b
  {
    QuotientIff(a / b, c, k);
    QuotientIff(a, b, k * c);
  }

  // ---------------------------------------------------------------- flags

  predicate IsSyn(flags: bv8) {
    flags & 0x02 != 0 && flags & 0x10 == 0
  }

  predicate IsSynAck(flags: bv8) {
    flags & 0x02 != 0 && flags & 0x10 != 0
  }

  lemma SameFlags(flags: bv8)
    ensures SynOnly(flags) <==> IsSyn(flags)
    ensures SynAck(flags) <==> IsSynAck(flags)
  {
  }

  // ---------------------------------------------------------------- volume

  // The answer to a complete window after the seed: there is one exactly when its packets reach the medium
  // multiple of the baseline b, or of the floor if that is higher, over its duration.
  ghost predicate IsVolumeAnswer(cfg: E.EwmaConfig, v: Option<E.EwmaResult>, packets: nat, bytes: nat, age: real, b: real) {
    var base := if b < cfg.ppsFloor then cfg.ppsFloor else b;
    && (v.Some? <==> packets as real >= cfg.mediumMultiplier * base * age)
    && (v.Some? ==>
          && v.value.severity == (if packets as real >= cfg.highMultiplier * base * age then High else Medium)
          && v.value.observedPps * age == packets as real && v.value.observedBps * age == bytes as real
          && v.value.baselinePps == b && v.value.ratio * base == v.value.observedPps)
  }

  lemma ScoreIff(cfg: E.EwmaConfig, b: real, w: E.WindowCount)
    requires cfg.Sane() && w.age > 0.0
    ensures IsVolumeAnswer(cfg, E.Score(cfg, b, w), w.packets, w.bytes, w.age, b)
  {
    var base := MaxReal(b, cfg.ppsFloor);
    var p, ps := w.packets as real, E.Pps(w);
    QuotientTimes(p, w.age);
    QuotientTimes(w.bytes as real, w.age);
    QuotientTimes(ps, base);
    ThresholdsIff(cfg, p, w.age, base);
  }

  lemma ThresholdsIff(cfg: E.EwmaConfig, p: real, age: real, base: real)
    requires cfg.Sane() && age > 0.0 && base > 0.0
    ensures p / age / base >= cfg.mediumMultiplier <==> p >= cfg.mediumMultiplier * base * age
    ensures p / age / base >= cfg.highMultiplier <==> p >= cfg.highMultiplier * base * age
  {
    DoubleQuotientIff(p, age, base, cfg.mediumMultiplier);
    DoubleQuotientIff(p, age, base, cfg.highMultiplier);
  }

  // Over a log: nothing while the window is open or seeds the baseline, and that answer otherwise.
  lemma VolumeAnswerIff(cfg: E.EwmaConfig, log: seq<E.EwmaEvent>)
    requires cfg.Sane() && log != []
    ensures var r := E.Before(cfg, log);
      var age := log[|log| - 1].time - r.start;
      if age < cfg.minWindowSec || r.windows == [] then E.Verdict(cfg, log) == None
      else IsVolumeAnswer(cfg, E.Verdict(cfg, log), |log| - r.first, E.BytesSince(log, r.first), age,
                          E.Baseline(cfg.alpha, E.Rates(r.windows, E.Pps)))
  {
    hide E.Before, E.Observe, E.BytesSince, E.Baseline, E.Score, IsVolumeAnswer;
    var r := E.Before(cfg, log);
    var age := log[|log| - 1].time - r.start;
    E.ObserveUnfolds(cfg, log);
    if age >= cfg.minWindowSec {
      var w := E.WindowCount(|log| - r.first, E.BytesSince(log, r.first), age);
      var all := E.Observe(cfg, log).windows;
      assert all == r.windows + [w] && all[..|all| - 1] == r.windows;
      ScoreIff(cfg, E.BaselinePps(cfg, r.windows), w);
    }
  }

  // ---------------------------------------------------------------- port scans

  function PortsOf(events: seq<P.ScanEvent>): set<Port> {
    set i | 0 <= i < |events| :: events[i].port
  }

  function SynIndices(events: seq<P.ScanEvent>): set<int> {
    set i | 0 <= i < |events| && IsSyn(events[i].flags)
  }

  // Counting is taking the cardinality of a set of indices.
  lemma {:induction false} CountIsCardinality(events: seq<P.ScanEvent>)
    ensures P.SynOnlyCount(events) == |SynIndices(events)|
  {
    hide IsSyn, SynOnly;
    if events == [] {
      assert SynIndices(events) == {};
    } else {
      var n := |events| - 1;
      CountIsCardinality(events[..n]);
      SameFlags(events[n].flags);
      assert SynIndices(events) == SynIndices(events[..n]) + (if IsSyn(events[n].flags) then {n} else {});
    }
  }

  // The answer to a window of so many distinct ports, SYN-only packets and packets: there is one exactly
  // when the ports reach the threshold and, with the gate on, the SYN-only packets are at least the ratio of
  // all packets.
  ghost predicate IsScanAnswer(cfg: P.PortScanConfig, v: Option<P.PortScanResult>, ports: nat, syns: nat, packets: nat) {
    && (v.Some? <==>
          && ports >= cfg.distinctPortThreshold
          && (cfg.synOnlyRatio <= 0.0 || syns as real >= cfg.synOnlyRatio * packets as real))
    && (v.Some? ==>
          && v.value.distinctPorts == ports && v.value.synRatio * packets as real == syns as real
          && v.value.severity == (if ports >= 2 * cfg.distinctPortThreshold then High else Medium))
  }

  lemma ScanAnswerIff(cfg: P.PortScanConfig, log: seq<P.ScanEvent>)
    requires log != []
    ensures var events := log[P.Opener(cfg.windowSec, log)..];
      IsScanAnswer(cfg, P.Verdict(cfg, log), |PortsOf(events)|, |SynIndices(events)|, |events|)
  {
    hide P.Opener, P.SynOnlyCount, P.Ports, P.AgeOnArrival, SynIndices, PortsOf;
    var events := P.Window(cfg.windowSec, log);
    CountIsCardinality(events);
    SamePorts(events);
    QuotientIff(|SynIndices(events)| as real, |events| as real, cfg.synOnlyRatio);
    QuotientTimes(|SynIndices(events)| as real, |events| as real);
  }

  lemma SamePorts(events: seq<P.ScanEvent>)
    ensures P.Ports(events) == PortsOf(events)
  {
  }

  // The reported age: a full window for a packet that opens one after another, else the time since the opener.
  lemma ScanAgeIs(cfg: P.PortScanConfig, log: seq<P.ScanEvent>)
    requires cfg.windowSec > 0.0 && log != [] && P.Verdict(cfg, log).Some?
    ensures var o := P.Opener(cfg.windowSec, log);
      P.Verdict(cfg, log).value.windowSec ==
        if o > 0 && o == |log| - 1 then cfg.windowSec else log[|log| - 1].time - log[o].time
  {
    hide P.Ports, P.SynRatio;
    P.OpenerIsRecent(cfg.windowSec, log);
    P.OpenerIsEarlier(cfg.windowSec, log);
  }

  // ---------------------------------------------------------------- SYN floods

  function SynsFrom(log: seq<F.SynEvent>, first: nat): set<int> {
    set i | first <= i < |log| && IsSyn(log[i].flags)
  }

  function SynAcksFrom(log: seq<F.SynEvent>, first: nat): set<int> {
    set i | first <= i < |log| && IsSynAck(log[i].flags)
  }

  lemma {:induction false} SynsAreCounted(log: seq<F.SynEvent>, first: nat)
    requires first <= |log|
    ensures F.SynsSince(log, first) == |SynsFrom(log, first)|
  {
    hide IsSyn, SynOnly, SynAck;
    if first == |log| {
      assert SynsFrom(log, first) == {};
    } else {
      var n := |log| - 1;
      SynsAreCounted(log[..n], first);
      SameFlags(log[n].flags);
      SynsPush(log, first);
    }
  }

  lemma SynsPush(log: seq<F.SynEvent>, first: nat)
    requires first < |log|
    ensures var n := |log| - 1;
      |SynsFrom(log, first)| == |SynsFrom(log[..n], first)| + (if IsSyn(log[n].flags) then 1 else 0)
  {
    hide IsSyn;
    var n := |log| - 1;
    assert SynsFrom(log, first) == SynsFrom(log[..n], first) + (if IsSyn(log[n].flags) then {n} else {});
  }

  lemma {:induction false} SynAcksAreCounted(log: seq<F.SynEvent>, first: nat)
    requires first <= |log|
    ensures F.SynAcksSince(log, first) == |SynAcksFrom(log, first)|
  {
    hide IsSynAck, SynOnly, SynAck;
    if first == |log| {
      assert SynAcksFrom(log, first) == {};
    } else {
      var n := |log| - 1;
      SynAcksAreCounted(log[..n], first);
      SameFlags(log[n].flags);
      SynAcksPush(log, first);
    }
  }

  lemma SynAcksPush(log: seq<F.SynEvent>, first: nat)
    requires first < |log|
    ensures var n := |log| - 1;
      |SynAcksFrom(log, first)| == |SynAcksFrom(log[..n], first)| + (if IsSynAck(log[n].flags) then 1 else 0)
  {
    hide IsSynAck;
    var n := |log| - 1;
    assert SynAcksFrom(log, first) == SynAcksFrom(log[..n], first) + (if IsSynAck(log[n].flags) then {n} else {});
  }

  // The answer to a complete window of so many SYN-only packets and packets: there is one exactly when the
  // SYN-only packets reach the rate over its duration and the configured share of all packets.
  ghost predicate IsFloodAnswer(cfg: F.SynFloodConfig, v: Option<F.SynFloodResult>, syns: nat, packets: nat, age: real, synAcks: nat) {
    && (v.Some? <==> syns as real >= cfg.synRatePps * age && syns as real >= cfg.synRatio * packets as real)
    && (v.Some? ==>
          && v.value.severity == (if syns as real >= cfg.synRatePps * 5.0 * age then Critical else High)
          && v.value.synRatePps * age == syns as real && v.value.synRatio * packets as real == syns as real
          && v.value.synCount == syns && v.value.completedHandshakes == synAcks)
  }

  lemma EvaluationIff(cfg: F.SynFloodConfig, syns: nat, packets: nat, age: real, synAcks: nat)
    requires age > 0.0 && packets > 0
    ensures IsFloodAnswer(cfg, F.Evaluate(cfg, syns, packets, age, synAcks), syns, packets, age, synAcks)
  {
    QuotientIff(syns as real, age, cfg.synRatePps);
    QuotientIff(syns as real, age, cfg.synRatePps * 5.0);
    QuotientIff(syns as real, packets as real, cfg.synRatio);
    QuotientTimes(syns as real, age);
    QuotientTimes(syns as real, packets as real);
  }

  // Over a log: nothing while the window is open, and that answer otherwise, with all SYN+ACKs of the log.
  lemma FloodAnswerIff(cfg: F.SynFloodConfig, log: seq<F.SynEvent>)
    requires cfg.Sane() && log != []
    ensures var r := F.Before(cfg.windowSec, log);
      var age := log[|log| - 1].time - r.start;
      if age < cfg.windowSec then F.Verdict(cfg, log) == None
      else IsFloodAnswer(cfg, F.Verdict(cfg, log), |SynsFrom(log, r.first)|, |log| - r.first, age, |SynAcksFrom(log, 0)|)
  {
    hide F.Before, F.Evaluate, F.SynsSince, F.SynAcksSince, SynsFrom, SynAcksFrom, IsFloodAnswer;
    var r := F.Before(cfg.windowSec, log);
    SynsAreCounted(log, r.first);
    SynAcksAreCounted(log, 0);
    if F.AgeOnArrival(cfg.windowSec, log) >= cfg.windowSec {
      EvaluationIff(cfg, F.SynsSince(log, r.first), |log| - r.first, F.AgeOnArrival(cfg.windowSec, log), F.SynAcksSince(log, 0));
    }
  }
}
