/** When the ratio gate lets a scan hide: which configurations report every dense scan that consists of
    nothing but SYNs, whatever the source sent before. */
module PortScanGate {
  import opened NetTypes
  import opened RealProducts
  import opened PortScanDetection

  // The last rolling window holds 2N - 1 distinct ports, and only SYN-only packets.
  ghost predicate PureDenseScan(cfg: PortScanConfig, log: seq<ScanEvent>) {
    && log != [] && Chronological(log)
    && |RollingPorts(cfg.windowSec, log)| >= 2 * cfg.distinctPortThreshold - 1
    && (forall i :: 0 <= i < |log| && Last(log).time - log[i].time < cfg.windowSec ==> SynOnly(log[i].flags))
  }

  // Some packet inside the last rolling window was reported.
  ghost predicate ReportedInSpan(cfg: PortScanConfig, log: seq<ScanEvent>) {
    exists k :: 0 < k <= |log| && Last(log).time - log[k - 1].time < cfg.windowSec && Reports(cfg, log[..k])
  }

  ghost predicate PureScansAreReported(cfg: PortScanConfig) {
    forall log :: PureDenseScan(cfg, log) ==> ReportedInSpan(cfg, log)
  }

  // Exactly the configurations that report every pure dense scan: the gate is off; or one port is enough
  // and the gate can be passed at all; or no source has 2N - 1 ports to show.
  lemma PureScansAreReportedIff(cfg: PortScanConfig)
    requires cfg.windowSec > 0.0
    ensures PureScansAreReported(cfg) <==>
      || cfg.synOnlyRatio <= 0.0
      || (cfg.distinctPortThreshold <= 1 && cfg.synOnlyRatio <= 1.0)
      || cfg.distinctPortThreshold > 0x8000
  {
    hide PureDenseScan, ReportedInSpan;
    var n := cfg.distinctPortThreshold;
    if cfg.synOnlyRatio <= 0.0 || (n <= 1 && cfg.synOnlyRatio <= 1.0) || n > 0x8000 {
      forall log | PureDenseScan(cfg, log)
        ensures ReportedInSpan(cfg, log)
      {
        PureScanIsReported(cfg, log);
      }
    } else if n <= 1 {
      SingleSynIsHidden(cfg);
    } else {
      GateCanHideScan(cfg);
    }
  }

  lemma PureScanIsReported(cfg: PortScanConfig, log: seq<ScanEvent>)
    requires cfg.windowSec > 0.0 && PureDenseScan(cfg, log)
    requires cfg.synOnlyRatio <= 0.0 || (cfg.distinctPortThreshold <= 1 && cfg.synOnlyRatio <= 1.0)
          || cfg.distinctPortThreshold > 0x8000
    ensures ReportedInSpan(cfg, log)
  {
    if cfg.synOnlyRatio <= 0.0 {
      DenseScansAreReported(cfg, log);
    } else {
      FewPorts(RollingPorts(cfg.windowSec, log));
      OnePortIsReported(cfg, log);
    }
  }

  // There are no more ports than that.
  lemma FewPorts(ports: set<Port>)
    ensures |ports| <= 0x1_0000
  {
    var all := PortRange(0, 0x1_0000);
    SubsetSize(ports, all);
  }

  // The open window lies within the span, so it is pure, and it is never empty.
  lemma OnePortIsReported(cfg: PortScanConfig, log: seq<ScanEvent>)
    requires cfg.windowSec > 0.0 && PureDenseScan(cfg, log)
    requires cfg.distinctPortThreshold <= 1 && cfg.synOnlyRatio <= 1.0
    ensures ReportedInSpan(cfg, log)
  {
    hide Reports, SynOnly, RollingPorts;
    var o := Opener(cfg.windowSec, log);
    OpenerIsRecent(cfg.windowSec, log);
    assert forall i :: o <= i < |log| ==> log[o].time <= log[i].time;
    var events := Window(cfg.windowSec, log);
    AllSynsHaveRatioOne(events);
    OpenGateReports(cfg, log);
    OnePort(events);
    assert log[..|log|] == log;
    assert Reports(cfg, log[..|log|]);
  }

  lemma OnePort(events: seq<ScanEvent>)
    requires events != []
    ensures |Ports(events)| >= 1
  {
    assert events[0] in events;
    assert events[0].port in Ports(events);
  }

  // ---------------------------------------------------------------- scans that hide

  // With a ratio above one nothing is reported.
  lemma SingleSynIsHidden(cfg: PortScanConfig)
    requires cfg.windowSec > 0.0 && cfg.distinctPortThreshold <= 1 && cfg.synOnlyRatio > 1.0
    ensures !PureScansAreReported(cfg)
  {
    var log := [ScanEvent(0.0, 0, TCP_FLAG_SYN)];
    assert log[0] in log && 0 in RollingPorts(cfg.windowSec, log);
    SubsetSize({0 as Port}, RollingPorts(cfg.windowSec, log));
    assert PureDenseScan(cfg, log);
    assert log[..1] == log && Window(cfg.windowSec, log) == log;
    LowRatio(log);
    assert !Reports(cfg, log[..1]);
    assert !ReportedInSpan(cfg, log);
  }

  lemma LowRatio(events: seq<ScanEvent>)
    requires |events| == 1
    ensures SynRatio(events) <= 1.0
  {
    CountOne(events);
  }

  // So many packets of another kind that n SYNs among them stay below the ratio.
  function Cover(n: nat, ratio: real): (a: nat)
    requires ratio > 0.0
    ensures a > 0 && n as real < ratio * a as real
  {
    var q := n as real / ratio;
    CoverIsEnough(n as real, ratio, q, q.Floor + 1);
    q.Floor + 1
  }

  lemma CoverIsEnough(n: real, ratio: real, q: real, a: int)
    requires ratio > 0.0 && n >= 0.0 && q == n / ratio && a == q.Floor + 1
    ensures a > 0 && n < ratio * a as real
  {
    QuotientTimes(n, ratio);
    QuotientAtLeast(n, ratio, 0.0);
    ProductPositive(ratio, a as real - q);
    Distribute(ratio, a as real, q, a as real - q);
  }

  // ACKs that open a window, n SYNs in its second half, and n - 1 more as it expires.
  function HiddenScan(w: real, n: nat, a: nat): (log: seq<ScanEvent>)
    requires 2 <= n <= 0x8000
    ensures |log| == a + 2 * n - 1
  {
    seq(a + 2 * n - 1, i requires 0 <= i < a + 2 * n - 1 =>
      if i < a then ScanEvent(0.0, 0, TCP_FLAG_ACK)
      else ScanEvent(if i < a + n then w / 2.0 else w, i - a, TCP_FLAG_SYN))
  }

  // Other traffic can hide a scan from the gate, however pure the scan itself is: the ACKs spoil the ratio
  // of the window they opened, and what comes after that window is one port too few.
  lemma GateCanHideScan(cfg: PortScanConfig)
    requires cfg.windowSec > 0.0 && cfg.synOnlyRatio > 0.0 && 2 <= cfg.distinctPortThreshold <= 0x8000
    ensures var log := HiddenScan(cfg.windowSec, cfg.distinctPortThreshold, Cover(cfg.distinctPortThreshold, cfg.synOnlyRatio));
      PureDenseScan(cfg, log) && !ReportedInSpan(cfg, log)
    ensures !PureScansAreReported(cfg)
  {
    hide Reports, HiddenScan, PureDenseScan, RollingPorts, Cover;
    var w, n := cfg.windowSec, cfg.distinctPortThreshold;
    var a := Cover(n, cfg.synOnlyRatio);
    var log := HiddenScan(w, n, a);
    HiddenIsPure(cfg, a);
    forall k | 0 < k <= |log|
      ensures !Reports(cfg, log[..k])
    {
      HiddenWindow(cfg, a, k);
    }
  }

  lemma HiddenIsPure(cfg: PortScanConfig, a: nat)
    requires cfg.windowSec > 0.0 && 2 <= cfg.distinctPortThreshold <= 0x8000 && a > 0
    ensures PureDenseScan(cfg, HiddenScan(cfg.windowSec, cfg.distinctPortThreshold, a))
  {
    hide SynOnly;
    var w, n := cfg.windowSec, cfg.distinctPortThreshold;
    var log := HiddenScan(w, n, a);
    FlagKinds();
    HiddenRolling(w, n, a);
    hide RollingPorts;
  }

  lemma HiddenRolling(w: real, n: nat, a: nat)
    requires w > 0.0 && 2 <= n <= 0x8000
    ensures |RollingPorts(w, HiddenScan(w, n, a))| >= 2 * n - 1
  {
    var log, seen := HiddenScan(w, n, a), PortRange(0, 2 * n - 1);
    forall p | p in seen
      ensures p in RollingPorts(w, log)
    {
      assert log[a + p] in log && log[a + p].port == p && Last(log).time - log[a + p].time < w;
    }
    SubsetSize(seen, RollingPorts(w, log));
  }

  // The window of the first a + n packets is opened by the first of them, that of the rest by the next.
  lemma {:induction false} HiddenOpener(w: real, n: nat, a: nat, k: nat)
    requires w > 0.0 && 2 <= n <= 0x8000 && a > 0 && 0 < k <= a + 2 * n - 1
    ensures Opener(w, HiddenScan(w, n, a)[..k]) == if k <= a + n then 0 else a + n
  {
    if k > 1 {
      HiddenOpener(w, n, a, k - 1);
      assert HiddenScan(w, n, a)[..k][..k - 1] == HiddenScan(w, n, a)[..k - 1];
    }
  }

  lemma {:induction false} HiddenSyns(w: real, n: nat, a: nat, k: nat)
    requires 2 <= n <= 0x8000 && k <= a + n
    ensures SynOnlyCount(HiddenScan(w, n, a)[..k]) == if k <= a then 0 else k - a
  {
    hide SynOnly;
    if k > 0 {
      HiddenSyns(w, n, a, k - 1);
      var log := HiddenScan(w, n, a);
      assert log[..k] == log[..k - 1] + [log[k - 1]];
      CountPush(log[..k - 1], log[k - 1], (e: ScanEvent) => SynOnly(e.flags));
      FlagKinds();
    }
  }

  lemma FlagKinds()
    ensures SynOnly(TCP_FLAG_SYN) && !SynOnly(TCP_FLAG_ACK)
  {
  }

  lemma HiddenWindow(cfg: PortScanConfig, a: nat, k: nat)
    requires cfg.windowSec > 0.0 && cfg.synOnlyRatio > 0.0 && 2 <= cfg.distinctPortThreshold <= 0x8000
    requires a > 0 && cfg.distinctPortThreshold as real < cfg.synOnlyRatio * a as real
    requires 0 < k <= a + 2 * cfg.distinctPortThreshold - 1
    ensures !Reports(cfg, HiddenScan(cfg.windowSec, cfg.distinctPortThreshold, a)[..k])
  {
    hide Opener, SynOnlyCount, Ports, HiddenScan;
    var w, n := cfg.windowSec, cfg.distinctPortThreshold;
    var log := HiddenScan(w, n, a)[..k];
    HiddenOpener(w, n, a, k);
    if k <= a + n {
      HiddenSyns(w, n, a, k);
      assert log[0..] == log;
      SpoiltRatio(SynOnlyCount(log), k, n, a, cfg.synOnlyRatio);
    } else {
      HiddenPorts(w, n, a, k);
    }
  }

  // At most n SYNs among a other packets.
  lemma SpoiltRatio(syns: nat, k: nat, n: nat, a: nat, ratio: real)
    requires k > 0 && a > 0 && ratio > 0.0 && n as real < ratio * a as real
    requires syns <= n && (syns == 0 || k == a + syns)
    ensures syns as real / k as real < ratio
  {
    if syns == 0 {
      RatioOfNone(k);
    } else {
      ProductOrder(ratio, a as real, k as real);
      QuotientBelow(syns as real, k as real, ratio);
    }
  }

  lemma RatioOfNone(k: nat)
    requires k > 0
    ensures 0.0 / k as real == 0.0
  {
  }

  lemma HiddenPorts(w: real, n: nat, a: nat, k: nat)
    requires 2 <= n <= 0x8000 && a + n < k <= a + 2 * n - 1
    ensures |Ports(HiddenScan(w, n, a)[..k][a + n..])| < n
  {
    var events := HiddenScan(w, n, a)[..k][a + n..];
    assert forall e :: e in events ==> n <= e.port < 2 * n - 1;
    SubsetSize(Ports(events), PortRange(n, 2 * n - 1));
  }
}
