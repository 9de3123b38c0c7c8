/** Port-scan detection: one tumbling window of distinct destination ports per source address.

    The detector keeps constant-size state per source. Everything it answers is related here to the
    complete log of what that source sent: the window that is open, the reports that are made, what
    a rolling window of the same length would have seen, and why evicting idle profiles is harmless. */
module PortScanDetection {
  import opened NetTypes

  datatype PortScanConfig = PortScanConfig(windowSec: real, distinctPortThreshold: nat, synOnlyRatio: real)

  datatype ScanEvent = ScanEvent(time: real, port: Port, flags: bv8)

  datatype ScanProfile = ScanProfile(dstPorts: set<Port>, tcpPacketCount: nat, synOnlyCount: nat, windowStart: real)

  datatype PortScanResult =
    PortScanResult(severity: Severity, distinctPorts: nat, synRatio: real, windowSec: real)

  // ---------------------------------------------------------------- reading a source's log

  ghost predicate Chronological(log: seq<ScanEvent>) {
    forall i, j :: 0 <= i <= j < |log| ==> log[i].time <= log[j].time
  }

  function Last(log: seq<ScanEvent>): ScanEvent
    requires log != []
  {
    log[|log| - 1]
  }

  // Index of the event that opened the window the last event belongs to: windows tumble, so an
  // event opens a new one exactly when it comes `w` or more after the opener of the current one.
  function Opener(w: real, log: seq<ScanEvent>): (o: nat)
    requires log != []
    ensures o < |log|
  {
    if |log| == 1 then 0
    else
      var o := Opener(w, log[..|log| - 1]);
      if Last(log).time - log[o].time >= w then |log| - 1 else o
  }

  // Seconds between the last event and the opener of the window found when it arrived.
  function AgeOnArrival(w: real, log: seq<ScanEvent>): real
    requires log != []
  {
    if |log| == 1 then 0.0 else Last(log).time - log[Opener(w, log[..|log| - 1])].time
  }

  function Window(w: real, log: seq<ScanEvent>): seq<ScanEvent>
    requires log != []
  {
    log[Opener(w, log)..]
  }

  function Ports(events: seq<ScanEvent>): set<Port> {
    set e | e in events :: e.port
  }

  function SynOnlyCount(events: seq<ScanEvent>): nat {
    Count(events, (e: ScanEvent) => SynOnly(e.flags))
  }

  function SynRatio(events: seq<ScanEvent>): real
    requires events != []
  {
    SynOnlyCount(events) as real / |events| as real
  }

  // The answer owed to the last event of a source's log.
  function Verdict(cfg: PortScanConfig, log: seq<ScanEvent>): Option<PortScanResult>
    requires log != []
  {
    var events := Window(cfg.windowSec, log);
    if |Ports(events)| < cfg.distinctPortThreshold then None
    else if cfg.synOnlyRatio > 0.0 && SynRatio(events) < cfg.synOnlyRatio then None
    else Some(PortScanResult(
      if |Ports(events)| >= 2 * cfg.distinctPortThreshold then High else Medium,
      |Ports(events)|,
      SynRatio(events),
      MinReal(AgeOnArrival(cfg.windowSec, log), cfg.windowSec)))
  }

  ghost predicate Reports(cfg: PortScanConfig, log: seq<ScanEvent>)
    requires log != []
  {
    Verdict(cfg, log).Some?
  }

  // What an ideal rolling window of length w would hold when the last event arrives.
  function RollingPorts(w: real, log: seq<ScanEvent>): set<Port>
    requires log != []
  {
    set e | e in log && Last(log).time - e.time < w :: e.port
  }

  function Summary(w: real, log: seq<ScanEvent>): ScanProfile
    requires log != []
  {
    var events := Window(w, log);
    ScanProfile(Ports(events), |events|, SynOnlyCount(events), events[0].time)
  }

  // What a profile, or its absence, says about the log of its source at a given moment.
  ghost predicate Tracks(w: real, profile: Option<ScanProfile>, log: seq<ScanEvent>, clock: real) {
    && log != []
    && Chronological(log)
    && Last(log).time <= clock
    && match profile
       case Some(p) => p == Summary(w, log)
       case None => Expired(w, Summary(w, log), clock)
  }

  // Evicted by a sweep at `now`: the window opened more than two lengths ago.
  predicate Expired(w: real, p: ScanProfile, now: real) {
    now - p.windowStart > w * 2.0
  }

  // ---------------------------------------------------------------- the detector

  // An answer given by a profile that was evicted and rebuilt differs only in the reported age.
  function AfterEviction(v: Option<PortScanResult>): Option<PortScanResult> {
    match v
    case None => None
    case Some(r) => Some(r.(windowSec := 0.0))
  }

  class PortScanDetector {
    const cfg: PortScanConfig
    var profiles: map<string, ScanProfile>

    ghost var logs: map<string, seq<ScanEvent>>
    ghost var clock: real

    ghost function LogOf(src: string): seq<ScanEvent>
      reads this
    {
      if src in logs then logs[src] else []
    }

    // Every live profile summarises the open window of its source's whole log; a source without
    // a profile has either sent nothing or had its window expire twice over.
    ghost predicate Valid()
      reads this
    {
      && cfg.windowSec > 0.0
      && profiles.Keys <= logs.Keys
      && (forall src :: src in logs ==> Tracks(cfg.windowSec, ProfileOf(src), logs[src], clock))
    }

    ghost function ProfileOf(src: string): Option<ScanProfile>
      reads this
    {
      if src in profiles then Some(profiles[src]) else None
    }

    constructor (cfg: PortScanConfig)
      requires cfg.windowSec > 0.0
      ensures Valid()
      ensures this.cfg == cfg && profiles == map[] && logs == map[] && clock == 0.0
    {
      this.cfg := cfg;
      profiles := map[];
      logs := map[];
      clock := 0.0;
    }

    method Inspect(src: string, dstPort: Port, tcpFlags: bv8, now: real) returns (r: Option<PortScanResult>)
      requires Valid()
      requires clock <= now
      modifies this
      ensures Valid()
      ensures clock == now
      ensures logs == old(logs)[src := old(LogOf(src)) + [ScanEvent(now, dstPort, tcpFlags)]]
      ensures profiles.Keys == old(profiles.Keys) + {src}
      ensures r == if src in old(logs) && src !in old(profiles)
                   then AfterEviction(Verdict(cfg, logs[src]))
                   else Verdict(cfg, logs[src])
      ensures src in old(logs) && src !in old(profiles) ==>
        |logs[src]| > 1 && AgeOnArrival(cfg.windowSec, logs[src]) > cfg.windowSec * 2.0
    {
      hide Tracks, Verdict, AfterEviction, AgeOnArrival, Summary;
      ghost var log, found := LogOf(src), ProfileOf(src);
      if src in logs {
        TracksLater(cfg.windowSec, found, log, clock, now);
      }
      var profile := if src in profiles then profiles[src] else FreshProfile(now);
      var windowAge;
      profile, windowAge := Accumulate(cfg.windowSec, profile, found, log, clock, ScanEvent(now, dstPort, tcpFlags));
      r := Judge(cfg, profile, windowAge, log + [ScanEvent(now, dstPort, tcpFlags)]);

      forall other | other in logs
        ensures Tracks(cfg.windowSec, ProfileOf(other), logs[other], now)
      {
        TracksLater(cfg.windowSec, ProfileOf(other), logs[other], clock, now);
      }
      profiles := profiles[src := profile];
      logs := logs[src := log + [ScanEvent(now, dstPort, tcpFlags)]];
      clock := now;
    }

    method EvictStale(now: real)
      requires Valid()
      requires clock <= now
      modifies this
      ensures Valid()
      ensures clock == now && logs == old(logs)
      ensures profiles == map src | src in old(profiles) && !Expired(cfg.windowSec, old(profiles)[src], now)
                                  :: old(profiles)[src]
      ensures forall src :: src in old(profiles) ==>
        (src in profiles <==> now - old(profiles)[src].windowStart <= 2.0 * cfg.windowSec)
    {
      forall src | src in logs
        ensures Tracks(cfg.windowSec, ProfileOf(src), logs[src], now)
      {
        TracksLater(cfg.windowSec, ProfileOf(src), logs[src], clock, now);
      }
      var w := cfg.windowSec;
      profiles := Sweep(profiles, p => Expired(w, p, now));
      clock := now;
    }
  }

  function FreshProfile(now: real): ScanProfile {
    ScanProfile({}, 0, 0, now)
  }

  // Roll the window if it has expired, then count the packet in.
  method Accumulate(w: real, profile0: ScanProfile, ghost found: Option<ScanProfile>,
                    ghost log: seq<ScanEvent>, ghost clock: real, e: ScanEvent)
    returns (profile: ScanProfile, windowAge: real)
    requires w > 0.0 && clock <= e.time
    requires log == [] ==> found == None
    requires log != [] ==> Tracks(w, found, log, clock)
    requires profile0 == if found.Some? then found.value else FreshProfile(e.time)
    ensures profile == Summary(w, log + [e])
    ensures Tracks(w, Some(profile), log + [e], e.time)
    ensures log == [] || found.Some? ==> windowAge == AgeOnArrival(w, log + [e])
    ensures log != [] && found == None ==> windowAge == 0.0 && AgeOnArrival(w, log + [e]) > w * 2.0
  {
    hide Tracks, Summary, AgeOnArrival, SynOnly;
    AbsorbedIsSummary(w, profile0, found, log, clock, e);
    TracksPush(w, found, log, clock, e);
    profile := profile0;
    windowAge := e.time - profile.windowStart;
    if windowAge >= w {
      profile := profile.(dstPorts := {}, tcpPacketCount := 0, synOnlyCount := 0, windowStart := e.time);
    }
    profile := profile.(dstPorts := profile.dstPorts + {e.port}, tcpPacketCount := profile.tcpPacketCount + 1);
    if SynOnly(e.flags) {
      profile := profile.(synOnlyCount := profile.synOnlyCount + 1);
    }
  }

  // Threshold, ratio gate and severity for the packet just counted.
  method Judge(cfg: PortScanConfig, profile: ScanProfile, windowAge: real, ghost log: seq<ScanEvent>)
    returns (r: Option<PortScanResult>)
    requires log != [] && profile == Summary(cfg.windowSec, log)
    ensures windowAge == AgeOnArrival(cfg.windowSec, log) ==> r == Verdict(cfg, log)
    ensures windowAge == 0.0 && cfg.windowSec > 0.0 ==> r == AfterEviction(Verdict(cfg, log))
  {
    var portCount := |profile.dstPorts|;
    if portCount < cfg.distinctPortThreshold {
      return None;
    }
    var synRatio := profile.synOnlyCount as real / profile.tcpPacketCount as real;
    if cfg.synOnlyRatio > 0.0 && synRatio < cfg.synOnlyRatio {
      return None;
    }
    var severity := if portCount >= cfg.distinctPortThreshold * 2 then High else Medium;
    r := Some(PortScanResult(severity, portCount, synRatio, MinReal(windowAge, cfg.windowSec)));
  }

  // ---------------------------------------------------------------- why the small state suffices

  lemma PortsPush(events: seq<ScanEvent>, e: ScanEvent)
    ensures Ports(events + [e]) == Ports(events) + {e.port}
  {
    assert forall x :: x in events + [e] <==> x in events || x == e;
  }

  // Time passing, or a sweep, leaves a profile tracking its log.
  lemma TracksLater(w: real, profile: Option<ScanProfile>, log: seq<ScanEvent>, clock: real, now: real)
    requires Tracks(w, profile, log, clock) && clock <= now
    ensures log != [] && Tracks(w, profile, log, now)
    ensures profile.Some? && Expired(w, profile.value, now) ==> Tracks(w, None, log, now)
  {
  }

  // Counting one event into a profile, or into a fresh one, keeps it the summary of its log.
  lemma TracksPush(w: real, profile: Option<ScanProfile>, log: seq<ScanEvent>, clock: real, e: ScanEvent)
    requires w > 0.0
    requires log == [] ==> profile == None
    requires log != [] ==> Tracks(w, profile, log, clock)
    requires clock <= e.time
    ensures Tracks(w, Some(Summary(w, log + [e])), log + [e], e.time)
  {
    hide Summary;
    if log != [] {
      ChronologicalPush(log, e);
    }
  }

  lemma ChronologicalPush(log: seq<ScanEvent>, e: ScanEvent)
    requires log != [] && Chronological(log) && Last(log).time <= e.time
    ensures Chronological(log + [e])
  {
    assert forall i :: 0 <= i < |log| ==> log[i].time <= Last(log).time;
  }

  // One event into a profile: the window rolls once it has expired, then the event is counted.
  function Absorbed(w: real, p: ScanProfile, e: ScanEvent): ScanProfile {
    var q := if e.time - p.windowStart >= w then FreshProfile(e.time) else p;
    ScanProfile(q.dstPorts + {e.port}, q.tcpPacketCount + 1, q.synOnlyCount + (if SynOnly(e.flags) then 1 else 0), q.windowStart)
  }

  // Absorbing one event turns the summary of a log into the summary of the longer log.
  lemma SummaryPush(w: real, log: seq<ScanEvent>, e: ScanEvent)
    requires w > 0.0
    ensures Summary(w, log + [e]) == Absorbed(w, if log == [] then FreshProfile(e.time) else Summary(w, log), e)
    ensures log != [] ==> AgeOnArrival(w, log + [e]) == e.time - Summary(w, log).windowStart
  {
    hide Ports, SynOnlyCount, AgeOnArrival, Opener, SynOnly;
    WindowPush(w, log, e);
    NothingYet();
    if log != [] && e.time - Summary(w, log).windowStart < w {
      ContentsPush(Window(w, log), e);
    } else {
      ContentsPush([], e);
    }
    hide Window;
  }

  lemma NothingYet()
    ensures Ports([]) == {} && SynOnlyCount([]) == 0
  {
  }

  // The same for whatever profile the detector found, or for the fresh one it made instead.
  lemma AbsorbedIsSummary(w: real, profile: ScanProfile, found: Option<ScanProfile>,
                          log: seq<ScanEvent>, clock: real, e: ScanEvent)
    requires w > 0.0 && clock <= e.time
    requires log == [] ==> found == None
    requires log != [] ==> Tracks(w, found, log, clock)
    requires profile == if found.Some? then found.value else FreshProfile(e.time)
    ensures Summary(w, log + [e]) == Absorbed(w, profile, e)
    ensures log == [] || found.Some? ==> e.time - profile.windowStart == AgeOnArrival(w, log + [e])
    ensures log != [] && found == None ==> e.time == profile.windowStart && AgeOnArrival(w, log + [e]) > w * 2.0
  {
    SummaryPush(w, log, e);
    hide Summary, Chronological, SynOnly;
    if log == [] {
      assert AgeOnArrival(w, [] + [e]) == 0.0;
    }
  }

  // The new event joins the open window, or starts the next.
  lemma WindowPush(w: real, log: seq<ScanEvent>, e: ScanEvent)
    requires w > 0.0
    ensures log != [] ==> AgeOnArrival(w, log + [e]) == e.time - Window(w, log)[0].time
    ensures Window(w, log + [e])
         == (if log != [] && e.time - Window(w, log)[0].time < w then Window(w, log) else []) + [e]
  {
    var longer := log + [e];
    assert longer[..|log|] == log;
    if log != [] {
      var o := Opener(w, log);
      assert longer[o] == log[o] && longer[o..] == log[o..] + [e];
    }
  }

  lemma ContentsPush(events: seq<ScanEvent>, e: ScanEvent)
    ensures Ports(events + [e]) == Ports(events) + {e.port}
    ensures SynOnlyCount(events + [e]) == SynOnlyCount(events) + (if SynOnly(e.flags) then 1 else 0)
  {
    PortsPush(events, e);
    CountPush(events, e, (x: ScanEvent) => SynOnly(x.flags));
  }

  // ---------------------------------------------------------------- tumbling against rolling windows

  // An opener is young: whatever the last event, its window spans less than w.
  lemma {:induction false} OpenerIsRecent(w: real, log: seq<ScanEvent>)
    requires w > 0.0 && log != []
    ensures Last(log).time - log[Opener(w, log)].time < w
  {
  }

  // A packet that opens no window leaves the opener as it was.
  lemma OpenerIsEarlier(w: real, log: seq<ScanEvent>)
    requires w > 0.0 && |log| > 0
    ensures AgeOnArrival(w, log) < w ==> AgeOnArrival(w, log) == Last(log).time - log[Opener(w, log)].time
    ensures AgeOnArrival(w, log) >= w ==> |log| > 1 && Opener(w, log) == |log| - 1
    ensures AgeOnArrival(w, log) < w ==> Opener(w, log) < |log| - 1 || |log| == 1
  {
  }

  // When the window's opener is not the first event, it arrived at least w after the opener before it.
  lemma {:induction false} OpenerResets(w: real, log: seq<ScanEvent>)
    requires w > 0.0 && log != []
    ensures var o := Opener(w, log);
      o > 0 ==> log[o].time - log[Opener(w, log[..o])].time >= w
  {
    var o := Opener(w, log);
    if 0 < o < |log| - 1 {
      var shorter := log[..|log| - 1];
      OpenerResets(w, shorter);
      assert shorter[..o] == log[..o];
    }
  }

  // No false report: what the tumbling window holds, a rolling window of the same length holds too.
  lemma ReportsAreRolling(cfg: PortScanConfig, log: seq<ScanEvent>)
    requires cfg.windowSec > 0.0 && log != [] && Chronological(log)
    requires Reports(cfg, log)
    ensures |RollingPorts(cfg.windowSec, log)| >= cfg.distinctPortThreshold
  {
    var w := cfg.windowSec;
    var o := Opener(w, log);
    OpenerIsRecent(w, log);
    forall p | p in Ports(log[o..])
      ensures p in RollingPorts(w, log)
    {
      var i :| o <= i < |log| && log[i].port == p;
      assert log[i] in log && log[o].time <= log[i].time;
    }
    SubsetSize(Ports(Window(w, log)), RollingPorts(w, log));
  }

  // The ratio gate lets the window of the last event through.
  predicate GateOpen(cfg: PortScanConfig, log: seq<ScanEvent>)
    requires log != []
  {
    cfg.synOnlyRatio <= 0.0 || SynRatio(Window(cfg.windowSec, log)) >= cfg.synOnlyRatio
  }

  lemma OpenGateReports(cfg: PortScanConfig, log: seq<ScanEvent>)
    requires log != [] && GateOpen(cfg, log)
    ensures Reports(cfg, log) <==> |Ports(Window(cfg.windowSec, log))| >= cfg.distinctPortThreshold
  {
  }

  // The gate lets through the open window and, if there was one, the window before it.
  ghost predicate BothGatesOpen(cfg: PortScanConfig, log: seq<ScanEvent>)
    requires log != []
  {
    var o := Opener(cfg.windowSec, log);
    GateOpen(cfg, log) && (o > 0 ==> GateOpen(cfg, log[..o]))
  }

  // No scan missed by more than a factor of two: when a rolling window holds 2N - 1 distinct ports,
  // some call inside that window reports against the threshold N.
  lemma DenseScansAreReported(cfg: PortScanConfig, log: seq<ScanEvent>)
    requires cfg.windowSec > 0.0 && log != [] && Chronological(log) && BothGatesOpen(cfg, log)
    requires |RollingPorts(cfg.windowSec, log)| >= 2 * cfg.distinctPortThreshold - 1
    ensures exists k :: 0 < k <= |log| && Last(log).time - log[k - 1].time < cfg.windowSec && Reports(cfg, log[..k])
  {
    hide Reports, GateOpen;
    var w := cfg.windowSec;
    var o := Opener(w, log);
    OpenerIsRecent(w, log);
    if |Ports(log[o..])| >= cfg.distinctPortThreshold {
      assert log[..|log|] == log;
      OpenGateReports(cfg, log);
      assert Reports(cfg, log[..|log|]);
    } else {
      var early := RollingPorts(w, log) - Ports(log[o..]);
      assert RollingPorts(w, log) <= Ports(log[o..]) + early;
      SubsetSize(RollingPorts(w, log), Ports(log[o..]) + early);
      var p :| p in early;
      var i := EarlyEvent(w, log, o, p);
      OpenerResets(w, log);
      EarlyPortsInPreviousWindow(w, log, o, early);
      OpenGateReports(cfg, log[..o]);
      assert log[i].time <= log[o - 1].time;
      assert Reports(cfg, log[..o]);
    }
  }

  // Where the window before the open one was opened; the start of the log when there is none.
  function PreviousOpener(w: real, log: seq<ScanEvent>): (o: nat)
    requires log != []
    ensures o < |log|
  {
    if Opener(w, log) == 0 then 0 else Opener(w, log[..Opener(w, log)])
  }

  // SYN-only traffic passes a ratio of at most one; it matters only from the previous opener on.
  lemma SynOnlyOpensBothGates(cfg: PortScanConfig, log: seq<ScanEvent>)
    requires log != [] && cfg.synOnlyRatio <= 1.0
    requires forall i :: PreviousOpener(cfg.windowSec, log) <= i < |log| ==> SynOnly(log[i].flags)
    ensures BothGatesOpen(cfg, log)
  {
    hide SynOnly, Opener, SynRatio;
    var w := cfg.windowSec;
    var o := Opener(w, log);
    if o > 0 {
      AllSynsHaveRatioOne(Window(w, log[..o]));
    }
    AllSynsHaveRatioOne(Window(w, log));
  }

  lemma AllSynsHaveRatioOne(events: seq<ScanEvent>)
    requires events != [] && forall i :: 0 <= i < |events| ==> SynOnly(events[i].flags)
    ensures SynRatio(events) == 1.0
  {
    hide SynOnly;
    assert forall e :: e in events ==> SynOnly(e.flags);
    CountAll(events, (e: ScanEvent) => SynOnly(e.flags));
    WholeRatio(|events|);
  }

  lemma WholeRatio(n: nat)
    requires n > 0
    ensures n as real / n as real == 1.0
  {
  }

  // A port the rolling window sees, but not in the part from o on, was contacted before o.
  lemma EarlyEvent(w: real, log: seq<ScanEvent>, o: nat, p: Port) returns (i: nat)
    requires log != [] && o < |log| && p in RollingPorts(w, log) - Ports(log[o..])
    ensures i < o && log[i].port == p && Last(log).time - log[i].time < w
  {
    var e :| e in log && Last(log).time - e.time < w && e.port == p;
    i :| 0 <= i < |log| && log[i] == e;
    assert forall j :: o <= j < |log| ==> log[j] in log[o..];
  }

  // Ports a rolling window sees before the current opener all sit in the window that opener closed.
  lemma EarlyPortsInPreviousWindow(w: real, log: seq<ScanEvent>, o: nat, early: set<Port>)
    requires w > 0.0 && log != [] && Chronological(log)
    requires 0 < o < |log| && log[o].time - log[Opener(w, log[..o])].time >= w
    requires early == RollingPorts(w, log) - Ports(log[o..])
    ensures |Ports(Window(w, log[..o]))| >= |early|
  {
    var was := log[..o];
    var start := Opener(w, was);
    assert log[o].time <= Last(log).time;
    assert forall i :: 0 <= i < start ==> was[i].time <= was[start].time;
    assert forall i :: start <= i < o ==> was[i] in was[start..];
    forall p | p in early
      ensures p in Ports(was[start..])
    {
      var i := EarlyEvent(w, log, o, p);
      assert was[i] == log[i];
    }
    SubsetSize(early, Ports(was[start..]));
  }

  // The factor two is exact: 2N - 2 ports within half a window length can pass unreported.
  lemma SparseScansCanEscape(cfg: PortScanConfig)
    requires cfg.windowSec > 0.0 && 2 <= cfg.distinctPortThreshold <= 0x8000
    ensures var log := EscapingScan(cfg.windowSec, cfg.distinctPortThreshold);
      && Chronological(log)
      && |RollingPorts(cfg.windowSec, log)| == 2 * cfg.distinctPortThreshold - 2
      && forall k :: 0 < k <= |log| ==> !Reports(cfg, log[..k])
  {
    var w, n := cfg.windowSec, cfg.distinctPortThreshold;
    EscapingRolling(w, n);
    forall k | 0 < k <= |EscapingScan(w, n)|
      ensures !Reports(cfg, EscapingScan(w, n)[..k])
    {
      EscapingWindow(w, n, k);
    }
  }

  lemma EscapingWindow(w: real, n: nat, k: nat)
    requires w > 0.0 && 2 <= n <= 0x8000 && 0 < k <= 2 * n - 1
    ensures |Ports(Window(w, EscapingScan(w, n)[..k]))| < n
  {
    EscapingOpener(w, n, k);
    var events := Window(w, EscapingScan(w, n)[..k]);
    var lo := if k <= n then 0 else n - 1;
    assert forall e :: e in events ==> lo <= e.port < lo + n - 1;
    SubsetSize(Ports(events), PortRange(lo, lo + n - 1));
  }

  lemma EscapingRolling(w: real, n: nat)
    requires w > 0.0 && 2 <= n <= 0x8000
    ensures |RollingPorts(w, EscapingScan(w, n))| == 2 * n - 2
  {
    var log, seen := EscapingScan(w, n), PortRange(0, 2 * n - 2);
    forall p | p in seen
      ensures p in RollingPorts(w, log)
    {
      assert log[p + 1] in log && log[p + 1].port == p && Last(log).time - log[p + 1].time < w;
    }
    assert RollingPorts(w, log) == seen;
  }

  // One probe, then half the ports just before the window expires and the other half as it does.
  function EscapingScan(w: real, n: nat): seq<ScanEvent>
    requires 2 <= n <= 0x8000
  {
    seq(2 * n - 1, i requires 0 <= i < 2 * n - 1 =>
      ScanEvent(if i == 0 then 0.0 else if i < n then w / 2.0 else w, if i == 0 then 0 else i - 1, TCP_FLAG_SYN))
  }

  lemma {:induction false} EscapingOpener(w: real, n: nat, k: nat)
    requires w > 0.0 && 2 <= n <= 0x8000 && 0 < k <= 2 * n - 1
    ensures Opener(w, EscapingScan(w, n)[..k]) == if k <= n then 0 else n
  {
    if k > 1 {
      EscapingOpener(w, n, k - 1);
      assert EscapingScan(w, n)[..k][..k - 1] == EscapingScan(w, n)[..k - 1];
    }
  }

  ghost function PortRange(lo: nat, hi: nat): (ports: set<Port>)
    requires lo <= hi <= 0x1_0000
    ensures forall p: Port :: p in ports <==> lo <= p < hi
    ensures |ports| == hi - lo
    decreases hi
  {
    if lo == hi then {} else PortRange(lo, hi - 1) + {hi - 1}
  }

  // ---------------------------------------------------------------- when eviction can be seen

  // Every answer a rebuilt profile gives is the answer the evicted one would have given.
  ghost predicate EvictionUnobservable(cfg: PortScanConfig) {
    forall log: seq<ScanEvent> :: |log| > 1 && AgeOnArrival(cfg.windowSec, log) > cfg.windowSec * 2.0
      ==> AfterEviction(Verdict(cfg, log)) == Verdict(cfg, log)
  }

  // Exactly the configurations in which one packet alone cannot be reported.
  lemma EvictionUnobservableIff(cfg: PortScanConfig)
    requires cfg.windowSec > 0.0
    ensures EvictionUnobservable(cfg) <==> (cfg.distinctPortThreshold >= 2 || cfg.synOnlyRatio > 1.0)
  {
    forall log: seq<ScanEvent> | |log| > 1 && AgeOnArrival(cfg.windowSec, log) > cfg.windowSec * 2.0
      ensures Verdict(cfg, log).Some? ==>
        !(cfg.distinctPortThreshold >= 2 || cfg.synOnlyRatio > 1.0) && Verdict(cfg, log).value.windowSec == cfg.windowSec
    {
      LatePacketIsAlone(cfg, log);
    }
    hide Verdict, AgeOnArrival;
    if cfg.distinctPortThreshold < 2 && cfg.synOnlyRatio <= 1.0 {
      LonePacketIsReported(cfg);
    }
  }

  // After an eviction the window holds the new packet alone.
  lemma LatePacketIsAlone(cfg: PortScanConfig, log: seq<ScanEvent>)
    requires cfg.windowSec > 0.0 && |log| > 1 && AgeOnArrival(cfg.windowSec, log) > cfg.windowSec * 2.0
    ensures Verdict(cfg, log).Some? ==>
      && cfg.distinctPortThreshold < 2 && cfg.synOnlyRatio <= 1.0
      && Verdict(cfg, log).value.windowSec == cfg.windowSec
  {
    var e := Last(log);
    assert Window(cfg.windowSec, log) == [e];
    hide Window, Opener, SynOnlyCount;
    assert Ports([e]) == {e.port};
    hide Ports;
    assert SynOnlyCount([e]) <= 1 by {
      CountOne([e]);
    }
  }

  lemma CountOne(events: seq<ScanEvent>)
    ensures SynOnlyCount(events) <= |events|
  {
  }

  lemma LonePacketIsReported(cfg: PortScanConfig)
    requires cfg.windowSec > 0.0 && cfg.distinctPortThreshold < 2 && cfg.synOnlyRatio <= 1.0
    ensures !EvictionUnobservable(cfg)
  {
    var log := [ScanEvent(0.0, 1, TCP_FLAG_SYN), ScanEvent(cfg.windowSec * 3.0, 1, TCP_FLAG_SYN)];
    assert log[..1] == [log[0]];
    assert Opener(cfg.windowSec, log) == 1 && Window(cfg.windowSec, log) == [log[1]];
    assert Ports([log[1]]) == {1};
    AllSynsHaveRatioOne([log[1]]);
    assert Verdict(cfg, log).Some? && Verdict(cfg, log).value.windowSec == cfg.windowSec;
    assert AfterEviction(Verdict(cfg, log)) != Verdict(cfg, log);
  }
}
