/** SYN-flood detection: one tumbling window of SYN counts per source address.

    A window is evaluated by the first packet that arrives once it is complete. The detector's counters
    are related here to the whole log of a source since its profile was made; a steady flood is shown to
    be reported at every window close, and windows to close in time. */
module SynFloodDetection {
  import opened NetTypes
  import opened RealProducts

  datatype SynFloodConfig = SynFloodConfig(synRatePps: real, synRatio: real, windowSec: real)
  {
    predicate Sane() {
      synRatePps > 0.0 && windowSec > 0.0
    }
  }

  datatype SynEvent = SynEvent(time: real, flags: bv8)

  datatype SynProfile = SynProfile(
    synOnlyCount: nat, tcpTotalCount: nat, synAckCount: nat, windowStart: real,
    lifetimeSynCount: nat, lifetimeTcpCount: nat, completedHandshakes: nat)

  datatype SynFloodResult =
    SynFloodResult(severity: Severity, synRatePps: real, synRatio: real, synCount: nat, completedHandshakes: nat)

  // ---------------------------------------------------------------- reading a source's log

  // The open window holds the events from `first` on and is timed from `start`.
  datatype Reading = Reading(first: nat, start: real)

  ghost predicate Chronological(log: seq<SynEvent>) {
    forall i, j :: 0 <= i <= j < |log| ==> log[i].time <= log[j].time
  }

  function Last(log: seq<SynEvent>): SynEvent
    requires log != []
  {
    log[|log| - 1]
  }

  // The window the last event is counted in.
  function Before(w: real, log: seq<SynEvent>): (r: Reading)
    requires log != []
    ensures r.first < |log|
    decreases |log|, 0
  {
    if |log| == 1 then Reading(0, log[0].time) else After(w, log[..|log| - 1])
  }

  // The window that is open once the last event has been handled.
  function After(w: real, log: seq<SynEvent>): (r: Reading)
    requires log != []
    ensures r.first <= |log|
    decreases |log|, 1
  {
    var r := Before(w, log);
    if Last(log).time - r.start < w then r else Reading(|log|, Last(log).time)
  }

  // SYN-only packets, and SYN+ACK packets, from index `first` on.
  function SynsSince(log: seq<SynEvent>, first: nat): (n: nat)
    requires first <= |log|
    ensures n <= |log| - first
  {
    if |log| == first then 0
    else SynsSince(log[..|log| - 1], first) + (if SynOnly(Last(log).flags) then 1 else 0)
  }

  function SynAcksSince(log: seq<SynEvent>, first: nat): nat
    requires first <= |log|
  {
    if |log| == first then 0
    else SynAcksSince(log[..|log| - 1], first) + (if SynAck(Last(log).flags) then 1 else 0)
  }

  function PerSecond(count: nat, age: real): real
    requires age > 0.0
  {
    count as real / age
  }

  function Fraction(part: nat, whole: nat): real {
    if whole == 0 then 0.0 else part as real / whole as real
  }

  // The evaluation of a complete window.
  function Evaluate(cfg: SynFloodConfig, syns: nat, total: nat, age: real, handshakes: nat): Option<SynFloodResult>
    requires age > 0.0
  {
    if PerSecond(syns, age) < cfg.synRatePps || Fraction(syns, total) < cfg.synRatio then None
    else Some(SynFloodResult(if PerSecond(syns, age) >= cfg.synRatePps * 5.0 then Critical else High,
                             PerSecond(syns, age), Fraction(syns, total), syns, handshakes))
  }

  function AgeOnArrival(w: real, log: seq<SynEvent>): real
    requires log != []
  {
    Last(log).time - Before(w, log).start
  }

  // The answer owed to the last event of a source's log.
  function Verdict(cfg: SynFloodConfig, log: seq<SynEvent>): Option<SynFloodResult>
    requires cfg.Sane() && log != []
  {
    var w, first := cfg.windowSec, Before(cfg.windowSec, log).first;
    if AgeOnArrival(w, log) < w then None
    else Evaluate(cfg, SynsSince(log, first), |log| - first, AgeOnArrival(w, log), SynAcksSince(log, 0))
  }

  function ProfileFor(r: Reading, log: seq<SynEvent>): SynProfile
    requires log != [] && r.first <= |log|
  {
    SynProfile(SynsSince(log, r.first), |log| - r.first, SynAcksSince(log, r.first), r.start,
               SynsSince(log, 0), |log|, SynAcksSince(log, 0))
  }

  // ---------------------------------------------------------------- the detector

  predicate Expired(w: real, p: SynProfile, now: real) {
    now - p.windowStart > w * 10.0
  }

  function FreshProfile(now: real): SynProfile {
    SynProfile(0, 0, 0, now, 0, 0, 0)
  }

  // The profile is the log's, up to the open window.
  ghost predicate Tracks(w: real, profile: SynProfile, log: seq<SynEvent>, clock: real) {
    log != [] && Chronological(log) && Last(log).time <= clock && profile == ProfileFor(After(w, log), log)
  }

  class SynFloodDetector {
    const cfg: SynFloodConfig
    var profiles: map<string, SynProfile>

    // What each live profile has counted.
    ghost var logs: map<string, seq<SynEvent>>
    ghost var clock: real

    ghost function LogOf(src: string): seq<SynEvent>
      reads this
    {
      if src in logs then logs[src] else []
    }

    ghost predicate Valid()
      reads this
    {
      && cfg.Sane()
      && profiles.Keys == logs.Keys
      && (forall src :: src in profiles ==> Tracks(cfg.windowSec, profiles[src], logs[src], clock))
    }

    constructor (cfg: SynFloodConfig)
      requires cfg.Sane()
      ensures Valid()
      ensures this.cfg == cfg && profiles == map[] && logs == map[] && clock == 0.0
    {
      this.cfg := cfg;
      profiles := map[];
      logs := map[];
      clock := 0.0;
    }

    method Inspect(src: string, tcpFlags: bv8, now: real) returns (r: Option<SynFloodResult>)
      requires Valid()
      requires clock <= now
      modifies this
      ensures Valid()
      ensures clock == now
      ensures logs == old(logs)[src := old(LogOf(src)) + [SynEvent(now, tcpFlags)]]
      ensures r == Verdict(cfg, logs[src])
    {
      ghost var log := LogOf(src);
      var profile := if src in profiles then profiles[src] else FreshProfile(now);
      profile := Classify(cfg.windowSec, profile, log, clock, SynEvent(now, tcpFlags));
      profile, r := Settle(cfg, profile, log + [SynEvent(now, tcpFlags)], now);
      forall other | other in profiles
        ensures Tracks(cfg.windowSec, profiles[other], logs[other], now)
      {
        TracksLater(cfg.windowSec, profiles[other], logs[other], clock, now);
      }
      profiles := profiles[src := profile];
      logs := logs[src := log + [SynEvent(now, tcpFlags)]];
      clock := now;
    }

    // Eviction ends a source's log along with its profile.
    method EvictStale(now: real)
      requires Valid()
      requires clock <= now
      modifies this
      ensures Valid()
      ensures clock == now
      ensures profiles == map src | src in old(profiles) && !Expired(cfg.windowSec, old(profiles)[src], now)
                                  :: old(profiles)[src]
      ensures forall src :: src in old(profiles) ==>
        (src in profiles <==> now - old(profiles)[src].windowStart <= 10.0 * cfg.windowSec)
      ensures logs == map src | src in profiles :: old(logs)[src]
    {
      hide Tracks;
      forall src | src in profiles
        ensures Tracks(cfg.windowSec, profiles[src], logs[src], now)
      {
        TracksLater(cfg.windowSec, profiles[src], logs[src], clock, now);
      }
      var w := cfg.windowSec;
      profiles := Sweep(profiles, p => Expired(w, p, now));
      logs := map src | src in profiles :: logs[src];
      clock := now;
    }

    // SYN-only share of everything a live profile has counted.
    method LifetimeSynRatio(src: string) returns (ratio: real)
      requires Valid()
      ensures src in logs ==> ratio == Fraction(SynsSince(logs[src], 0), |logs[src]|)
      ensures src !in logs ==> ratio == 0.0
    {
      if src !in profiles {
        return 0.0;
      }
      assert Tracks(cfg.windowSec, profiles[src], logs[src], clock);
      ratio := Fraction(profiles[src].lifetimeSynCount, profiles[src].lifetimeTcpCount);
    }
  }

  // Count one packet into the open window.
  method Classify(w: real, profile0: SynProfile, ghost log: seq<SynEvent>, ghost clock: real, e: SynEvent)
    returns (profile: SynProfile)
    requires clock <= e.time
    requires if log == [] then profile0 == FreshProfile(e.time) else Tracks(w, profile0, log, clock)
    ensures profile == ProfileFor(Before(w, log + [e]), log + [e])
    ensures Chronological(log + [e])
  {
    ghost var first := Before(w, log + [e]).first;
    assert (log + [e])[..|log|] == log;
    CountsPush(log, first, e);
    CountsPush(log, 0, e);
    profile := profile0.(tcpTotalCount := profile0.tcpTotalCount + 1,
                         lifetimeTcpCount := profile0.lifetimeTcpCount + 1);
    if SynOnly(e.flags) {
      profile := profile.(synOnlyCount := profile.synOnlyCount + 1,
                          lifetimeSynCount := profile.lifetimeSynCount + 1);
    }
    if SynAck(e.flags) {
      profile := profile.(synAckCount := profile.synAckCount + 1,
                          completedHandshakes := profile.completedHandshakes + 1);
    }
  }

  // Evaluate the window if it has elapsed, and start the next one.
  method Settle(cfg: SynFloodConfig, profile0: SynProfile, ghost log: seq<SynEvent>, now: real)
    returns (profile: SynProfile, r: Option<SynFloodResult>)
    requires cfg.Sane() && log != [] && Chronological(log) && now == Last(log).time
    requires profile0 == ProfileFor(Before(cfg.windowSec, log), log)
    ensures Tracks(cfg.windowSec, profile, log, now)
    ensures r == Verdict(cfg, log)
  {
    profile := profile0;
    var windowAge := now - profile.windowStart;
    if windowAge < cfg.windowSec {
      return profile, None;
    }
    r := Evaluate(cfg, profile.synOnlyCount, profile.tcpTotalCount, windowAge, profile.completedHandshakes);
    profile := profile.(synOnlyCount := 0, tcpTotalCount := 0, synAckCount := 0, windowStart := now);
  }

  lemma TracksLater(w: real, profile: SynProfile, log: seq<SynEvent>, clock: real, now: real)
    requires Tracks(w, profile, log, clock) && clock <= now
    ensures Tracks(w, profile, log, now)
  {
  }

  lemma CountsPush(log: seq<SynEvent>, first: nat, e: SynEvent)
    requires first <= |log|
    ensures SynsSince(log + [e], first) == SynsSince(log, first) + (if SynOnly(e.flags) then 1 else 0)
    ensures SynAcksSince(log + [e], first) == SynAcksSince(log, first) + (if SynAck(e.flags) then 1 else 0)
  {
    assert (log + [e])[..|log|] == log;
  }

  // ---------------------------------------------------------------- floods

  // A flood at `rate`: nothing but SYN-only packets, no two of them further apart than 1 / rate.
  ghost predicate Flood(rate: real, log: seq<SynEvent>)
    requires rate > 0.0
  {
    |log| > 0 ==>
      && SynOnly(Last(log).flags)
      && Flood(rate, log[..|log| - 1])
      && (|log| > 1 ==> 0.0 <= Last(log).time - log[|log| - 2].time <= 1.0 / rate)
  }

  // A window never stays open, once handled, for a full length.
  lemma {:induction false} WindowIsYoung(w: real, log: seq<SynEvent>)
    requires w > 0.0 && log != []
    ensures Last(log).time < After(w, log).start + w
  {
  }

  // The windows of a flood are evaluated at the latest 1 / rate after they are complete.
  lemma FloodWindowsCloseInTime(cfg: SynFloodConfig, log: seq<SynEvent>)
    requires cfg.Sane() && log != [] && Flood(cfg.synRatePps, log)
    ensures AgeOnArrival(cfg.windowSec, log) < cfg.windowSec + 1.0 / cfg.synRatePps
  {
    QuotientAtLeast(1.0, cfg.synRatePps, 0.0);
    if |log| > 1 {
      WindowIsYoung(cfg.windowSec, log[..|log| - 1]);
    }
  }

  lemma {:induction false} FloodIsAllSyns(rate: real, log: seq<SynEvent>, first: nat)
    requires rate > 0.0 && Flood(rate, log) && first <= |log|
    ensures SynsSince(log, first) == |log| - first
  {
    if first < |log| {
      FloodIsAllSyns(rate, log[..|log| - 1], first);
    }
  }

  // The packets counted in an open window cover the time since it opened, at the flood's rate.
  lemma {:induction false} FloodCoversTime(w: real, rate: real, log: seq<SynEvent>)
    requires w > 0.0 && rate > 0.0 && log != [] && Flood(rate, log)
    ensures AgeOnArrival(w, log) * rate <= (|log| - Before(w, log).first) as real
    ensures (Last(log).time - After(w, log).start) * rate <= (|log| - After(w, log).first) as real
  {
    var n := |log| - 1;
    if n > 0 {
      FloodCoversTime(w, rate, log[..n]);
      var r := Before(w, log);
      OneMore(rate, log[n].time - r.start, log[n - 1].time - r.start, log[n].time - log[n - 1].time, (n - r.first) as real);
    }
  }

  lemma OneMore(rate: real, total: real, before: real, gap: real, count: real)
    requires rate > 0.0 && total == before + gap && gap <= 1.0 / rate && before * rate <= count
    ensures total * rate <= count + 1.0
  {
    var period := 1.0 / rate;
    assert period * rate == 1.0;
    ProductOrder(rate, gap, period);
    Distribute(rate, total, before, gap);
  }

  // Every window close of a steady flood is reported.
  lemma FloodClosesAreReported(cfg: SynFloodConfig, log: seq<SynEvent>)
    requires cfg.Sane() && cfg.synRatio <= 1.0 && log != [] && Flood(cfg.synRatePps, log)
    requires AgeOnArrival(cfg.windowSec, log) >= cfg.windowSec
    ensures Verdict(cfg, log).Some?
  {
    var first := Before(cfg.windowSec, log).first;
    FloodIsAllSyns(cfg.synRatePps, log, first);
    FloodCoversTime(cfg.windowSec, cfg.synRatePps, log);
    QuotientAtLeast((|log| - first) as real, AgeOnArrival(cfg.windowSec, log), cfg.synRatePps);
    WholeFraction(|log| - first);
  }

  lemma WholeFraction(n: nat)
    requires n > 0
    ensures Fraction(n, n) == 1.0
  {
  }

  // A non-initial window was opened by the packet that closed the one before it.
  lemma {:induction false} OpenedByClose(w: real, log: seq<SynEvent>)
    requires w > 0.0 && log != []
    ensures var r := After(w, log);
      if r.first == 0 then r.start == log[0].time
      else r.start == log[r.first - 1].time && AgeOnArrival(w, log[..r.first]) >= w
  {
    var r := After(w, log);
    if r.first == |log| {
      assert log[..|log|] == log;
    } else if |log| > 1 {
      var shorter := log[..|log| - 1];
      OpenedByClose(w, shorter);
      assert r.first > 0 ==> shorter[..r.first] == log[..r.first];
    }
  }

  lemma {:induction false} FloodPrefix(rate: real, log: seq<SynEvent>, k: nat)
    requires rate > 0.0 && Flood(rate, log) && k <= |log|
    ensures Flood(rate, log[..k])
  {
    if k < |log| {
      FloodPrefix(rate, log[..|log| - 1], k);
      assert log[..|log| - 1][..k] == log[..k];
    } else {
      assert log[..k] == log;
    }
  }

  // Detection is guaranteed: once a flood has lasted a window length, there is always a report less
  // than a window length old.
  lemma FloodIsDetected(cfg: SynFloodConfig, log: seq<SynEvent>)
    requires cfg.Sane() && cfg.synRatio <= 1.0 && log != [] && Flood(cfg.synRatePps, log)
    requires Last(log).time - log[0].time >= cfg.windowSec
    ensures exists k :: 0 < k <= |log| && Last(log).time - log[k - 1].time < cfg.windowSec && Verdict(cfg, log[..k]).Some?
  {
    var k := After(cfg.windowSec, log).first;
    WindowIsYoung(cfg.windowSec, log);
    OpenedByClose(cfg.windowSec, log);
    FloodPrefix(cfg.synRatePps, log, k);
    FloodClosesAreReported(cfg, log[..k]);
    assert Verdict(cfg, log[..k]).Some?;
  }

  // From index f on the log is a flood, whatever came before.
  ghost predicate FloodFrom(rate: real, log: seq<SynEvent>, f: nat)
    requires rate > 0.0
  {
    && f < |log|
    && (forall i :: f <= i < |log| ==> SynOnly(log[i].flags))
    && (forall i, j :: f <= i && j == i + 1 && j < |log| ==> CloseTogether(rate, log[i].time, log[j].time))
  }

  ghost predicate CloseTogether(rate: real, a: real, b: real)
    requires rate > 0.0
  {
    b - a <= 1.0 / rate
  }

  lemma {:induction false} FloodSpan(rate: real, log: seq<SynEvent>, f: nat, i: nat, j: nat)
    requires rate > 0.0 && FloodFrom(rate, log, f) && f <= i <= j < |log|
    ensures (log[j].time - log[i].time) * rate <= (j - i) as real
    decreases j
  {
    hide SynOnly;
    if i < j {
      FloodSpan(rate, log, f, i, j - 1);
      assert CloseTogether(rate, log[j - 1].time, log[j].time);
      OneMore(rate, log[j].time - log[i].time, log[j - 1].time - log[i].time, log[j].time - log[j - 1].time, (j - 1 - i) as real);
    }
  }

  lemma {:induction false} AllSynsSince(log: seq<SynEvent>, first: nat)
    requires first <= |log| && forall i :: first <= i < |log| ==> SynOnly(log[i].flags)
    ensures SynsSince(log, first) == |log| - first
  {
    hide SynOnly;
    if first < |log| {
      AllSynsSince(log[..|log| - 1], first);
    }
  }

  // A window opened by a packet of the flood is reported when it closes.
  lemma FloodWindowIsReported(cfg: SynFloodConfig, log: seq<SynEvent>, f: nat)
    requires cfg.Sane() && cfg.synRatio <= 1.0 && FloodFrom(cfg.synRatePps, log, f)
    requires var r := Before(cfg.windowSec, log); r.first > f && r.start == log[r.first - 1].time
    requires AgeOnArrival(cfg.windowSec, log) >= cfg.windowSec
    ensures Verdict(cfg, log).Some?
  {
    hide Before, SynOnly;
    var first, n := Before(cfg.windowSec, log).first, |log| - 1;
    AllSynsSince(log, first);
    FloodSpan(cfg.synRatePps, log, f, first - 1, n);
    QuotientAtLeast((|log| - first) as real, AgeOnArrival(cfg.windowSec, log), cfg.synRatePps);
    WholeFraction(|log| - first);
  }

  // Where the window that the last event was counted in was opened.
  lemma OpenedBefore(w: real, log: seq<SynEvent>)
    requires w > 0.0 && log != []
    ensures var r := Before(w, log);
      r.start == if r.first == 0 then log[0].time else log[r.first - 1].time
  {
    if |log| > 1 {
      OpenedByClose(w, log[..|log| - 1]);
    }
  }

  // How long a window can have been open when the packet arrives, by the gap before it.
  lemma AgeByGap(w: real, log: seq<SynEvent>, gap: real)
    requires w > 0.0 && |log| > 1 && Last(log).time - log[|log| - 2].time <= gap
    ensures AgeOnArrival(w, log) < w + gap
  {
    WindowIsYoung(w, log[..|log| - 1]);
  }

  // Detection after any past: two window lengths and a gap into a flood, there is always a report less
  // than a window length old, whatever the source sent before.
  lemma FloodAfterAnythingIsDetected(cfg: SynFloodConfig, log: seq<SynEvent>, f: nat)
    requires cfg.Sane() && cfg.synRatio <= 1.0 && Chronological(log) && FloodFrom(cfg.synRatePps, log, f)
    requires Last(log).time - log[f].time >= 2.0 * cfg.windowSec + 1.0 / cfg.synRatePps
    ensures exists k :: f < k <= |log| && Last(log).time - log[k - 1].time < cfg.windowSec && Verdict(cfg, log[..k]).Some?
  {
    hide Before, After, Verdict, SynOnly, AgeOnArrival;
    var w, gap := cfg.windowSec, 1.0 / cfg.synRatePps;
    QuotientAtLeast(1.0, cfg.synRatePps, 0.0);
    var k := After(w, log).first;
    WindowIsYoung(w, log);
    OpenedByClose(w, log);
    LaterIsBehind(log, f, if k == 0 then 0 else k - 1);
    assert CloseTogether(cfg.synRatePps, log[k - 2].time, log[k - 1].time);
    CloseIsReported(cfg, log, f, k);
    assert Verdict(cfg, log[..k]).Some?;
  }

  lemma LaterIsBehind(log: seq<SynEvent>, f: nat, i: nat)
    requires Chronological(log) && f < |log| && i < |log| && log[i].time > log[f].time
    ensures i > f
  {
  }

  // A close that deep inside a flood is the close of a window the flood opened.
  lemma CloseIsReported(cfg: SynFloodConfig, log: seq<SynEvent>, f: nat, k: nat)
    requires cfg.Sane() && cfg.synRatio <= 1.0 && Chronological(log) && FloodFrom(cfg.synRatePps, log, f)
    requires f + 1 < k <= |log| && AgeOnArrival(cfg.windowSec, log[..k]) >= cfg.windowSec
    requires log[k - 1].time - log[f].time >= cfg.windowSec + 1.0 / cfg.synRatePps
    ensures Verdict(cfg, log[..k]).Some?
  {
    hide Before, Verdict, SynOnly;
    var pre := log[..k];
    assert CloseTogether(cfg.synRatePps, log[k - 2].time, log[k - 1].time);
    AgeByGap(cfg.windowSec, pre, 1.0 / cfg.synRatePps);
    OpenedBefore(cfg.windowSec, pre);
    var r := Before(cfg.windowSec, pre);
    LaterIsBehind(log, f, if r.first == 0 then 0 else r.first - 1);
    FloodWindowIsReported(cfg, pre, f);
  }

  // At least rate * age SYN-only packets, making up at least the configured share of all packets.
  ghost predicate Witnesses(cfg: SynFloodConfig, syns: nat, total: nat, age: real) {
    && age >= cfg.windowSec
    && syns as real >= cfg.synRatePps * age
    && syns as real >= cfg.synRatio * total as real
  }

  // A report is backed by the packets logged since the window it closes was opened.
  lemma ReportIsWitnessed(cfg: SynFloodConfig, log: seq<SynEvent>)
    requires cfg.Sane() && log != [] && Verdict(cfg, log).Some?
    ensures var first := Before(cfg.windowSec, log).first;
      && Verdict(cfg, log).value.synCount == SynsSince(log, first)
      && Witnesses(cfg, SynsSince(log, first), |log| - first, AgeOnArrival(cfg.windowSec, log))
  {
    var first, age := Before(cfg.windowSec, log).first, AgeOnArrival(cfg.windowSec, log);
    EvaluationIsWitnessed(cfg, SynsSince(log, first), |log| - first, age, SynAcksSince(log, 0));
  }

  lemma EvaluationIsWitnessed(cfg: SynFloodConfig, syns: nat, total: nat, age: real, handshakes: nat)
    requires age > 0.0 && age >= cfg.windowSec && total > 0 && Evaluate(cfg, syns, total, age, handshakes).Some?
    ensures Witnesses(cfg, syns, total, age)
  {
    QuotientReaches(syns as real, age, cfg.synRatePps);
    QuotientReaches(syns as real, total as real, cfg.synRatio);
  }
}
