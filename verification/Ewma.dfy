/** Traffic-volume anomalies: an exponentially weighted baseline of window rates per source address.

    The engine keeps a handful of numbers per source. They are related here to the whole log of the
    source: which packets make up the open window, which window rates the baseline averages and with
    what weights, when a verdict can be given at all, and when dropping an idle profile is harmless. */
module EwmaDetection {
  import opened NetTypes
  import opened RealProducts

  datatype EwmaConfig = EwmaConfig(alpha: real, staleResetSec: real, minWindowSec: real,
                                   mediumMultiplier: real, highMultiplier: real, ppsFloor: real)
  {
    predicate Sane() {
      && 0.0 < alpha < 1.0
      && 0.0 <= staleResetSec
      && 0.0 < minWindowSec
      && 0.0 < mediumMultiplier <= highMultiplier
      && 0.0 < ppsFloor
    }
  }

  const DEFAULT_CONFIG := EwmaConfig(0.125, 60.0, 1.0, 4.0, 8.0, 1.0)

  datatype EwmaEvent = EwmaEvent(time: real, bytes: nat)

  datatype EwmaProfile = EwmaProfile(
    ewmaPps: real, ewmaBps: real,
    windowPackets: nat, windowBytes: nat, windowStart: real,
    coldStart: bool, lastUpdate: real)

  datatype EwmaResult =
    EwmaResult(severity: Severity, observedPps: real, baselinePps: real, ratio: real, observedBps: real)

  // ---------------------------------------------------------------- reading a source's log

  // A completed measurement window: what arrived in it and how long it lasted.
  datatype WindowCount = WindowCount(packets: nat, bytes: nat, age: real)

  // The open window holds the events from `first` on and is timed from `start`; `windows` are the
  // windows completed since the baseline was last seeded, oldest first.
  datatype Reading = Reading(first: nat, start: real, windows: seq<WindowCount>)

  ghost predicate Chronological(log: seq<EwmaEvent>) {
    forall i, j :: 0 <= i <= j < |log| ==> log[i].time <= log[j].time
  }

  function Last(log: seq<EwmaEvent>): EwmaEvent
    requires log != []
  {
    log[|log| - 1]
  }

  // Bytes carried by the events from index `first` on.
  function BytesSince(log: seq<EwmaEvent>, first: nat): nat
    requires first <= |log|
  {
    if |log| == first then 0 else BytesSince(log[..|log| - 1], first) + Last(log).bytes
  }

  // The window the last event falls into: a source silent for too long starts from scratch.
  function Before(cfg: EwmaConfig, log: seq<EwmaEvent>): (r: Reading)
    requires log != []
    ensures r.first < |log|
    decreases |log|, 0
  {
    var n := |log| - 1;
    if n == 0 then Reading(0, log[0].time, [])
    else
      var r := Observe(cfg, log[..n]);
      if r.windows != [] && log[n].time - log[n - 1].time > cfg.staleResetSec
      then Reading(n, log[n].time, []) else r
  }

  function Observe(cfg: EwmaConfig, log: seq<EwmaEvent>): (r: Reading)
    requires log != []
    ensures r.first <= |log|
    decreases |log|, 1
  {
    var r := Before(cfg, log);
    var age := Last(log).time - r.start;
    if age < cfg.minWindowSec then r
    else Reading(|log|, Last(log).time, r.windows + [WindowCount(|log| - r.first, BytesSince(log, r.first), age)])
  }

  // Rates of completed windows, per second; a completed window has lasted.
  function Pps(w: WindowCount): real {
    if w.age == 0.0 then 0.0 else w.packets as real / w.age
  }

  function Bps(w: WindowCount): real {
    if w.age == 0.0 then 0.0 else w.bytes as real / w.age
  }

  function Rates(windows: seq<WindowCount>, rate: WindowCount -> real): seq<real> {
    seq(|windows|, i requires 0 <= i < |windows| => rate(windows[i]))
  }

  // alpha parts of the new value to 1 - alpha parts of the old.
  function Blend(alpha: real, new_: real, old_: real): real {
    alpha * new_ + (1.0 - alpha) * old_
  }

  // The exponentially weighted average of window rates, seeded with the first.
  function Baseline(alpha: real, rates: seq<real>): real
    requires rates != []
  {
    var n := |rates| - 1;
    if n == 0 then rates[0] else Blend(alpha, rates[n], Baseline(alpha, rates[..n]))
  }

  // How a new window scores against the baseline of the windows before it.
  function Score(cfg: EwmaConfig, baseline: real, w: WindowCount): Option<EwmaResult>
    requires cfg.Sane()
  {
    var ratio := Pps(w) / MaxReal(baseline, cfg.ppsFloor);
    if ratio >= cfg.highMultiplier then Some(EwmaResult(High, Pps(w), baseline, ratio, Bps(w)))
    else if ratio >= cfg.mediumMultiplier then Some(EwmaResult(Medium, Pps(w), baseline, ratio, Bps(w)))
    else None
  }

  function BaselinePps(cfg: EwmaConfig, windows: seq<WindowCount>): real {
    if windows == [] then 0.0 else Baseline(cfg.alpha, Rates(windows, Pps))
  }

  function BaselineBps(cfg: EwmaConfig, windows: seq<WindowCount>): real {
    if windows == [] then 0.0 else Baseline(cfg.alpha, Rates(windows, Bps))
  }

  // The score of the last window of a history against the ones before it; a seed is not scored.
  function LastScore(cfg: EwmaConfig, windows: seq<WindowCount>): Option<EwmaResult>
    requires cfg.Sane()
  {
    if |windows| < 2 then None
    else Score(cfg, BaselinePps(cfg, windows[..|windows| - 1]), windows[|windows| - 1])
  }

  // The answer owed to the last event of a source's log: the score of the window it completes, if any.
  function Verdict(cfg: EwmaConfig, log: seq<EwmaEvent>): Option<EwmaResult>
    requires cfg.Sane() && log != []
  {
    if Last(log).time - Before(cfg, log).start < cfg.minWindowSec then None
    else LastScore(cfg, Observe(cfg, log).windows)
  }

  // The constant-size profile that a reading of a log amounts to.
  function ProfileFor(cfg: EwmaConfig, r: Reading, log: seq<EwmaEvent>): EwmaProfile
    requires log != [] && r.first <= |log|
  {
    EwmaProfile(BaselinePps(cfg, r.windows), BaselineBps(cfg, r.windows),
                |log| - r.first, BytesSince(log, r.first), r.start, r.windows == [], Last(log).time)
  }

  function Summary(cfg: EwmaConfig, log: seq<EwmaEvent>): EwmaProfile
    requires log != []
  {
    ProfileFor(cfg, Observe(cfg, log), log)
  }

  // ---------------------------------------------------------------- the engine

  // Evicted by a sweep at `now`: silent for more than twice the stale interval.
  predicate Expired(cfg: EwmaConfig, p: EwmaProfile, now: real) {
    now - p.lastUpdate > cfg.staleResetSec * 2.0
  }

  // Evicted before its first window was complete.
  predicate Forgotten(cfg: EwmaConfig, p: EwmaProfile, now: real) {
    Expired(cfg, p, now) && p.coldStart
  }

  // What a profile, or its absence, says about the log of its source at a given moment.
  ghost predicate Tracks(cfg: EwmaConfig, profile: Option<EwmaProfile>, log: seq<EwmaEvent>, clock: real) {
    && cfg.Sane()
    && log != []
    && Last(log).time <= clock
    && match profile
       case Some(p) => p == Summary(cfg, log)
       case None => Expired(cfg, Summary(cfg, log), clock) && !Summary(cfg, log).coldStart
  }

  function FreshProfile(now: real): EwmaProfile {
    EwmaProfile(0.0, 0.0, 0, 0, now, true, now)
  }

  class EwmaEngine {
    const cfg: EwmaConfig
    var profiles: map<string, EwmaProfile>

    ghost var logs: map<string, seq<EwmaEvent>>
    ghost var clock: real

    ghost function LogOf(src: string): seq<EwmaEvent>
      reads this
    {
      if src in logs then logs[src] else []
    }

    ghost function ProfileOf(src: string): Option<EwmaProfile>
      reads this
    {
      if src in profiles then Some(profiles[src]) else None
    }

    ghost predicate Valid()
      reads this
    {
      && cfg.Sane()
      && profiles.Keys <= logs.Keys
      && (forall src :: src in logs ==> Tracks(cfg, ProfileOf(src), logs[src], clock))
    }

    constructor (cfg: EwmaConfig)
      requires cfg.Sane()
      ensures Valid()
      ensures this.cfg == cfg && profiles == map[] && logs == map[] && clock == 0.0
    {
      this.cfg := cfg;
      profiles := map[];
      logs := map[];
      clock := 0.0;
    }

    method Update(src: string, packetBytes: nat, now: real) returns (r: Option<EwmaResult>)
      requires Valid()
      requires clock <= now
      modifies this
      ensures Valid()
      ensures clock == now
      ensures logs == old(logs)[src := old(LogOf(src)) + [EwmaEvent(now, packetBytes)]]
      ensures profiles.Keys == old(profiles.Keys) + {src}
      ensures r == Verdict(cfg, logs[src])
    {
      hide Tracks, Verdict;
      ghost var log, found := LogOf(src), ProfileOf(src);
      if src in logs {
        TracksLater(cfg, found, log, clock, now);
      }
      var profile := if src in profiles then profiles[src] else FreshProfile(now);
      profile, r := Absorb(cfg, profile, found, log, clock, EwmaEvent(now, packetBytes));

      forall other | other in logs
        ensures Tracks(cfg, ProfileOf(other), logs[other], now)
      {
        TracksLater(cfg, ProfileOf(other), logs[other], clock, now);
      }
      profiles := profiles[src := profile];
      logs := logs[src := log + [EwmaEvent(now, packetBytes)]];
      clock := now;
    }

    // Sources past cold start keep their history across the sweep; the history of one that was
    // still cold is gone with its profile.
    method EvictStaleProfiles(now: real)
      requires Valid()
      requires clock <= now
      modifies this
      ensures Valid()
      ensures clock == now
      ensures profiles == map src | src in old(profiles) && !Expired(cfg, old(profiles)[src], now)
                                  :: old(profiles)[src]
      ensures forall src :: src in old(profiles) ==>
        (src in profiles <==> now - old(profiles)[src].lastUpdate <= 2.0 * cfg.staleResetSec)
      ensures logs == old(logs) - set src | src in old(profiles) && Forgotten(cfg, old(profiles)[src], now)
    {
      ghost var forgotten := set src | src in profiles && Forgotten(cfg, profiles[src], now);
      forall src | src in logs
        ensures Tracks(cfg, ProfileOf(src), logs[src], now)
      {
        TracksLater(cfg, ProfileOf(src), logs[src], clock, now);
      }
      var config := cfg;
      profiles := Sweep(profiles, p => Expired(config, p, now));
      logs := logs - forgotten;
      clock := now;
    }

    // The baseline of a source: the average of the window rates since its seed, 0 before the first.
    method BaselineOf(src: string) returns (pps: real)
      requires Valid()
      ensures src in profiles ==> src in logs && pps == BaselinePps(cfg, Observe(cfg, logs[src]).windows)
      ensures src !in profiles ==> pps == 0.0
    {
      if src !in profiles {
        return 0.0;
      }
      assert ProfileOf(src) == Some(profiles[src]);
      assert Tracks(cfg, ProfileOf(src), logs[src], clock);
      pps := profiles[src].ewmaPps;
    }
  }

  // One packet into a profile: stale reset, accumulation, and scoring when the window is complete.
  method Absorb(cfg: EwmaConfig, profile0: EwmaProfile, ghost found: Option<EwmaProfile>,
                ghost log: seq<EwmaEvent>, ghost clock: real, e: EwmaEvent)
    returns (profile: EwmaProfile, result: Option<EwmaResult>)
    requires cfg.Sane() && clock <= e.time
    requires log == [] ==> found == None
    requires log != [] ==> Tracks(cfg, found, log, clock)
    requires profile0 == if found.Some? then found.value else FreshProfile(e.time)
    ensures Tracks(cfg, Some(profile), log + [e], e.time)
    ensures result == Verdict(cfg, log + [e])
  {
    hide Tracks, Before, Observe, Verdict, Summary;
    profile := Accumulate(cfg, profile0, found, log, clock, e);
    TracksNow(cfg, log + [e]);
    var windowAge := e.time - profile.windowStart;
    if windowAge < cfg.minWindowSec {
      StillOpen(cfg, log + [e]);
      return profile, None;
    }
    profile, result := CloseWindow(cfg, profile, log + [e], windowAge, e.time);
  }

  lemma StillOpen(cfg: EwmaConfig, log: seq<EwmaEvent>)
    requires cfg.Sane() && log != [] && Last(log).time - Before(cfg, log).start < cfg.minWindowSec
    ensures Summary(cfg, log) == ProfileFor(cfg, Before(cfg, log), log) && Verdict(cfg, log) == None
  {
  }

  lemma TracksNow(cfg: EwmaConfig, log: seq<EwmaEvent>)
    requires cfg.Sane() && log != []
    ensures Tracks(cfg, Some(Summary(cfg, log)), log, Last(log).time)
  {
  }

  method Accumulate(cfg: EwmaConfig, profile0: EwmaProfile, ghost found: Option<EwmaProfile>,
                    ghost log: seq<EwmaEvent>, ghost clock: real, e: EwmaEvent)
    returns (profile: EwmaProfile)
    requires cfg.Sane() && clock <= e.time
    requires log == [] ==> found == None
    requires log != [] ==> Tracks(cfg, found, log, clock)
    requires profile0 == if found.Some? then found.value else FreshProfile(e.time)
    ensures profile == ProfileFor(cfg, Before(cfg, log + [e]), log + [e])
  {
    hide Tracks, ProfileFor, Before;
    AbsorbedIsReading(cfg, profile0, found, log, clock, e);
    profile := profile0;
    var sinceLast := e.time - profile.lastUpdate;
    if !profile.coldStart && sinceLast > cfg.staleResetSec {
      profile := profile.(ewmaPps := 0.0, ewmaBps := 0.0, windowPackets := 0, windowBytes := 0,
                          windowStart := e.time, coldStart := true);
    }
    profile := profile.(lastUpdate := e.time,
                        windowPackets := profile.windowPackets + 1,
                        windowBytes := profile.windowBytes + e.bytes);
  }

  // One packet into a profile, before its window is looked at.
  function Absorbed(cfg: EwmaConfig, p: EwmaProfile, e: EwmaEvent): EwmaProfile {
    if !p.coldStart && e.time - p.lastUpdate > cfg.staleResetSec
    then EwmaProfile(0.0, 0.0, 1, e.bytes, e.time, true, e.time)
    else p.(lastUpdate := e.time, windowPackets := p.windowPackets + 1, windowBytes := p.windowBytes + e.bytes)
  }

  // It makes the profile of a log the profile of the longer log, whether the engine found one or made one.
  lemma AbsorbedIsReading(cfg: EwmaConfig, profile: EwmaProfile, found: Option<EwmaProfile>,
                          log: seq<EwmaEvent>, clock: real, e: EwmaEvent)
    requires cfg.Sane() && clock <= e.time
    requires log == [] ==> found == None
    requires log != [] ==> Tracks(cfg, found, log, clock)
    requires profile == if found.Some? then found.value else FreshProfile(e.time)
    ensures Absorbed(cfg, profile, e) == ProfileFor(cfg, Before(cfg, log + [e]), log + [e])
  {
    hide Before, Observe, BytesSince, BaselinePps, BaselineBps;
    BeforePush(cfg, log, e);
    BytesPush(log, Before(cfg, log + [e]).first, e);
    NoBytes(log);
    NoBaseline(cfg);
    if log != [] && (found == None || Absorbed(cfg, profile, e).coldStart != profile.coldStart) {
      assert Before(cfg, log + [e]) == Reading(|log|, e.time, []);
    }
  }

  lemma NoBytes(log: seq<EwmaEvent>)
    ensures BytesSince(log, |log|) == 0
  {
  }

  lemma NoBaseline(cfg: EwmaConfig)
    ensures BaselinePps(cfg, []) == 0.0 && BaselineBps(cfg, []) == 0.0
  {
  }

  lemma BytesPush(log: seq<EwmaEvent>, first: nat, e: EwmaEvent)
    requires first <= |log|
    ensures BytesSince(log + [e], first) == BytesSince(log, first) + e.bytes
  {
    assert (log + [e])[..|log|] == log;
  }

  lemma BeforePush(cfg: EwmaConfig, log: seq<EwmaEvent>, e: EwmaEvent)
    ensures Before(cfg, log + [e]) ==
      if log == [] then Reading(0, e.time, [])
      else if Observe(cfg, log).windows != [] && e.time - Last(log).time > cfg.staleResetSec
      then Reading(|log|, e.time, [])
      else Observe(cfg, log)
  {
    assert (log + [e])[..|log|] == log;
  }

  lemma ObserveUnfolds(cfg: EwmaConfig, log: seq<EwmaEvent>)
    requires log != []
    ensures var r := Before(cfg, log);
      var age := Last(log).time - r.start;
      Observe(cfg, log) == if age < cfg.minWindowSec then r
        else Reading(|log|, Last(log).time, r.windows + [WindowCount(|log| - r.first, BytesSince(log, r.first), age)])
  {
  }

  // The measurement window is complete: seed or blend the baseline, score, and start the next one.
  method CloseWindow(cfg: EwmaConfig, profile0: EwmaProfile, ghost log: seq<EwmaEvent>, windowAge: real, now: real)
    returns (profile: EwmaProfile, result: Option<EwmaResult>)
    requires cfg.Sane() && log != []
    requires profile0 == ProfileFor(cfg, Before(cfg, log), log)
    requires now == Last(log).time && windowAge == now - profile0.windowStart >= cfg.minWindowSec
    ensures profile == Summary(cfg, log)
    ensures result == Verdict(cfg, log)
  {
    var w := WindowCount(profile0.windowPackets, profile0.windowBytes, windowAge);
    ghost var was, next := Before(cfg, log), Observe(cfg, log);
    assert next == Reading(|log|, now, was.windows + [w]);
    assert next.windows[..|was.windows|] == was.windows;
    BaselinePush(cfg, was.windows, w);
    profile, result := profile0, None;
    if profile.coldStart {
      profile := profile.(ewmaPps := Pps(w), ewmaBps := Bps(w), coldStart := false);
    } else {
      result := Score(cfg, profile.ewmaPps, w);
      profile := profile.(ewmaPps := Blend(cfg.alpha, Pps(w), profile.ewmaPps),
                          ewmaBps := Blend(cfg.alpha, Bps(w), profile.ewmaBps));
    }
    profile := profile.(windowPackets := 0, windowBytes := 0, windowStart := now);
  }

  lemma BaselinePush(cfg: EwmaConfig, windows: seq<WindowCount>, w: WindowCount)
    ensures BaselinePps(cfg, windows + [w])
         == if windows == [] then Pps(w) else Blend(cfg.alpha, Pps(w), BaselinePps(cfg, windows))
    ensures BaselineBps(cfg, windows + [w])
         == if windows == [] then Bps(w) else Blend(cfg.alpha, Bps(w), BaselineBps(cfg, windows))
  {
    forall rate: WindowCount -> real
      ensures Rates(windows + [w], rate)[..|windows|] == Rates(windows, rate)
      ensures Rates(windows + [w], rate)[|windows|] == rate(w)
    {
    }
  }

  lemma TracksLater(cfg: EwmaConfig, profile: Option<EwmaProfile>, log: seq<EwmaEvent>, clock: real, now: real)
    requires Tracks(cfg, profile, log, clock) && clock <= now
    ensures log != [] && Tracks(cfg, profile, log, now)
    ensures profile.Some? && Expired(cfg, profile.value, now) && !profile.value.coldStart ==> Tracks(cfg, None, log, now)
  {
  }

  // ---------------------------------------------------------------- what the baseline means

  function Pow(x: real, n: nat): real {
    if n == 0 then 1.0 else x * Pow(x, n - 1)
  }

  // The contribution of the k-th rate to the average of the whole sequence.
  function Term(alpha: real, rates: seq<real>, k: nat): real
    requires k < |rates|
  {
    if k == 0 then Pow(1.0 - alpha, |rates| - 1) * rates[0]
    else alpha * Pow(1.0 - alpha, |rates| - 1 - k) * rates[k]
  }

  function Terms(alpha: real, rates: seq<real>, k: nat): real
    requires k < |rates|
  {
    if k == 0 then Term(alpha, rates, 0) else Terms(alpha, rates, k - 1) + Term(alpha, rates, k)
  }

  // The weight left to the past.
  ghost predicate Complements(alpha: real, b: real) {
    b == 1.0 - alpha
  }

  // One more rate scales every earlier contribution by that weight.
  lemma TermScales(alpha: real, b: real, rates: seq<real>, x: real, k: nat)
    requires k < |rates| && Complements(alpha, b)
    ensures Term(alpha, rates + [x], k) == Product(b, Term(alpha, rates, k))
  {
    var p, p' := Pow(b, |rates| - 1 - k), Pow(b, |rates| - k);
    assert p' == b * p;
    if k == 0 {
      Regroup(b, p, p', rates[0], Term(alpha, rates, 0));
    } else {
      Regroup(b, p, p', alpha, p * alpha);
      Regroup(b, p * alpha, p' * alpha, rates[k], Term(alpha, rates, k));
    }
  }

  lemma SumScales(b: real, sum: real, rest: real, last: real, rest': real, last': real)
    requires sum == rest + last && rest' == Product(b, rest) && last' == Product(b, last)
    ensures rest' + last' == Product(b, sum)
  {
    Distribute(b, sum, rest, last);
  }

  lemma {:induction false} TermsScale(alpha: real, b: real, rates: seq<real>, x: real, k: nat)
    requires k < |rates| && Complements(alpha, b)
    ensures Terms(alpha, rates + [x], k) == Product(b, Terms(alpha, rates, k))
  {
    hide Term, Complements, Product;
    TermScales(alpha, b, rates, x, k);
    if k > 0 {
      TermsScale(alpha, b, rates, x, k - 1);
      SumScales(b, Terms(alpha, rates, k), Terms(alpha, rates, k - 1), Term(alpha, rates, k),
                Terms(alpha, rates + [x], k - 1), Term(alpha, rates + [x], k));
    }
  }

  // The closed form: with n windows after the seed, the seed weighs (1-a)^n, the k-th after it a(1-a)^(n-k).
  lemma BaselineClosedForm(alpha: real, rates: seq<real>)
    requires rates != []
    ensures Baseline(alpha, rates) == Terms(alpha, rates, |rates| - 1)
  {
    var b := 1.0 - alpha;
    assert Complements(alpha, b);
    ClosedForm(alpha, b, rates);
  }

  lemma {:induction false} ClosedForm(alpha: real, b: real, rates: seq<real>)
    requires rates != [] && Complements(alpha, b)
    ensures Baseline(alpha, rates) == Terms(alpha, rates, |rates| - 1)
  {
    hide Term, Blend, Complements, Product;
    var n := |rates| - 1;
    LastTerm(alpha, rates);
    if n > 0 {
      ClosedForm(alpha, b, rates[..n]);
      TermsScale(alpha, b, rates[..n], rates[n], n - 1);
      assert rates[..n] + [rates[n]] == rates;
      BlendParts(alpha, b, rates[n], Baseline(alpha, rates[..n]));
    }
  }

  lemma BlendParts(alpha: real, b: real, x: real, y: real)
    requires Complements(alpha, b)
    ensures Blend(alpha, x, y) == Product(alpha, x) + Product(b, y)
  {
  }

  lemma LastTerm(alpha: real, rates: seq<real>)
    requires rates != []
    ensures Term(alpha, rates, |rates| - 1) == if |rates| == 1 then rates[0] else Product(alpha, rates[|rates| - 1])
  {
    assert Pow(1.0 - alpha, 0) == 1.0;
  }

  // An average stays between the extremes of what it averages.
  lemma {:induction false} BaselineBounded(alpha: real, rates: seq<real>, lo: real, hi: real)
    requires 0.0 < alpha < 1.0 && rates != []
    requires forall i :: 0 <= i < |rates| ==> lo <= rates[i] <= hi
    ensures lo <= Baseline(alpha, rates) <= hi
  {
    var n := |rates| - 1;
    if n > 0 {
      BaselineBounded(alpha, rates[..n], lo, hi);
      BlendBounded(alpha, rates[n], Baseline(alpha, rates[..n]), lo, hi);
    }
  }

  lemma BlendBounded(alpha: real, x: real, y: real, lo: real, hi: real)
    requires 0.0 < alpha < 1.0 && lo <= x <= hi && lo <= y <= hi
    ensures lo <= Blend(alpha, x, y) <= hi
  {
    if x >= y {
      BlendStep(alpha, x, y, x - y);
    } else {
      BlendStep(1.0 - alpha, y, x, y - x);
      assert Blend(alpha, x, y) == Blend(1.0 - alpha, y, x);
    }
  }

  lemma BlendStep(alpha: real, x: real, y: real, d: real)
    requires 0.0 < alpha < 1.0 && d == x - y >= 0.0
    ensures y <= Blend(alpha, x, y) <= x
  {
    hide Blend, Product;
    BlendIsStep(alpha, x, y, d);
    Fraction(alpha, d);
  }

  lemma BlendIsStep(alpha: real, x: real, y: real, d: real)
    requires x == y + d
    ensures Blend(alpha, x, y) == y + Product(alpha, d)
  {
    assert alpha * (y + d) + (1.0 - alpha) * y == y + alpha * d;
  }

  lemma Fraction(alpha: real, d: real)
    requires 0.0 < alpha < 1.0 && d >= 0.0
    ensures 0.0 <= Product(alpha, d) <= d
  {
    ProductNonNegative(alpha, d);
    ProductOrder(d, alpha, 1.0);
  }

  // ---------------------------------------------------------------- what can and cannot alert

  // No alert while a source stays within its usual band: all window rates since the seed in [lo, hi]
  // and hi below the medium multiple of the lowest baseline that band allows.
  lemma SteadyTrafficIsQuiet(cfg: EwmaConfig, log: seq<EwmaEvent>, lo: real, hi: real)
    requires cfg.Sane() && log != []
    requires forall w :: w in Observe(cfg, log).windows ==> lo <= Pps(w) <= hi
    requires hi < cfg.mediumMultiplier * MaxReal(lo, cfg.ppsFloor)
    ensures Verdict(cfg, log) == None
  {
    var windows := Observe(cfg, log).windows;
    if |windows| > 1 {
      var n := |windows| - 1;
      BaselineBounded(cfg.alpha, Rates(windows[..n], Pps), lo, hi);
      assert windows[n] in windows;
      InBand(cfg, BaselinePps(cfg, windows[..n]), windows[n], lo, hi);
    }
  }

  lemma InBand(cfg: EwmaConfig, baseline: real, w: WindowCount, lo: real, hi: real)
    requires cfg.Sane()
    requires lo <= baseline && Pps(w) <= hi < cfg.mediumMultiplier * MaxReal(lo, cfg.ppsFloor)
    ensures Score(cfg, baseline, w) == None
  {
    ProductOrder(cfg.mediumMultiplier, MaxReal(lo, cfg.ppsFloor), MaxReal(baseline, cfg.ppsFloor));
    QuotientBelow(Pps(w), MaxReal(baseline, cfg.ppsFloor), cfg.mediumMultiplier);
  }

  lemma {:induction false} PowPositive(x: real, n: nat)
    requires x > 0.0
    ensures Pow(x, n) > 0.0
  {
    if n > 0 {
      PowPositive(x, n - 1);
    }
  }

  // Windows of one and the same packet rate, whatever their lengths and bytes.
  ghost predicate AtRate(windows: seq<WindowCount>, rate: real) {
    forall i :: 0 <= i < |windows| ==> Pps(windows[i]) == rate
  }

  // After k windows at a constant rate the old baseline has lost all but (1-a)^k of its weight.
  lemma {:induction false} BaselineAfterStep(cfg: EwmaConfig, pre: seq<WindowCount>, step: seq<WindowCount>, rate: real)
    requires pre != [] && AtRate(step, rate)
    ensures BaselinePps(cfg, pre + step) == Blend(Pow(1.0 - cfg.alpha, |step|), BaselinePps(cfg, pre), rate)
  {
    hide BaselinePps, Blend, Pow;
    if step == [] {
      assert pre + step == pre;
      BlendAll(BaselinePps(cfg, pre), rate);
    } else {
      var k := |step| - 1;
      assert pre + step == pre + step[..k] + [step[k]];
      BaselineAfterStep(cfg, pre, step[..k], rate);
      BaselinePush(cfg, pre + step[..k], step[k]);
      assert Pps(step[k]) == rate;
      hide Pps, AtRate;
      PowStep(1.0 - cfg.alpha, k);
      BlendTwice(cfg.alpha, Pow(1.0 - cfg.alpha, k), Pow(1.0 - cfg.alpha, k + 1), BaselinePps(cfg, pre), rate);
    }
  }

  lemma PowStep(x: real, n: nat)
    ensures Pow(x, n + 1) == x * Pow(x, n)
  {
  }

  lemma BlendAll(x: real, y: real)
    ensures forall b :: Blend(Pow(b, 0), x, y) == x
  {
  }

  lemma BlendTwice(alpha: real, p: real, p': real, x: real, y: real)
    requires p' == (1.0 - alpha) * p
    ensures Blend(alpha, y, Blend(p, x, y)) == Blend(p', x, y)
  {
    var b, d := 1.0 - alpha, x - y;
    Distribute(p, x, y, d);
    Distribute(p', x, y, d);
    assert Blend(p, x, y) == y + p * d;
    Distribute(b, Blend(p, x, y), y, p * d);
    Regroup(b, p, p', d, p * d);
  }

  // A step to a constant rate cannot reach a multiple m of the baseline once 1 - (1-a)^k >= 1/m.
  lemma StepFades(cfg: EwmaConfig, pre: seq<WindowCount>, step: seq<WindowCount>, rate: real, m: real)
    requires cfg.Sane() && pre != [] && BaselinePps(cfg, pre) > 0.0 && AtRate(step, rate)
    requires m > 0.0 && m * (1.0 - Pow(1.0 - cfg.alpha, |step|)) >= 1.0
    ensures rate / MaxReal(BaselinePps(cfg, pre + step), cfg.ppsFloor) < m
  {
    hide BaselinePps, Blend, Pow, AtRate;
    var p, base := Pow(1.0 - cfg.alpha, |step|), MaxReal(BaselinePps(cfg, pre + step), cfg.ppsFloor);
    BaselineAfterStep(cfg, pre, step, rate);
    PowPositive(1.0 - cfg.alpha, |step|);
    BlendOutgrown(p, BaselinePps(cfg, pre), rate, m, base);
  }

  lemma BlendOutgrown(p: real, x: real, rate: real, m: real, base: real)
    requires p > 0.0 && x > 0.0 && base > 0.0 && m > 0.0
    requires m * (1.0 - p) >= 1.0 && base >= Blend(p, x, rate)
    ensures rate / base < m
  {
    if rate > 0.0 {
      var q := 1.0 - p;
      var kept := q * rate;
      ProductPositive(p, x);
      ProductPositive(m, base - kept);
      Distribute(m, base, kept, base - kept);
      Regroup(m, q, m * q, rate, kept);
      ProductOrder(rate, 1.0, m * q);
    } else {
      ProductPositive(m, base);
    }
    QuotientBelow(rate, base, m);
  }

  // How many of the windows from index `from` on alert, at High severity or at any.
  function Alerts(cfg: EwmaConfig, windows: seq<WindowCount>, from: nat, highOnly: bool): nat
    requires cfg.Sane()
  {
    if |windows| <= from then 0
    else
      var s := LastScore(cfg, windows);
      Alerts(cfg, windows[..|windows| - 1], from, highOnly)
      + (if s.Some? && (highOnly ==> s.value.severity == High) then 1 else 0)
  }

  // With the default constants a step from a positive baseline to any constant rate, however long
  // it lasts, raises at most three alerts, at most one of them High.
  lemma {:induction false} StepAlertsAtMostThrice(pre: seq<WindowCount>, step: seq<WindowCount>, rate: real)
    requires pre != [] && BaselinePps(DEFAULT_CONFIG, pre) > 0.0 && AtRate(step, rate)
    ensures Alerts(DEFAULT_CONFIG, pre + step, |pre|, false) <= if |step| < 3 then |step| else 3
    ensures Alerts(DEFAULT_CONFIG, pre + step, |pre|, true) <= if |step| < 1 then |step| else 1
  {
    hide BaselinePps;
    if step != [] {
      var k := |step| - 1;
      StepAlertsAtMostThrice(pre, step[..k], rate);
      assert (pre + step)[..|pre| + k] == pre + step[..k];
      assert Pps(step[k]) == rate;
      StepScore(pre, step[..k], step[k], rate);
      hide Score;
    }
  }

  lemma StepScore(pre: seq<WindowCount>, step: seq<WindowCount>, w: WindowCount, rate: real)
    requires pre != [] && BaselinePps(DEFAULT_CONFIG, pre) > 0.0 && AtRate(step, rate) && Pps(w) == rate
    ensures var s := Score(DEFAULT_CONFIG, BaselinePps(DEFAULT_CONFIG, pre + step), w);
      && (|step| >= 1 && s.Some? ==> s.value.severity != High)
      && (|step| >= 3 ==> s == None)
  {
    hide BaselinePps, Pps;
    var cfg := DEFAULT_CONFIG;
    if |step| >= 1 {
      PowDecreases(|step|, 1);
      StepFades(cfg, pre, step, rate, cfg.highMultiplier);
    }
    if |step| >= 3 {
      PowDecreases(|step|, 3);
      StepFades(cfg, pre, step, rate, cfg.mediumMultiplier);
    }
  }

  lemma {:induction false} PowDecreases(k: nat, j: nat)
    requires 1 <= j <= 3 && j <= k
    ensures Pow(0.875, k) <= Pow(0.875, j)
    ensures Pow(0.875, 1) == 0.875 && Pow(0.875, 3) == 0.669921875
  {
    assert Pow(0.875, 0) == 1.0;
    assert Pow(0.875, 2) == 0.765625;
    if k > j {
      PowDecreases(k - 1, j);
      PowPositive(0.875, k - 1);
    }
  }

  // Every baseline met in a run is positive, so a step always starts from one.
  lemma BaselinesArePositive(cfg: EwmaConfig, log: seq<EwmaEvent>)
    requires cfg.Sane() && log != [] && Observe(cfg, log).windows != []
    ensures BaselinePps(cfg, Observe(cfg, log).windows) > 0.0
  {
    var windows := Observe(cfg, log).windows;
    WindowsAreFull(cfg, log);
    forall i | 0 <= i < |windows|
      ensures Rates(windows, Pps)[i] > 0.0
    {
      RatePositive(windows[i]);
    }
    AveragePositive(cfg.alpha, Rates(windows, Pps));
  }

  lemma {:induction false} AveragePositive(alpha: real, rates: seq<real>)
    requires 0.0 < alpha < 1.0 && rates != []
    requires forall i :: 0 <= i < |rates| ==> rates[i] > 0.0
    ensures Baseline(alpha, rates) > 0.0
  {
    var n := |rates| - 1;
    if n > 0 {
      AveragePositive(alpha, rates[..n]);
      BlendPositive(alpha, rates[n], Baseline(alpha, rates[..n]));
    }
  }

  lemma BlendPositive(alpha: real, x: real, y: real)
    requires 0.0 < alpha < 1.0 && x > 0.0 && y > 0.0
    ensures Blend(alpha, x, y) > 0.0
  {
    ProductPositive(alpha, x);
    ProductPositive(1.0 - alpha, y);
  }

  lemma RatePositive(w: WindowCount)
    requires w.packets > 0 && w.age > 0.0
    ensures Pps(w) > 0.0
  {
    assert Pps(w) * w.age == w.packets as real;
  }

  lemma {:induction false} WindowsAreFull(cfg: EwmaConfig, log: seq<EwmaEvent>)
    requires cfg.Sane() && log != []
    ensures forall i :: 0 <= i < |Observe(cfg, log).windows| ==>
      Observe(cfg, log).windows[i].packets > 0 && Observe(cfg, log).windows[i].age >= cfg.minWindowSec
  {
    var n := |log| - 1;
    if n > 0 {
      WindowsAreFull(cfg, log[..n]);
    }
    var r := Before(cfg, log);
    assert r.windows == [] || r == Observe(cfg, log[..n]);
  }

  // ---------------------------------------------------------------- when eviction can be seen

  // Every future that can follow a sweep that evicted the source is answered as if nothing was evicted.
  ghost predicate EvictionUnobservable(cfg: EwmaConfig, log: seq<EwmaEvent>)
    requires cfg.Sane() && log != []
  {
    forall future: seq<EwmaEvent> ::
      future != [] && Chronological(log + future) && future[0].time - Last(log).time > cfg.staleResetSec * 2.0
      ==> Verdict(cfg, log + future) == Verdict(cfg, future)
  }

  ghost predicate Warm(cfg: EwmaConfig, log: seq<EwmaEvent>)
    requires log != []
  {
    Observe(cfg, log).windows != []
  }

  function Shifted(r: Reading, offset: nat): Reading {
    Reading(r.first + offset, r.start, r.windows)
  }

  // Past cold start, a source silent for long enough is read as if its past had never happened.
  lemma {:induction false} WarmPastIsIrrelevant(cfg: EwmaConfig, log: seq<EwmaEvent>, future: seq<EwmaEvent>)
    requires log != [] && Warm(cfg, log)
    requires future != [] && future[0].time - Last(log).time > cfg.staleResetSec
    ensures Before(cfg, log + future) == Shifted(Before(cfg, future), |log|)
    ensures Observe(cfg, log + future) == Shifted(Observe(cfg, future), |log|)
  {
    hide Observe;
    var n := |future| - 1;
    var was, e := log + future[..n], future[n];
    assert log + future == was + [e] && future == future[..n] + [e];
    BeforePush(cfg, was, e);
    BeforePush(cfg, future[..n], e);
    if n == 0 {
      assert was == log;
    } else {
      WarmPastIsIrrelevant(cfg, log, future[..n]);
      assert Last(was) == Last(future[..n]);
    }
    ShiftedWindow(cfg, log, future);
  }

  // A shifted window completes alike.
  lemma ShiftedWindow(cfg: EwmaConfig, log: seq<EwmaEvent>, future: seq<EwmaEvent>)
    requires future != [] && Before(cfg, log + future) == Shifted(Before(cfg, future), |log|)
    ensures Observe(cfg, log + future) == Shifted(Observe(cfg, future), |log|)
  {
    hide Observe, Before, BytesSince;
    ObserveUnfolds(cfg, log + future);
    ObserveUnfolds(cfg, future);
    BytesShift(log, future, Before(cfg, future).first);
    assert Last(log + future) == Last(future);
  }

  lemma {:induction false} BytesShift(log: seq<EwmaEvent>, future: seq<EwmaEvent>, first: nat)
    requires first <= |future|
    ensures BytesSince(log + future, |log| + first) == BytesSince(future, first)
  {
    if first < |future| {
      var n := |future| - 1;
      BytesShift(log, future[..n], first);
      assert (log + future)[..|log| + n] == log + future[..n];
    }
  }

  lemma {:induction false} WindowIsYoung(cfg: EwmaConfig, log: seq<EwmaEvent>)
    requires cfg.Sane() && log != [] && Chronological(log)
    ensures var start := Observe(cfg, log).start; start <= Last(log).time < start + cfg.minWindowSec
  {
    if |log| > 1 {
      WindowIsYoung(cfg, log[..|log| - 1]);
    }
  }

  // Packets that neither complete the window of `log` nor leave a long gap.
  ghost predicate Quiet(cfg: EwmaConfig, log: seq<EwmaEvent>, f: seq<EwmaEvent>)
    requires log != []
  {
    forall i {:trigger TimeBefore(Last(log).time, f, i)} :: 0 <= i < |f| ==>
      && f[i].time < Observe(cfg, log).start + cfg.minWindowSec
      && f[i].time - TimeBefore(Last(log).time, f, i) <= cfg.staleResetSec
  }

  function TimeBefore(t: real, f: seq<EwmaEvent>, i: nat): real
    requires i <= |f|
  {
    if i == 0 then t else f[i - 1].time
  }

  lemma {:induction false} QuietStretch(cfg: EwmaConfig, log: seq<EwmaEvent>, f: seq<EwmaEvent>)
    requires log != [] && Quiet(cfg, log, f)
    ensures Observe(cfg, log + f) == Observe(cfg, log)
  {
    if f == [] {
      assert log + f == log;
    } else {
      var n := |f| - 1;
      var was := log + f[..n];
      assert forall i :: 0 <= i < n ==> f[..n][i] == f[i] && TimeBefore(Last(log).time, f[..n], i) == TimeBefore(Last(log).time, f, i);
      QuietStretch(cfg, log, f[..n]);
      assert log + f == was + [f[n]];
      assert Last(was).time == TimeBefore(Last(log).time, f, n);
      BeforePush(cfg, was, f[n]);
    }
  }

  // Packets from time t on: at most `gap` apart, all but the last before t + span, the last at t + span.
  ghost predicate Smooth(t: real, gap: real, span: real, f: seq<EwmaEvent>) {
    && f != []
    && Chronological(f)
    && t <= f[0].time
    && (forall i {:trigger TimeBefore(t, f, i)} :: 0 <= i < |f| ==> f[i].time - TimeBefore(t, f, i) <= gap)
    && (forall i :: 0 <= i < |f| - 1 ==> f[i].time < t + span)
    && Last(f).time == t + span
  }

  lemma SmoothIsQuiet(cfg: EwmaConfig, log: seq<EwmaEvent>, t: real, f: seq<EwmaEvent>)
    requires log != [] && Last(log).time == t == Observe(cfg, log).start
    requires Smooth(t, cfg.staleResetSec, cfg.minWindowSec, f)
    ensures Quiet(cfg, log, f[..|f| - 1])
  {
    var n := |f| - 1;
    assert forall i :: 0 <= i < n ==> f[..n][i] == f[i] && TimeBefore(t, f[..n], i) == TimeBefore(t, f, i);
  }

  // After a packet that opened a window, such a run completes that window and no other.
  lemma SmoothRunClosesOnce(cfg: EwmaConfig, log: seq<EwmaEvent>, t: real, f: seq<EwmaEvent>)
    requires log != [] && Last(log).time == t == Observe(cfg, log).start && Observe(cfg, log).first <= |log|
    requires Smooth(t, cfg.staleResetSec, cfg.minWindowSec, f)
    ensures var r := Observe(cfg, log);
      && Before(cfg, log + f) == r
      && Observe(cfg, log + f).windows
         == r.windows + [WindowCount(|log + f| - r.first, BytesSince(log + f, r.first), cfg.minWindowSec)]
  {
    hide Observe, BytesSince, Chronological;
    var n := |f| - 1;
    var was := log + f[..n];
    SmoothIsQuiet(cfg, log, t, f);
    QuietStretch(cfg, log, f[..n]);
    assert log + f == was + [f[n]];
    assert Last(was).time == TimeBefore(t, f, n);
    BeforePush(cfg, was, f[n]);
    ObserveUnfolds(cfg, log + f);
  }

  lemma SmoothIsChronological(log: seq<EwmaEvent>, t: real, gap: real, span: real, f: seq<EwmaEvent>)
    requires Chronological(log) && log != [] && Last(log).time == t && Smooth(t, gap, span, f)
    ensures Chronological(log + f)
  {
    assert forall i :: 0 <= i < |log| ==> log[i].time <= t;
    assert forall i :: 0 <= i < |f| ==> t <= f[i].time;
  }

  function Tick(t: real, d: real, i: nat): real {
    t + i as real * d
  }

  // m packets, evenly spaced d apart, after the time t.
  function Burst(t: real, d: real, m: nat): seq<EwmaEvent> {
    seq(m, i requires 0 <= i < m => EwmaEvent(Tick(t, d, i + 1), 0))
  }

  lemma TickOrder(t: real, d: real, i: nat, j: nat)
    requires d > 0.0 && i < j
    ensures Tick(t, d, i) < Tick(t, d, j)
    ensures Tick(t, d, i + 1) == Tick(t, d, i) + d
  {
    ProductPositive((j - i) as real, d);
    Distribute(d, j as real, i as real, (j - i) as real);
  }

  lemma BurstIsSmooth(t: real, d: real, m: nat, gap: real, span: real)
    requires 0.0 < d <= gap && m > 0 && Tick(t, d, m) == t + span
    ensures Smooth(t, gap, span, Burst(t, d, m))
  {
    var f := Burst(t, d, m);
    BurstSteps(t, d, m);
    BurstOrder(t, d, m);
    assert Last(f).time == Tick(t, d, m);
    EvenStepsAreSmooth(t, d, gap, span, f);
  }

  lemma EvenStepsAreSmooth(t: real, d: real, gap: real, span: real, f: seq<EwmaEvent>)
    requires 0.0 < d <= gap && f != [] && Last(f).time == t + span
    requires forall i {:trigger TimeBefore(t, f, i)} :: 0 <= i < |f| ==> f[i].time == TimeBefore(t, f, i) + d
    requires forall i, j :: 0 <= i < j < |f| ==> f[i].time < f[j].time
    ensures Smooth(t, gap, span, f)
  {
    assert f[0].time == TimeBefore(t, f, 0) + d;
  }

  lemma BurstSteps(t: real, d: real, m: nat)
    requires d > 0.0
    ensures var f := Burst(t, d, m); forall i {:trigger TimeBefore(t, f, i)} :: 0 <= i < m ==> f[i].time == TimeBefore(t, f, i) + d
  {
    assert Tick(t, d, 0) == t;
    forall i: nat | i < m
      ensures Tick(t, d, i + 1) == Tick(t, d, i) + d
    {
      TickOrder(t, d, i, i + 1);
    }
  }

  lemma BurstOrder(t: real, d: real, m: nat)
    requires d > 0.0
    ensures var f := Burst(t, d, m); forall i, j :: 0 <= i < j < m ==> f[i].time < f[j].time
  {
    var f := Burst(t, d, m);
    forall i, j | 0 <= i < j < m
      ensures f[i].time < f[j].time
    {
      TickOrder(t, d, i + 1, j + 1);
    }
  }

  // A number of equal steps that makes each short enough and all together many enough.
  lemma EnoughSteps(total: real, step: real, load: real) returns (m: nat, d: real)
    requires total > 0.0 && step > 0.0
    ensures m > 0 && m as real >= load && 0.0 < d <= step && m as real * d == total
  {
    var n := total / step;
    var bound := MaxReal(MaxReal(n, load), 0.0);
    m := bound.Floor + 1;
    d := total / m as real;
    assert n * step == total;
    QuotientBelow(total, m as real, step) by {
      ProductPositive(step, m as real - n);
      Distribute(step, m as real, n, m as real - n);
    }
    assert m as real * d == total;
    assert d <= 0.0 ==> m as real * d <= 0.0;
  }

  // Enough packets in one window score against any baseline.
  lemma LoadScores(cfg: EwmaConfig, baseline: real, w: WindowCount, goal: real)
    requires cfg.Sane() && w.age > 0.0 && goal == cfg.highMultiplier * MaxReal(baseline, cfg.ppsFloor)
    requires w.packets as real >= goal * w.age
    ensures Score(cfg, baseline, w).Some?
  {
    QuotientAtLeast(w.packets as real, w.age, goal);
    QuotientAtLeast(Pps(w), MaxReal(baseline, cfg.ppsFloor), cfg.highMultiplier);
  }

  lemma ScoringRun(cfg: EwmaConfig, baseline: real, t: real) returns (f: seq<EwmaEvent>)
    requires cfg.Sane() && cfg.staleResetSec > 0.0
    ensures Smooth(t, cfg.staleResetSec, cfg.minWindowSec, f)
    ensures forall bytes :: Score(cfg, baseline, WindowCount(|f|, bytes, cfg.minWindowSec)).Some?
  {
    var goal := cfg.highMultiplier * MaxReal(baseline, cfg.ppsFloor);
    var m, d := EnoughSteps(cfg.minWindowSec, cfg.staleResetSec, goal * cfg.minWindowSec);
    f := Burst(t, d, m);
    BurstIsSmooth(t, d, m, cfg.staleResetSec, cfg.minWindowSec);
    forall bytes ensures Score(cfg, baseline, WindowCount(|f|, bytes, cfg.minWindowSec)).Some? {
      LoadScores(cfg, baseline, WindowCount(|f|, bytes, cfg.minWindowSec), goal);
    }
  }

  // A source evicted while still cold can be told from one that was kept: the kept profile is seeded
  // by its old packets and so already scores the window the rebuilt profile only seeds from.
  lemma ColdEvictionShows(cfg: EwmaConfig, log: seq<EwmaEvent>)
    requires cfg.Sane() && cfg.staleResetSec > 0.0 && log != [] && Chronological(log)
    requires !Warm(cfg, log)
    ensures !EvictionUnobservable(cfg, log)
  {
    hide Verdict, Score, Smooth, Observe;
    var t := Last(log).time + cfg.staleResetSec * 2.0 + cfg.minWindowSec;
    var e := EwmaEvent(t, 0);
    var kept := log + [e];
    SeededBy(cfg, log, e);
    assert Chronological(kept);
    var f := ScoringRun(cfg, BaselinePps(cfg, Observe(cfg, kept).windows), t);
    var future := [e] + f;
    assert log + future == kept + f;
    AloneIsUnscored(cfg, e, f);
    KeptIsScored(cfg, kept, f);
    SmoothIsChronological(kept, t, cfg.staleResetSec, cfg.minWindowSec, f);
    assert future[0] == e;
  }

  // A late packet completes the first window of a cold source.
  lemma SeededBy(cfg: EwmaConfig, log: seq<EwmaEvent>, e: EwmaEvent)
    requires cfg.Sane() && log != [] && Chronological(log) && !Warm(cfg, log)
    requires e.time >= Last(log).time + cfg.minWindowSec
    ensures var r := Observe(cfg, log + [e]);
      |r.windows| == 1 && r.first == |log| + 1 && r.start == e.time
  {
    WindowIsYoung(cfg, log);
    BeforePush(cfg, log, e);
  }

  // A rebuilt profile is only seeded by the run.
  lemma AloneIsUnscored(cfg: EwmaConfig, e: EwmaEvent, f: seq<EwmaEvent>)
    requires cfg.Sane() && Smooth(e.time, cfg.staleResetSec, cfg.minWindowSec, f)
    ensures Verdict(cfg, [e] + f) == None
  {
    hide Smooth;
    assert Observe(cfg, [e]) == Reading(0, e.time, []);
    SmoothRunClosesOnce(cfg, [e], e.time, f);
    hide Observe;
  }

  // The kept one scores it.
  lemma KeptIsScored(cfg: EwmaConfig, kept: seq<EwmaEvent>, f: seq<EwmaEvent>)
    requires cfg.Sane() && kept != []
    requires var r := Observe(cfg, kept); |r.windows| == 1 && r.first == |kept| && r.start == Last(kept).time
    requires Smooth(Last(kept).time, cfg.staleResetSec, cfg.minWindowSec, f)
    requires var b := BaselinePps(cfg, Observe(cfg, kept).windows);
      forall bytes :: Score(cfg, b, WindowCount(|f|, bytes, cfg.minWindowSec)).Some?
    ensures Verdict(cfg, kept + f).Some?
  {
    hide Observe, BaselinePps, Score, BytesSince;
    SmoothRunClosesOnce(cfg, kept, Last(kept).time, f);
    assert Last(kept + f) == Last(f);
    assert Observe(cfg, kept + f).windows[..1] == Observe(cfg, kept).windows;
  }

  // With a zero stale interval no source stays warm long enough to be scored.
  lemma NoPatienceNoVerdict(cfg: EwmaConfig, log: seq<EwmaEvent>)
    requires cfg.Sane() && cfg.staleResetSec == 0.0 && log != [] && Chronological(log)
    ensures Verdict(cfg, log) == None
  {
    if |log| > 1 {
      WindowIsYoung(cfg, log[..|log| - 1]);
    }
  }

  // When dropping an idle profile goes unnoticed: exactly when its source is past cold start, or
  // when the stale interval is zero and nothing is ever scored.
  lemma EvictionUnobservableIff(cfg: EwmaConfig, log: seq<EwmaEvent>)
    requires cfg.Sane() && log != [] && Chronological(log)
    ensures EvictionUnobservable(cfg, log) <==> (Warm(cfg, log) || cfg.staleResetSec == 0.0)
  {
    if Warm(cfg, log) {
      forall future: seq<EwmaEvent> | future != [] && future[0].time - Last(log).time > cfg.staleResetSec * 2.0
        ensures Verdict(cfg, log + future) == Verdict(cfg, future)
      {
        WarmPastIsIrrelevant(cfg, log, future);
      }
    } else if cfg.staleResetSec == 0.0 {
      forall future: seq<EwmaEvent> | future != [] && Chronological(log + future)
        ensures Verdict(cfg, log + future) == Verdict(cfg, future)
      {
        assert forall i :: 0 <= i < |future| ==> future[i] == (log + future)[|log| + i];
        NoPatienceNoVerdict(cfg, log + future);
        NoPatienceNoVerdict(cfg, future);
      }
    } else {
      ColdEvictionShows(cfg, log);
    }
  }
}
