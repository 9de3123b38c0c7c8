/** Volume alerts over a source's log: how many packets are answered with an alert. */
module EwmaRuns {
  import opened NetTypes
  import opened EwmaDetection

  // An answer that counts: any alert, or a High one.
  predicate Counts(r: Option<EwmaResult>, highOnly: bool) {
    r.Some? && (highOnly ==> r.value.severity == High)
  }

  // How many packets from index m on were answered so.
  function Answered(cfg: EwmaConfig, log: seq<EwmaEvent>, m: nat, highOnly: bool): nat
    requires cfg.Sane()
  {
    if |log| <= m then 0
    else Answered(cfg, log[..|log| - 1], m, highOnly) + (if Counts(Verdict(cfg, log), highOnly) then 1 else 0)
  }

  // No packet from index m on comes so late that the profile starts from scratch.
  ghost predicate Unbroken(cfg: EwmaConfig, log: seq<EwmaEvent>, m: nat)
    requires m > 0
  {
    |log| > m ==>
      Unbroken(cfg, log[..|log| - 1], m) && Last(log).time - log[|log| - 2].time <= cfg.staleResetSec
  }

  // The windows completed since the baseline was seeded.
  function Windows(cfg: EwmaConfig, log: seq<EwmaEvent>): seq<WindowCount>
    requires log != []
  {
    Observe(cfg, log).windows
  }

  // One packet without a break completes one window more, or none, and is answered accordingly.
  lemma WindowsPush(cfg: EwmaConfig, log: seq<EwmaEvent>)
    requires cfg.Sane() && |log| > 1 && Last(log).time - log[|log| - 2].time <= cfg.staleResetSec
    ensures var was, now := Windows(cfg, log[..|log| - 1]), Windows(cfg, log);
      || (now == was && Verdict(cfg, log) == None)
      || (|now| == |was| + 1 && now[..|was|] == was && Verdict(cfg, log) == LastScore(cfg, now))
  {
    hide Observe, LastScore, BytesSince;
    var was := log[..|log| - 1];
    assert log == was + [Last(log)];
    BeforePush(cfg, was, Last(log));
    ObserveUnfolds(cfg, log);
  }

  // Without a break, counting answers is counting alerts over the windows.
  lemma {:induction false} AnswersAreAlerts(cfg: EwmaConfig, log: seq<EwmaEvent>, m: nat, highOnly: bool)
    requires cfg.Sane() && 0 < m <= |log| && Unbroken(cfg, log, m)
    ensures var pre, all := Windows(cfg, log[..m]), Windows(cfg, log);
      && |pre| <= |all| && all[..|pre|] == pre
      && Answered(cfg, log, m, highOnly) == Alerts(cfg, all, |pre|, highOnly)
    decreases |log|
  {
    hide Windows, Verdict, LastScore;
    if |log| == m {
      assert log[..m] == log;
    } else {
      var was := log[..|log| - 1];
      assert was[..m] == log[..m];
      AnswersAreAlerts(cfg, was, m, highOnly);
      WindowsPush(cfg, log);
      var pre := Windows(cfg, log[..m]);
      AlertsPush(cfg, Windows(cfg, was), Windows(cfg, log), |pre|, highOnly);
    }
  }

  lemma AlertsPush(cfg: EwmaConfig, was: seq<WindowCount>, now: seq<WindowCount>, from: nat, highOnly: bool)
    requires cfg.Sane() && from <= |was| <= |now| && now[..|was|] == was
    ensures now[..from] == was[..from]
    ensures |now| == |was| + 1 ==>
      (Alerts(cfg, now, from, highOnly) == Alerts(cfg, was, from, highOnly) + (if Counts(LastScore(cfg, now), highOnly) then 1 else 0))
  {
    hide LastScore;
    assert now[..from] == now[..|was|][..from];
  }

  // With the default constants, from the moment a seeded source steps to any constant window rate, at most
  // three of its packets are answered with an alert, at most one of them High, as long as it never falls
  // silent for longer than the stale interval.
  lemma StepAnswersAtMostThrice(log: seq<EwmaEvent>, m: nat, rate: real)
    requires 0 < m <= |log| && Windows(DEFAULT_CONFIG, log[..m]) != [] && Unbroken(DEFAULT_CONFIG, log, m)
    requires var pre, all := |Windows(DEFAULT_CONFIG, log[..m])|, Windows(DEFAULT_CONFIG, log);
      pre <= |all| ==> AtRate(all[pre..], rate)
    ensures Answered(DEFAULT_CONFIG, log, m, false) <= 3
    ensures Answered(DEFAULT_CONFIG, log, m, true) <= 1
  {
    hide Answered, Alerts, AtRate, BaselinePps;
    var cfg := DEFAULT_CONFIG;
    AnswersAreAlerts(cfg, log, m, false);
    AnswersAreAlerts(cfg, log, m, true);
    BaselinesArePositive(cfg, log[..m]);
    var pre, all := Windows(cfg, log[..m]), Windows(cfg, log);
    hide Windows;
    assert all == pre + all[|pre|..];
    StepAlertsAtMostThrice(pre, all[|pre|..], rate);
  }

  // ---------------------------------------------------------------- every packet in one window

  // Where the log that counts begins: with the last packet that came to a seeded profile after more than the
  // stale interval, or with the first of all.
  function Since(cfg: EwmaConfig, log: seq<EwmaEvent>): (s: nat)
    requires log != []
    ensures s < |log|
  {
    var n := |log| - 1;
    if n == 0 then 0
    else if Windows(cfg, log[..n]) != [] && log[n].time - log[n - 1].time > cfg.staleResetSec then n
    else Since(cfg, log[..n])
  }

  function PacketsIn(windows: seq<WindowCount>): nat {
    if windows == [] then 0 else PacketsIn(windows[..|windows| - 1]) + windows[|windows| - 1].packets
  }

  function BytesIn(windows: seq<WindowCount>): nat {
    if windows == [] then 0 else BytesIn(windows[..|windows| - 1]) + windows[|windows| - 1].bytes
  }

  function AgesOf(windows: seq<WindowCount>): real {
    if windows == [] then 0.0 else AgesOf(windows[..|windows| - 1]) + windows[|windows| - 1].age
  }

  // The reading r of a log that counts from s on splits it: packets, bytes and time.
  ghost predicate Splits(log: seq<EwmaEvent>, r: Reading, s: nat)
    requires r.first <= |log| && s < |log|
  {
    && PacketsIn(r.windows) + (|log| - r.first) == |log| - s
    && BytesIn(r.windows) + BytesSince(log, r.first) == BytesSince(log, s)
    && log[s].time + AgesOf(r.windows) == r.start
  }

  // The completed windows and the open one hold every packet and byte since then exactly once, and follow one
  // another without a gap.
  lemma {:induction false} WindowsSplitTheLog(cfg: EwmaConfig, log: seq<EwmaEvent>)
    requires log != []
    ensures Splits(log, Observe(cfg, log), Since(cfg, log))
  {
    hide Observe, Splits, BytesSince;
    var n := |log| - 1;
    ObserveUnfolds(cfg, log);
    assert log == log[..n] + [log[n]];
    BeforePush(cfg, log[..n], log[n]);
    if n == 0 || Since(cfg, log) == n {
      assert Before(cfg, log) == Reading(n, log[n].time, []);
      FreshSplits(log, n);
    } else {
      WindowsSplitTheLog(cfg, log[..n]);
      assert Before(cfg, log) == Observe(cfg, log[..n]);
      NextSplits(log, Before(cfg, log), Since(cfg, log));
    }
    ClosingSplits(log, Before(cfg, log), Since(cfg, log));
  }

  lemma FreshSplits(log: seq<EwmaEvent>, s: nat)
    requires s < |log|
    ensures Splits(log, Reading(s, log[s].time, []), s)
  {
  }

  lemma NextSplits(log: seq<EwmaEvent>, r: Reading, s: nat)
    requires |log| > 1 && r.first <= |log| - 1 && s < |log| - 1 && Splits(log[..|log| - 1], r, s)
    ensures Splits(log, r, s)
  {
    var was := log[..|log| - 1];
    assert log == was + [Last(log)];
    BytesPush(was, r.first, Last(log));
    BytesPush(was, s, Last(log));
  }

  lemma ClosingSplits(log: seq<EwmaEvent>, r: Reading, s: nat)
    requires r.first <= |log| && s < |log| && Splits(log, r, s)
    ensures var w := WindowCount(|log| - r.first, BytesSince(log, r.first), Last(log).time - r.start);
      Splits(log, Reading(|log|, Last(log).time, r.windows + [w]), s)
  {
    var w := WindowCount(|log| - r.first, BytesSince(log, r.first), Last(log).time - r.start);
    assert (r.windows + [w])[..|r.windows|] == r.windows;
    assert BytesSince(log, |log|) == 0;
  }
}
