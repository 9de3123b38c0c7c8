/** Whole runs of the SYN-flood detector: what its sweeps do to the guarantee that a flood is detected. */
module SynFloodRuns {
  import opened NetTypes
  import opened RealProducts
  import opened SynFloodDetection

  // What happens to one source: its packets, and sweeps of the whole table.
  datatype Call = PacketCall(event: SynEvent) | SweepCall(now: real)
  {
    function Time(): real {
      match this case PacketCall(e) => e.time case SweepCall(now) => now
    }
  }

  ghost predicate InOrder(from: real, calls: seq<Call>) {
    && (forall i :: 0 <= i < |calls| ==> from <= calls[i].Time())
    && (forall i, j :: 0 <= i <= j < |calls| ==> calls[i].Time() <= calls[j].Time())
  }

  // A sweep ends a log whose open window is ten lengths old.
  function Swept(w: real, log: seq<SynEvent>, now: real): seq<SynEvent> {
    if log != [] && now - After(w, log).start > w * 10.0 then [] else log
  }

  // What the live profile of the source has counted once the calls have been made; nothing without one.
  function LogAfter(w: real, log0: seq<SynEvent>, calls: seq<Call>): seq<SynEvent> {
    if calls == [] then log0
    else
      var pre := LogAfter(w, log0, calls[..|calls| - 1]);
      match calls[|calls| - 1]
      case PacketCall(e) => pre + [e]
      case SweepCall(now) => Swept(w, pre, now)
  }

  // The answer owed to a packet: the verdict on what its profile has counted then.
  function AnswerTo(cfg: SynFloodConfig, log0: seq<SynEvent>, calls: seq<Call>, i: nat): Option<SynFloodResult>
    requires cfg.Sane() && i < |calls| && calls[i].PacketCall?
  {
    Verdict(cfg, LogAfter(cfg.windowSec, log0, calls[..i]) + [calls[i].event])
  }

  function Answers(cfg: SynFloodConfig, log0: seq<SynEvent>, calls: seq<Call>): seq<Option<SynFloodResult>>
    requires cfg.Sane()
  {
    if calls == [] then []
    else
      var n := |calls| - 1;
      Answers(cfg, log0, calls[..n]) + (if calls[n].PacketCall? then [AnswerTo(cfg, log0, calls, n)] else [])
  }

  lemma LogAfterPush(w: real, log0: seq<SynEvent>, calls: seq<Call>, c: Call)
    ensures LogAfter(w, log0, calls + [c]) ==
      var pre := LogAfter(w, log0, calls); if c.PacketCall? then pre + [c.event] else Swept(w, pre, c.now)
  {
    assert (calls + [c])[..|calls|] == calls;
  }

  lemma StartOf(w: real, profile: SynProfile, log: seq<SynEvent>, clock: real)
    requires Tracks(w, profile, log, clock)
    ensures log != [] && profile.windowStart == After(w, log).start
  {
  }

  // The detector gives one source exactly those answers, over every run in order of time.
  method MakeCalls(d: SynFloodDetector, src: string, calls: seq<Call>) returns (answers: seq<Option<SynFloodResult>>)
    requires d.Valid() && InOrder(d.clock, calls)
    modifies d
    ensures d.Valid() && d.LogOf(src) == LogAfter(d.cfg.windowSec, old(d.LogOf(src)), calls)
    ensures answers == Answers(d.cfg, old(d.LogOf(src)), calls)
  {
    hide Verdict, Tracks, After, ProfileFor;
    answers := [];
    ghost var log0, w := d.LogOf(src), d.cfg.windowSec;
    for i := 0 to |calls|
      invariant d.Valid() && (forall k :: i <= k < |calls| ==> d.clock <= calls[k].Time())
      invariant d.LogOf(src) == LogAfter(w, log0, calls[..i]) && answers == Answers(d.cfg, log0, calls[..i])
    {
      var before := calls[..i];
      assert calls[..i + 1] == before + [calls[i]] && calls[..i + 1][..i] == before;
      LogAfterPush(w, log0, before, calls[i]);
      match calls[i]
      case PacketCall(e) =>
        var r := d.Inspect(src, e.flags, e.time);
        answers := answers + [r];
      case SweepCall(now) =>
        if src in d.profiles {
          StartOf(w, d.profiles[src], d.logs[src], d.clock);
        }
        d.EvictStale(now);
    }
    assert calls[..|calls|] == calls;
  }

  // ---------------------------------------------------------------- floods under sweeps

  function LastPacketTime(calls: seq<Call>): real
    requires calls != []
  {
    var c := calls[|calls| - 1];
    if c.PacketCall? || |calls| == 1 then c.Time() else LastPacketTime(calls[..|calls| - 1])
  }

  // A flood with sweeps anywhere in it: SYN-only packets from the first call on, in order of time, and no
  // call later than 1 / rate after the packet before it.
  ghost predicate FloodRun(rate: real, calls: seq<Call>)
    requires rate > 0.0
  {
    && calls != []
    && (var c := calls[|calls| - 1];
        && (c.PacketCall? ==> SynOnly(c.event.flags))
        && (if |calls| == 1 then c.PacketCall?
            else
              && FloodRun(rate, calls[..|calls| - 1])
              && calls[|calls| - 2].Time() <= c.Time() <= LastPacketTime(calls[..|calls| - 1]) + 1.0 / rate))
  }

  function Packets(calls: seq<Call>): seq<SynEvent> {
    if calls == [] then []
    else
      var c := calls[|calls| - 1];
      Packets(calls[..|calls| - 1]) + (if c.PacketCall? then [c.event] else [])
  }

  // The packets of a flood with sweeps are a flood.
  lemma {:induction false} PacketsFlood(rate: real, calls: seq<Call>)
    requires rate > 0.0 && FloodRun(rate, calls)
    ensures var p := Packets(calls);
      && p != [] && FloodFrom(rate, p, 0) && Chronological(p)
      && p[0].time == calls[0].Time() && Last(p).time == LastPacketTime(calls) <= calls[|calls| - 1].Time()
  {
    hide SynOnly;
    var n := |calls| - 1;
    if n == 0 {
      assert Packets(calls[..0]) == [];
      assert Packets(calls) == [calls[0].event];
    } else {
      PacketsFlood(rate, calls[..n]);
      if calls[n].PacketCall? {
        FloodPush(rate, Packets(calls[..n]), calls[n].event);
      } else {
        assert Packets(calls) == Packets(calls[..n]);
      }
    }
  }

  lemma FloodPush(rate: real, p: seq<SynEvent>, e: SynEvent)
    requires rate > 0.0 && p != [] && FloodFrom(rate, p, 0) && Chronological(p)
    requires SynOnly(e.flags) && Last(p).time <= e.time <= Last(p).time + 1.0 / rate
    ensures FloodFrom(rate, p + [e], 0) && Chronological(p + [e])
  {
    hide SynOnly;
    var q := p + [e];
    assert forall i :: 0 <= i < |p| ==> q[i] == p[i] && p[i].time <= Last(p).time;
    forall i, j | 0 <= i && j == i + 1 && j < |q|
      ensures CloseTogether(rate, q[i].time, q[j].time)
    {
      if j < |p| {
        assert CloseTogether(rate, p[i].time, p[j].time);
      }
    }
  }

  lemma NineWindows(w: real, rate: real)
    requires w > 0.0 && rate > 0.0
    ensures 9.0 * w * rate >= 1.0 <==> 1.0 / rate <= 9.0 * w
  {
    QuotientTimes(1.0, rate);
    var p, b := 1.0 / rate, 9.0 * w;
    if p <= b {
      ProductOrder(rate, p, b);
    } else {
      ProductPositive(rate, p - b);
      Distribute(rate, p, b, p - b);
    }
  }

  // No sweep interrupts a flood whose gaps are at most nine windows.
  lemma {:induction false} FloodSurvivesSweeps(w: real, rate: real, log0: seq<SynEvent>, calls: seq<Call>)
    requires w > 0.0 && rate > 0.0 && 1.0 / rate <= 9.0 * w && FloodRun(rate, calls)
    ensures LogAfter(w, log0, calls) == log0 + Packets(calls)
  {
    hide After, SynOnly;
    var n := |calls| - 1;
    if n == 0 {
      assert LogAfter(w, log0, calls[..0]) == log0 && Packets(calls[..0]) == [];
    } else {
      FloodSurvivesSweeps(w, rate, log0, calls[..n]);
      PacketsFlood(rate, calls[..n]);
      hide FloodFrom, Chronological;
      var pre := log0 + Packets(calls[..n]);
      WindowIsYoung(w, pre);
      assert Last(pre) == Last(Packets(calls[..n]));
      if calls[n].PacketCall? {
        assert pre + [calls[n].event] == log0 + Packets(calls);
      } else {
        assert Packets(calls) == Packets(calls[..n]);
      }
    }
  }

  // Some packet less than a window before the last call was answered with a result.
  ghost predicate Detected(cfg: SynFloodConfig, log0: seq<SynEvent>, calls: seq<Call>)
    requires cfg.Sane() && calls != []
  {
    exists i: nat :: i < |calls| && calls[i].PacketCall?
      && calls[|calls| - 1].Time() - calls[i].Time() < cfg.windowSec && AnswerTo(cfg, log0, calls, i).Some?
  }

  // A past that can precede the run, and a flood of two window lengths and a gap that ends in a packet.
  ghost predicate LongFlood(cfg: SynFloodConfig, log0: seq<SynEvent>, calls: seq<Call>)
    requires cfg.Sane()
  {
    && FloodRun(cfg.synRatePps, calls) && calls[|calls| - 1].PacketCall?
    && Chronological(log0) && (log0 != [] ==> Last(log0).time <= calls[0].Time())
    && calls[|calls| - 1].Time() - calls[0].Time() >= 2.0 * cfg.windowSec + 1.0 / cfg.synRatePps
  }

  // Whatever a source did before and wherever the sweeps fall, a long flood is detected.
  ghost predicate DetectsUnderSweeps(cfg: SynFloodConfig)
    requires cfg.Sane()
  {
    forall log0, calls :: LongFlood(cfg, log0, calls) ==> Detected(cfg, log0, calls)
  }

  // The k-th packet of the run, and the log its answer is the verdict on.
  lemma {:induction false} PacketAt(w: real, rate: real, log0: seq<SynEvent>, calls: seq<Call>, k: nat) returns (i: nat)
    requires w > 0.0 && rate > 0.0 && 1.0 / rate <= 9.0 * w && FloodRun(rate, calls) && k < |Packets(calls)|
    ensures i < |calls| && calls[i].PacketCall? && calls[i].event == Packets(calls)[k]
    ensures LogAfter(w, log0, calls[..i]) + [calls[i].event] == log0 + Packets(calls)[..k + 1]
    decreases |calls|
  {
    hide FloodRun, LogAfter;
    var n := |calls| - 1;
    var pre := Packets(calls[..n]);
    if k < |pre| {
      EarlierRun(rate, calls);
      i := PacketAt(w, rate, log0, calls[..n], k);
      assert calls[..n][..i] == calls[..i];
      assert Packets(calls)[..k + 1] == pre[..k + 1];
    } else {
      i := n;
      assert Packets(calls)[..k + 1] == pre + [calls[n].event];
      LogBefore(w, rate, log0, calls);
    }
  }

  lemma EarlierRun(rate: real, calls: seq<Call>)
    requires rate > 0.0 && FloodRun(rate, calls) && Packets(calls[..|calls| - 1]) != []
    ensures FloodRun(rate, calls[..|calls| - 1])
  {
    assert calls[..0] == [];
  }

  lemma LogBefore(w: real, rate: real, log0: seq<SynEvent>, calls: seq<Call>)
    requires w > 0.0 && rate > 0.0 && 1.0 / rate <= 9.0 * w && FloodRun(rate, calls)
    ensures LogAfter(w, log0, calls[..|calls| - 1]) == log0 + Packets(calls[..|calls| - 1])
  {
    if |calls| == 1 {
      assert calls[..0] == [] && LogAfter(w, log0, []) == log0 && Packets([]) == [];
    } else {
      FloodSurvivesSweeps(w, rate, log0, calls[..|calls| - 1]);
    }
  }

  lemma LongFloodIsDetected(cfg: SynFloodConfig, log0: seq<SynEvent>, calls: seq<Call>)
    requires cfg.Sane() && cfg.synRatio <= 1.0 && 1.0 / cfg.synRatePps <= 9.0 * cfg.windowSec
    requires LongFlood(cfg, log0, calls)
    ensures Detected(cfg, log0, calls)
  {
    hide Verdict, LogAfter, LongFlood, Packets, FloodFrom, Chronological;
    var w, p := cfg.windowSec, Packets(calls);
    var log, f := log0 + p, |log0|;
    LongFloodIsLogged(cfg, log0, calls);
    FloodAfterAnythingIsDetected(cfg, log, f);
    var k :| f < k <= |log| && Last(log).time - log[k - 1].time < w && Verdict(cfg, log[..k]).Some?;
    var i := PacketAt(w, cfg.synRatePps, log0, calls, k - f - 1);
    assert log[..k] == log0 + p[..k - f] && log[k - 1] == p[k - f - 1];
    AnswerIs(cfg, log0, calls, i, log[..k]);
  }

  lemma AnswerIs(cfg: SynFloodConfig, log0: seq<SynEvent>, calls: seq<Call>, i: nat, log: seq<SynEvent>)
    requires cfg.Sane() && i < |calls| && calls[i].PacketCall?
    requires LogAfter(cfg.windowSec, log0, calls[..i]) + [calls[i].event] == log
    ensures log != [] && AnswerTo(cfg, log0, calls, i) == Verdict(cfg, log)
  {
    hide LogAfter, Verdict;
  }

  // Past and flood make one log that ends in a flood, as long as the run.
  lemma LongFloodIsLogged(cfg: SynFloodConfig, log0: seq<SynEvent>, calls: seq<Call>)
    requires cfg.Sane() && LongFlood(cfg, log0, calls)
    ensures calls != [] && FloodRun(cfg.synRatePps, calls) && Packets(calls) != []
    ensures var log := log0 + Packets(calls);
      && FloodFrom(cfg.synRatePps, log, |log0|) && Chronological(log)
      && Last(log).time == calls[|calls| - 1].Time()
      && Last(log).time - log[|log0|].time >= 2.0 * cfg.windowSec + 1.0 / cfg.synRatePps
  {
    var p := Packets(calls);
    PacketsFlood(cfg.synRatePps, calls);
    LastIsPacket(calls);
    hide SynOnly, FloodRun, Packets, FloodFrom, Chronological, LastPacketTime;
    FloodBehind(cfg.synRatePps, log0, p);
    assert Last(log0 + p) == Last(p) && (log0 + p)[|log0|] == p[0];
  }

  lemma LastIsPacket(calls: seq<Call>)
    requires calls != [] && calls[|calls| - 1].PacketCall?
    ensures LastPacketTime(calls) == calls[|calls| - 1].Time()
  {
  }

  lemma FloodBehind(rate: real, log0: seq<SynEvent>, p: seq<SynEvent>)
    requires rate > 0.0 && p != [] && FloodFrom(rate, p, 0) && Chronological(p) && Chronological(log0)
    requires log0 != [] ==> Last(log0).time <= p[0].time
    ensures FloodFrom(rate, log0 + p, |log0|) && Chronological(log0 + p)
  {
    hide SynOnly;
    var log, f := log0 + p, |log0|;
    assert forall i :: 0 <= i < f ==> log[i] == log0[i] && log0[i].time <= Last(log0).time;
    assert forall i :: f <= i < |log| ==> log[i] == p[i - f] && p[0].time <= p[i - f].time;
    forall i, j | f <= i && j == i + 1 && j < |log|
      ensures CloseTogether(rate, log[i].time, log[j].time)
    {
      assert CloseTogether(rate, p[i - f].time, p[j - f].time);
    }
  }

  // ---------------------------------------------------------------- floods that sweeps hide

  function Syn(t: real): Call {
    PacketCall(SynEvent(t, TCP_FLAG_SYN))
  }

  // Two SYNs less than a window apart; then a pause of 1 / rate, before the end of which a sweep finds their
  // window more than ten lengths old. And the same again.
  function HiddenFlood(d: real, c: real): seq<Call> {
    [Syn(0.0), Syn(d), SweepCall(c), Syn(c), Syn(c + d), SweepCall(c + c), Syn(c + c)]
  }

  lemma PairIsUnanswered(cfg: SynFloodConfig, t: real, d: real)
    requires cfg.Sane() && 0.0 < d < cfg.windowSec
    ensures var a, b := SynEvent(t, TCP_FLAG_SYN), SynEvent(t + d, TCP_FLAG_SYN);
      && Verdict(cfg, [] + [a]) == None && Verdict(cfg, [a] + [b]) == None
      && After(cfg.windowSec, [a] + [b]).start == t
  {
    var a, b := SynEvent(t, TCP_FLAG_SYN), SynEvent(t + d, TCP_FLAG_SYN);
    assert [] + [a] == [a] && ([a] + [b])[..1] == [a];
    assert After(cfg.windowSec, [a]) == Reading(0, t);
  }

  // After any calls that leave no profile, such a pair is unanswered and swept away.
  lemma PairIsSwept(cfg: SynFloodConfig, calls: seq<Call>, t: real, d: real, c: real)
    requires cfg.Sane() && 0.0 < d < cfg.windowSec && c > cfg.windowSec * 10.0
    requires LogAfter(cfg.windowSec, [], calls) == []
    ensures var more := calls + [Syn(t)] + [Syn(t + d)];
      && LogAfter(cfg.windowSec, [], more + [SweepCall(t + c)]) == []
      && Verdict(cfg, LogAfter(cfg.windowSec, [], calls) + [Syn(t).event]) == None
      && Verdict(cfg, LogAfter(cfg.windowSec, [], calls + [Syn(t)]) + [Syn(t + d).event]) == None
  {
    hide LogAfter, Verdict, After;
    var w := cfg.windowSec;
    PairIsUnanswered(cfg, t, d);
    var first := calls + [Syn(t)];
    var more := first + [Syn(t + d)];
    LogAfterPush(w, [], calls, Syn(t));
    LogAfterPush(w, [], first, Syn(t + d));
    LogAfterPush(w, [], more, SweepCall(t + c));
    assert [] + [Syn(t).event] == [Syn(t).event];
  }

  lemma HiddenFloodIsUnanswered(cfg: SynFloodConfig, d: real, c: real)
    requires cfg.Sane() && 0.0 < d < cfg.windowSec && c > cfg.windowSec * 10.0
    ensures !Detected(cfg, [], HiddenFlood(d, c))
  {
    hide LogAfter, Verdict;
    var calls := HiddenFlood(d, c);
    HiddenPrefixes(d, c);
    assert LogAfter(cfg.windowSec, [], []) == [] by {
      NothingYet(cfg.windowSec);
    }
    PairIsSwept(cfg, [], 0.0, d, c);
    PairIsSwept(cfg, calls[..3], c, d, c);
    PairIsUnanswered(cfg, c + c, d);
    forall i: nat | i < |calls| && calls[i].PacketCall?
      ensures AnswerTo(cfg, [], calls, i) == None
    {
      assert i == 0 || i == 1 || i == 3 || i == 4 || i == 6;
    }
  }

  lemma NothingYet(w: real)
    ensures LogAfter(w, [], []) == []
  {
  }

  lemma HiddenPrefixes(d: real, c: real)
    ensures var calls := HiddenFlood(d, c);
      && calls[..0] == [] && calls[..1] == [] + [Syn(0.0)]
      && calls[..3] == [] + [Syn(0.0)] + [Syn(0.0 + d)] + [SweepCall(0.0 + c)]
      && calls[..4] == calls[..3] + [Syn(c)]
      && calls[..6] == calls[..3] + [Syn(c)] + [Syn(c + d)] + [SweepCall(c + c)]
  {
  }

  lemma HiddenFloodIsLong(cfg: SynFloodConfig, d: real, c: real)
    requires cfg.Sane() && 0.0 < d < cfg.windowSec && c == d + 1.0 / cfg.synRatePps
    requires 1.0 / cfg.synRatePps > 9.0 * cfg.windowSec
    ensures LongFlood(cfg, [], HiddenFlood(d, c))
  {
    hide SynOnly;
    var rate, calls := cfg.synRatePps, HiddenFlood(d, c);
    SynIsSynOnly();
    assert calls[..1] == [Syn(0.0)];
    assert FloodRun(rate, calls[..1]);
    forall n | 1 <= n < 7
      ensures calls[..n + 1][..n] == calls[..n]
    {
    }
    assert LastPacketTime(calls[..1]) == 0.0 && LastPacketTime(calls[..2]) == d && LastPacketTime(calls[..3]) == d;
    assert LastPacketTime(calls[..4]) == c && LastPacketTime(calls[..5]) == c + d && LastPacketTime(calls[..6]) == c + d;
    assert FloodRun(rate, calls[..2]);
    assert FloodRun(rate, calls[..3]);
    assert FloodRun(rate, calls[..4]);
    assert FloodRun(rate, calls[..5]);
    assert FloodRun(rate, calls[..6]);
    assert calls[..7] == calls;
  }

  lemma SynIsSynOnly()
    ensures SynOnly(TCP_FLAG_SYN)
  {
  }

  // Exactly how fast a flood has to be for its detection to survive sweeps made at any time: one packet in
  // nine window lengths, or more.
  lemma DetectsUnderSweepsIff(cfg: SynFloodConfig)
    requires cfg.Sane() && cfg.synRatio <= 1.0
    ensures DetectsUnderSweeps(cfg) <==> 9.0 * cfg.windowSec * cfg.synRatePps >= 1.0
  {
    hide LongFlood, Detected;
    var w, gap := cfg.windowSec, 1.0 / cfg.synRatePps;
    NineWindows(w, cfg.synRatePps);
    if gap <= 9.0 * w {
      forall log0, calls | LongFlood(cfg, log0, calls)
        ensures calls != [] && Detected(cfg, log0, calls)
      {
        LongIsNotEmpty(cfg, log0, calls);
        LongFloodIsDetected(cfg, log0, calls);
      }
    } else {
      var d := MaxReal(w / 2.0, w - (gap - 9.0 * w) / 2.0);
      HiddenFloodIsLong(cfg, d, d + gap);
      HiddenFloodIsUnanswered(cfg, d, d + gap);
    }
  }

  lemma LongIsNotEmpty(cfg: SynFloodConfig, log0: seq<SynEvent>, calls: seq<Call>)
    requires cfg.Sane() && LongFlood(cfg, log0, calls)
    ensures calls != []
  {
  }
}
