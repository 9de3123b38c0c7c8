/** Whole runs of the port-scan detector: sweeps inserted anywhere change none of its answers. */
module PortScanRuns {
  import opened NetTypes
  import opened PortScanDetection

  datatype Call = InspectCall(src: string, event: ScanEvent) | EvictCall(now: real)
  {
    function Time(): real {
      match this case InspectCall(_, e) => e.time case EvictCall(now) => now
    }
  }

  ghost predicate InOrder(from: real, calls: seq<Call>) {
    && (forall i :: 0 <= i < |calls| ==> from <= calls[i].Time())
    && (forall i, j :: 0 <= i <= j < |calls| ==> calls[i].Time() <= calls[j].Time())
  }

  type Logs = map<string, seq<ScanEvent>>

  function LogIn(logs: Logs, src: string): seq<ScanEvent> {
    if src in logs then logs[src] else []
  }

  // What every source has sent once the calls have been made.
  function LogsAfter(logs: Logs, calls: seq<Call>): Logs {
    if calls == [] then logs
    else
      var pre := LogsAfter(logs, calls[..|calls| - 1]);
      match calls[|calls| - 1]
      case InspectCall(src, e) => pre[src := LogIn(pre, src) + [e]]
      case EvictCall(_) => pre
  }

  // The answers owed to the calls: the verdict on its source's log for each inspection.
  function Answers(cfg: PortScanConfig, logs: Logs, calls: seq<Call>): seq<Option<PortScanResult>> {
    if calls == [] then []
    else
      var n := |calls| - 1;
      var pre := Answers(cfg, logs, calls[..n]);
      match calls[n]
      case InspectCall(src, e) => pre + [Verdict(cfg, LogIn(LogsAfter(logs, calls[..n]), src) + [e])]
      case EvictCall(_) => pre
  }

  function Inspections(calls: seq<Call>): seq<Call> {
    if calls == [] then []
    else
      var pre := Inspections(calls[..|calls| - 1]);
      if calls[|calls| - 1].InspectCall? then pre + [calls[|calls| - 1]] else pre
  }

  // Neither logs nor answers owed depend on the sweeps.
  lemma {:induction false} SweepsDoNotMatter(cfg: PortScanConfig, logs: Logs, calls: seq<Call>)
    ensures LogsAfter(logs, calls) == LogsAfter(logs, Inspections(calls))
    ensures Answers(cfg, logs, calls) == Answers(cfg, logs, Inspections(calls))
  {
    hide Verdict;
    if calls != [] {
      var n := |calls| - 1;
      SweepsDoNotMatter(cfg, logs, calls[..n]);
      var pre := Inspections(calls[..n]);
      if calls[n].InspectCall? {
        assert (pre + [calls[n]])[..|pre|] == pre;
      }
    }
  }

  // A detector with a threshold of at least two, or a ratio gate above one, gives exactly those answers
  // over every run in order of time, however many sweeps the run makes and whenever it makes them.
  method MakeCalls(d: PortScanDetector, calls: seq<Call>) returns (answers: seq<Option<PortScanResult>>)
    requires d.Valid() && InOrder(d.clock, calls)
    requires d.cfg.distinctPortThreshold >= 2 || d.cfg.synOnlyRatio > 1.0
    modifies d
    ensures d.Valid() && d.logs == LogsAfter(old(d.logs), calls)
    ensures answers == Answers(d.cfg, old(d.logs), Inspections(calls))
  {
    hide Verdict, Tracks, AfterEviction;
    EvictionUnobservableIff(d.cfg);
    answers := [];
    ghost var logs := d.logs;
    for i := 0 to |calls|
      invariant d.Valid() && (forall k :: i <= k < |calls| ==> d.clock <= calls[k].Time())
      invariant d.logs == LogsAfter(logs, calls[..i]) && answers == Answers(d.cfg, logs, calls[..i])
    {
      assert calls[..i + 1][..i] == calls[..i];
      match calls[i]
      case InspectCall(src, e) =>
        var r := d.Inspect(src, e.port, e.flags, e.time);
        assert d.logs[src] == LogIn(LogsAfter(logs, calls[..i]), src) + [e];
        answers := answers + [r];
      case EvictCall(now) =>
        d.EvictStale(now);
    }
    assert calls[..|calls|] == calls;
    SweepsDoNotMatter(d.cfg, logs, calls);
  }
}
