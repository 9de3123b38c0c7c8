/** Alert suppression: what withholding repeats of the same alert does to whole runs of detections.

    The detector remembers only when each (source, attack) pair last fired. Over any run the fired
    alerts of a pair are the greedy selection from its detections, which is as large as any selection
    with that spacing can be. */
module Suppression {
  import opened NetTypes
  import opened RealProducts

  datatype AttackType = VolumeAnomaly | SynFlood | PortScan | BruteForce | DnsTunneling | DataExfiltration

  datatype Pair = Pair(src: string, kind: AttackType)

  // One detection: whose, when, and whether an alert was fired for it.
  datatype Entry = Entry(pair: Pair, time: real, fired: bool)

  ghost predicate Chronological(log: seq<Entry>) {
    forall i, j :: 0 <= i <= j < |log| ==> log[i].time <= log[j].time
  }

  // No alert of this pair has fired less than s seconds ago.
  ghost predicate Clear(s: real, log: seq<Entry>, pair: Pair, now: real) {
    forall i :: 0 <= i < |log| && log[i].fired && log[i].pair == pair ==> now - log[i].time >= s
  }

  // Detections fire exactly when their pair is clear.
  ghost predicate Honest(s: real, log: seq<Entry>) {
    log != [] ==>
      var n := |log| - 1;
      Honest(s, log[..n]) && (log[n].fired <==> Clear(s, log[..n], log[n].pair, log[n].time))
  }

  function LastFired(log: seq<Entry>, pair: Pair): Option<real> {
    if log == [] then None
    else
      var e := log[|log| - 1];
      if e.fired && e.pair == pair then Some(e.time) else LastFired(log[..|log| - 1], pair)
  }

  // Remembering the last firing is enough to tell whether a pair is clear.
  lemma {:induction false} LastFiredDecides(s: real, log: seq<Entry>, pair: Pair, now: real)
    requires Chronological(log)
    ensures Clear(s, log, pair, now) <==>
      (LastFired(log, pair) == None || now - LastFired(log, pair).value >= s)
    ensures LastFired(log, pair).Some? ==>
      exists i :: 0 <= i < |log| && log[i].fired && log[i].pair == pair && log[i].time == LastFired(log, pair).value
  {
    if log != [] {
      var n := |log| - 1;
      var pre := log[..n];
      LastFiredDecides(s, pre, pair, now);
      assert forall i :: 0 <= i < n ==> pre[i] == log[i];
    }
  }

  // ---------------------------------------------------------------- the greedy selection

  // When the detections of a pair happened, and when its alerts fired.
  function Times(log: seq<Entry>, pair: Pair): seq<real> {
    if log == [] then []
    else
      var e := log[|log| - 1];
      Times(log[..|log| - 1], pair) + (if e.pair == pair then [e.time] else [])
  }

  function FiredTimes(log: seq<Entry>, pair: Pair): seq<real> {
    if log == [] then []
    else
      var e := log[|log| - 1];
      FiredTimes(log[..|log| - 1], pair) + (if e.pair == pair && e.fired then [e.time] else [])
  }

  // Take each time that is at least s after the last one taken.
  function Greedy(s: real, ts: seq<real>): seq<real> {
    if ts == [] then []
    else
      var g, t := Greedy(s, ts[..|ts| - 1]), ts[|ts| - 1];
      if g == [] || t - g[|g| - 1] >= s then g + [t] else g
  }

  lemma {:induction false} FiredIsGreedy(s: real, log: seq<Entry>, pair: Pair)
    requires Honest(s, log) && Chronological(log)
    ensures FiredTimes(log, pair) == Greedy(s, Times(log, pair))
    ensures LastFired(log, pair)
         == (var f := FiredTimes(log, pair); if f == [] then None else Some(f[|f| - 1]))
  {
    hide Greedy, Chronological, Clear;
    if log == [] {
      GreedyOfNothing(s);
    } else {
      var n := |log| - 1;
      var pre, e := log[..n], log[n];
      ChronologicalPrefix(log, n);
      FiredIsGreedy(s, pre, pair);
      LastFiredDecides(s, pre, pair, e.time);
      GreedyPush(s, Times(pre, pair), e.time);
      assert Times(pre, pair) + [] == Times(pre, pair) && FiredTimes(pre, pair) + [] == FiredTimes(pre, pair);
    }
  }

  lemma GreedyOfNothing(s: real)
    ensures Greedy(s, []) == []
  {
  }

  lemma GreedyPush(s: real, ts: seq<real>, t: real)
    ensures var g := Greedy(s, ts);
      Greedy(s, ts + [t]) == if g == [] || t - g[|g| - 1] >= s then g + [t] else g
  {
    assert (ts + [t])[..|ts|] == ts;
  }

  lemma ChronologicalPrefix(log: seq<Entry>, n: nat)
    requires Chronological(log) && n <= |log|
    ensures Chronological(log[..n])
  {
  }

  ghost predicate Sorted(ts: seq<real>) {
    forall i, j :: 0 <= i <= j < |ts| ==> ts[i] <= ts[j]
  }

  ghost predicate Separated(s: real, ts: seq<real>) {
    forall i, j :: 0 <= i < j < |ts| ==> ts[j] - ts[i] >= s
  }

  // Fired alerts are s apart, and every detection has a fired one at or less than s before it.
  lemma {:induction false} GreedyIsSpacedAndCovers(s: real, ts: seq<real>)
    requires s > 0.0 && Sorted(ts)
    ensures Separated(s, Greedy(s, ts)) && Sorted(Greedy(s, ts))
    ensures forall i :: 0 <= i < |ts| ==> Covered(s, Greedy(s, ts), ts[i])
    ensures ts != [] ==> Greedy(s, ts) != [] && Greedy(s, ts)[|Greedy(s, ts)| - 1] <= ts[|ts| - 1]
  {
    hide Covered;
    if ts != [] {
      var n := |ts| - 1;
      var pre, t := ts[..n], ts[n];
      GreedyIsSpacedAndCovers(s, pre);
      var g, g' := Greedy(s, pre), Greedy(s, ts);
      if g != [] {
        assert g[|g| - 1] <= pre[n - 1] == ts[n - 1] <= t;
      }
      forall i | 0 <= i < n
        ensures Covered(s, g', ts[i])
      {
        assert pre[i] == ts[i];
        StaysCovered(s, g, t, pre[i]);
      }
      LastCovers(s, g', t);
    }
  }

  lemma StaysCovered(s: real, g: seq<real>, x: real, t: real)
    requires Covered(s, g, t)
    ensures Covered(s, g + [x], t)
  {
    var k :| 0 <= k < |g| && g[k] <= t < g[k] + s;
    assert (g + [x])[k] == g[k];
  }

  lemma LastCovers(s: real, g: seq<real>, t: real)
    requires g != [] && g[|g| - 1] <= t < g[|g| - 1] + s
    ensures Covered(s, g, t)
  {
  }

  ghost predicate Covered(s: real, g: seq<real>, t: real) {
    exists k :: 0 <= k < |g| && g[k] <= t < g[k] + s
  }

  // No selection of detections with that spacing is larger.
  lemma GreedyIsLargest(s: real, ts: seq<real>, other: seq<real>)
    requires s > 0.0 && Sorted(ts)
    requires Separated(s, other) && forall t :: t in other ==> t in ts
    ensures |other| <= |Greedy(s, ts)|
  {
    GreedyIsSpacedAndCovers(s, ts);
    if other != [] {
      var k := SlotOf(s, ts, other, |other| - 1);
    }
  }

  // The i-th of any spaced selection falls into the slot of the i-th greedy alert or a later one.
  lemma {:induction false} SlotOf(s: real, ts: seq<real>, other: seq<real>, i: nat) returns (k: nat)
    requires s > 0.0 && Sorted(ts) && i < |other|
    requires Separated(s, other) && forall t :: t in other ==> t in ts
    ensures i <= k < |Greedy(s, ts)|
    ensures Greedy(s, ts)[k] <= other[i] < Greedy(s, ts)[k] + s
  {
    GreedyIsSpacedAndCovers(s, ts);
    var g := Greedy(s, ts);
    assert other[i] in other;
    var m :| 0 <= m < |ts| && ts[m] == other[i];
    assert Covered(s, g, ts[m]);
    k :| 0 <= k < |g| && g[k] <= other[i] < g[k] + s;
    if i > 0 {
      var l := SlotOf(s, ts, other, i - 1);
      assert other[i] - other[i - 1] >= s;
      assert g[l] <= other[i - 1] <= other[i] - s < g[k];
    }
  }

  // A span of length T holds at most floor(T / s) + 1 fired alerts of one pair.
  lemma SpanHoldsFew(s: real, g: seq<real>, i: nat, j: nat, span: real)
    requires s > 0.0 && Separated(s, g) && i <= j < |g| && g[j] - g[i] <= span && span >= 0.0
    ensures j - i + 1 <= (span / s).Floor + 1
  {
    Spread(s, g, i, j);
    QuotientAtLeast(span, s, (j - i) as real);
  }

  lemma {:induction false} Spread(s: real, g: seq<real>, i: nat, j: nat)
    requires Separated(s, g) && i <= j < |g|
    ensures g[j] - g[i] >= (j - i) as real * s
    decreases j
  {
    if i < j {
      Spread(s, g, i, j - 1);
      Distribute(s, (j - i) as real, (j - 1 - i) as real, 1.0);
    }
  }

  // ---------------------------------------------------------------- run-level statements

  lemma {:induction false} TimesSorted(log: seq<Entry>, pair: Pair)
    requires Chronological(log)
    ensures Sorted(Times(log, pair))
    ensures forall i :: 0 <= i < |Times(log, pair)| ==> log != [] && Times(log, pair)[i] <= log[|log| - 1].time
  {
    if log != [] {
      var n := |log| - 1;
      TimesSorted(log[..n], pair);
      assert n > 0 ==> log[n - 1].time <= log[n].time;
    }
  }

  // Over any honest run: fired alerts of a pair are s apart, every detection has one in the s seconds
  // up to it, and no other selection with that spacing has more.
  lemma FiredAreGreedyMaximal(s: real, log: seq<Entry>, pair: Pair, other: seq<real>)
    requires s > 0.0 && Honest(s, log) && Chronological(log)
    requires Separated(s, other) && forall t :: t in other ==> t in Times(log, pair)
    ensures Separated(s, FiredTimes(log, pair))
    ensures forall i :: 0 <= i < |Times(log, pair)| ==> Covered(s, FiredTimes(log, pair), Times(log, pair)[i])
    ensures |other| <= |FiredTimes(log, pair)|
  {
    TimesSorted(log, pair);
    FiredIsGreedy(s, log, pair);
    GreedyIsSpacedAndCovers(s, Times(log, pair));
    GreedyIsLargest(s, Times(log, pair), other);
  }

  function Fired(log: seq<Entry>): nat {
    if log == [] then 0 else Fired(log[..|log| - 1]) + (if log[|log| - 1].fired then 1 else 0)
  }

  function FiredOf(log: seq<Entry>, pairs: seq<Pair>): nat {
    if pairs == [] then 0 else FiredOf(log, pairs[..|pairs| - 1]) + |FiredTimes(log, pairs[|pairs| - 1])|
  }

  // The alert total is the sum over all pairs.
  lemma {:induction false} TotalIsSumOverPairs(log: seq<Entry>, pairs: seq<Pair>)
    requires forall i, j :: 0 <= i < j < |pairs| ==> pairs[i] != pairs[j]
    requires forall e :: e in log ==> e.pair in pairs
    ensures Fired(log) == FiredOf(log, pairs)
  {
    if log == [] {
      NothingFired(pairs);
    } else {
      var n := |log| - 1;
      TotalIsSumOverPairs(log[..n], pairs);
      assert log[n] in log;
      OneMoreFired(log, pairs);
    }
  }

  lemma {:induction false} NothingFired(pairs: seq<Pair>)
    ensures FiredOf([], pairs) == 0
  {
    if pairs != [] {
      NothingFired(pairs[..|pairs| - 1]);
    }
  }

  lemma {:induction false} OneMoreFired(log: seq<Entry>, pairs: seq<Pair>)
    requires log != []
    requires forall i, j :: 0 <= i < j < |pairs| ==> pairs[i] != pairs[j]
    ensures var e := log[|log| - 1];
      FiredOf(log, pairs) == FiredOf(log[..|log| - 1], pairs) + (if e.fired && e.pair in pairs then 1 else 0)
  {
    if pairs != [] {
      var m := |pairs| - 1;
      OneMoreFired(log, pairs[..m]);
      assert pairs == pairs[..m] + [pairs[m]];
    }
  }

  // The detections alone determine which of them fire.
  lemma {:induction false} FiringIsDetermined(s: real, a: seq<Entry>, b: seq<Entry>)
    requires Honest(s, a) && Honest(s, b) && |a| == |b|
    requires forall i :: 0 <= i < |a| ==> a[i].pair == b[i].pair && a[i].time == b[i].time
    ensures a == b
  {
    if a != [] {
      var n := |a| - 1;
      FiringIsDetermined(s, a[..n], b[..n]);
      assert a[n].pair == b[n].pair && a[n].time == b[n].time;
      assert a == a[..n] + [a[n]] && b == b[..n] + [b[n]];
    }
  }
}
