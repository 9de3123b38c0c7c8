/** Which flows a sweep removes, given that the reaper reads its clock before it gets the lock and an
    updater reads its own before it gets there. */
module FlowTableSweeps {
  import opened NetTypes
  import opened FlowKeys
  import opened TcpHistory
  import opened FlowRecords
  import opened FlowTable
  import opened FlowTableSteps

  // ---------------------------------------------------------------- one record and one sweep

  // How long a flow may have been idle; a closed TCP flow goes early.
  function Grace(cfg: FlowTrackerConfig, protocol: Byte, state: TcpState): real {
    if protocol != IPPROTO_TCP then cfg.udpTimeoutSec
    else if state == Closed then MinReal(CLOSED_GRACE_SEC, cfg.tcpTimeoutSec)
    else cfg.tcpTimeoutSec
  }

  function GraceOf(cfg: FlowTrackerConfig, k: FlowKey, r: Rec): real {
    Grace(cfg, k.protocol, StateAfter(TcpFlags(r.absorbed)))
  }

  // Every packet came before t.
  ghost predicate AllBefore(os: seq<Observation>, t: real) {
    forall i :: 0 <= i < |os| ==> os[i].time < t
  }

  // No packet is more than g newer than the one absorbed last.
  ghost predicate LastIsRecent(os: seq<Observation>, g: real)
    requires os != []
  {
    forall i :: 0 <= i < |os| ==> os[i].time - os[|os| - 1].time <= g
  }

  lemma DoomedByGrace(cfg: FlowTrackerConfig, k: FlowKey, r: Rec, now: real)
    requires r.absorbed != []
    ensures DoomedAt(cfg, k, r, now) <==> now - r.absorbed[|r.absorbed| - 1].time > GraceOf(cfg, k, r)
  {
    hide StateAfter, TcpFlags;
  }

  // A record is safe from every sweep whose clock it has been seen at or after, if and only if none of its
  // packets is newer than the last one absorbed by more than its grace period.
  lemma RecentAreSparedIff(cfg: FlowTrackerConfig, k: FlowKey, r: Rec)
    requires r.absorbed != []
    ensures (forall now :: DoomedAt(cfg, k, r, now) ==> AllBefore(r.absorbed, now))
       <==> LastIsRecent(r.absorbed, GraceOf(cfg, k, r))
  {
    hide DoomedAt, GraceOf;
    var os, g := r.absorbed, GraceOf(cfg, k, r);
    if LastIsRecent(os, g) {
      forall now | DoomedAt(cfg, k, r, now)
        ensures AllBefore(os, now)
      {
        DoomedByGrace(cfg, k, r, now);
      }
    } else {
      var i :| 0 <= i < |os| && os[i].time - os[|os| - 1].time > g;
      DoomedByGrace(cfg, k, r, os[i].time);
      assert !AllBefore(os, os[i].time);
    }
  }

  ghost predicate InOrder(os: seq<Observation>) {
    forall i, j :: 0 <= i <= j < |os| ==> os[i].time <= os[j].time
  }

  // Packets absorbed in order of time make the condition hold for any timeouts that are not negative.
  lemma InOrderIsRecent(cfg: FlowTrackerConfig, k: FlowKey, r: Rec)
    requires cfg.tcpTimeoutSec >= 0.0 && cfg.udpTimeoutSec >= 0.0 && r.absorbed != [] && InOrder(r.absorbed)
    ensures LastIsRecent(r.absorbed, GraceOf(cfg, k, r))
  {
    hide StateAfter, TcpFlags;
  }

  // ---------------------------------------------------------------- legal histories

  // The flow that an eviction removes had been seen before the sweep's clock only, provided its last
  // packet was recent in that sense.
  lemma EvictedWereOld(cfg: FlowTrackerConfig, h: seq<Event>, i: nat)
    requires Legal(cfg, h) && i < |h| && h[i].Evict?
    ensures Kept(h[..i], h[i].k) != [] && h[i].k in Replay(h[..i])
    ensures LastIsRecent(Kept(h[..i], h[i].k), GraceOf(cfg, h[i].k, Replay(h[..i])[h[i].k])) ==>
      AllBefore(Kept(h[..i], h[i].k), h[i].now)
  {
    hide Legal, Replay, DoomedAt, GraceOf, Kept;
    EvictedWasDoomed(cfg, h, i);
    var r := Replay(h[..i])[h[i].k];
    RecordsHoldTheirPackets(cfg, h[..i], h[i].k);
    RecentAreSparedIff(cfg, h[i].k, r);
  }

  lemma EvictedWasDoomed(cfg: FlowTrackerConfig, h: seq<Event>, i: nat)
    requires Legal(cfg, h) && i < |h| && h[i].Evict?
    ensures Legal(cfg, h[..i])
    ensures h[i].k in Replay(h[..i]) && DoomedAt(cfg, h[i].k, Replay(h[..i])[h[i].k], h[i].now)
  {
    hide DoomedAt, Replay;
    LegalPrefix(cfg, h, i);
    LegalPrefix(cfg, h, i + 1);
    assert h[..i + 1][..i] == h[..i];
  }

  // Answers in order of time, none after t.
  ghost predicate AnsweredInOrder(h: seq<Event>, t: real) {
    h != [] ==>
      match h[|h| - 1]
      case Answer(o, _) => o.time <= t && AnsweredInOrder(h[..|h| - 1], o.time)
      case Evict(_, _) => AnsweredInOrder(h[..|h| - 1], t)
  }

  lemma {:induction false} OrderLater(h: seq<Event>, t: real, t': real)
    requires AnsweredInOrder(h, t) && t <= t'
    ensures AnsweredInOrder(h, t')
  {
    if h != [] && h[|h| - 1].Evict? {
      OrderLater(h[..|h| - 1], t, t');
    }
  }

  lemma {:induction false} OrderPrefix(h: seq<Event>, t: real, n: nat)
    requires AnsweredInOrder(h, t) && n <= |h|
    ensures AnsweredInOrder(h[..n], t)
  {
    if n < |h| {
      var m := |h| - 1;
      if h[m].Answer? {
        OrderLater(h[..m], h[m].o.time, t);
      }
      OrderPrefix(h[..m], t, n);
      assert h[..m][..n] == h[..n];
    } else {
      assert h[..n] == h;
    }
  }

  lemma {:induction false} KeptInOrder(h: seq<Event>, k: FlowKey, t: real)
    requires AnsweredInOrder(h, t)
    ensures InOrder(Kept(h, k)) && forall i :: 0 <= i < |Kept(h, k)| ==> Kept(h, k)[i].time <= t
  {
    if h != [] {
      var m := |h| - 1;
      KeptInOrder(h[..m], k, if h[m].Answer? then h[m].o.time else t);
    }
  }

  // ---------------------------------------------------------------- runs with one updater

  // All packets come through one thread, as through the single consumer of the engine.
  ghost predicate OneUpdater(tid: nat, steps: seq<Step>) {
    forall i :: 0 <= i < |steps| && steps[i].Arrive? ==> steps[i].tid == tid
  }

  // The update under way, if any, is the only one, and its packet is the newest so far.
  ghost predicate Serial(tid: nat, v: Variables) {
    && v.pcs.Keys <= {tid}
    && (if tid in v.pcs then v.pcs[tid].o.time <= v.clock && AnsweredInOrder(v.history, v.pcs[tid].o.time)
        else AnsweredInOrder(v.history, v.clock))
  }

  lemma OrderPush(h: seq<Event>, e: Event, t: real)
    ensures AnsweredInOrder(h + [e], t) <==>
      match e
      case Answer(o, _) => o.time <= t && AnsweredInOrder(h, o.time)
      case Evict(_, _) => AnsweredInOrder(h, t)
  {
    assert (h + [e])[..|h|] == h;
  }

  lemma NextSerial(cfg: FlowTrackerConfig, tid: nat, v: Variables, v': Variables, step: Step)
    requires Serial(tid, v) && Next(cfg, v, v', step) && (step.Arrive? ==> step.tid == tid)
    ensures Serial(tid, v')
  {
    hide AnsweredInOrder, Absorb, DoomedAt, StateAfter;
    match step
    case Tick(to) =>
      OrderStays(v.history, v.clock, to);
    case LookUp(t) => AnswerSerial(v, t);
    case Recheck(t) => AnswerSerial(v, t);
    case Examine(k) =>
      OrderPush(v.history, Evict(k, v.reaper.now), if tid in v.pcs then v.pcs[tid].o.time else v.clock);
    case AbsorbAndRelease(t) =>
      OrderStays(v.history, v.pcs[tid].o.time, v.clock);
    case _ =>
  }

  lemma OrderStays(h: seq<Event>, t: real, t': real)
    requires t <= t'
    ensures AnsweredInOrder(h, t) ==> AnsweredInOrder(h, t')
  {
    if AnsweredInOrder(h, t) {
      OrderLater(h, t, t');
    }
  }

  // An answer keeps the order.
  lemma AnswerSerial(v: Variables, t: nat)
    requires t in v.pcs && v.pcs[t].o.time <= v.clock && AnsweredInOrder(v.history, v.pcs[t].o.time)
    ensures forall outcome :: AnsweredInOrder(v.history + [Answer(v.pcs[t].o, outcome)], v.pcs[t].o.time)
    ensures forall outcome :: AnsweredInOrder(v.history + [Answer(v.pcs[t].o, outcome)], v.clock)
    ensures AnsweredInOrder(v.history, v.clock)
  {
    var o := v.pcs[t].o;
    forall outcome
      ensures AnsweredInOrder(v.history + [Answer(o, outcome)], o.time)
      ensures AnsweredInOrder(v.history + [Answer(o, outcome)], v.clock)
    {
      OrderPush(v.history, Answer(o, outcome), o.time);
      OrderPush(v.history, Answer(o, outcome), v.clock);
    }
    OrderLater(v.history, o.time, v.clock);
  }

  lemma {:induction false} RunsAreSerial(cfg: FlowTrackerConfig, tid: nat, vs: seq<Variables>, steps: seq<Step>)
    requires Run(cfg, vs, steps) && OneUpdater(tid, steps)
    ensures Serial(tid, vs[|steps|])
    decreases |steps|
  {
    hide Next, Serial;
    if |steps| == 0 {
      InitSerial(tid, vs[0]);
    } else {
      var n := |steps| - 1;
      RunsAreSerial(cfg, tid, vs[..n + 1], steps[..n]);
      NextSerial(cfg, tid, vs[n], vs[n + 1], steps[n]);
    }
  }

  lemma InitSerial(tid: nat, v: Variables)
    requires FlowTableSteps.Init(v)
    ensures Serial(tid, v)
  {
  }

  // With one updater, although the reaper reads its clock before it gets the lock, it never evicts a flow
  // of which any packet was seen at or after that reading.
  lemma SweepSparesTheRecent(cfg: FlowTrackerConfig, tid: nat, vs: seq<Variables>, steps: seq<Step>, i: nat)
    requires cfg.tcpTimeoutSec >= 0.0 && cfg.udpTimeoutSec >= 0.0
    requires Run(cfg, vs, steps) && OneUpdater(tid, steps)
    requires i < |vs[|steps|].history| && vs[|steps|].history[i].Evict?
    ensures var h := vs[|steps|].history;
      Kept(h[..i], h[i].k) != [] && !EvictsTheRecent(h, i)
  {
    hide Next, Legal, Replay, Kept, GraceOf, Inv;
    var v := vs[|steps|];
    var h := v.history;
    RunsAreLinearizable(cfg, vs, steps);
    RunsAreSerial(cfg, tid, vs, steps);
    var t := if tid in v.pcs then v.pcs[tid].o.time else v.clock;
    OrderPrefix(h, t, i);
    KeptInOrder(h[..i], h[i].k, t);
    EvictedWereOld(cfg, h, i);
    LegalPrefix(cfg, h, i);
    RecordsHoldTheirPackets(cfg, h[..i], h[i].k);
    InOrderIsRecent(cfg, h[i].k, Replay(h[..i])[h[i].k]);
  }

  // ---------------------------------------------------------------- two updaters

  // States that some run reaches.
  ghost predicate Reachable(cfg: FlowTrackerConfig, v: Variables) {
    exists vs, steps :: Run(cfg, vs, steps) && vs[|steps|] == v
  }

  lemma Reach(cfg: FlowTrackerConfig, v: Variables, v': Variables, step: Step)
    requires Reachable(cfg, v) && Next(cfg, v, v', step)
    ensures Reachable(cfg, v')
  {
    hide Next;
    var vs, steps :| Run(cfg, vs, steps) && vs[|steps|] == v;
    RunExtends(cfg, vs, steps, v', step);
    assert (vs + [v'])[|steps + [step]|] == v';
  }

  lemma RunExtends(cfg: FlowTrackerConfig, vs: seq<Variables>, steps: seq<Step>, v': Variables, step: Step)
    requires Run(cfg, vs, steps) && Next(cfg, vs[|steps|], v', step)
    ensures Run(cfg, vs + [v'], steps + [step])
  {
    hide Next;
    var ws, more := vs + [v'], steps + [step];
    forall i | 0 <= i < |more|
      ensures Next(cfg, ws[i], ws[i + 1], more[i])
    {
      if i < |steps| {
        assert Next(cfg, vs[i], vs[i + 1], steps[i]);
      }
    }
  }

  const EXAMPLE_CONFIG := FlowTrackerConfig(120.0, 30.0, 500000)

  function SomeDatagram(): Packet {
    Packet(seq(16, _ => 0), seq(16, _ => 1), 1000, 2000, 17, false, 0, 100)
  }

  // The same datagram seen at time 1 by thread 0, and at time 100 by thread 1.
  function Early(): (o: Observation)
    ensures o.time == 1.0 && o.key == Late().key && o.key.protocol == 17
  {
    Observe(SomeDatagram(), 1.0)
  }

  function Late(): (o: Observation)
    ensures o.time == 100.0
  {
    Observe(SomeDatagram(), 100.0)
  }

  // Both clocks of the updaters and that of the reaper have been read; no lock has been taken.
  function AllClocked(): Variables {
    Variables(map[], 0, 0, 0, Free, map[0 := Looking(Early()), 1 := Looking(Late())], Clocked(40.0), 100.0, [])
  }

  lemma ReachAllClocked(cfg: FlowTrackerConfig)
    ensures Reachable(cfg, AllClocked())
  {
    hide Observe;
    var v0 := Variables(map[], 0, 0, 0, Free, map[], Resting, 0.0, []);
    var none: seq<Step> := [];
    assert Run(cfg, [v0], none) && [v0][|none|] == v0;
    var v1 := v0.(clock := 1.0);
    Reach(cfg, v0, v1, Tick(1.0));
    var v2 := v1.(pcs := map[0 := Looking(Early())]);
    EarlyAndLate();
    Reach(cfg, v1, v2, Arrive(0, SomeDatagram()));
    var v3 := v2.(clock := 40.0);
    Reach(cfg, v2, v3, Tick(40.0));
    var v4 := v3.(reaper := Clocked(40.0));
    Reach(cfg, v3, v4, ReadClock);
    var v5 := v4.(clock := 100.0);
    Reach(cfg, v4, v5, Tick(100.0));
    Reach(cfg, v5, AllClocked(), Arrive(1, SomeDatagram()));
  }

  lemma EarlyAndLate()
    ensures Early() == Observe(SomeDatagram(), 1.0) && Late() == Observe(SomeDatagram(), 100.0)
  {
  }

  // Thread 1 has inserted the flow; thread 0 still holds its older packet.
  function LateFiled(): Variables {
    Variables(map[Late().key := Rec(100.0, [Late()])], 1, 0, 1, Free, map[0 := Looking(Early())], Clocked(40.0), 100.0,
              [Answer(Late(), Inserted)])
  }

  // In between, thread 1 has missed the flow under the shared lock and holds the exclusive one.
  function LateRechecking(): Variables {
    AllClocked().(holder := Updater(1), pcs := map[0 := Looking(Early()), 1 := Rechecking(Late())])
  }

  lemma ReachLateRechecking(cfg: FlowTrackerConfig)
    ensures Reachable(cfg, LateRechecking())
  {
    hide Early, Late, Reachable, Observe, DoomedAt;
    ReachAllClocked(cfg);
    var v0, o := AllClocked(), Late();
    var v1 := v0.(pcs := v0.pcs[1 := Missed(o)]);
    Reach(cfg, v0, v1, LookUp(1));
    assert v1.pcs[1 := Rechecking(o)] == LateRechecking().pcs;
    Reach(cfg, v1, LateRechecking(), Acquire(1));
  }

  // It has put the record into the table.
  function LateEmplaced(): Variables {
    LateRechecking().(table := map[Late().key := Rec(100.0, [])], pcs := map[0 := Looking(Early()), 1 := Emplaced(Late())],
                      history := [Answer(Late(), Inserted)])
  }

  lemma ReachLateEmplaced(cfg: FlowTrackerConfig)
    requires cfg.maxFlows > 0
    ensures Reachable(cfg, LateEmplaced())
  {
    hide Early, Late, Reachable, Observe, DoomedAt;
    ReachLateRechecking(cfg);
    LateHasTime();
    assert LateRechecking().pcs[1 := Emplaced(Late())] == LateEmplaced().pcs;
    Reach(cfg, LateRechecking(), LateEmplaced(), Recheck(1));
  }

  lemma ReachLateFiled(cfg: FlowTrackerConfig)
    requires cfg.maxFlows > 0
    ensures Reachable(cfg, LateFiled())
  {
    hide Early, Late, Reachable, Observe, DoomedAt, LookedUp, Rechecked, Examined;
    ReachLateEmplaced(cfg);
    var v3, o := LateEmplaced(), Late();
    var v4 := v3.(created := 1, pcs := v3.pcs[1 := Tallied(o)]);
    Reach(cfg, v3, v4, CountCreated(1));
    var v5 := v4.(active := 1, pcs := v4.pcs[1 := Ready(o)]);
    Reach(cfg, v4, v5, CountActive(1));
    assert [] + [o] == [o];
    assert v5.pcs - {1} == map[0 := Looking(Early())];
    Reach(cfg, v5, LateFiled(), AbsorbAndRelease(1));
  }

  lemma LateHasTime()
    ensures Late().time == 100.0
  {
  }

  // Thread 0 absorbs its packet, the record's last-seen time runs backwards, and the sweep removes the flow.
  function LateEvicted(): Variables {
    Variables(map[], 1, 0, 1, Reaper, map[], Unsettled(40.0, {}, 1), 100.0,
              [Answer(Late(), Inserted), Answer(Early(), Found), Evict(Late().key, 40.0)])
  }

  lemma ReachLateEvicted()
    ensures Reachable(EXAMPLE_CONFIG, LateEvicted())
  {
    hide Early, Late, Reachable, Observe, DoomedAt;
    var cfg := EXAMPLE_CONFIG;
    ReachLateFiled(cfg);
    SameKey();
    var v0, k := LateFiled(), Late().key;
    var r := Rec(100.0, [Late(), Early()]);
    var v1 := v0.(table := map[k := r], pcs := map[], history := [Answer(Late(), Inserted), Answer(Early(), Found)]);
    assert [Late()] + [Early()] == [Late(), Early()];
    assert v0.pcs - {0} == map[];
    Reach(cfg, v0, v1, LookUp(0));
    var v2 := v1.(holder := Reaper, reaper := Sweeping(40.0, {k}, 0));
    assert v1.table.Keys == {k};
    Reach(cfg, v1, v2, ReaperAcquire);
    LateIsDoomed();
    assert v2.table - {k} == map[] && v2.reaper.todo - {k} == {};
    assert v2.history + [Evict(k, 40.0)] == LateEvicted().history;
    Reach(cfg, v2, LateEvicted(), Examine(k));
  }

  lemma SameKey()
    ensures Early().key == Late().key
  {
  }

  lemma LateIsDoomed()
    ensures DoomedAt(EXAMPLE_CONFIG, Late().key, Rec(100.0, [Late(), Early()]), 40.0)
  {
    DoomedByGrace(EXAMPLE_CONFIG, Late().key, Rec(100.0, [Late(), Early()]), 40.0);
  }

  // The i-th event evicts a flow of which some packet was seen at or after the sweep's clock.
  ghost predicate EvictsTheRecent(h: seq<Event>, i: int) {
    0 <= i < |h| && h[i].Evict? && !AllBefore(Kept(h[..i], h[i].k), h[i].now)
  }

  // With two updaters the sweep can remove a flow that was seen after its clock was read: an updater that
  // read its own clock long ago absorbs its packet after a newer one.
  lemma SweepCanEvictTheRecent()
    ensures exists v, i :: Reachable(EXAMPLE_CONFIG, v) && EvictsTheRecent(v.history, i)
  {
    hide Early, Late, Reachable, Observe;
    ReachLateEvicted();
    SameKey();
    LateHasTime();
    var v := LateEvicted();
    var h := v.history;
    assert h[..2] == [Answer(Late(), Inserted), Answer(Early(), Found)];
    assert h[..2][..1] == [Answer(Late(), Inserted)] && h[..2][..1][..0] == [];
    assert Kept(h[..2], h[2].k) == [Late()] + [Early()];
    assert Kept(h[..2], h[2].k)[0].time >= h[2].now;
    assert EvictsTheRecent(h, 2);
  }
}
