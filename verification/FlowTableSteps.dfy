/** The flow table under concurrency: updaters that look up under a shared lock and insert under the
    exclusive one, interleaved with a reaper that reads its clock before it takes the lock.

    A record is represented by the packets it has absorbed, of which all its fields are functions
    (FlowRecord.Valid). Absorbing one packet is one step; everything else is broken up as in the code:
    the counters move one at a time, and the lock is held across steps. */
module FlowTableSteps {
  import opened NetTypes
  import opened FlowKeys
  import opened TcpHistory
  import opened FlowRecords
  import opened FlowTable

  datatype Rec = Rec(born: real, absorbed: seq<Observation>)

  function Push(r: Rec, o: Observation): Rec {
    Rec(r.born, r.absorbed + [o])
  }

  predicate DoomedAt(cfg: FlowTrackerConfig, k: FlowKey, r: Rec, now: real) {
    Expired(cfg, k.protocol, StateAfter(TcpFlags(r.absorbed)), LastSeen(r.born, r.absorbed), now)
  }

  // ---------------------------------------------------------------- the concrete machine

  // Where an updater is; a thread that is not listed is idle.
  datatype UpdaterPc =
    | Looking(o: Observation)     // key and time taken, shared lock not yet held
    | Missed(o: Observation)      // not found; no lock held
    | Rechecking(o: Observation)  // exclusive lock held from here on
    | Emplaced(o: Observation)    // record in the table, no counter moved
    | Tallied(o: Observation)     // creation counted
    | Ready(o: Observation)       // active flow counted; packet not yet absorbed

  datatype ReaperPc =
    | Resting
    | Clocked(now: real)                                   // clock read; no lock held
    | Sweeping(now: real, todo: set<FlowKey>, gone: nat)   // exclusive lock held from here on
    | Unsettled(now: real, todo: set<FlowKey>, gone: nat)  // flow erased, active count not yet lowered
    | Leaving                                              // total added; lock still held

  datatype Holder = Free | Updater(tid: nat) | Reaper

  datatype Outcome = Found | Inserted | Full

  // The moments at which an update takes effect, and the flows a sweep removes.
  datatype Event = Answer(o: Observation, outcome: Outcome) | Evict(k: FlowKey, now: real)

  // `history` only records; no step reads it.
  datatype Variables = Variables(
    table: map<FlowKey, Rec>, created: nat, evicted: nat, active: int,
    holder: Holder, pcs: map<nat, UpdaterPc>, reaper: ReaperPc, clock: real, history: seq<Event>)

  datatype Step =
    | Tick(to: real)
    | Arrive(tid: nat, p: Packet)
    | LookUp(tid: nat)
    | Acquire(tid: nat)
    | Recheck(tid: nat)
    | CountCreated(tid: nat)
    | CountActive(tid: nat)
    | AbsorbAndRelease(tid: nat)
    | ReadClock
    | ReaperAcquire
    | Examine(k: FlowKey)
    | CountDown
    | AddTotal
    | ReaperRelease

  ghost predicate Init(v: Variables) {
    v == Variables(map[], 0, 0, 0, Free, map[], Resting, 0.0, [])
  }

  function Idle(pcs: map<nat, UpdaterPc>, tid: nat): map<nat, UpdaterPc> {
    pcs - {tid}
  }

  ghost predicate Next(cfg: FlowTrackerConfig, v: Variables, v': Variables, step: Step) {
    match step
    case Tick(to) => v.clock <= to && v' == v.(clock := to)
    case Arrive(tid, p) => tid !in v.pcs && v' == v.(pcs := v.pcs[tid := Looking(Observe(p, v.clock))])
    case LookUp(tid) => tid in v.pcs && v.pcs[tid].Looking? && v.holder == Free && v' == LookedUp(v, tid, v.pcs[tid].o)
    case Acquire(tid) =>
      && tid in v.pcs && v.pcs[tid].Missed? && v.holder == Free
      && v' == v.(holder := Updater(tid), pcs := v.pcs[tid := Rechecking(v.pcs[tid].o)])
    case Recheck(tid) => tid in v.pcs && v.pcs[tid].Rechecking? && v' == Rechecked(cfg, v, tid, v.pcs[tid].o)
    case CountCreated(tid) =>
      && tid in v.pcs && v.pcs[tid].Emplaced?
      && v' == v.(created := v.created + 1, pcs := v.pcs[tid := Tallied(v.pcs[tid].o)])
    case CountActive(tid) =>
      && tid in v.pcs && v.pcs[tid].Tallied?
      && v' == v.(active := v.active + 1, pcs := v.pcs[tid := Ready(v.pcs[tid].o)])
    case AbsorbAndRelease(tid) =>
      && tid in v.pcs && v.pcs[tid].Ready? && v.pcs[tid].o.key in v.table
      && v' == v.(table := Absorb(v.table, v.pcs[tid].o), holder := Free, pcs := Idle(v.pcs, tid))
    case ReadClock => v.reaper == Resting && v' == v.(reaper := Clocked(v.clock))
    case ReaperAcquire =>
      && v.reaper.Clocked? && v.holder == Free
      && v' == v.(holder := Reaper, reaper := Sweeping(v.reaper.now, v.table.Keys, 0))
    case Examine(k) => v.reaper.Sweeping? && k in v.reaper.todo && k in v.table && v' == Examined(cfg, v, k)
    case CountDown =>
      && v.reaper.Unsettled?
      && v' == v.(active := v.active - 1, reaper := Sweeping(v.reaper.now, v.reaper.todo, v.reaper.gone))
    case AddTotal =>
      && v.reaper.Sweeping? && v.reaper.todo == {}
      && v' == v.(evicted := v.evicted + v.reaper.gone, reaper := Leaving)
    case ReaperRelease => v.reaper == Leaving && v' == v.(holder := Free, reaper := Resting)
  }

  function Absorb(table: map<FlowKey, Rec>, o: Observation): map<FlowKey, Rec>
    requires o.key in table
  {
    table[o.key := Push(table[o.key], o)]
  }

  function LookedUp(v: Variables, tid: nat, o: Observation): Variables {
    if o.key in v.table
    then v.(table := Absorb(v.table, o), pcs := Idle(v.pcs, tid), history := v.history + [Answer(o, Found)])
    else v.(pcs := v.pcs[tid := Missed(o)])
  }

  function Rechecked(cfg: FlowTrackerConfig, v: Variables, tid: nat, o: Observation): Variables {
    if o.key in v.table
    then v.(table := Absorb(v.table, o), holder := Free, pcs := Idle(v.pcs, tid),
            history := v.history + [Answer(o, Found)])
    else if |v.table| >= cfg.maxFlows
    then v.(holder := Free, pcs := Idle(v.pcs, tid), history := v.history + [Answer(o, Full)])
    else v.(table := v.table[o.key := Rec(o.time, [])], pcs := v.pcs[tid := Emplaced(o)],
            history := v.history + [Answer(o, Inserted)])
  }

  function Examined(cfg: FlowTrackerConfig, v: Variables, k: FlowKey): Variables
    requires v.reaper.Sweeping? && k in v.table
  {
    var r := v.reaper;
    if DoomedAt(cfg, k, v.table[k], r.now)
    then v.(table := v.table - {k}, reaper := Unsettled(r.now, r.todo - {k}, r.gone + 1),
            history := v.history + [Evict(k, r.now)])
    else v.(reaper := Sweeping(r.now, r.todo - {k}, r.gone))
  }

  // ---------------------------------------------------------------- the invariant

  predicate Holds(pc: UpdaterPc) {
    !pc.Looking? && !pc.Missed?
  }

  // The record the lock holder has put into the table but not yet filled.
  predicate Pending(pc: UpdaterPc) {
    pc.Emplaced? || pc.Tallied? || pc.Ready?
  }

  predicate Reaping(r: ReaperPc) {
    r.Sweeping? || r.Unsettled? || r.Leaving?
  }

  function HolderPc(v: Variables): Option<UpdaterPc> {
    if v.holder.Updater? && v.holder.tid in v.pcs then Some(v.pcs[v.holder.tid]) else None
  }

  // Creations in the table that the creation counter does not show yet.
  function Uncreated(v: Variables): int {
    match HolderPc(v)
    case Some(Emplaced(_)) => 1
    case _ => 0
  }

  // What the active counter lacks with respect to the table.
  function Uncounted(v: Variables): int {
    match HolderPc(v)
    case Some(Emplaced(_)) => 1
    case Some(Tallied(_)) => 1
    case _ => if v.reaper.Unsettled? then -1 else 0
  }

  // Evictions the total does not show yet.
  function Untotalled(v: Variables): nat {
    match v.reaper
    case Sweeping(_, _, gone) => gone
    case Unsettled(_, _, gone) => gone
    case _ => 0
  }

  // The lock is held by whoever is inside its critical section, and by no one else.
  ghost predicate Exclusion(v: Variables) {
    && (v.holder.Updater? ==> v.holder.tid in v.pcs && Holds(v.pcs[v.holder.tid]))
    && (forall t :: t in v.pcs && Holds(v.pcs[t]) ==> v.holder == Updater(t))
    && (v.holder == Reaper <==> Reaping(v.reaper))
  }

  ghost predicate Counts(cfg: FlowTrackerConfig, v: Variables) {
    && |v.table| <= cfg.maxFlows
    && v.active == |v.table| - Uncounted(v)
    && v.created + Uncreated(v) == |v.table| + v.evicted + Untotalled(v)
  }

  // Records hold packets of their own key only, and are empty only while being inserted.
  ghost predicate Filing(v: Variables) {
    && (forall k, i :: k in v.table && 0 <= i < |v.table[k].absorbed| ==> v.table[k].absorbed[i].key == k)
    && (forall k :: k in v.table && v.table[k].absorbed == [] ==>
          HolderPc(v).Some? && Pending(HolderPc(v).value) && HolderPc(v).value.o.key == k)
    && (HolderPc(v).Some? && Pending(HolderPc(v).value) ==>
          var o := HolderPc(v).value.o; o.key in v.table && v.table[o.key] == Rec(o.time, []))
    && (v.reaper.Sweeping? ==> v.reaper.todo <= v.table.Keys)
    && (v.reaper.Unsettled? ==> v.reaper.todo <= v.table.Keys)
  }

  ghost predicate Inv(cfg: FlowTrackerConfig, v: Variables) {
    Exclusion(v) && Counts(cfg, v) && Filing(v)
  }

  lemma InitInv(cfg: FlowTrackerConfig, v: Variables)
    requires Init(v)
    ensures Inv(cfg, v)
  {
  }

  lemma NextExclusion(cfg: FlowTrackerConfig, v: Variables, v': Variables, step: Step)
    requires Inv(cfg, v) && Next(cfg, v, v', step)
    ensures Exclusion(v')
  {
    hide Counts, Filing, DoomedAt, Absorb, Observe;
    match step
    case LookUp(tid) => LookUpExclusion(v, v', tid);
    case Recheck(tid) => RecheckExclusion(cfg, v, v', tid);
    case _ =>
  }

  lemma LookUpExclusion(v: Variables, v': Variables, tid: nat)
    requires Exclusion(v) && tid in v.pcs && v.pcs[tid].Looking? && v' == LookedUp(v, tid, v.pcs[tid].o)
    ensures Exclusion(v')
  {
    hide Absorb;
  }

  lemma RecheckExclusion(cfg: FlowTrackerConfig, v: Variables, v': Variables, tid: nat)
    requires Exclusion(v) && tid in v.pcs && v.pcs[tid].Rechecking? && v' == Rechecked(cfg, v, tid, v.pcs[tid].o)
    ensures Exclusion(v')
  {
    hide Absorb;
  }

  lemma NextCounts(cfg: FlowTrackerConfig, v: Variables, v': Variables, step: Step)
    requires Inv(cfg, v) && Next(cfg, v, v', step)
    ensures Counts(cfg, v')
  {
    hide Observe, DoomedAt, Absorb, LookedUp, Rechecked, Examined, Filing, Exclusion, Counts;
    match step
    case LookUp(tid) => LookUpCounts(cfg, v, v', tid);
    case Recheck(tid) => RecheckCounts(cfg, v, v', tid);
    case Examine(k) => ExamineCounts(cfg, v, v', k);
    case AbsorbAndRelease(tid) => AbsorbSize(v.table, v.pcs[tid].o); InsertionCounts(cfg, v, v', tid, step);
    case CountCreated(tid) => InsertionCounts(cfg, v, v', tid, step);
    case CountActive(tid) => InsertionCounts(cfg, v, v', tid, step);
    case CountDown => ReaperCounts(cfg, v, v', step);
    case AddTotal => ReaperCounts(cfg, v, v', step);
    case ReaperAcquire => ReaperCounts(cfg, v, v', step);
    case ReaperRelease => ReaperCounts(cfg, v, v', step);
    case _ => OtherCounts(cfg, v, v', step);
  }

  lemma OtherCounts(cfg: FlowTrackerConfig, v: Variables, v': Variables, step: Step)
    requires Exclusion(v) && Counts(cfg, v) && Next(cfg, v, v', step)
    requires step.Tick? || step.ReadClock? || step.Arrive? || step.Acquire?
    ensures Counts(cfg, v')
  {
    hide Absorb, Observe, LookedUp, Rechecked, Examined;
    assert step.Acquire? ==> HolderPc(v) == None && HolderPc(v') == Some(v'.pcs[step.tid]);
    assert !step.Acquire? ==> HolderPc(v) == HolderPc(v');
  }

  lemma ReaperCounts(cfg: FlowTrackerConfig, v: Variables, v': Variables, step: Step)
    requires Exclusion(v) && Counts(cfg, v) && Next(cfg, v, v', step)
    requires step in {CountDown, AddTotal, ReaperAcquire, ReaperRelease}
    ensures Counts(cfg, v')
  {
    hide Absorb, Observe, LookedUp, Rechecked, Examined;
    assert HolderPc(v) == None && HolderPc(v') == None;
  }

  lemma InsertionCounts(cfg: FlowTrackerConfig, v: Variables, v': Variables, tid: nat, step: Step)
    requires Exclusion(v) && Counts(cfg, v) && Next(cfg, v, v', step) && |v'.table| == |v.table|
    requires step in {CountCreated(tid), CountActive(tid), AbsorbAndRelease(tid)}
    ensures Counts(cfg, v')
  {
    hide Absorb, Observe, LookedUp, Rechecked, Examined;
    assert v.holder == Updater(tid);
    assert HolderPc(v) == Some(v.pcs[tid]);
    assert HolderPc(v') == if step.AbsorbAndRelease? then None else Some(v'.pcs[tid]);
  }

  lemma AbsorbSize(table: map<FlowKey, Rec>, o: Observation)
    requires o.key in table
    ensures Absorb(table, o).Keys == table.Keys && |Absorb(table, o)| == |table|
  {
  }

  lemma LookUpCounts(cfg: FlowTrackerConfig, v: Variables, v': Variables, tid: nat)
    requires Exclusion(v) && Counts(cfg, v) && v.holder == Free
    requires tid in v.pcs && v.pcs[tid].Looking? && v' == LookedUp(v, tid, v.pcs[tid].o)
    ensures Counts(cfg, v')
  {
    hide Absorb;
    if v.pcs[tid].o.key in v.table {
      AbsorbSize(v.table, v.pcs[tid].o);
    }
  }

  lemma RecheckCounts(cfg: FlowTrackerConfig, v: Variables, v': Variables, tid: nat)
    requires Exclusion(v) && Counts(cfg, v)
    requires tid in v.pcs && v.pcs[tid].Rechecking? && v' == Rechecked(cfg, v, tid, v.pcs[tid].o)
    ensures Counts(cfg, v')
  {
    hide Absorb;
    if v.pcs[tid].o.key in v.table {
      AbsorbSize(v.table, v.pcs[tid].o);
    }
  }

  lemma ExamineCounts(cfg: FlowTrackerConfig, v: Variables, v': Variables, k: FlowKey)
    requires Exclusion(v) && Counts(cfg, v)
    requires v.reaper.Sweeping? && k in v.reaper.todo && k in v.table && v' == Examined(cfg, v, k)
    ensures Counts(cfg, v')
  {
    hide DoomedAt;
    EraseSize(v.table, k);
    assert HolderPc(v) == None && HolderPc(v') == None;
  }

  lemma EraseSize(table: map<FlowKey, Rec>, k: FlowKey)
    requires k in table
    ensures |table - {k}| == |table| - 1
  {
    assert table.Keys == (table - {k}).Keys + {k};
  }

  lemma NextFiling(cfg: FlowTrackerConfig, v: Variables, v': Variables, step: Step)
    requires Inv(cfg, v) && Next(cfg, v, v', step)
    ensures Filing(v')
  {
    hide Counts, Filing, Exclusion, Observe, DoomedAt, LookedUp, Rechecked, Examined, Absorb;
    match step
    case LookUp(tid) => LookUpFiling(v, v', tid);
    case Recheck(tid) => RecheckFiling(cfg, v, v', tid);
    case AbsorbAndRelease(tid) => ReleaseFiling(v, v', tid);
    case Examine(k) => ExamineFiling(cfg, v, v', k);
    case CountCreated(tid) => CountFiling(cfg, v, v', step);
    case CountActive(tid) => CountFiling(cfg, v, v', step);
    case _ => OtherFiling(cfg, v, v', step);
  }

  lemma CountFiling(cfg: FlowTrackerConfig, v: Variables, v': Variables, step: Step)
    requires Exclusion(v) && Filing(v) && Next(cfg, v, v', step)
    requires step.CountCreated? || step.CountActive?
    ensures Filing(v')
  {
    hide Observe, DoomedAt, LookedUp, Rechecked, Examined, Absorb;
    assert v.holder == Updater(step.tid) && HolderPc(v) == Some(v.pcs[step.tid]) && HolderPc(v') == Some(v'.pcs[step.tid]);
  }

  lemma OtherFiling(cfg: FlowTrackerConfig, v: Variables, v': Variables, step: Step)
    requires Exclusion(v) && Filing(v) && Next(cfg, v, v', step)
    requires step.Tick? || step.Arrive? || step.Acquire? || step.ReadClock? || step.ReaperAcquire?
          || step.CountDown? || step.AddTotal? || step.ReaperRelease?
    ensures Filing(v')
  {
    hide Observe, DoomedAt, LookedUp, Rechecked, Examined, Absorb;
    assert step.Acquire? ==> HolderPc(v) == None && HolderPc(v') == Some(v'.pcs[step.tid]);
    assert !step.Acquire? ==> HolderPc(v) == HolderPc(v');
  }

  lemma LookUpFiling(v: Variables, v': Variables, tid: nat)
    requires Exclusion(v) && Filing(v) && v.holder == Free
    requires tid in v.pcs && v.pcs[tid].Looking? && v' == LookedUp(v, tid, v.pcs[tid].o)
    ensures Filing(v')
  {
    assert HolderPc(v) == None && HolderPc(v') == None;
  }

  lemma RecheckFiling(cfg: FlowTrackerConfig, v: Variables, v': Variables, tid: nat)
    requires Exclusion(v) && Filing(v)
    requires tid in v.pcs && v.pcs[tid].Rechecking? && v' == Rechecked(cfg, v, tid, v.pcs[tid].o)
    ensures Filing(v')
  {
    assert v.holder == Updater(tid) && HolderPc(v) == Some(v.pcs[tid]) && v.reaper !in {Leaving};
  }

  lemma ReleaseFiling(v: Variables, v': Variables, tid: nat)
    requires Exclusion(v) && Filing(v)
    requires tid in v.pcs && v.pcs[tid].Ready? && v.pcs[tid].o.key in v.table
    requires v' == v.(table := Absorb(v.table, v.pcs[tid].o), holder := Free, pcs := Idle(v.pcs, tid))
    ensures Filing(v')
  {
    assert v.holder == Updater(tid) && HolderPc(v) == Some(v.pcs[tid]) && HolderPc(v') == None;
  }

  lemma ExamineFiling(cfg: FlowTrackerConfig, v: Variables, v': Variables, k: FlowKey)
    requires Exclusion(v) && Filing(v)
    requires v.reaper.Sweeping? && k in v.reaper.todo && k in v.table && v' == Examined(cfg, v, k)
    ensures Filing(v')
  {
    hide DoomedAt;
    assert HolderPc(v) == None && HolderPc(v') == None;
  }

  // ---------------------------------------------------------------- the atomic table behind it

  // The sequential table: what a history of atomic answers and evictions amounts to.
  ghost function Replay(h: seq<Event>): map<FlowKey, Rec> {
    if h == [] then map[]
    else
      var flows := Replay(h[..|h| - 1]);
      match h[|h| - 1]
      case Answer(o, Inserted) => flows[o.key := Rec(o.time, [o])]
      case Answer(o, Full) => flows
      case Answer(o, Found) => if o.key in flows then Absorb(flows, o) else flows
      case Evict(k, now) => flows - {k}
  }

  // Each event is what an atomic find-or-insert, or a justified eviction, would have done at that point.
  ghost predicate Justified(cfg: FlowTrackerConfig, flows: map<FlowKey, Rec>, e: Event) {
    match e
    case Answer(o, Found) => o.key in flows
    case Answer(o, Inserted) => o.key !in flows && |flows| < cfg.maxFlows
    case Answer(o, Full) => o.key !in flows && |flows| >= cfg.maxFlows
    case Evict(k, now) => k in flows && DoomedAt(cfg, k, flows[k], now)
  }

  ghost predicate Legal(cfg: FlowTrackerConfig, h: seq<Event>) {
    h != [] ==> Legal(cfg, h[..|h| - 1]) && Justified(cfg, Replay(h[..|h| - 1]), h[|h| - 1])
  }

  // The table as if the insertion in progress had already absorbed its packet.
  ghost function Flows(v: Variables): map<FlowKey, Rec> {
    match HolderPc(v)
    case Some(pc) => if Pending(pc) && pc.o.key in v.table then Absorb(v.table, pc.o) else v.table
    case None => v.table
  }

  function Insertions(h: seq<Event>): nat {
    if h == [] then 0
    else Insertions(h[..|h| - 1]) + (if h[|h| - 1].Answer? && h[|h| - 1].outcome == Inserted then 1 else 0)
  }

  function Evictions(h: seq<Event>): nat {
    if h == [] then 0 else Evictions(h[..|h| - 1]) + (if h[|h| - 1].Evict? then 1 else 0)
  }

  // The machine behaves as the atomic table: its history is legal there and leaves the same flows.
  ghost predicate Linearized(cfg: FlowTrackerConfig, v: Variables) {
    && Legal(cfg, v.history)
    && Flows(v) == Replay(v.history)
    && Insertions(v.history) == v.created + Uncreated(v)
    && Evictions(v.history) == v.evicted + Untotalled(v)
  }

  lemma HistoryPush(cfg: FlowTrackerConfig, h: seq<Event>, e: Event)
    ensures Legal(cfg, h + [e]) <==> Legal(cfg, h) && Justified(cfg, Replay(h), e)
    ensures Insertions(h + [e]) == Insertions(h) + (if e.Answer? && e.outcome == Inserted then 1 else 0)
    ensures Evictions(h + [e]) == Evictions(h) + (if e.Evict? then 1 else 0)
    ensures Replay(h + [e]) ==
      match e
      case Answer(o, Inserted) => Replay(h)[o.key := Rec(o.time, [o])]
      case Answer(o, Full) => Replay(h)
      case Answer(o, Found) => if o.key in Replay(h) then Absorb(Replay(h), o) else Replay(h)
      case Evict(k, now) => Replay(h) - {k}
  {
    assert (h + [e])[..|h|] == h;
  }

  lemma LookUpLinearized(cfg: FlowTrackerConfig, v: Variables, v': Variables, tid: nat)
    requires Inv(cfg, v) && Linearized(cfg, v) && v.holder == Free
    requires tid in v.pcs && v.pcs[tid].Looking? && v' == LookedUp(v, tid, v.pcs[tid].o)
    ensures Linearized(cfg, v')
  {
    hide Legal, Replay, Insertions, Evictions, Absorb, Counts, Filing;
    HistoryPush(cfg, v.history, Answer(v.pcs[tid].o, Found));
    assert HolderPc(v) == None && HolderPc(v') == None;
  }

  lemma RecheckLinearized(cfg: FlowTrackerConfig, v: Variables, v': Variables, tid: nat)
    requires Inv(cfg, v) && Linearized(cfg, v)
    requires tid in v.pcs && v.pcs[tid].Rechecking? && v' == Rechecked(cfg, v, tid, v.pcs[tid].o)
    ensures Linearized(cfg, v')
  {
    hide Legal, Replay, Insertions, Evictions, Counts, Filing;
    var o := v.pcs[tid].o;
    HistoryPush(cfg, v.history, Answer(o, Found));
    HistoryPush(cfg, v.history, Answer(o, Full));
    HistoryPush(cfg, v.history, Answer(o, Inserted));
    assert HolderPc(v) == Some(v.pcs[tid]);
    assert Push(Rec(o.time, []), o).absorbed == [o];
  }

  lemma ExamineLinearized(cfg: FlowTrackerConfig, v: Variables, v': Variables, k: FlowKey)
    requires Inv(cfg, v) && Linearized(cfg, v)
    requires v.reaper.Sweeping? && k in v.reaper.todo && k in v.table && v' == Examined(cfg, v, k)
    ensures Linearized(cfg, v')
  {
    hide Legal, Replay, Insertions, Evictions, Absorb, Counts, Filing, DoomedAt;
    HistoryPush(cfg, v.history, Evict(k, v.reaper.now));
    assert HolderPc(v) == None && HolderPc(v') == None;
  }

  lemma InsertionLinearized(cfg: FlowTrackerConfig, v: Variables, v': Variables, tid: nat, step: Step)
    requires Inv(cfg, v) && Linearized(cfg, v) && Next(cfg, v, v', step)
    requires step in {CountCreated(tid), CountActive(tid), AbsorbAndRelease(tid)}
    ensures Linearized(cfg, v')
  {
    hide Legal, Replay, Insertions, Evictions, Absorb, Counts, Filing, Observe, LookedUp, Rechecked, Examined;
    assert v.holder == Updater(tid) && HolderPc(v) == Some(v.pcs[tid]);
  }

  lemma OtherLinearized(cfg: FlowTrackerConfig, v: Variables, v': Variables, step: Step)
    requires Inv(cfg, v) && Linearized(cfg, v) && Next(cfg, v, v', step)
    requires step.Tick? || step.Arrive? || step.Acquire? || step.ReadClock? || step.ReaperAcquire?
          || step.CountDown? || step.AddTotal? || step.ReaperRelease?
    ensures Linearized(cfg, v')
  {
    hide Legal, Replay, Insertions, Evictions, Absorb, Counts, Filing, Observe, LookedUp, Rechecked, Examined;
    assert step.Acquire? ==> HolderPc(v) == None && HolderPc(v') == Some(v'.pcs[step.tid]);
    assert !step.Acquire? ==> HolderPc(v) == HolderPc(v');
  }

  lemma NextInv(cfg: FlowTrackerConfig, v: Variables, v': Variables, step: Step)
    requires Inv(cfg, v) && Next(cfg, v, v', step)
    ensures Inv(cfg, v')
    ensures Linearized(cfg, v) ==> Linearized(cfg, v')
  {
    hide Linearized, Exclusion, Counts, Filing, Observe, LookedUp, Rechecked, Examined, Absorb;
    NextExclusion(cfg, v, v', step);
    NextCounts(cfg, v, v', step);
    NextFiling(cfg, v, v', step);
    if Linearized(cfg, v) {
      match step
      case LookUp(tid) => LookUpLinearized(cfg, v, v', tid);
      case Recheck(tid) => RecheckLinearized(cfg, v, v', tid);
      case Examine(k) => ExamineLinearized(cfg, v, v', k);
      case CountCreated(tid) => InsertionLinearized(cfg, v, v', tid, step);
      case CountActive(tid) => InsertionLinearized(cfg, v, v', tid, step);
      case AbsorbAndRelease(tid) => InsertionLinearized(cfg, v, v', tid, step);
      case _ => OtherLinearized(cfg, v, v', step);
    }
  }

  // ---------------------------------------------------------------- whole runs

  // A run: states and the steps between them, from the empty table on.
  ghost predicate Run(cfg: FlowTrackerConfig, vs: seq<Variables>, steps: seq<Step>) {
    && |vs| == |steps| + 1
    && Init(vs[0])
    && (forall i :: 0 <= i < |steps| ==> Next(cfg, vs[i], vs[i + 1], steps[i]))
  }

  // Every interleaving refines the atomic find-or-insert table.
  lemma {:induction false} RunsAreLinearizable(cfg: FlowTrackerConfig, vs: seq<Variables>, steps: seq<Step>)
    requires Run(cfg, vs, steps)
    ensures Inv(cfg, vs[|steps|]) && Linearized(cfg, vs[|steps|])
    decreases |steps|
  {
    hide Inv, Linearized, Next;
    if |steps| == 0 {
      InitInv(cfg, vs[0]);
      InitLinearized(cfg, vs[0]);
    } else {
      var n := |steps| - 1;
      RunsAreLinearizable(cfg, vs[..n + 1], steps[..n]);
      NextInv(cfg, vs[n], vs[n + 1], steps[n]);
    }
  }

  lemma InitLinearized(cfg: FlowTrackerConfig, v: Variables)
    requires Init(v)
    ensures Linearized(cfg, v)
  {
  }

  // The counters agree with the table and with each other whenever nobody is inside the exclusive lock.
  lemma CountersAtRest(cfg: FlowTrackerConfig, v: Variables)
    requires Inv(cfg, v) && v.holder == Free
    ensures v.active == |v.table| <= cfg.maxFlows
    ensures v.created == v.active + v.evicted
  {
    assert HolderPc(v) == None;
  }

  // ---------------------------------------------------------------- every update is answered once

  // How often a history answers a given packet.
  function Answers(h: seq<Event>, o: Observation): nat {
    if h == [] then 0
    else
      var e := h[|h| - 1];
      Answers(h[..|h| - 1], o) + (if e.Answer? && e.o == o then 1 else 0)
  }

  // How often it arrived, read with the clock of the state in which it did.
  function Arrivals(vs: seq<Variables>, steps: seq<Step>, o: Observation): nat
    requires |vs| > |steps|
  {
    if steps == [] then 0
    else
      var n := |steps| - 1;
      Arrivals(vs, steps[..n], o) + (if Brings(vs[n], steps[n], o) then 1 else 0)
  }

  predicate Brings(v: Variables, step: Step, o: Observation) {
    step.Arrive? && Observe(step.p, v.clock) == o
  }

  // Updates with this packet under way that have not taken effect yet.
  ghost function Unanswered(pcs: map<nat, UpdaterPc>, o: Observation): set<nat> {
    set t | t in pcs && Owes(pcs[t], o)
  }

  predicate Owes(pc: UpdaterPc, o: Observation) {
    !Pending(pc) && pc.o == o
  }

  lemma AnswersPush(h: seq<Event>, e: Event, o: Observation)
    ensures Answers(h + [e], o) == Answers(h, o) + (if e.Answer? && e.o == o then 1 else 0)
  {
    assert (h + [e])[..|h|] == h;
  }

  lemma UnansweredIdle(pcs: map<nat, UpdaterPc>, tid: nat, o: Observation)
    requires tid in pcs
    ensures |Unanswered(Idle(pcs, tid), o)| == |Unanswered(pcs, o)| - (if Owes(pcs[tid], o) then 1 else 0)
  {
    assert Unanswered(Idle(pcs, tid), o) == Unanswered(pcs, o) - {tid};
  }

  lemma UnansweredMove(pcs: map<nat, UpdaterPc>, tid: nat, pc: UpdaterPc, o: Observation)
    ensures |Unanswered(pcs[tid := pc], o)|
         == |Unanswered(pcs, o)| + (if Owes(pc, o) then 1 else 0) - (if tid in pcs && Owes(pcs[tid], o) then 1 else 0)
  {
    hide Owes;
    var was, now := Unanswered(pcs, o), Unanswered(pcs[tid := pc], o);
    assert now - {tid} == was - {tid};
    assert |now - {tid}| == |now| - (if tid in now then 1 else 0);
    assert |was - {tid}| == |was| - (if tid in was then 1 else 0);
  }

  lemma NextAnswers(cfg: FlowTrackerConfig, v: Variables, v': Variables, step: Step, o: Observation)
    requires Next(cfg, v, v', step)
    ensures Answers(v'.history, o) + |Unanswered(v'.pcs, o)|
         == Answers(v.history, o) + |Unanswered(v.pcs, o)| + (if Brings(v, step, o) then 1 else 0)
  {
    hide Answers, Observe, DoomedAt, Absorb, Unanswered, Idle;
    match step
    case Arrive(tid, p) => UnansweredMove(v.pcs, tid, v'.pcs[tid], o);
    case LookUp(tid) =>
      AnswersPush(v.history, Answer(v.pcs[tid].o, Found), o);
      UnansweredIdle(v.pcs, tid, o);
      UnansweredMove(v.pcs, tid, Missed(v.pcs[tid].o), o);
    case Recheck(tid) => RecheckAnswers(cfg, v, v', tid, o);
    case Examine(k) => AnswersPush(v.history, Evict(k, v.reaper.now), o);
    case AbsorbAndRelease(tid) => UnansweredIdle(v.pcs, tid, o);
    case Acquire(tid) => UnansweredMove(v.pcs, tid, v'.pcs[tid], o);
    case CountCreated(tid) => UnansweredMove(v.pcs, tid, v'.pcs[tid], o);
    case CountActive(tid) => UnansweredMove(v.pcs, tid, v'.pcs[tid], o);
    case _ =>
  }

  lemma RecheckAnswers(cfg: FlowTrackerConfig, v: Variables, v': Variables, tid: nat, o: Observation)
    requires tid in v.pcs && v.pcs[tid].Rechecking? && v' == Rechecked(cfg, v, tid, v.pcs[tid].o)
    ensures Answers(v'.history, o) + |Unanswered(v'.pcs, o)| == Answers(v.history, o) + |Unanswered(v.pcs, o)|
  {
    hide Answers, Absorb, Unanswered, Idle;
    var mine := v.pcs[tid].o;
    AnswersPush(v.history, Answer(mine, Found), o);
    AnswersPush(v.history, Answer(mine, Full), o);
    AnswersPush(v.history, Answer(mine, Inserted), o);
    UnansweredIdle(v.pcs, tid, o);
    UnansweredMove(v.pcs, tid, Emplaced(mine), o);
  }

  // Along any run, every packet has been answered as often as it arrived, less the updates with it that
  // are still under way: none twice, none in place of another.
  lemma {:induction false} EveryUpdateAnsweredOnce(cfg: FlowTrackerConfig, vs: seq<Variables>, steps: seq<Step>, o: Observation)
    requires Run(cfg, vs, steps)
    ensures Arrivals(vs, steps, o) == Answers(vs[|steps|].history, o) + |Unanswered(vs[|steps|].pcs, o)|
    decreases |steps|
  {
    hide Next, Unanswered, Brings;
    if |steps| == 0 {
      InitUnanswered(vs[0], o);
    } else {
      var n := |steps| - 1;
      EveryUpdateAnsweredOnce(cfg, vs[..n + 1], steps[..n], o);
      ArrivalsPrefix(vs, steps[..n], n + 1, o);
      NextAnswers(cfg, vs[n], vs[n + 1], steps[n], o);
    }
  }

  lemma {:induction false} ArrivalsPrefix(vs: seq<Variables>, steps: seq<Step>, m: nat, o: Observation)
    requires |steps| < m <= |vs|
    ensures Arrivals(vs[..m], steps, o) == Arrivals(vs, steps, o)
  {
    hide Brings;
    if steps != [] {
      ArrivalsPrefix(vs, steps[..|steps| - 1], m, o);
    }
  }

  lemma InitUnanswered(v: Variables, o: Observation)
    requires Init(v)
    ensures Unanswered(v.pcs, o) == {} && v.history == []
  {
  }

  // ---------------------------------------------------------------- what legal histories say

  // The packets a key's current record holds, read off the history; empty when the key is not live.
  function Kept(h: seq<Event>, k: FlowKey): seq<Observation> {
    if h == [] then []
    else
      var kept := Kept(h[..|h| - 1], k);
      match h[|h| - 1]
      case Answer(o, Inserted) => if o.key == k then [o] else kept
      case Answer(o, Found) => if o.key == k then kept + [o] else kept
      case Answer(o, Full) => kept
      case Evict(k', now) => if k' == k then [] else kept
  }

  // A live record holds exactly the packets answered for its key since it was inserted, in order.
  lemma {:induction false} RecordsHoldTheirPackets(cfg: FlowTrackerConfig, h: seq<Event>, k: FlowKey)
    requires Legal(cfg, h)
    ensures k in Replay(h) <==> Kept(h, k) != []
    ensures k in Replay(h) ==> Replay(h)[k].absorbed == Kept(h, k)
  {
    hide DoomedAt;
    if h != [] {
      RecordsHoldTheirPackets(cfg, h[..|h| - 1], k);
    }
  }

  // Between two creations of one key the first record was evicted: no key is created twice while live.
  lemma {:induction false} NeverCreatedTwiceWhileLive(cfg: FlowTrackerConfig, h: seq<Event>, i: nat, j: nat)
    requires Legal(cfg, h) && i < j < |h|
    requires h[i].Answer? && h[i].outcome == Inserted && h[j].Answer? && h[j].outcome == Inserted
    requires h[i].o.key == h[j].o.key
    ensures exists m :: i < m < j && h[m].Evict? && h[m].k == h[i].o.key
  {
    hide Legal, Replay;
    InsertedWasAbsent(cfg, h, j);
    var k := h[i].o.key;
    if forall m :: i < m < j ==> !(h[m].Evict? && h[m].k == k) {
      LiveUntilEvicted(h, i, j);
    }
  }

  lemma InsertedWasAbsent(cfg: FlowTrackerConfig, h: seq<Event>, j: nat)
    requires Legal(cfg, h) && j < |h| && h[j].Answer? && h[j].outcome == Inserted
    ensures h[j].o.key !in Replay(h[..j])
  {
    hide Replay, DoomedAt;
    LegalPrefix(cfg, h, j + 1);
    assert h[..j + 1][..j] == h[..j];
  }

  lemma {:induction false} LegalPrefix(cfg: FlowTrackerConfig, h: seq<Event>, n: nat)
    requires Legal(cfg, h) && n <= |h|
    ensures Legal(cfg, h[..n])
  {
    if n < |h| {
      LegalPrefix(cfg, h[..|h| - 1], n);
      assert h[..|h| - 1][..n] == h[..n];
    } else {
      assert h[..n] == h;
    }
  }

  lemma {:induction false} LiveUntilEvicted(h: seq<Event>, i: nat, j: nat)
    requires i < j <= |h| && h[i].Answer? && h[i].outcome == Inserted
    requires forall m :: i < m < j ==> !(h[m].Evict? && h[m].k == h[i].o.key)
    ensures h[i].o.key in Replay(h[..j])
  {
    assert h[..j][..j - 1] == h[..j - 1];
    if j > i + 1 {
      LiveUntilEvicted(h, i, j - 1);
    }
  }
}
