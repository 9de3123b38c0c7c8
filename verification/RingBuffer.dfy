/** The bounded queue between the capture thread and the detector.

    The class is what each critical section does to the buffer. The step system interleaves any number
    of producers, one consumer and a shutdown, with the condition variable's waits and notifications
    made explicit. */
module RingBuffer {
  import opened NetTypes

  datatype Buffer<T> = Buffer(queue: seq<T>, shutdown: bool, pushed: nat, popped: nat, dropped: nat)

  function Accept<T>(b: Buffer<T>, x: T): Buffer<T> {
    b.(queue := b.queue + [x], pushed := b.pushed + 1)
  }

  function Refuse<T>(b: Buffer<T>): Buffer<T> {
    b.(dropped := b.dropped + 1)
  }

  function TakeHead<T>(b: Buffer<T>): Buffer<T>
    requires b.queue != []
  {
    b.(queue := b.queue[1..], popped := b.popped + 1)
  }

  class PacketRingBuffer<T> {
    const maxCapacity: nat
    var queue: seq<T>
    var shutdownFlag: bool
    var pushedCount: nat
    var poppedCount: nat
    var droppedCount: nat

    ghost function View(): Buffer<T>
      reads this
    {
      Buffer(queue, shutdownFlag, pushedCount, poppedCount, droppedCount)
    }

    ghost predicate Valid()
      reads this
    {
      |queue| <= maxCapacity && pushedCount == poppedCount + |queue|
    }

    constructor (capacity: nat)
      ensures Valid() && View() == Buffer([], false, 0, 0, 0) && maxCapacity == capacity
    {
      maxCapacity := capacity;
      queue, shutdownFlag := [], false;
      pushedCount, poppedCount, droppedCount := 0, 0, 0;
    }

    // Inside the mutex; the caller then owes one notification when the packet was accepted.
    method Push(packet: T) returns (accepted: bool)
      requires Valid()
      modifies this
      ensures Valid()
      ensures accepted <==> |old(queue)| < maxCapacity
      ensures View() == if accepted then Accept(old(View()), packet) else Refuse(old(View()))
    {
      if |queue| >= maxCapacity {
        droppedCount := droppedCount + 1;
        return false;
      }
      queue := queue + [packet];
      pushedCount := pushedCount + 1;
      accepted := true;
    }

    // Inside the mutex, once the wait is over.
    method Pop() returns (out: Option<T>)
      requires Valid()
      requires queue != [] || shutdownFlag
      modifies this
      ensures Valid()
      ensures out == None <==> old(queue) == []
      ensures out.Some? ==> out.value == old(queue)[0] && View() == TakeHead(old(View()))
      ensures out == None ==> shutdownFlag && View() == old(View())
    {
      if queue == [] {
        return None;
      }
      out := Some(queue[0]);
      queue := queue[1..];
      poppedCount := poppedCount + 1;
    }

    // Outside the mutex.
    method Shutdown()
      requires Valid()
      modifies `shutdownFlag
      ensures Valid() && View() == old(View()).(shutdown := true)
    {
      shutdownFlag := true;
    }
  }

  // ---------------------------------------------------------------- the protocol

  datatype ConsumerPc =
    | Running                  // between calls, or about to evaluate the wait predicate
    | Deciding                 // predicate found false; mutex still held
    | Waiting(notified: bool)  // blocked; mutex released
    | Stopped                  // pop returned false

  datatype Shutter = Open | Stored | Announced

  // `accepted`, `delivered`, `attempts` and `raced` only record.
  datatype Variables<T> = Variables(
    buf: Buffer<T>, owing: set<nat>, consumer: ConsumerPc, shutter: Shutter,
    accepted: seq<T>, delivered: seq<T>, attempts: nat, raced: bool)

  datatype Step<T> =
    | PushStep(tid: nat, x: T)
    | NotifyStep(tid: nat)
    | CheckStep
    | BlockStep
    | WakeStep
    | StoreFlagStep
    | NotifyAllStep

  ghost predicate Init<T(!new)>(v: Variables<T>) {
    v == Variables(Buffer([], false, 0, 0, 0), {}, Running, Open, [], [], 0, false)
  }

  function Notified(c: ConsumerPc): ConsumerPc {
    if c.Waiting? then Waiting(true) else c
  }

  ghost predicate Next<T(!new)>(capacity: nat, v: Variables<T>, v': Variables<T>, step: Step<T>) {
    match step
    case PushStep(tid, x) =>
      && v.consumer != Deciding && tid !in v.owing
      && v' == (if |v.buf.queue| >= capacity then v.(buf := Refuse(v.buf), attempts := v.attempts + 1)
                else v.(buf := Accept(v.buf, x), attempts := v.attempts + 1,
                        accepted := v.accepted + [x], owing := v.owing + {tid}))
    case NotifyStep(tid) => tid in v.owing && v' == v.(owing := v.owing - {tid}, consumer := Notified(v.consumer))
    case CheckStep =>
      && v.consumer == Running
      && v' == (if v.buf.queue != []
                then v.(buf := TakeHead(v.buf), delivered := v.delivered + [v.buf.queue[0]])
                else if v.buf.shutdown then v.(consumer := Stopped)
                else v.(consumer := Deciding))
    case BlockStep => v.consumer == Deciding && v' == v.(consumer := Waiting(false))
    // Notified or spurious: the predicate is evaluated again.
    case WakeStep => v.consumer.Waiting? && v' == v.(consumer := Running)
    // The flag is stored without the mutex, so also between a failed check and the block.
    case StoreFlagStep =>
      && v.shutter == Open
      && v' == v.(buf := v.buf.(shutdown := true), shutter := Stored, raced := v.consumer == Deciding)
    case NotifyAllStep => v.shutter == Stored && v' == v.(shutter := Announced, consumer := Notified(v.consumer))
  }

  ghost predicate Inv<T(!new)>(capacity: nat, v: Variables<T>) {
    && v.accepted == v.delivered + v.buf.queue
    && v.buf.pushed == |v.accepted|
    && v.buf.popped == |v.delivered|
    && v.attempts == v.buf.pushed + v.buf.dropped
    && |v.buf.queue| <= capacity
    && (v.buf.shutdown <==> v.shutter != Open)
    && (v.consumer == Deciding ==> v.buf.queue == [])
    && (v.consumer == Stopped ==> v.buf.shutdown)
    // No wakeup by a push is lost: a blocked, un-notified consumer over a non-empty queue has a debtor.
    && (v.consumer == Waiting(false) && v.buf.queue != [] ==> v.owing != {})
    // The wakeup of a shutdown can only be lost to the unlocked store.
    && (v.consumer == Deciding && v.shutter != Open ==> v.raced)
    && (v.consumer == Waiting(false) && v.shutter == Announced ==> v.raced)
  }

  lemma NextInv<T(!new)>(capacity: nat, v: Variables<T>, v': Variables<T>, step: Step<T>)
    requires Inv(capacity, v) && Next(capacity, v, v', step)
    ensures Inv(capacity, v')
  {
    match step
    case PushStep(tid, x) =>
      assert v.accepted + [x] == v.delivered + (v.buf.queue + [x]);
      assert tid in v.owing + {tid};
    case CheckStep =>
      if v.buf.queue != [] {
        assert v.buf.queue == [v.buf.queue[0]] + v.buf.queue[1..];
      }
    case _ =>
  }

  ghost predicate Run<T(!new)>(capacity: nat, vs: seq<Variables<T>>, steps: seq<Step<T>>) {
    && |vs| == |steps| + 1
    && Init(vs[0])
    && (forall i :: 0 <= i < |steps| ==> Next(capacity, vs[i], vs[i + 1], steps[i]))
  }

  // First in, first out, with nothing lost, duplicated or counted twice, in every state of every run.
  lemma {:induction false} RunsConserve<T(!new)>(capacity: nat, vs: seq<Variables<T>>, steps: seq<Step<T>>)
    requires Run(capacity, vs, steps)
    ensures Inv(capacity, vs[|steps|])
    decreases |steps|
  {
    hide Next, Inv;
    if |steps| == 0 {
      InitInv(capacity, vs[0]);
    } else {
      var n := |steps| - 1;
      RunsConserve(capacity, vs[..n + 1], steps[..n]);
      NextInv(capacity, vs[n], vs[n + 1], steps[n]);
    }
  }

  lemma InitInv<T(!new)>(capacity: nat, v: Variables<T>)
    requires Init(v)
    ensures Inv(capacity, v)
  {
  }

  // Along a run the attempts are the push calls, each accepted or refused.
  function Pushes<T>(steps: seq<Step<T>>): nat {
    if steps == [] then 0 else Pushes(steps[..|steps| - 1]) + (if steps[|steps| - 1].PushStep? then 1 else 0)
  }

  lemma {:induction false} AttemptsAreCalls<T(!new)>(capacity: nat, vs: seq<Variables<T>>, steps: seq<Step<T>>)
    requires Run(capacity, vs, steps)
    ensures Pushes(steps) == vs[|steps|].buf.pushed + vs[|steps|].buf.dropped
    decreases |steps|
  {
    if |steps| > 0 {
      var n := |steps| - 1;
      AttemptsAreCalls(capacity, vs[..n + 1], steps[..n]);
      assert Next(capacity, vs[n], vs[n + 1], steps[n]);
    }
  }

  // pop gives up only over an empty queue after a shutdown.
  lemma StopsOnlyWhenDrained<T(!new)>(capacity: nat, v: Variables<T>, v': Variables<T>, step: Step<T>)
    requires Inv(capacity, v) && Next(capacity, v, v', step)
    requires v.consumer != Stopped && v'.consumer == Stopped
    ensures v'.buf.shutdown && v'.buf.queue == [] && v'.delivered == v'.accepted
  {
    assert v'.delivered + [] == v'.delivered;
  }

  // A consumer left waiting, with no notification, after the shutdown was announced.
  ghost predicate ShutdownMissed<T(!new)>(v: Variables<T>) {
    v.consumer == Waiting(false) && v.shutter == Announced
  }

  // The run: the consumer finds the queue empty; before it blocks, the flag is stored and announced.
  lemma ShutdownCanBeMissed<T(!new)>()
    ensures exists vs: seq<Variables<T>>, steps: seq<Step<T>> ::
      Run(1, vs, steps) && ShutdownMissed(vs[|steps|])
  {
    var open: Buffer<T> := Buffer([], false, 0, 0, 0);
    var shut: Buffer<T> := Buffer([], true, 0, 0, 0);
    var v0 := Variables(open, {}, Running, Open, [], [], 0, false);
    var v1 := v0.(consumer := Deciding);
    var v2 := v1.(buf := shut, shutter := Stored, raced := true);
    var v3 := v2.(shutter := Announced);
    var v4 := v3.(consumer := Waiting(false));
    var vs: seq<Variables<T>> := [v0, v1, v2, v3, v4];
    var steps: seq<Step<T>> := [CheckStep, StoreFlagStep, NotifyAllStep, BlockStep];
    assert Next(1, v0, v1, CheckStep);
    assert Next(1, v1, v2, StoreFlagStep);
    assert Next(1, v2, v3, NotifyAllStep);
    assert Next(1, v3, v4, BlockStep);
    assert Run(1, vs, steps);
    assert ShutdownMissed(vs[|steps|]);
  }

  // The announcement at step i fell between the consumer's check and its block at step j, and nothing has
  // notified or woken the consumer since.
  ghost predicate Unheard<T(!new)>(vs: seq<Variables<T>>, steps: seq<Step<T>>, m: nat, i: nat, j: nat)
    requires |vs| == |steps| + 1 && m <= |steps|
  {
    && i < j < m && steps[i].NotifyAllStep? && vs[i].consumer == Deciding
    && steps[j].BlockStep? && (forall k :: i < k < j ==> !steps[k].BlockStep?)
    && (forall k :: j < k < m ==> !steps[k].NotifyStep? && !steps[k].WakeStep?)
  }

  // Exactly so is a shutdown missed.
  lemma MissedIff<T(!new)>(capacity: nat, vs: seq<Variables<T>>, steps: seq<Step<T>>)
    requires Run(capacity, vs, steps)
    ensures ShutdownMissed(vs[|steps|]) <==> exists i, j :: Unheard(vs, steps, |steps|, i, j)
  {
    var n := |steps|;
    if ShutdownMissed(vs[n]) {
      var i, j := MissedHasCause(capacity, vs, steps, n);
    }
    if i, j :| Unheard(vs, steps, n, i, j) {
      StillDeciding(capacity, vs, steps, i, j, j);
      StillMissed(capacity, vs, steps, j, n);
    }
  }

  lemma InvAt<T(!new)>(capacity: nat, vs: seq<Variables<T>>, steps: seq<Step<T>>, m: nat)
    requires Run(capacity, vs, steps) && m <= |steps|
    ensures Inv(capacity, vs[m])
  {
    RunsConserve(capacity, vs[..m + 1], steps[..m]);
  }

  lemma {:induction false} StillDeciding<T(!new)>(capacity: nat, vs: seq<Variables<T>>, steps: seq<Step<T>>, i: nat, j: nat, m: nat)
    requires Run(capacity, vs, steps) && i < m <= j < |steps|
    requires steps[i].NotifyAllStep? && vs[i].consumer == Deciding && forall k :: i < k < j ==> !steps[k].BlockStep?
    ensures vs[m].consumer == Deciding && vs[m].shutter == Announced
    decreases m
  {
    assert Next(capacity, vs[m - 1], vs[m], steps[m - 1]);
    if m - 1 > i {
      StillDeciding(capacity, vs, steps, i, j, m - 1);
    }
  }

  lemma {:induction false} StillMissed<T(!new)>(capacity: nat, vs: seq<Variables<T>>, steps: seq<Step<T>>, j: nat, m: nat)
    requires Run(capacity, vs, steps) && j < m <= |steps|
    requires steps[j].BlockStep? && vs[j].consumer == Deciding && vs[j].shutter == Announced
    requires forall k :: j < k < m ==> !steps[k].NotifyStep? && !steps[k].WakeStep?
    ensures ShutdownMissed(vs[m])
    decreases m
  {
    assert Next(capacity, vs[m - 1], vs[m], steps[m - 1]);
    if m - 1 > j {
      StillMissed(capacity, vs, steps, j, m - 1);
    }
  }

  lemma {:induction false} MissedHasCause<T(!new)>(capacity: nat, vs: seq<Variables<T>>, steps: seq<Step<T>>, m: nat)
    returns (i: nat, j: nat)
    requires Run(capacity, vs, steps) && m <= |steps| && ShutdownMissed(vs[m])
    ensures Unheard(vs, steps, m, i, j)
    decreases m
  {
    hide Inv;
    assert m > 0;
    assert Next(capacity, vs[m - 1], vs[m], steps[m - 1]);
    if steps[m - 1].BlockStep? {
      j := m - 1;
      i := DecidingHasCause(capacity, vs, steps, j);
    } else {
      i, j := MissedHasCause(capacity, vs, steps, m - 1);
    }
  }

  lemma {:induction false} DecidingHasCause<T(!new)>(capacity: nat, vs: seq<Variables<T>>, steps: seq<Step<T>>, m: nat)
    returns (i: nat)
    requires Run(capacity, vs, steps) && m <= |steps| && vs[m].consumer == Deciding && vs[m].shutter == Announced
    ensures i < m && steps[i].NotifyAllStep? && vs[i].consumer == Deciding
    ensures forall k :: i < k < m ==> !steps[k].BlockStep?
    decreases m
  {
    assert m > 0;
    InvAt(capacity, vs, steps, m - 1);
    assert Next(capacity, vs[m - 1], vs[m], steps[m - 1]);
    if steps[m - 1].NotifyAllStep? {
      i := m - 1;
    } else {
      i := DecidingHasCause(capacity, vs, steps, m - 1);
    }
  }

  // In particular storing the flag under the mutex, never while the consumer is deciding, rules it out.
  lemma MissedOnlyThroughUnlockedStore<T(!new)>(capacity: nat, vs: seq<Variables<T>>, steps: seq<Step<T>>)
    requires Run(capacity, vs, steps) && ShutdownMissed(vs[|steps|])
    ensures exists i :: 0 <= i < |steps| && steps[i].StoreFlagStep? && vs[i].consumer == Deciding
  {
    RunsConserve(capacity, vs, steps);
    RacedHasCause(capacity, vs, steps);
  }

  lemma {:induction false} RacedHasCause<T(!new)>(capacity: nat, vs: seq<Variables<T>>, steps: seq<Step<T>>)
    requires Run(capacity, vs, steps) && vs[|steps|].raced
    ensures exists i :: 0 <= i < |steps| && steps[i].StoreFlagStep? && vs[i].consumer == Deciding
    decreases |steps|
  {
    if |steps| > 0 {
      var n := |steps| - 1;
      assert Next(capacity, vs[n], vs[n + 1], steps[n]);
      if vs[n].raced {
        RacedHasCause(capacity, vs[..n + 1], steps[..n]);
        var i :| 0 <= i < n && steps[..n][i].StoreFlagStep? && vs[..n + 1][i].consumer == Deciding;
        assert steps[i].StoreFlagStep? && vs[i].consumer == Deciding;
      }
    }
  }
}
