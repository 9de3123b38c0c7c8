/** Alert delivery: the queue into the writer thread, the hand-over to storage, and the display ring.

    The class is what each critical section does. The step system interleaves any number of enqueuers
    with the writer, from start to the final drain. */
module Delivery {
  import opened NetTypes

  const DISPLAY_RING_SIZE := 50

  // The last (at most) n elements.
  function Suffix<T>(s: seq<T>, n: nat): seq<T> {
    if |s| <= n then s else s[|s| - n..]
  }

  // Append to the display ring and trim it from the front.
  method Show<A>(ring: seq<A>, a: A) returns (trimmed: seq<A>)
    ensures trimmed == Suffix(ring + [a], DISPLAY_RING_SIZE)
    ensures |trimmed| == if |ring| < 50 then |ring| + 1 else 50
    ensures |trimmed| == if |ring| < 50 then |ring| + 1 else 50
  {
    trimmed := ring + [a];
    while |trimmed| > DISPLAY_RING_SIZE
      invariant |trimmed| <= |ring| + 1
      invariant trimmed == (ring + [a])[|ring| + 1 - |trimmed|..]
      invariant |ring| + 1 >= DISPLAY_RING_SIZE ==> |trimmed| >= DISPLAY_RING_SIZE
      invariant |ring| + 1 < DISPLAY_RING_SIZE ==> trimmed == ring + [a]
    {
      trimmed := trimmed[1..];
    }
  }

  class DeliveryLayer<A> {
    var alertQueue: seq<A>
    var displayRing: seq<A>
    var totalPersisted: nat

    // Every alert handed to storage, in order; storing it may have failed.
    ghost var handed: seq<A>
    // The alerts of the main loop, without those of the final drain.
    ghost var shown: seq<A>

    ghost predicate Valid()
      reads this
    {
      displayRing == Suffix(shown, DISPLAY_RING_SIZE) && totalPersisted <= |handed|
    }

    constructor ()
      ensures Valid() && alertQueue == [] && handed == [] && shown == []
    {
      alertQueue, displayRing, totalPersisted := [], [], 0;
      handed, shown := [], [];
    }

    method EnqueueAlert(a: A)
      requires Valid()
      modifies `alertQueue
      ensures Valid()
      ensures alertQueue == old(alertQueue) + [a]
    {
      alertQueue := alertQueue + [a];
    }

    method PersistAlert(a: A, stored: bool)
      requires Valid()
      modifies `totalPersisted, `handed
      ensures Valid()
      ensures handed == old(handed) + [a]
      ensures totalPersisted == old(totalPersisted) + (if stored then 1 else 0)
    {
      handed := handed + [a];
      if stored {
        totalPersisted := totalPersisted + 1;
      }
    }

    // One round of the writer's main loop over a non-empty queue.
    method WriteOne(stored: bool)
      requires Valid() && alertQueue != []
      modifies this
      ensures Valid()
      ensures alertQueue == old(alertQueue)[1..]
      ensures handed == old(handed) + [old(alertQueue)[0]] && shown == old(shown) + [old(alertQueue)[0]]
    {
      var a := alertQueue[0];
      alertQueue := alertQueue[1..];
      PersistAlert(a, stored);
      displayRing := Show(displayRing, a);
      SuffixPush(shown, a, DISPLAY_RING_SIZE);
      shown := shown + [a];
    }

    // The drain after the main loop has ended.
    method Drain(storing: A -> bool)
      requires Valid()
      modifies this
      ensures Valid()
      ensures alertQueue == [] && shown == old(shown)
      ensures handed == old(handed) + old(alertQueue)
    {
      while alertQueue != []
        invariant Valid() && shown == old(shown)
        invariant handed + alertQueue == old(handed) + old(alertQueue)
        decreases |alertQueue|
      {
        var a := alertQueue[0];
        PersistAlert(a, storing(a));
        alertQueue := alertQueue[1..];
      }
    }
  }

  // The last n of a longer sequence, from the last n of what came before.
  lemma SuffixPush<T>(s: seq<T>, x: T, n: nat)
    requires n > 0
    ensures Suffix(Suffix(s, n) + [x], n) == Suffix(s + [x], n)
  {
  }

  // ---------------------------------------------------------------- the protocol

  datatype WriterPc<A> =
    | Testing            // at the head of the main loop
    | Waiting            // inside the wait, mutex released
    | InHand(a: A)       // popped, not yet handed to storage
    | HandedOver(a: A)   // stored, not yet on display
    | Draining           // main loop left; mutex held to the end
    | Returned

  // `enqueued`, `handed` and `shown` only record.
  datatype Variables<A> = Variables(
    queue: seq<A>, running: bool, writer: WriterPc<A>, ring: seq<A>,
    enqueued: seq<A>, handed: seq<A>, shown: seq<A>)

  datatype Step<A> =
    | EnqueueStep(a: A)
    | StopStep
    | TestStep
    | TakeStep
    | PersistStep
    | ShowStep
    | DrainStep
    | ReturnStep

  ghost predicate Init<A(!new)>(v: Variables<A>) {
    v == Variables([], true, Testing, [], [], [], [])
  }

  ghost predicate Next<A(!new)>(v: Variables<A>, v': Variables<A>, step: Step<A>) {
    match step
    case EnqueueStep(a) =>
      v.writer != Draining && v' == v.(queue := v.queue + [a], enqueued := v.enqueued + [a])
    case StopStep => v.running && v' == v.(running := false)
    case TestStep => v.writer == Testing && v' == v.(writer := if v.running then Waiting else Draining)
    // The wait ends when there is an alert or the layer is stopping; with neither it goes on.
    case TakeStep =>
      && v.writer == Waiting && (v.queue != [] || !v.running)
      && v' == (if v.queue == [] then v.(writer := Testing)
                else v.(queue := v.queue[1..], writer := InHand(v.queue[0])))
    case PersistStep => v.writer.InHand? && v' == v.(handed := v.handed + [v.writer.a], writer := HandedOver(v.writer.a))
    case ShowStep =>
      && v.writer.HandedOver?
      && v' == v.(ring := Suffix(v.ring + [v.writer.a], DISPLAY_RING_SIZE), shown := v.shown + [v.writer.a],
                  writer := Testing)
    case DrainStep =>
      && v.writer == Draining && v.queue != []
      && v' == v.(handed := v.handed + [v.queue[0]], queue := v.queue[1..])
    case ReturnStep => v.writer == Draining && v.queue == [] && v' == v.(writer := Returned)
  }

  // The alert popped but not yet handed over, if any.
  function Held<A>(w: WriterPc<A>): seq<A> {
    if w.InHand? then [w.a] else []
  }

  // The alert handed over but not yet on display, if any.
  function Hidden<A>(w: WriterPc<A>): seq<A> {
    if w.HandedOver? then [w.a] else []
  }

  ghost predicate Inv<A(!new)>(v: Variables<A>) {
    && v.enqueued == v.handed + Held(v.writer) + v.queue
    && v.ring == Suffix(v.shown, DISPLAY_RING_SIZE)
    && v.shown + Hidden(v.writer) <= v.handed
    && (!v.writer.Draining? && !v.writer.Returned? ==> v.shown + Hidden(v.writer) == v.handed)
    && (v.writer.Draining? || v.writer.Returned? ==> !v.running)
  }

  lemma NextInv<A(!new)>(v: Variables<A>, v': Variables<A>, step: Step<A>)
    requires Inv(v) && Next(v, v', step)
    ensures Inv(v')
  {
    hide Suffix;
    match step
    case EnqueueStep(a) => assert v'.enqueued == v.handed + Held(v.writer) + (v.queue + [a]);
    case TakeStep =>
      if v.queue != [] {
        assert v.queue == [v.queue[0]] + v.queue[1..];
        assert v.handed + [] + v.queue == v.handed + [v.queue[0]] + v.queue[1..];
      }
    case PersistStep => assert v.shown + [v.writer.a] == v'.handed;
    case ShowStep => SuffixPush(v.shown, v.writer.a, DISPLAY_RING_SIZE);
    case DrainStep =>
      assert v.queue == [v.queue[0]] + v.queue[1..];
      assert v.handed + [] + v.queue == v.handed + [v.queue[0]] + [] + v.queue[1..];
    case _ =>
  }

  ghost predicate Run<A(!new)>(vs: seq<Variables<A>>, steps: seq<Step<A>>) {
    && |vs| == |steps| + 1
    && Init(vs[0])
    && (forall i :: 0 <= i < |steps| ==> Next(vs[i], vs[i + 1], steps[i]))
  }

  // In every state of every run: what was handed to storage, then the alert in hand, then the queue,
  // is what was enqueued; the ring shows the last alerts of the main loop.
  lemma {:induction false} RunsConserve<A(!new)>(vs: seq<Variables<A>>, steps: seq<Step<A>>)
    requires Run(vs, steps)
    ensures Inv(vs[|steps|])
    decreases |steps|
  {
    hide Next, Inv;
    if |steps| == 0 {
      InitInv(vs[0]);
    } else {
      var n := |steps| - 1;
      RunsConserve(vs[..n + 1], steps[..n]);
      NextInv(vs[n], vs[n + 1], steps[n]);
    }
  }

  lemma InitInv<A(!new)>(v: Variables<A>)
    requires Init(v)
    ensures Inv(v)
  {
  }

  // Enqueuing has ceased when the writer returns: then every alert was handed over exactly once, in order.
  lemma DrainedWhenQuiet<A(!new)>(vs: seq<Variables<A>>, steps: seq<Step<A>>)
    requires Run(vs, steps) && vs[|steps|].writer == Returned
    requires forall i :: 0 <= i < |steps| && vs[i].writer == Returned ==> !steps[i].EnqueueStep?
    ensures vs[|steps|].handed == vs[|steps|].enqueued && vs[|steps|].queue == []
  {
    var n := |steps| - 1;
    RunsConserve(vs[..n + 1], steps[..n]);
    assert Next(vs[n], vs[n + 1], steps[n]);
    assert vs[n].writer == Draining;
    assert vs[n].handed + [] + [] == vs[n].handed;
  }

  // However late an alert is enqueued, it is never handed over twice: what is handed over is always a
  // prefix of what was enqueued.
  lemma NothingHandedTwice<A(!new)>(vs: seq<Variables<A>>, steps: seq<Step<A>>)
    requires Run(vs, steps)
    ensures vs[|steps|].handed <= vs[|steps|].enqueued
    ensures multiset(vs[|steps|].handed) <= multiset(vs[|steps|].enqueued)
  {
    RunsConserve(vs, steps);
    var v := vs[|steps|];
    assert v.enqueued == v.handed + (Held(v.writer) + v.queue);
  }

  // In every state of every run the display ring holds the last fifty alerts of the main loop, or all of them.
  lemma RingShowsTheLast<A(!new)>(vs: seq<Variables<A>>, steps: seq<Step<A>>)
    requires Run(vs, steps)
    ensures var v := vs[|steps|];
      && |v.ring| == (if |v.shown| < 50 then |v.shown| else 50)
      && v.ring == v.shown[|v.shown| - |v.ring|..]
  {
    RunsConserve(vs, steps);
  }
}
