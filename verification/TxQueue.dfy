/**
 Stopping and waking the transmit queue.

 A sender that finds fewer than 16 descriptors free stops the queue before it
 queues its packet; a completion that finds the queue stopped and more than 32
 free wakes it. Sender and completion run on different CPUs, so looking, stopping
 and queueing are separate steps here, and so are completing, looking at the
 queue, looking at the ring and waking. The stack serialises senders and starts
 none while the queue is stopped; completions of one ring are serialised too.
 All sends are accepted and complete without error.
 */
module TxQueue {

  const STOP_BELOW := 16
  const WAKE_ABOVE := 32

  datatype Sender = NotSending | SawLittleRoom | AboutToQueue

  datatype Callback = NotCompleting | Completed | SawStopped | AboutToWake

  /** `cap` descriptors of which `used` are outstanding; `refused` counts packets that found the ring full. */
  datatype Queue = Queue(cap: nat, used: nat, stopped: bool, sender: Sender, callback: Callback, refused: nat)

  datatype Step = SenderLooks | SenderStops | SenderQueues | DeviceCompletes | CallbackLooks | CallbackCounts | CallbackWakes

  function Start(cap: nat): Queue { Queue(cap, 0, false, NotSending, NotCompleting, 0) }

  /** A step whose turn it is not leaves the queue alone. */
  function Apply(q: Queue, step: Step): Queue {
    match step
    case SenderLooks =>
      if q.stopped || q.sender != NotSending then q
      else q.(sender := if q.cap - q.used < STOP_BELOW then SawLittleRoom else AboutToQueue)
    case SenderStops =>
      if q.sender == SawLittleRoom then q.(stopped := true, sender := AboutToQueue) else q
    case SenderQueues =>
      if q.sender != AboutToQueue then q
      else if q.used < q.cap then q.(used := q.used + 1, sender := NotSending)
      else q.(refused := q.refused + 1, sender := NotSending)
    case DeviceCompletes =>
      if q.used > 0 && q.callback == NotCompleting then q.(used := q.used - 1, callback := Completed) else q
    case CallbackLooks =>
      if q.callback == Completed then q.(callback := if q.stopped then SawStopped else NotCompleting) else q
    case CallbackCounts =>
      if q.callback == SawStopped then q.(callback := if q.cap - q.used > WAKE_ABOVE then AboutToWake else NotCompleting) else q
    case CallbackWakes =>
      if q.callback == AboutToWake then q.(stopped := false, callback := NotCompleting) else q
  }

  function Run(q: Queue, steps: seq<Step>): Queue
    decreases |steps|
  {
    if steps == [] then q else Apply(Run(q, steps[..|steps|-1]), steps[|steps|-1])
  }

  /**
   What every interleaving keeps: a sender always finds room, and a stopped
   queue has an element outstanding, a sender about to add one, or a callback
   that will look again.
   */
  predicate Inv(q: Queue) {
    && q.used <= q.cap && q.refused == 0
    && (q.sender != NotSending ==> q.used < q.cap)
    && (q.sender == SawLittleRoom ==> !q.stopped)
    && (!q.stopped && q.sender == NotSending ==> q.used == 0 || q.cap - q.used >= STOP_BELOW - 1)
    && (!q.stopped && q.sender == AboutToQueue ==> q.cap - q.used >= STOP_BELOW)
    && (q.callback in {SawStopped, AboutToWake} ==> q.stopped)
    && (q.callback == AboutToWake ==> q.cap - q.used >= if q.sender == AboutToQueue then WAKE_ABOVE + 1 else WAKE_ABOVE)
    && (q.stopped && q.sender == NotSending ==> q.used > 0 || q.callback != NotCompleting || q.cap <= WAKE_ABOVE)
  }

  lemma {:induction false} InvAlways(cap: nat, steps: seq<Step>)
    requires 1 <= cap
    ensures Inv(Run(Start(cap), steps)) && Run(Start(cap), steps).cap == cap
    decreases |steps|
  {
    if steps != [] {
      InvAlways(cap, steps[..|steps|-1]);
    }
  }

  /**
   A sender always finds room, and a stopped queue always has someone to wake
   it: an element outstanding, a sender about to add one, or a callback still
   to look.
   */
  lemma NeverStalls(cap: nat, steps: seq<Step>)
    requires 32 < cap
    ensures var q := Run(Start(cap), steps);
            && q.refused == 0
            && (q.stopped ==> q.used > 0 || q.sender == AboutToQueue || q.callback != NotCompleting)
  {
    InvAlways(cap, steps);
  }

  /** A sender stops an awake queue exactly if it finds fewer than 16 descriptors free; a callback wakes a stopped one exactly if it finds more than 32. */
  lemma Thresholds(q: Queue)
    requires q.used <= q.cap
    ensures !q.stopped && q.sender == NotSending ==>
              (Apply(Apply(q, SenderLooks), SenderStops).stopped <==> q.cap - q.used < 16)
    ensures q.stopped && q.callback == Completed ==>
              (Apply(Apply(Apply(q, CallbackLooks), CallbackCounts), CallbackWakes).stopped <==> q.cap - q.used <= 32)
  {
  }

  /** The ring has drained and neither side is in the middle of anything. */
  predicate Drained(q: Queue) { q.used == 0 && q.sender == NotSending && q.callback == NotCompleting }

  ghost predicate DrainingWakes(cap: nat) {
    forall steps :: Drained(Run(Start(cap), steps)) ==> !Run(Start(cap), steps).stopped
  }

  /**
   Draining the ring wakes the queue, whatever the interleaving, exactly if the
   ring takes more than 32 elements. A smaller one never has more than 32 free,
   and once stopped stays stopped.
   */
  lemma DrainingWakesIffLarge(cap: nat)
    ensures DrainingWakes(cap) <==> cap > 32
  {
    if cap > WAKE_ABOVE {
      forall steps | Drained(Run(Start(cap), steps))
        ensures !Run(Start(cap), steps).stopped
      {
        InvAlways(cap, steps);
      }
    } else {
      var full := FillUp(cap, if cap < STOP_BELOW then 0 else cap + 1 - STOP_BELOW);
      var steps := StopThere(cap, full);
      var drained := Drain(cap, steps);
      assert Drained(Run(Start(cap), drained)) && Run(Start(cap), drained).stopped;
    }
  }

  /** Whatever has happened, the device can always complete what is outstanding, and on a large ring the queue is then awake. */
  lemma DrainsAwake(cap: nat, before: seq<Step>) returns (steps: seq<Step>)
    requires 1 <= cap
    ensures before <= steps && Drained(Run(Start(cap), steps))
    ensures cap > 32 ==> !Run(Start(cap), steps).stopped
  {
    steps := FinishSender(cap, before);
    steps := FinishCallback(cap, steps);
    steps := CompleteAll(cap, steps);
    DrainingWakesIffLarge(cap);
  }

  lemma FinishSender(cap: nat, before: seq<Step>) returns (steps: seq<Step>)
    requires 1 <= cap
    ensures before <= steps && Run(Start(cap), steps).sender == NotSending
  {
    steps := before;
    if Run(Start(cap), steps).sender == SawLittleRoom {
      steps := Then(Start(cap), steps, SenderStops);
    }
    if Run(Start(cap), steps).sender == AboutToQueue {
      steps := Then(Start(cap), steps, SenderQueues);
    }
  }

  lemma FinishCallback(cap: nat, before: seq<Step>) returns (steps: seq<Step>)
    requires 1 <= cap && Run(Start(cap), before).sender == NotSending
    ensures var q, q' := Run(Start(cap), before), Run(Start(cap), steps);
            before <= steps && q'.sender == NotSending && q'.callback == NotCompleting && q'.used == q.used
  {
    steps := before;
    if Run(Start(cap), steps).callback == Completed {
      steps := Then(Start(cap), steps, CallbackLooks);
    }
    if Run(Start(cap), steps).callback == SawStopped {
      steps := Then(Start(cap), steps, CallbackCounts);
    }
    if Run(Start(cap), steps).callback == AboutToWake {
      steps := Then(Start(cap), steps, CallbackWakes);
    }
  }

  lemma {:induction false} CompleteAll(cap: nat, before: seq<Step>) returns (steps: seq<Step>)
    requires 1 <= cap && Run(Start(cap), before).sender == NotSending && Run(Start(cap), before).callback == NotCompleting
    ensures before <= steps && Drained(Run(Start(cap), steps))
    decreases Run(Start(cap), before).used
  {
    steps := before;
    if Run(Start(cap), before).used > 0 {
      steps := Then(Start(cap), before, DeviceCompletes);
      steps := FinishCallback(cap, steps);
      steps := CompleteAll(cap, steps);
    }
  }

  lemma Then(q: Queue, steps: seq<Step>, step: Step) returns (longer: seq<Step>)
    ensures longer == steps + [step] && Run(q, longer) == Apply(Run(q, steps), step)
  {
    longer := steps + [step];
    assert longer[..|longer|-1] == steps;
  }

  /** `k` packets are sent while the queue stays awake. */
  lemma {:induction false} FillUp(cap: nat, k: nat) returns (steps: seq<Step>)
    requires k == 0 || cap - (k - 1) >= STOP_BELOW
    ensures Run(Start(cap), steps) == Start(cap).(used := k)
  {
    if k == 0 {
      steps := [];
    } else {
      steps := FillUp(cap, k - 1);
      steps := Then(Start(cap), steps, SenderLooks);
      steps := Then(Start(cap), steps, SenderQueues);
    }
  }

  /** The next one stops it, and goes in if there is any room at all. */
  lemma StopThere(cap: nat, awake: seq<Step>) returns (steps: seq<Step>)
    requires var q := Run(Start(cap), awake);
             q == Start(cap).(used := q.used) && q.used <= cap && cap - q.used < STOP_BELOW
    ensures var q := Run(Start(cap), steps);
            q.cap == cap && q.stopped && q.sender == NotSending && q.callback == NotCompleting && q.used <= cap
  {
    steps := Then(Start(cap), awake, SenderLooks);
    steps := Then(Start(cap), steps, SenderStops);
    steps := Then(Start(cap), steps, SenderQueues);
  }

  /** On a small ring no completion wakes it. */
  lemma {:induction false} Drain(cap: nat, before: seq<Step>) returns (steps: seq<Step>)
    requires cap <= WAKE_ABOVE
    requires var q := Run(Start(cap), before);
             q.cap == cap && q.stopped && q.sender == NotSending && q.callback == NotCompleting
    ensures var q := Run(Start(cap), steps);
            q.cap == cap && q.stopped && Drained(q)
    decreases Run(Start(cap), before).used
  {
    steps := before;
    if Run(Start(cap), before).used > 0 {
      steps := Then(Start(cap), steps, DeviceCompletes);
      steps := Then(Start(cap), steps, CallbackLooks);
      steps := Then(Start(cap), steps, CallbackCounts);
      steps := Drain(cap, steps);
    }
  }
}
