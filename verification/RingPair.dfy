/**
 The two rings of a channel, filled and released at the same time.

 A channel fills its transfer ring and its buffer ring together, and the header
 prescribes an order: when filling advance the transfer ring first, when
 releasing advance the buffer ring first; then room in the former means room in
 the latter. A client's thread fills while the event tasklet, or a reset,
 releases: the tasklet holds the channel lock, mhi_queue_buf does not, and the
 other queueing routines hold it only for reading. So filling the slots, the
 four pointer moves, taking a buffer and handing it back are steps of their own
 here, and interleave freely.

 The order is a parameter of the first result: the promise about room holds for
 the prescribed order and for no other. The second says that, in that order, the
 pair is one FIFO queue for every interleaving; the third what the client gets
 for a completion that names no outstanding element.
 */
module RingPair {
  import opened Basics
  import opened Rings
  import opened Channels

  /** Which pointer each side moves first. */
  datatype Order = Order(treFirst: bool, bufFirst: bool)

  /** `Filled` has written both slots and moved neither pointer. */
  datatype Producer = Resting | Checked | Filled(entry: Entry) | HalfAdded(entry: Entry)

  /** `Took` has read the oldest buffer and unmapped it; `Released` has moved both pointers and not yet called back. */
  datatype Consumer = Idle | Took(info: BufInfo) | HalfReleased(info: BufInfo) | Released(info: BufInfo)

  /**
   The four pointers, as numbers of advances since the rings were set up;
   pointer `k` is at `SlotOf(k)`. Then what the slots hold, a buffer that could
   not be mapped but stands in the slot under the write pointer, what has been
   queued and handed back, and what the driver has mapped and unmapped, all in
   order.
   */
  datatype Pair = Pair(
    n: nat, treWp: nat, treRp: nat, bufWp: nat, bufRp: nat, producer: Producer, consumer: Consumer,
    tres: seq<Tre>, bufs: seq<BufInfo>, refused: Option<BufInfo>,
    queued: seq<Entry>, returned: seq<BufInfo>, mapped: seq<int>, unmapped: seq<int>)

  /**
   `Abandon` gives up after the check, for the power state; `Refuse` does so when
   the buffer cannot be mapped, its slot already written. `Release` moves one
   read pointer.
   */
  datatype Step = Check | Abandon | Refuse(info: BufInfo) | Fill(entry: Entry) | Add | Take | Release | CallBack

  predicate ShapeOk(p: Pair) { 0 < p.n == |p.tres| == |p.bufs| }

  function Start(tres: seq<Tre>, bufs: seq<BufInfo>): Pair {
    Pair(|tres|, 0, 0, 0, 0, Resting, Idle, tres, bufs, None, [], [], [], [])
  }

  /** A mapping made or undone for a buffer, unless the client made it. */
  function Log(addrs: seq<int>, b: BufInfo): seq<int> { if b.preMapped then addrs else addrs + [b.pAddr] }

  function ProducerStep(o: Order, p: Pair, s: Step): (p': Pair)
    requires ShapeOk(p)
    ensures ShapeOk(p') && p'.n == p.n
  {
    match (p.producer, s)
    case (Resting, Check) =>
      // only the transfer ring is looked at
      if p.treWp + 1 < p.treRp + p.n then p.(producer := Checked) else p
    case (Checked, Abandon) => p.(producer := Resting)
    case (Checked, Refuse(b)) =>
      p.(bufs := p.bufs[SlotOf(p.bufWp, p.n) := b], refused := Some(b), producer := Resting)
    case (Checked, Fill(e)) =>
      p.(bufs := p.bufs[SlotOf(p.bufWp, p.n) := e.info], tres := p.tres[SlotOf(p.treWp, p.n) := e.tre],
         refused := None, mapped := Log(p.mapped, e.info), producer := Filled(e))
    case (Filled(e), Add) =>
      if o.treFirst then p.(treWp := p.treWp + 1, queued := p.queued + [e], producer := HalfAdded(e))
      else p.(bufWp := p.bufWp + 1, producer := HalfAdded(e))
    case (HalfAdded(e), Add) =>
      if o.treFirst then p.(bufWp := p.bufWp + 1, producer := Resting)
      else p.(treWp := p.treWp + 1, queued := p.queued + [e], producer := Resting)
    case _ => p
  }

  function ConsumerStep(o: Order, p: Pair, s: Step): (p': Pair)
    requires ShapeOk(p)
    ensures ShapeOk(p') && p'.n == p.n
  {
    match (p.consumer, s)
    case (Idle, Take) =>
      if p.treRp < p.treWp then
        var b := p.bufs[SlotOf(p.bufRp, p.n)];
        p.(unmapped := Log(p.unmapped, b), consumer := Took(b))
      else p
    case (Took(b), Release) =>
      if o.bufFirst then p.(bufRp := p.bufRp + 1, consumer := HalfReleased(b))
      else p.(treRp := p.treRp + 1, consumer := HalfReleased(b))
    case (HalfReleased(b), Release) =>
      if o.bufFirst then p.(treRp := p.treRp + 1, consumer := Released(b))
      else p.(bufRp := p.bufRp + 1, consumer := Released(b))
    case (Released(b), CallBack) => p.(returned := p.returned + [b], consumer := Idle)
    case _ => p
  }

  predicate ByProducer(s: Step) { s.Check? || s.Abandon? || s.Refuse? || s.Fill? || s.Add? }

  /** Taken by either side; a step that is not its side's turn leaves the pair alone. */
  function Apply(o: Order, p: Pair, s: Step): (p': Pair)
    requires ShapeOk(p)
    ensures ShapeOk(p') && p'.n == p.n
  {
    if ByProducer(s) then ProducerStep(o, p, s) else ConsumerStep(o, p, s)
  }

  function Run(o: Order, p: Pair, steps: seq<Step>): (p': Pair)
    requires ShapeOk(p)
    ensures ShapeOk(p') && p'.n == p.n
    decreases |steps|
  {
    if steps == [] then p else Apply(o, Run(o, p, steps[..|steps|-1]), steps[|steps|-1])
  }

  const PRESCRIBED := Order(true, true)

  // --- What every interleaving keeps, in the prescribed order ---------------------

  /** The counts of the four pointers and where each side is. */
  predicate Counted(p: Pair) {
    && p.treRp <= p.treWp < p.treRp + p.n
    && p.treWp == p.bufWp + (if p.producer.HalfAdded? then 1 else 0)
    && p.bufRp == p.treRp + (if p.consumer.HalfReleased? then 1 else 0)
    && (p.producer.Checked? || p.producer.Filled? ==> p.treWp + 1 < p.treRp + p.n)
    && (p.consumer.Took? || p.consumer.HalfReleased? ==> p.treRp < p.treWp)
    && (p.refused.Some? ==> p.producer == Resting || p.producer == Checked)
  }

  /** How many buffers have been taken, and how many handed back. */
  function Taken(p: Pair): nat { if p.consumer.Took? || p.consumer.HalfReleased? then p.treRp + 1 else p.treRp }

  /** The logs: queued, taken and handed back are the same buffers, in the same order. */
  predicate Logged(p: Pair) {
    && |p.queued| == p.treWp
    && Taken(p) <= |p.queued|
    && |p.returned| == Taken(p) - (if p.consumer.Idle? then 0 else 1)
    && (forall k :: 0 <= k < |p.returned| ==> p.returned[k] == p.queued[k].info)
    && (!p.consumer.Idle? ==> p.consumer.info == p.queued[Taken(p) - 1].info)
    && p.mapped == (if p.producer.Filled? then Log(DriverMapped(p.queued), p.producer.entry.info) else DriverMapped(p.queued))
    && p.unmapped == DriverMapped(p.queued[..Taken(p)])
  }

  /** The slots under the write pointers have been written since those were last moved. */
  predicate Begun(p: Pair) { p.producer.Filled? || p.refused.Some? }

  /** The oldest element not yet overwritten, or one before the first. */
  function Lap(p: Pair): int { if Begun(p) then p.treWp + 1 - p.n else p.treWp - p.n }

  /** Every element of the last lap, outstanding or not, is still in its slots in both rings. */
  predicate InSlots(p: Pair)
    requires ShapeOk(p)
  {
    && (forall k: nat :: Lap(p) <= k < |p.queued| ==> p.tres[SlotOf(k, p.n)] == p.queued[k].tre)
    && (forall k: nat :: Lap(p) <= k < |p.queued| ==> p.bufs[SlotOf(k, p.n)] == p.queued[k].info)
    && (p.refused.Some? ==> p.bufs[SlotOf(p.bufWp, p.n)] == p.refused.value)
    && (p.producer.Filled? ==>
          p.tres[SlotOf(p.treWp, p.n)] == p.producer.entry.tre && p.bufs[SlotOf(p.bufWp, p.n)] == p.producer.entry.info)
  }

  predicate Inv(p: Pair) { ShapeOk(p) && Counted(p) && Logged(p) && InSlots(p) }

  lemma CountedKept(p: Pair, s: Step)
    requires ShapeOk(p) && Counted(p)
    ensures Counted(Apply(PRESCRIBED, p, s))
  {
  }

  /** The slots a producer writes after its one check belong to nothing outstanding in either ring, nor to anything less than a lap old. */
  lemma FillHitsNothing(p: Pair, k: nat)
    requires ShapeOk(p) && Counted(p) && p.producer == Checked && p.treWp - p.n < k < p.treWp
    ensures p.treWp - p.n < p.treRp
    ensures p.bufWp == p.treWp && SlotOf(k, p.n) != SlotOf(p.treWp, p.n)
  {
    CountersAreSlots(k, p.treWp, p.n);
  }

  lemma FillKeepsSlots(p: Pair, e: Entry)
    requires Inv(p) && p.producer == Checked
    ensures InSlots(Apply(PRESCRIBED, p, Fill(e)))
  {
    hide DriverMapped, SlotOf;
    forall k: nat | p.treWp - p.n < k < p.treWp
      ensures SlotOf(k, p.n) != SlotOf(p.treWp, p.n)
    {
      FillHitsNothing(p, k);
    }
  }

  lemma RefuseKeepsSlots(p: Pair, b: BufInfo)
    requires Inv(p) && p.producer == Checked
    ensures InSlots(Apply(PRESCRIBED, p, Refuse(b)))
  {
    hide DriverMapped, SlotOf;
    forall k: nat | p.treWp - p.n < k < p.treWp
      ensures SlotOf(k, p.n) != SlotOf(p.treWp, p.n)
    {
      FillHitsNothing(p, k);
    }
  }

  lemma RefuseKeepsLogs(p: Pair, b: BufInfo)
    requires Inv(p) && p.producer == Checked
    ensures Logged(Apply(PRESCRIBED, p, Refuse(b)))
  {
    hide DriverMapped, SlotOf, InSlots;
  }

  lemma FillKeepsLogs(p: Pair, e: Entry)
    requires Inv(p) && p.producer == Checked
    ensures Logged(Apply(PRESCRIBED, p, Fill(e)))
  {
    hide DriverMapped, SlotOf, InSlots;
  }

  lemma MappedGrows(es: seq<Entry>, e: Entry)
    ensures DriverMapped(es + [e]) == Log(DriverMapped(es), e.info)
  {
    assert (es + [e])[..|es|] == es;
  }

  lemma AddKeepsSlots(p: Pair)
    requires Inv(p)
    ensures InSlots(Apply(PRESCRIBED, p, Add))
  {
    hide DriverMapped;
  }

  lemma AddKeepsLogs(p: Pair)
    requires Inv(p)
    ensures Logged(Apply(PRESCRIBED, p, Add))
  {
    hide InSlots, SlotOf, DriverMapped;
    if p.producer.Filled? {
      hide Logged;
      var e := p.producer.entry;
      MappedGrows(p.queued, e);
      QueuedGrows(p, e);
    }
  }

  /** A buffer queued more changes nothing about those taken and handed back. */
  lemma QueuedGrows(p: Pair, e: Entry)
    requires Counted(p) && Logged(p) && p.producer == Filled(e) && DriverMapped(p.queued + [e]) == Log(DriverMapped(p.queued), e.info)
    ensures Logged(p.(treWp := p.treWp + 1, queued := p.queued + [e], producer := HalfAdded(e)))
  {
    hide DriverMapped;
    assert (p.queued + [e])[..Taken(p)] == p.queued[..Taken(p)];
  }

  lemma TakeKeepsSlots(p: Pair)
    requires Inv(p)
    ensures InSlots(Apply(PRESCRIBED, p, Take))
  {
    hide DriverMapped, SlotOf, Logged;
  }

  /** The buffer taken is the one queued longest ago. */
  lemma TakesOldest(p: Pair)
    requires Inv(p) && p.consumer == Idle && p.treRp < p.treWp
    ensures p.treRp < |p.queued| && p.bufs[SlotOf(p.bufRp, p.n)] == p.queued[p.treRp].info
    ensures DriverMapped(p.queued[..p.treRp + 1]) == Log(DriverMapped(p.queued[..p.treRp]), p.queued[p.treRp].info)
  {
    var k := p.treRp;
    MappedGrows(p.queued[..k], p.queued[k]);
    assert p.queued[..k] + [p.queued[k]] == p.queued[..k + 1];
    hide DriverMapped, SlotOf;
  }

  lemma TakeKeepsLogs(p: Pair)
    requires Inv(p)
    ensures Logged(Apply(PRESCRIBED, p, Take))
  {
    hide DriverMapped, SlotOf, InSlots, Logged;
    if p.consumer.Idle? && p.treRp < p.treWp {
      TakesOldest(p);
      TakenGrows(p, p.queued[p.treRp].info);
    }
  }

  lemma TakenGrows(p: Pair, b: BufInfo)
    requires Counted(p) && Logged(p) && p.consumer == Idle && p.treRp < p.treWp && b == p.queued[p.treRp].info
    requires DriverMapped(p.queued[..p.treRp + 1]) == Log(DriverMapped(p.queued[..p.treRp]), b)
    ensures Logged(p.(unmapped := Log(p.unmapped, b), consumer := Took(b)))
  {
    hide DriverMapped;
  }

  lemma ReleaseKeepsSlots(p: Pair)
    requires Inv(p)
    ensures InSlots(Apply(PRESCRIBED, p, Release))
  {
    hide DriverMapped, SlotOf, Logged;
  }

  lemma ReleaseKeepsLogs(p: Pair)
    requires Inv(p)
    ensures Logged(Apply(PRESCRIBED, p, Release))
  {
    hide DriverMapped, SlotOf, InSlots;
    assert Taken(Apply(PRESCRIBED, p, Release)) == Taken(p);
  }

  lemma CallBackKeeps(p: Pair)
    requires Inv(p)
    ensures InSlots(Apply(PRESCRIBED, p, CallBack)) && Logged(Apply(PRESCRIBED, p, CallBack))
  {
    hide DriverMapped, SlotOf;
  }

  lemma CheckKeeps(p: Pair, s: Step)
    requires Inv(p) && (s == Check || s == Abandon)
    ensures InSlots(Apply(PRESCRIBED, p, s)) && Logged(Apply(PRESCRIBED, p, s))
  {
    hide DriverMapped, SlotOf;
  }

  lemma ApplyKeeps(p: Pair, s: Step)
    requires Inv(p)
    ensures Inv(Apply(PRESCRIBED, p, s))
  {
    hide Counted, Logged, InSlots;
    CountedKept(p, s);
    match s
    case Fill(e) => if p.producer == Checked { FillKeepsSlots(p, e); FillKeepsLogs(p, e); }
    case Refuse(b) => if p.producer == Checked { RefuseKeepsSlots(p, b); RefuseKeepsLogs(p, b); }
    case Add => AddKeepsSlots(p); AddKeepsLogs(p);
    case Take => TakeKeepsSlots(p); TakeKeepsLogs(p);
    case Release => ReleaseKeepsSlots(p); ReleaseKeepsLogs(p);
    case CallBack => CallBackKeeps(p);
    case _ => CheckKeeps(p, s);
  }

  lemma {:induction false} InvStays(p: Pair, steps: seq<Step>)
    requires Inv(p)
    ensures Inv(Run(PRESCRIBED, p, steps))
    decreases |steps|
  {
    if steps != [] {
      InvStays(p, steps[..|steps|-1]);
      ApplyKeeps(Run(PRESCRIBED, p, steps[..|steps|-1]), steps[|steps|-1]);
    }
  }

  /** The four steps of a queueing that is let in. */
  function FilledIn(p: Pair, e: Entry): Pair
    requires ShapeOk(p)
  {
    Apply(PRESCRIBED, Apply(PRESCRIBED, Apply(PRESCRIBED, Apply(PRESCRIBED, p, Check), Fill(e)), Add), Add)
  }

  /** Where the transfer ring has room a buffer joins the end of the queue and stands in both rings; where it has none the check refuses it. */
  lemma FillsIffRoom(p: Pair, e: Entry)
    requires Inv(p) && p.producer == Resting
    ensures p.treWp + 1 < p.treRp + p.n ==>
              var d := FilledIn(p, e);
              && d.producer == Resting && d.consumer == p.consumer
              && d.queued == p.queued + [e] && d.treWp == d.bufWp == |d.queued|
              && d.tres[SlotOf(p.treWp, p.n)] == e.tre && d.bufs[SlotOf(p.treWp, p.n)] == e.info
              && d.mapped == if e.info.preMapped then p.mapped else p.mapped + [e.info.pAddr]
    ensures p.treWp + 1 == p.treRp + p.n ==> Apply(PRESCRIBED, p, Check) == p
  {
    if p.treWp + 1 < p.treRp + p.n {
      var p2 := Apply(PRESCRIBED, Apply(PRESCRIBED, p, Check), Fill(e));
      assert p2.producer == Filled(e) && p2.queued == p.queued && p2.treWp == p.treWp;
      var p3 := Apply(PRESCRIBED, p2, Add);
      assert p3.producer == HalfAdded(e) && p3.queued == p.queued + [e];
    }
    hide SlotOf, DriverMapped;
  }

  /** A refusal after the check queues nothing; one for want of a mapping leaves the buffer in the slot. */
  lemma Refusals(p: Pair, b: BufInfo)
    requires ShapeOk(p) && p.producer == Checked
    ensures Apply(PRESCRIBED, p, Abandon) == p.(producer := Resting)
    ensures var d := Apply(PRESCRIBED, p, Refuse(b));
            d == p.(producer := Resting, bufs := d.bufs, refused := Some(b)) && d.bufs[SlotOf(p.bufWp, p.n)] == b
  {
  }

  predicate Prepared(tres: seq<Tre>, bufs: seq<BufInfo>) { 2 <= |tres| == |bufs| }

  lemma StartInv(tres: seq<Tre>, bufs: seq<BufInfo>)
    requires Prepared(tres, bufs)
    ensures Inv(Start(tres, bufs))
  {
  }

  /**
   The pair is one FIFO queue, under every interleaving of filling and releasing:
   the `k`-th buffer handed back is the `k`-th queued, the device finds each
   outstanding element in its slot, and mappings are undone in the order they
   were made, each at most once.
   */
  lemma FifoInterleaved(tres: seq<Tre>, bufs: seq<BufInfo>, steps: seq<Step>)
    requires Prepared(tres, bufs)
    ensures var p := Run(PRESCRIBED, Start(tres, bufs), steps);
            && |p.returned| <= |p.queued|
            && (forall k :: 0 <= k < |p.returned| ==> p.returned[k] == p.queued[k].info)
            && (forall k :: p.treRp <= k < |p.queued| ==> p.tres[SlotOf(k, p.n)] == p.queued[k].tre)
            && p.unmapped <= p.mapped
  {
    StartInv(tres, bufs);
    InvStays(Start(tres, bufs), steps);
    var p := Run(PRESCRIBED, Start(tres, bufs), steps);
    MappedPrefix(p.queued, Taken(p));
  }

  lemma {:induction false} MappedPrefix(es: seq<Entry>, k: nat)
    requires k <= |es|
    ensures DriverMapped(es[..k]) <= DriverMapped(es)
    decreases |es|
  {
    if k < |es| {
      MappedPrefix(es[..|es|-1], k);
      assert es[..|es|-1][..k] == es[..k];
    } else {
      assert es[..k] == es;
    }
  }

  /** Nothing in the rings and neither side in the middle of anything. */
  predicate Drained(p: Pair) { p.treRp == p.treWp && p.consumer == Idle && (p.producer == Resting || p.producer == Checked) }

  /** Once the rings are drained, every buffer queued has been handed back exactly once, and every mapping undone. */
  lemma DrainedReturnsAll(tres: seq<Tre>, bufs: seq<BufInfo>, steps: seq<Step>)
    requires Prepared(tres, bufs) && Drained(Run(PRESCRIBED, Start(tres, bufs), steps))
    ensures var p := Run(PRESCRIBED, Start(tres, bufs), steps);
            && |p.returned| == |p.queued| && (forall k :: 0 <= k < |p.queued| ==> p.returned[k] == p.queued[k].info)
            && p.unmapped == p.mapped
  {
    StartInv(tres, bufs);
    InvStays(Start(tres, bufs), steps);
    var p := Run(PRESCRIBED, Start(tres, bufs), steps);
    assert p.queued[..|p.queued|] == p.queued;
  }

  lemma Then(o: Order, p: Pair, steps: seq<Step>, s: Step) returns (longer: seq<Step>)
    requires ShapeOk(p)
    ensures longer == steps + [s] && Run(o, p, longer) == Apply(o, Run(o, p, steps), s)
  {
    longer := steps + [s];
    assert longer[..|longer|-1] == steps;
  }

  /** One turn of the loop of mhi_reset_data_chan. */
  const RELEASING := [Take, Release, Release, CallBack]

  lemma ReleaseOne(p: Pair, steps: seq<Step>)
    requires ShapeOk(p)
    requires var q := Run(PRESCRIBED, p, steps); q.consumer == Idle && q.treRp < q.treWp
    ensures var q, d := Run(PRESCRIBED, p, steps), Run(PRESCRIBED, p, steps + RELEASING);
            && d.consumer == Idle && d.producer == q.producer && d.treWp == q.treWp && d.treRp == q.treRp + 1
  {
    hide Run, Apply, ShapeOk, PRESCRIBED;
    OneTurn(Run(PRESCRIBED, p, steps));
    var longer := Then(PRESCRIBED, p, steps, Take);
    longer := Then(PRESCRIBED, p, longer, Release);
    longer := Then(PRESCRIBED, p, longer, Release);
    longer := Then(PRESCRIBED, p, longer, CallBack);
    assert longer == steps + RELEASING;
  }

  lemma OneTurn(q: Pair)
    requires ShapeOk(q) && q.consumer == Idle && q.treRp < q.treWp
    ensures var d := Apply(PRESCRIBED, Apply(PRESCRIBED, Apply(PRESCRIBED, Apply(PRESCRIBED, q, Take), Release), Release), CallBack);
            d.consumer == Idle && d.producer == q.producer && d.treWp == q.treWp && d.treRp == q.treRp + 1
  {
    var b := q.bufs[SlotOf(q.bufRp, q.n)];
    var q1 := Apply(PRESCRIBED, q, Take);
    assert q1.consumer == Took(b);
    var q2 := Apply(PRESCRIBED, q1, Release);
    assert q2.consumer == HalfReleased(b);
    var q3 := Apply(PRESCRIBED, q2, Release);
    assert q3.consumer == Released(b);
  }

  /** A reset of a channel that nobody fills drains it, by steps of the releasing side alone. */
  lemma {:induction false} ResetDrains(p: Pair, steps: seq<Step>) returns (reset: seq<Step>)
    requires ShapeOk(p)
    requires var q := Run(PRESCRIBED, p, steps); q.consumer == Idle && q.producer == Resting && q.treRp <= q.treWp
    ensures forall i :: 0 <= i < |reset| ==> !ByProducer(reset[i])
    ensures Drained(Run(PRESCRIBED, p, steps + reset)) && Run(PRESCRIBED, p, steps + reset).producer == Resting
    decreases var q := Run(PRESCRIBED, p, steps); q.treWp - q.treRp
  {
    hide Run, SlotOf;
    var q := Run(PRESCRIBED, p, steps);
    if q.treRp == q.treWp {
      reset := [];
      assert steps + [] == steps;
    } else {
      ReleaseOne(p, steps);
      var rest := ResetDrains(p, steps + RELEASING);
      reset := RELEASING + rest;
      assert steps + (RELEASING + rest) == (steps + RELEASING) + rest;
    }
  }

  // --- Which completions are sound ---------------------------------------------------

  /** Slots of the first lap that nothing has been written to. */
  predicate Untouched(p: Pair, bufs: seq<BufInfo>)
    requires ShapeOk(p)
  {
    && p.n == |bufs|
    && forall j :: (if Begun(p) then p.treWp + 1 else p.treWp) <= j < p.n ==> p.bufs[j] == bufs[j]
  }

  lemma UntouchedKept(p: Pair, s: Step, bufs: seq<BufInfo>)
    requires ShapeOk(p) && Counted(p) && Untouched(p, bufs)
    ensures Untouched(Apply(PRESCRIBED, p, s), bufs)
  {
    if p.treWp < p.n {
      CountersAreSlots(0, p.treWp, p.n);
    }
  }

  lemma {:induction false} UntouchedStays(p: Pair, steps: seq<Step>, bufs: seq<BufInfo>)
    requires Inv(p) && Untouched(p, bufs)
    ensures Untouched(Run(PRESCRIBED, p, steps), bufs)
    decreases |steps|
  {
    if steps != [] {
      var init := steps[..|steps|-1];
      UntouchedStays(p, init, bufs);
      InvStays(p, init);
      UntouchedKept(Run(PRESCRIBED, p, init), steps[|steps|-1], bufs);
    }
  }

  /** What the completion loop reads when it releases `k` elements: the slots from the read pointer on, whatever they hold. */
  function HandedBack(p: Pair, k: nat): seq<BufInfo>
    requires ShapeOk(p)
  {
    seq(k, i requires 0 <= i < k => p.bufs[SlotOf(p.treRp + i, p.n)])
  }

  predicate AtRest(p: Pair) { p.producer == Resting && p.consumer == Idle }

  lemma HandsBackOldest(p: Pair, k: nat)
    requires Inv(p) && AtRest(p) && k <= p.treWp - p.treRp
    ensures forall i :: 0 <= i < k ==> HandedBack(p, k)[i] == p.queued[p.treRp + i].info
  {
    hide SlotOf, DriverMapped;
    forall i | 0 <= i < k
      ensures HandedBack(p, k)[i] == p.queued[p.treRp + i].info
    {
      var j: nat := p.treRp + i;
      assert p.bufs[SlotOf(j, p.n)] == p.queued[j].info;
    }
  }

  lemma HandsBackStray(p: Pair, bufs: seq<BufInfo>, k: nat)
    requires Inv(p) && AtRest(p) && Untouched(p, bufs) && p.treWp - p.treRp < k
    ensures p.refused.Some? ==> HandedBack(p, k)[p.treWp - p.treRp] == p.refused.value
    ensures p.refused.None? && p.treWp < p.n ==> HandedBack(p, k)[p.treWp - p.treRp] == bufs[p.treWp]
    ensures p.refused.None? && p.treWp >= p.n ==> p.treWp - p.n < |p.returned| && HandedBack(p, k)[p.treWp - p.treRp] == p.returned[p.treWp - p.n]
  {
    hide SlotOf, DriverMapped;
    assert HandedBack(p, k)[p.treWp - p.treRp] == p.bufs[SlotOf(p.treWp, p.n)];
    if p.refused.Some? {
      assert p.bufWp == p.treWp;
    } else if p.treWp >= p.n {
      var j := p.treWp - p.n;
      FullTurn(j, p.n);
      assert p.bufs[SlotOf(j, p.n)] == p.queued[j].info;
    } else {
      CountersAreSlots(0, p.treWp, p.n);
      AtStart(p.n);
    }
  }

  lemma AtStart(n: nat)
    requires 0 < n
    ensures SlotOf(0, n) == 0
  {
  }

  /** Releasing `k` elements hands back the oldest outstanding ones or, if there are fewer, what stands in the next slot to fill. */
  predicate HandsBack(p: Pair, bufs: seq<BufInfo>, k: nat)
    requires ShapeOk(p) && p.n == |bufs|
  {
    var outstanding := p.treWp - p.treRp;
    && 0 <= outstanding && |p.queued| == p.treWp && |p.returned| == p.treRp
    && (k <= outstanding ==> forall i :: 0 <= i < k ==> HandedBack(p, k)[i] == p.queued[p.treRp + i].info)
    && (k > outstanding ==>
          var stray := HandedBack(p, k)[outstanding];
          if p.refused.Some? then stray == p.refused.value
          else if p.treWp < p.n then stray == bufs[p.treWp]
          else p.treWp - p.n < p.treRp && stray == p.returned[p.treWp - p.n])
  }

  lemma HandsBackKnown(p: Pair, bufs: seq<BufInfo>, k: nat)
    requires Inv(p) && AtRest(p) && Untouched(p, bufs)
    ensures HandsBack(p, bufs, k)
  {
    hide SlotOf, DriverMapped, HandedBack, InSlots, Untouched;
    if k <= p.treWp - p.treRp {
      HandsBackOldest(p, k);
    } else {
      HandsBackStray(p, bufs, k);
    }
  }

  /**
   The loop never asks whether the element a completion names is outstanding. If
   it is, or is the last one completed, the buffers handed back are the oldest
   outstanding ones. Any other completion takes the loop past the write pointer,
   where it hands back a buffer the client was refused, one that it handed back
   a lap before, or a slot never filled.
   */
  lemma StrayCompletion(tres: seq<Tre>, bufs: seq<BufInfo>, steps: seq<Step>, slot: nat)
    requires Prepared(tres, bufs) && slot < |bufs| && AtRest(Run(PRESCRIBED, Start(tres, bufs), steps))
    ensures var p := Run(PRESCRIBED, Start(tres, bufs), steps);
            HandsBack(p, bufs, Steps(SlotOf(p.treRp, p.n), slot, p.n))
  {
    StartInv(tres, bufs);
    InvStays(Start(tres, bufs), steps);
    UntouchedStays(Start(tres, bufs), steps, bufs);
    var p := Run(PRESCRIBED, Start(tres, bufs), steps);
    HandsBackKnown(p, bufs, Steps(SlotOf(p.treRp, p.n), slot, p.n));
    hide *;
  }

  // --- Why the order is as it is ----------------------------------------------------

  /** The buffer ring has at least as much room as the transfer ring. */
  predicate RoomFollows(p: Pair) {
    p.bufWp - p.bufRp <= p.treWp - p.treRp
  }

  ghost predicate AlwaysRoom(o: Order, tres: seq<Tre>, bufs: seq<BufInfo>)
    requires Prepared(tres, bufs)
  {
    forall steps :: RoomFollows(Run(o, Start(tres, bufs), steps))
  }

  /** One buffer in, and the early pointer of the side that is out of order. */
  lemma OutOfOrder(o: Order, tres: seq<Tre>, bufs: seq<BufInfo>) returns (steps: seq<Step>)
    requires Prepared(tres, bufs) && !(o.treFirst && o.bufFirst)
    ensures !RoomFollows(Run(o, Start(tres, bufs), steps))
  {
    var p, e := Start(tres, bufs), Entry(bufs[0], tres[0]);
    steps := Then(o, p, [], Check);
    steps := Then(o, p, steps, Fill(e));
    steps := Then(o, p, steps, Add);
    if o.treFirst {
      steps := Then(o, p, steps, Add);
      steps := Then(o, p, steps, Take);
      steps := Then(o, p, steps, Release);
    }
  }

  /**
   Room in the transfer ring means room in the buffer ring, at every point of
   every interleaving, exactly when both sides keep the prescribed order.
   */
  lemma RoomFollowsIffOrdered(o: Order, tres: seq<Tre>, bufs: seq<BufInfo>)
    requires Prepared(tres, bufs)
    ensures AlwaysRoom(o, tres, bufs) <==> o.treFirst && o.bufFirst
  {
    if o.treFirst && o.bufFirst {
      forall steps
        ensures RoomFollows(Run(o, Start(tres, bufs), steps))
      {
        StartInv(tres, bufs);
        InvStays(Start(tres, bufs), steps);
      }
    } else {
      var steps := OutOfOrder(o, tres, bufs);
      assert !RoomFollows(Run(o, Start(tres, bufs), steps));
    }
  }
}
