/**
 The event ring shared with the device, as a two-party protocol.

 The device appends events at its read pointer up to the write pointer that the
 host has published; the host consumes at its own read pointer and gives each
 slot back by moving the write pointer. Both run at once, and the host moves its
 three words one after the other (write pointer, published copy, read pointer),
 so each is a step of its own.
 */
module EventRing {
  import opened Rings

  /** Where the host is with the event under its read pointer. */
  datatype Phase = Ready | Taken | WpMoved | Published

  /** `seenWp` is the published write pointer as the device last noticed it. */
  datatype Shared<E> = Shared(
    n: nat, rp: nat, wp: nat, ctxtWp: nat, seenWp: nat, devRp: nat, slots: seq<E>,
    primed: bool, phase: Phase, produced: seq<E>, consumed: seq<E>)

  datatype Step<E> = Prime | Notice | Produce(e: E) | Take | MoveWp | PublishWp | MoveRp

  function Start<E>(n: nat, slots: seq<E>): Shared<E> {
    Shared(n, 0, 0, 0, 0, 0, slots, false, Ready, [], [])
  }

  predicate Shaped<E>(s: Shared<E>) {
    2 <= s.n == |s.slots| && s.rp < s.n && s.wp < s.n && s.ctxtWp < s.n && s.seenWp < s.n && s.devRp < s.n
  }

  /** The priming code: both write pointers go to the last slot, wherever the read pointer is. */
  function PrimeNow<E>(s: Shared<E>): Shared<E>
    requires 0 < s.n
  {
    s.(wp := s.n - 1, ctxtWp := s.n - 1, primed := true)
  }

  /** A step whose turn it is not leaves the ring alone. The host primes only a ring whose read pointer is at its base. */
  function Apply<E>(s: Shared<E>, step: Step<E>): (s': Shared<E>)
    requires Shaped(s)
    ensures Shaped(s') && s'.n == s.n
  {
    match step
    case Prime =>
      if s.phase == Ready && s.rp == 0 then PrimeNow(s) else s
    case Notice => s.(seenWp := s.ctxtWp)
    case Produce(e) =>
      if s.devRp == s.seenWp then s
      else s.(slots := s.slots[s.devRp := e], devRp := Next(s.devRp, s.n), produced := s.produced + [e])
    case Take =>
      if s.phase == Ready && s.rp != s.devRp then
        s.(phase := Taken, consumed := s.consumed + [s.slots[s.rp]])
      else s
    case MoveWp => if s.phase == Taken then s.(phase := WpMoved, wp := Next(s.wp, s.n)) else s
    case PublishWp => if s.phase == WpMoved then s.(phase := Published, ctxtWp := s.wp) else s
    case MoveRp => if s.phase == Published then s.(phase := Ready, rp := Next(s.rp, s.n)) else s
  }

  function Run<E>(s: Shared<E>, steps: seq<Step<E>>): (s': Shared<E>)
    requires Shaped(s)
    ensures Shaped(s') && s'.n == s.n
    decreases |steps|
  {
    if steps == [] then s else Apply(Run(s, steps[..|steps|-1]), steps[|steps|-1])
  }

  /** How many slots the host has given back. */
  function GivenBack<E>(s: Shared<E>): int {
    if s.phase == Ready then |s.consumed| else |s.consumed| - 1
  }

  /** How far the host's write pointer runs ahead of its read pointer, while it is not moving one of them. */
  function Lead<E>(s: Shared<E>): (l: nat)
    requires Shaped(s)
    ensures l < s.n
  {
    Used(if s.phase in {Ready, Taken} then s.rp else Next(s.rp, s.n), s.wp, s.n)
  }

  /** How many events the device has been allowed to produce in all. */
  function Granted<E>(s: Shared<E>): int
    requires Shaped(s)
  {
    GivenBack(s) + Lead(s) + (if s.phase == Published then 1 else 0)
  }

  ghost predicate Pointers<E>(s: Shared<E>)
    requires Shaped(s)
  {
    var h := GivenBack(s);
    && 0 <= h
    && s.rp == SlotOf(h, s.n)
    && s.devRp == SlotOf(|s.produced|, s.n)
    && s.ctxtWp == SlotOf(Granted(s), s.n)
    && s.wp == SlotOf(h + Lead(s) + (if s.phase in {WpMoved, Published} then 1 else 0), s.n)
    && |s.produced| + Used(s.devRp, s.seenWp, s.n) <= Granted(s)
  }

  ghost predicate Contents<E>(s: Shared<E>)
    requires Shaped(s)
  {
    && |s.consumed| <= |s.produced|
    && s.consumed == s.produced[..|s.consumed|]
    && forall k :: |s.consumed| <= k < |s.produced| ==> s.slots[SlotOf(k, s.n)] == s.produced[k]
  }

  ghost predicate Inv<E>(s: Shared<E>) {
    Shaped(s) && Pointers(s) && Contents(s)
  }

  lemma NoticeKeeps<E>(s: Shared<E>)
    requires Inv(s)
    ensures Inv(Apply(s, Notice))
  {
    CountersAreSlots(|s.produced|, Granted(s), s.n);
    var d := Apply(s, Notice);
    assert GivenBack(d) == GivenBack(s) && Lead(d) == Lead(s) && Granted(d) == Granted(s);
    hide Used, Lead;
  }

  /** The first event whose slot the host has not given back. */
  function Held<E>(s: Shared<E>): int {
    if s.phase == Published then |s.consumed| else GivenBack(s)
  }

  /** The slot the device writes holds no event that waits or is being handled. */
  lemma ProduceOverwritesNothing<E>(s: Shared<E>, k: nat)
    requires Inv(s) && s.devRp != s.seenWp
    requires Held(s) <= k < |s.produced|
    ensures SlotOf(k, s.n) != s.devRp
  {
    CountersAreSlots(k, |s.produced|, s.n);
  }

  lemma ProduceKeepsContents<E>(s: Shared<E>, e: E)
    requires Inv(s) && s.devRp != s.seenWp
    ensures Contents(Apply(s, Produce(e)))
  {
    var s' := Apply(s, Produce(e));
    forall k | |s'.consumed| <= k < |s'.produced|
      ensures s'.slots[SlotOf(k, s.n)] == s'.produced[k]
    {
      if k < |s.produced| {
        ProduceOverwritesNothing(s, k);
      }
    }
  }

  lemma ProduceKeepsPointers<E>(s: Shared<E>, e: E)
    requires Inv(s) && s.devRp != s.seenWp
    ensures Pointers(Apply(s, Produce(e)))
  {
    var s' := Apply(s, Produce(e));
    assert |s'.produced| == |s.produced| + 1 && GivenBack(s') == GivenBack(s) && Granted(s') == Granted(s);
    QueueMoves(s.devRp, s.seenWp, s.n);
  }

  lemma ProduceKeeps<E>(s: Shared<E>, e: E)
    requires Inv(s)
    ensures Inv(Apply(s, Produce(e)))
  {
    if s.devRp != s.seenWp {
      ProduceKeepsContents(s, e);
      ProduceKeepsPointers(s, e);
    }
  }

  /**
   Priming anew is sound while the write pointer the device has noticed has not
   wrapped past the read pointer; the device may then run ahead only as far as
   the last slot.
   */
  lemma PrimeKeeps<E>(s: Shared<E>)
    requires Inv(s) && s.phase == Ready && s.rp <= s.seenWp
    ensures Inv(PrimeNow(s)) && Lead(PrimeNow(s)) == s.n - 1 - s.rp
  {
    var h, d := |s.consumed|, PrimeNow(s);
    Reach(s);
    Ahead(h, s.n - 1 - s.rp, s.n);
    assert Lead(d) == s.n - 1 - s.rp && GivenBack(d) == h && Granted(d) == h + s.n - 1 - s.rp;
    assert d.wp == d.ctxtWp == SlotOf(Granted(d), s.n);
    assert |d.produced| + Used(d.devRp, d.seenWp, d.n) <= Granted(d);
  }

  /** Slots ahead of a pointer, as counts and as slots. */
  lemma Ahead(h: nat, l: nat, n: nat)
    requires 2 <= n && l < n
    ensures SlotOf(h + l, n) == Wrap(SlotOf(h, n) + l, n)
  {
    CountersAreSlots(h, h + l, n);
  }

  /** How many events will wait when the device has used up what it has noticed. */
  lemma Reach<E>(s: Shared<E>)
    requires Inv(s) && s.phase == Ready
    ensures |s.produced| + Used(s.devRp, s.seenWp, s.n) - |s.consumed| == Used(s.rp, s.seenWp, s.n)
  {
    var h := |s.consumed|;
    var k := Used(s.devRp, s.seenWp, s.n);
    Ahead(|s.produced|, k, s.n);
    CountersAreSlots(h, |s.produced| + k, s.n);
  }

  lemma TakeKeeps<E>(s: Shared<E>)
    requires Inv(s)
    ensures Inv(Apply(s, Take))
  {
    if s.phase == Ready && s.rp != s.devRp {
      var h := |s.consumed|;
      assert s.slots[SlotOf(h, s.n)] == s.produced[h];
      var d := Apply(s, Take);
      assert GivenBack(d) == GivenBack(s) && Lead(d) == Lead(s);
    }
    hide Used, Lead, SlotOf;
  }

  /** While the host gives a slot back the lead stays as it is. */
  lemma MoveLead<E>(s: Shared<E>, step: Step<E>)
    requires Shaped(s) && (step == MoveWp || step == PublishWp || step == MoveRp)
    ensures Lead(Apply(s, step)) == Lead(s)
  {
  }

  lemma MoveKeeps<E>(s: Shared<E>, step: Step<E>)
    requires Inv(s) && (step == MoveWp || step == PublishWp || step == MoveRp)
    ensures Inv(Apply(s, step))
  {
    hide Lead, SlotOf, Used;
    MoveLead(s, step);
    SlotNext(GivenBack(s), s.n);
    SlotNext(GivenBack(s) + Lead(s), s.n);
  }

  lemma SlotNext(k: nat, n: nat)
    requires 0 < n
    ensures SlotOf(k + 1, n) == Next(SlotOf(k, n), n)
  {
  }

  lemma ApplyKeeps<E>(s: Shared<E>, step: Step<E>)
    requires Inv(s)
    ensures Inv(Apply(s, step))
  {
    hide Pointers, Contents;
    match step
    case Prime => if s.phase == Ready && s.rp == 0 { PrimeKeeps(s); }
    case Notice => NoticeKeeps(s);
    case Produce(e) => ProduceKeeps(s, e);
    case Take => TakeKeeps(s);
    case MoveWp => MoveKeeps(s, step);
    case PublishWp => MoveKeeps(s, step);
    case MoveRp => MoveKeeps(s, step);
  }

  lemma {:induction false} AlwaysInv<E>(n: nat, slots: seq<E>, steps: seq<Step<E>>)
    requires 2 <= n == |slots|
    ensures Inv(Run(Start(n, slots), steps))
    decreases |steps|
  {
    if steps != [] {
      AlwaysInv(n, slots, steps[..|steps|-1]);
      ApplyKeeps(Run(Start(n, slots), steps[..|steps|-1]), steps[|steps|-1]);
    }
  }

  /** A ring primed at its base keeps the whole lead. */
  ghost predicate FullLead<E>(s: Shared<E>) {
    Shaped(s) && (s.primed ==> Lead(s) == s.n - 1)
  }

  lemma {:induction false} LeadAlways<E>(n: nat, slots: seq<E>, steps: seq<Step<E>>)
    requires 2 <= n == |slots|
    ensures FullLead(Run(Start(n, slots), steps))
    decreases |steps|
  {
    if steps != [] {
      LeadAlways(n, slots, steps[..|steps|-1]);
    }
  }

  /**
   The protocol is safe. In every reachable state the host has consumed exactly
   the first events produced, in order and once each, fewer than a ring of them
   wait, and each waiting one is still in its slot. Between events a primed
   host's write pointer is one slot behind its read pointer and is the one
   published, and finding the two read pointers equal means nothing waits.
   */
  lemma Safe<E>(n: nat, slots: seq<E>, steps: seq<Step<E>>)
    requires 2 <= n == |slots|
    ensures var s := Run(Start(n, slots), steps);
            && s.consumed <= s.produced
            && |s.produced| - |s.consumed| < n
            && (forall k :: |s.consumed| <= k < |s.produced| ==> s.slots[SlotOf(k, n)] == s.produced[k])
            && (s.phase == Ready && s.primed ==> Next(s.wp, n) == s.rp && s.ctxtWp == s.wp)
            && (s.phase == Ready ==> (s.rp == s.devRp <==> s.consumed == s.produced))
  {
    AlwaysInv(n, slots, steps);
    LeadAlways(n, slots, steps);
    var s := Run(Start(n, slots), steps);
    var h := GivenBack(s);
    if s.phase == Ready {
      CountersAreSlots(h, |s.produced|, n);
    }
  }

  /**
   What the interrupt handler's quick test sees while the host is inside an
   event. The pointers look equal, as if nothing waited, in just one situation
   besides an empty ring: the host has published the slot, the device has
   already used it, and every other slot waits. The host is then about to
   look again itself.
   */
  lemma QuickTest<E>(n: nat, slots: seq<E>, steps: seq<Step<E>>)
    requires 2 <= n == |slots|
    ensures var s := Run(Start(n, slots), steps);
            s.rp == s.devRp <==>
              || (s.phase == Ready && s.consumed == s.produced)
              || (s.phase == Published && |s.produced| == |s.consumed| + n - 1)
  {
    AlwaysInv(n, slots, steps);
    var s := Run(Start(n, slots), steps);
    var h := GivenBack(s);
    if |s.produced| == h + n {
      FullTurn(h, n);
    } else {
      CountersAreSlots(h, |s.produced|, n);
    }
  }

  // --- Priming a ring a second time ----------------------------------------------

  /** The device's next write destroys no event that waits or is being handled. */
  ghost predicate HarmlessWrite<E>(s: Shared<E>)
    requires Shaped(s)
  {
    s.devRp != s.seenWp ==> forall k: nat :: Held(s) <= k < |s.produced| ==> SlotOf(k, s.n) != s.devRp
  }

  /** Between events, equal read pointers mean that nothing waits. */
  predicate EqualMeansEmpty<E(==)>(s: Shared<E>) {
    s.phase == Ready ==> (s.rp == s.devRp <==> |s.consumed| == |s.produced|)
  }

  /** Whatever host and device do after the ring has been primed anew, no event is destroyed or mistaken for none. */
  ghost predicate PrimedSafely<E(!new)>(s: Shared<E>)
    requires Shaped(s)
  {
    forall steps: seq<Step<E>> ::
      HarmlessWrite(Run(PrimeNow(s), steps)) && EqualMeansEmpty(Run(PrimeNow(s), steps))
  }

  lemma {:induction false} InvStays<E>(s: Shared<E>, steps: seq<Step<E>>)
    requires Inv(s)
    ensures Inv(Run(s, steps))
    decreases |steps|
  {
    if steps != [] {
      InvStays(s, steps[..|steps|-1]);
      ApplyKeeps(Run(s, steps[..|steps|-1]), steps[|steps|-1]);
    }
  }

  lemma InvMeans<E>(s: Shared<E>)
    requires Inv(s)
    ensures HarmlessWrite(s) && EqualMeansEmpty(s)
  {
    if s.devRp != s.seenWp {
      forall k: nat | Held(s) <= k < |s.produced|
        ensures SlotOf(k, s.n) != s.devRp
      {
        ProduceOverwritesNothing(s, k);
      }
    }
    if s.phase == Ready {
      CountersAreSlots(|s.consumed|, |s.produced|, s.n);
    }
  }

  lemma Then<E>(s: Shared<E>, steps: seq<Step<E>>, step: Step<E>) returns (longer: seq<Step<E>>)
    requires Shaped(s)
    ensures Run(s, longer) == Apply(Run(s, steps), step)
  {
    longer := steps + [step];
    assert longer[..|longer|-1] == steps;
  }

  /** The device appends one event more. */
  lemma AppendOne<E>(t: Shared<E>, e: E)
    requires Shaped(t) && t.devRp != t.seenWp
    ensures var d := Apply(t, Produce(e));
            && d == t.(slots := d.slots, devRp := d.devRp, produced := d.produced)
            && |d.produced| == |t.produced| + 1 && d.devRp == Next(t.devRp, t.n)
            && Used(d.devRp, d.seenWp, d.n) == Used(t.devRp, t.seenWp, t.n) - 1
  {
  }

  /** The device appends `k` events, as the write pointer it has noticed allows. */
  lemma {:induction false} Append<E>(s: Shared<E>, steps: seq<Step<E>>, e: E, k: nat) returns (longer: seq<Step<E>>)
    requires Shaped(s)
    requires var t := Run(s, steps); k <= Used(t.devRp, t.seenWp, t.n)
    ensures var t, d := Run(s, steps), Run(s, longer);
            && d == t.(slots := d.slots, devRp := d.devRp, produced := d.produced)
            && |d.produced| == |t.produced| + k && d.devRp == Wrap(t.devRp + k, t.n)
            && Used(d.devRp, d.seenWp, d.n) == Used(t.devRp, t.seenWp, t.n) - k
  {
    hide Apply, Run;
    if k == 0 {
      longer := steps;
    } else {
      longer := Append(s, steps, e, k - 1);
      AppendOne(Run(s, longer), e);
      longer := Then(s, longer, Produce(e));
    }
  }

  /** If what the device has noticed lies behind the read pointer, it fills the ring beyond what the host can tell. */
  lemma Overrun<E>(s: Shared<E>) returns (steps: seq<Step<E>>)
    requires Inv(s) && s.phase == Ready && s.seenWp < s.rp
    ensures !EqualMeansEmpty(Run(PrimeNow(s), steps))
  {
    var e, p := s.slots[0], PrimeNow(s);
    Reach(s);
    assert Run(p, []) == p;
    steps := UseUp(p, e);
    steps := FillTo(p, steps, e, s.rp);
    var t := Run(p, steps);
    assert t.phase == Ready && t.rp == t.devRp && |t.produced| > |t.consumed|;
  }

  /** The device goes as far as it has noticed, and looks again. */
  lemma UseUp<E>(p: Shared<E>, e: E) returns (steps: seq<Step<E>>)
    requires Shaped(p)
    ensures var t := Run(p, steps);
            && t == p.(slots := t.slots, devRp := p.seenWp, seenWp := p.ctxtWp, produced := t.produced)
            && |t.produced| == |p.produced| + Used(p.devRp, p.seenWp, p.n)
  {
    assert Run(p, []) == p;
    steps := Append(p, [], e, Used(p.devRp, p.seenWp, p.n));
    hide Run;
    steps := Then(p, steps, Notice);
  }

  /** It then comes to stand at slot `r`, if that is on its way. */
  lemma FillTo<E>(p: Shared<E>, steps: seq<Step<E>>, e: E, r: nat) returns (longer: seq<Step<E>>)
    requires Shaped(p)
    requires var t := Run(p, steps); t.devRp < r <= t.seenWp
    ensures var t, d := Run(p, steps), Run(p, longer);
            d == t.(slots := d.slots, devRp := r, produced := d.produced) && |d.produced| == |t.produced| + r - t.devRp
  {
    hide Run, Apply;
    longer := Append(p, steps, e, r - Run(p, steps).devRp);
  }

  /**
   A ring primed anew is safe from then on exactly if the write pointer the
   device has noticed last has not wrapped past the host's read pointer. At the
   base of the ring that is always so; a device that has kept up with the host
   has noticed the slot just behind the read pointer, so elsewhere it is not.
   */
  lemma PrimedSafelyIffNotWrapped<E(!new)>(s: Shared<E>)
    requires Inv(s) && s.phase == Ready
    ensures PrimedSafely(s) <==> s.rp <= s.seenWp
  {
    if s.rp <= s.seenWp {
      PrimeKeeps(s);
      forall steps: seq<Step<E>>
        ensures HarmlessWrite(Run(PrimeNow(s), steps)) && EqualMeansEmpty(Run(PrimeNow(s), steps))
      {
        InvStays(PrimeNow(s), steps);
        InvMeans(Run(PrimeNow(s), steps));
      }
    } else {
      var steps := Overrun(s);
      assert !EqualMeansEmpty(Run(PrimeNow(s), steps));
    }
  }

  /**
   What the host can see of that, if the device has noticed everything published:
   only a ring that stands at its base may be primed again.
   */
  lemma PrimedSafelyIffAtBase<E(!new)>(s: Shared<E>)
    requires Inv(s) && FullLead(s) && s.phase == Ready && s.primed && s.seenWp == s.ctxtWp
    ensures PrimedSafely(s) <==> s.rp == 0
  {
    PrimedSafelyIffNotWrapped(s);
    hide PrimedSafely;
    assert Used(s.rp, s.wp, s.n) == s.n - 1 && s.ctxtWp == s.wp;
  }

  /** Where it is safe it is not free: the ring then holds only as many events as there are slots after the read pointer. */
  lemma PrimedRingShrinks<E>(s: Shared<E>, steps: seq<Step<E>>)
    requires Inv(s) && s.phase == Ready && s.rp <= s.seenWp && Prime !in steps
    ensures var t := Run(PrimeNow(s), steps);
            t.phase == Ready ==> |t.produced| - |t.consumed| <= s.n - 1 - s.rp
  {
    PrimeKeeps(s);
    InvStays(PrimeNow(s), steps);
    LeadStays(PrimeNow(s), steps);
  }

  lemma {:induction false} LeadStays<E>(s: Shared<E>, steps: seq<Step<E>>)
    requires Shaped(s) && Prime !in steps
    ensures Lead(Run(s, steps)) == Lead(s)
    decreases |steps|
  {
    if steps != [] {
      LeadStays(s, steps[..|steps|-1]);
      assert steps[|steps|-1] in steps;
    }
  }

  /**
   A second mission-mode transition after one event, on a ring of four: the
   device, which has kept up, appends three events and then, noticing the new
   write pointer, three more over them. The host then takes the fifth for the
   first.
   */
  lemma SecondPrimingLosesEvents() returns (before: seq<Step<nat>>, after: seq<Step<nat>>)
    ensures var s := Run(Start(4, [0, 0, 0, 0]), before);
            && s.phase == Ready && s.rp == 1
            && var t := Run(PrimeNow(s), after);
               && |t.produced| == 7 && |t.consumed| == 2 && t.consumed[1] == t.produced[5] != t.produced[1]
  {
    var s0 := Start(4, [0, 0, 0, 0]);
    before := Then(s0, [], Prime);
    before := Then(s0, before, Notice);
    before := Then(s0, before, Produce(1));
    before := Then(s0, before, Take);
    before := Then(s0, before, MoveWp);
    before := Then(s0, before, PublishWp);
    before := Then(s0, before, MoveRp);
    before := Then(s0, before, Notice);
    var s := Run(s0, before);
    assert s == Shared(4, 1, 0, 0, 0, 1, [1, 0, 0, 0], true, Ready, [1], [1]);
    after := LoseEvents(PrimeNow(s));
  }

  /** The first three of them. */
  lemma LoseEvents(p: Shared<nat>) returns (after: seq<Step<nat>>)
    requires p == Shared(4, 1, 3, 3, 0, 1, [1, 0, 0, 0], true, Ready, [1], [1])
    ensures var t := Run(p, after);
            |t.produced| == 7 && |t.consumed| == 2 && t.consumed[1] == t.produced[5] != t.produced[1]
  {
    assert Run(p, []) == p;
    after := Then(p, [], Produce(10));
    after := Then(p, after, Produce(11));
    after := Then(p, after, Produce(12));
    after := LoseMore(p, after);
  }

  lemma LoseMore(p: Shared<nat>, before: seq<Step<nat>>) returns (after: seq<Step<nat>>)
    requires Shaped(p) && Run(p, before) == Shared(4, 1, 3, 3, 0, 0, [1, 10, 11, 12], true, Ready, [1, 10, 11, 12], [1])
    ensures var t := Run(p, after);
            |t.produced| == 7 && |t.consumed| == 2 && t.consumed[1] == t.produced[5] != t.produced[1]
  {
    after := Then(p, before, Notice);
    after := Then(p, after, Produce(13));
    after := Then(p, after, Produce(14));
    after := Then(p, after, Produce(15));
    assert Run(p, after).slots == [13, 14, 15, 12];
    after := Then(p, after, Take);
  }
}
