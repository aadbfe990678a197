/**
 The host's side of an event ring: handing events to their channels under a
 quota, giving slots back, and marking the events of a channel that is being
 reset so that they are passed over.
 */
module EventLoop {
  import opened Rings

  datatype Event = Event(ptr: int, dword0: nat, dword1: nat)

  const TX_EVENT := 0x22
  const RSC_TX_EVENT := 0x28
  const STALE_EVENT := 0x49

  /** MHI_TRE_GET_EV_TYPE and MHI_TRE_GET_EV_CHID */
  function TypeOf(e: Event): nat { (e.dword1 / 0x1_0000) % 0x100 }

  function ChanOf(e: Event): nat { (e.dword1 / 0x100_0000) % 0x100 }

  /** MHI_TRE_EV_DWORD1, on the 8-bit channel numbers and types there are. */
  function EvDword1(chan: nat, typ: nat): nat { chan * 0x100_0000 + typ * 0x1_0000 }

  predicate IsXfer(e: Event) { TypeOf(e) in {TX_EVENT, RSC_TX_EVENT} }

  predicate IsTxOf(e: Event, chan: nat) { TypeOf(e) == TX_EVENT && ChanOf(e) == chan }

  /** The events that are parsed as transfers. */
  function Xfers(evs: seq<Event>): seq<Event> {
    if evs == [] then [] else (if IsXfer(evs[0]) then [evs[0]] else []) + Xfers(evs[1..])
  }

  /** What is parsed are the events of the two transfer types, in order. */
  lemma {:induction false} XfersAre(evs: seq<Event>, e: Event)
    ensures e in Xfers(evs) <==> e in evs && (e.dword1 / 0x1_0000 % 0x100 == 0x22 || e.dword1 / 0x1_0000 % 0x100 == 0x28)
    ensures |Xfers(evs)| <= |evs|
    decreases |evs|
  {
    if evs != [] {
      XfersAre(evs[1..], e);
      assert evs == [evs[0]] + evs[1..];
    }
  }

  /** How many events a pass with this quota consumes: it stops once the quota of transfers is used up. */
  function Consumed(evs: seq<Event>, quota: nat): (k: nat)
    ensures k <= |evs|
    decreases |evs|
  {
    if evs == [] || quota == 0 then 0
    else 1 + Consumed(evs[1..], if IsXfer(evs[0]) then quota - 1 else quota)
  }

  /** mhi_mark_stale_events on what waits in the ring. */
  function MarkStale(evs: seq<Event>, chan: nat): seq<Event> {
    seq(|evs|, i requires 0 <= i < |evs| => Stale(evs[i], chan))
  }

  function Stale(e: Event, chan: nat): Event {
    if IsTxOf(e, chan) then e.(dword1 := EvDword1(chan, STALE_EVENT)) else e
  }

  function Without(evs: seq<Event>, chan: nat): seq<Event> {
    if evs == [] then [] else (if IsTxOf(evs[0], chan) then [] else [evs[0]]) + Without(evs[1..], chan)
  }

  /** A marked event keeps its channel number but is no transfer; others are untouched. */
  lemma StaleIsPassedOver(e: Event, chan: nat)
    requires chan < 0x100
    ensures IsTxOf(e, chan) ==>
              var d := Stale(e, chan);
              !IsXfer(d) && TypeOf(d) == 0x49 && ChanOf(d) == chan && d.ptr == e.ptr && d.dword0 == e.dword0
    ensures !IsTxOf(e, chan) ==> Stale(e, chan) == e
  {
  }

  /**
   Processing a marked ring does to every other channel exactly what processing
   the ring without that channel's events would do, whatever the quota.
   */
  lemma {:induction false} MarkedAsRemoved(evs: seq<Event>, chan: nat, quota: nat)
    requires chan < 0x100
    ensures var marked, removed := MarkStale(evs, chan), Without(evs, chan);
            Xfers(marked[..Consumed(marked, quota)]) == Xfers(removed[..Consumed(removed, quota)])
    decreases |evs|
  {
    if evs != [] && quota > 0 {
      var marked, removed := MarkStale(evs, chan), Without(evs, chan);
      StaleIsPassedOver(evs[0], chan);
      assert marked[1..] == MarkStale(evs[1..], chan);
      var left := if IsXfer(marked[0]) then quota - 1 else quota;
      MarkedAsRemoved(evs[1..], chan, left);
      XfersOfPass(marked, quota);
      if IsTxOf(evs[0], chan) {
        assert removed == Without(evs[1..], chan);
      } else {
        assert removed[0] == evs[0] && removed[1..] == Without(evs[1..], chan);
        XfersOfPass(removed, quota);
      }
    }
  }

  lemma XfersOfPass(evs: seq<Event>, quota: nat)
    requires evs != [] && quota > 0
    ensures Xfers(evs[..Consumed(evs, quota)])
            == (if IsXfer(evs[0]) then [evs[0]] else [])
               + Xfers(evs[1..][..Consumed(evs[1..], if IsXfer(evs[0]) then quota - 1 else quota)])
  {
    var k := Consumed(evs[1..], if IsXfer(evs[0]) then quota - 1 else quota);
    assert evs[..1+k][0] == evs[0] && evs[..1+k][1..] == evs[1..][..k];
  }

  /** After marking, no transfer event of the channel waits. */
  lemma NoneOfChanLeft(evs: seq<Event>, chan: nat)
    requires chan < 0x100
    ensures forall e :: e in MarkStale(evs, chan) ==> !IsTxOf(e, chan)
  {
    forall i | 0 <= i < |evs|
      ensures !IsTxOf(Stale(evs[i], chan), chan)
    {
      StaleIsPassedOver(evs[i], chan);
    }
  }

  /** Only parsed transfers are charged to the quota, and a pass that leaves events behind has used all of it. */
  lemma {:induction false} QuotaBounds(evs: seq<Event>, quota: nat)
    ensures |Xfers(evs[..Consumed(evs, quota)])| <= quota
    ensures Consumed(evs, quota) < |evs| ==> |Xfers(evs[..Consumed(evs, quota)])| == quota
    decreases |evs|
  {
    if evs != [] && quota > 0 {
      XfersOfPass(evs, quota);
      QuotaBounds(evs[1..], if IsXfer(evs[0]) then quota - 1 else quota);
    }
  }

  /** Two passes over what arrives in two parts are one pass over the whole. */
  lemma {:induction false} PassesCompose(a: seq<Event>, b: seq<Event>, quota: nat)
    requires Consumed(a, quota) == |a|
    ensures |Xfers(a)| <= quota
    ensures Consumed(a + b, quota) == |a| + Consumed(b, quota - |Xfers(a)|)
    decreases |a|
  {
    if a == [] {
      assert a + b == b;
    } else {
      assert (a + b)[1..] == a[1..] + b;
      PassesCompose(a[1..], b, if IsXfer(a[0]) then quota - 1 else quota);
    }
  }

  const EV_SIZE := 16

  /** A primed event ring between events, and the shared words through which the device takes part. */
  class EventQueue {
    const ring: Ring
    const slots: array<Event>
    var ctxtWp: int
    var ctxtRp: int
    ghost var d: nat
    ghost var pending: seq<Event>
    ghost var taken: seq<Event>

    ghost predicate Valid()
      reads this, ring, slots
    {
      && ring.Valid() && ring.elSize == EV_SIZE
      && 2 <= ring.elements == slots.Length
      && d < ring.elements && ctxtRp == ring.Phys(d)
      && ctxtWp == ring.Phys(ring.w)
      && Next(ring.w, ring.elements) == ring.r
      && |pending| == Used(ring.r, d, ring.elements)
      && forall i :: 0 <= i < |pending| ==> slots[Wrap(ring.r + i, ring.elements)] == pending[i]
    }

    /** mhi_init_dev_ctxt for one event ring, followed by the priming of mhi_ready_state_transition. */
    constructor (base: int, iommu: int, elements: nat)
      requires 2 <= elements
      ensures Valid() && pending == [] && taken == []
      ensures ring.elements == elements && fresh(ring) && fresh(slots)
    {
      var rg := new Ring(base, iommu, EV_SIZE, elements);
      ring := rg;
      slots := new Event[elements](_ => Event(0, 0, 0));
      pending, taken, d := [], [], 0;
      ctxtRp := iommu;
      new;
      assert (elements - 1) * EV_SIZE == elements * EV_SIZE - EV_SIZE;
      ring.wp := ring.base + EV_SIZE * elements - EV_SIZE;
      ring.w := elements - 1;
      ctxtWp := ring.iommuBase + EV_SIZE * elements - EV_SIZE;
    }

    /** The device's part: it appends events until it meets the published write pointer. */
    method DeviceProduces(evs: seq<Event>) returns (k: nat)
      requires Valid()
      modifies this`ctxtRp, this`d, this`pending, slots
      ensures Valid()
      ensures k == if |evs| <= Free(ring.r, old(d), ring.elements) then |evs| else Free(ring.r, old(d), ring.elements)
      ensures pending == old(pending) + evs[..k]
    {
      k := 0;
      ring.SameSlot(d, ring.w);
      while k < |evs| && ctxtRp != ctxtWp
        invariant 0 <= k <= |evs|
        invariant Valid()
        invariant ctxtRp == ctxtWp <==> d == ring.w
        invariant k + Free(ring.r, d, ring.elements) == Free(ring.r, old(d), ring.elements)
        invariant pending == old(pending) + evs[..k]
      {
        ProduceOne(evs[k]);
        k := k + 1;
        ring.SameSlot(d, ring.w);
      }
    }

    method ProduceOne(e: Event)
      requires Valid() && d != ring.w
      modifies this`ctxtRp, this`d, this`pending, slots
      ensures Valid()
      ensures pending == old(pending) + [e]
      ensures Free(ring.r, old(d), ring.elements) == Free(ring.r, d, ring.elements) + 1
    {
      QueueMoves(ring.r, d, ring.elements);
      ring.AdvanceIsNext(ring.Addr(d), d);
      DivExact(d, EV_SIZE);
      slots[(ctxtRp - ring.iommuBase) / EV_SIZE] := e;
      ctxtRp := ctxtRp + EV_SIZE;
      if ctxtRp >= ring.iommuBase + EV_SIZE * ring.elements {
        ctxtRp := ring.iommuBase;
      }
      d := Next(d, ring.elements);
      pending := pending + [e];
    }

    /** mhi_recycle_ev_ring_element: the write pointer, its published copy and the read pointer move on by one. */
    method Recycle()
      requires Valid() && pending != []
      modifies this`ctxtWp, this`pending, this`taken, ring
      ensures Valid()
      ensures pending == old(pending)[1..] && taken == old(taken) + [old(pending)[0]]
    {
      QueueMoves(ring.r, d, ring.elements);
      ring.AddElement();
      ctxtWp := ring.iommuBase + (ring.wp - ring.base);
      ring.DelElement();
      taken := taken + [pending[0]];
      pending := pending[1..];
    }

    method EventAtRp() returns (e: Event)
      requires Valid() && pending != []
      ensures e == pending[0]
    {
      var k := ring.ReadSlot();
      assert slots[Wrap(ring.r + 0, ring.elements)] == pending[0];
      e := slots[k];
    }

    /** The slot under a host pointer. */
    method SlotUnder(p: int, ghost k: nat) returns (slot: nat)
      requires Valid() && k < ring.elements && p == ring.Addr(k)
      ensures slot == k
    {
      DivExact(k, EV_SIZE);
      slot := (p - ring.base) / EV_SIZE;
    }

    /** A host pointer moved on by one element, wrapping on reaching the end exactly. */
    method Advanced(p: int, ghost k: nat) returns (p': int)
      requires Valid() && k < ring.elements && p == ring.Addr(k)
      ensures p' == ring.Addr(Next(k, ring.elements))
    {
      ring.AdvanceIsNext(p, k);
      ring.SameSlot(k + 1, ring.elements);
      p' := p + EV_SIZE;
      if p' == ring.base + EV_SIZE * ring.elements {
        p' := ring.base;
      }
    }

    /** mhi_mark_stale_events: every waiting event is visited, those of the channel rewritten in place. */
    method MarkStaleEvents(chan: nat)
      requires Valid() && chan < 0x100
      modifies slots, this`pending
      ensures Valid()
      ensures pending == MarkStale(old(pending), chan)
      ensures forall e :: e in pending ==> !IsTxOf(e, chan)
    {
      NoneOfChanLeft(pending, chan);
      var devRp := ReadDeviceRp();
      var localRp := ring.rp;
      ghost var i, was := 0, pending;
      Meets(devRp, localRp, 0);
      MarkedEnds(was, chan);
      while devRp != localRp
        invariant Valid() && 0 <= i <= |pending| == |was|
        invariant Sees(localRp, i) && Sees(devRp, |pending|)
        invariant devRp != localRp <==> i < |pending|
        invariant pending == PartlyMarked(was, i, chan)
        decreases |pending| - i
      {
        MarkedSoFar(was, i, chan);
        localRp := MarkTurn(localRp, i, chan);
        i := i + 1;
        Meets(devRp, localRp, i);
      }
    }

    lemma Meets(devRp: int, p: int, i: nat)
      requires Valid() && Sees(p, i) && Sees(devRp, |pending|)
      ensures devRp != p <==> i < |pending|
    {
      ring.SameSlot(Wrap(ring.r + i, ring.elements), Wrap(ring.r + |pending|, ring.elements));
    }

    method MarkTurn(localRp: int, ghost i: nat, chan: nat) returns (next: int)
      requires Valid() && i < |pending| && Sees(localRp, i)
      modifies slots, this`pending
      ensures Valid() && Sees(next, i + 1)
      ensures pending == old(pending)[i := Stale(old(pending)[i], chan)]
    {
      var k := SlotUnder(localRp, Wrap(ring.r + i, ring.elements));
      MarkOne(k, i, chan);
      next := Advanced(localRp, Wrap(ring.r + i, ring.elements));
    }

    method MarkOne(k: nat, ghost i: nat, chan: nat)
      requires Valid() && i < |pending| && k == Wrap(ring.r + i, ring.elements)
      modifies slots, this`pending
      ensures Valid()
      ensures pending == old(pending)[i := Stale(old(pending)[i], chan)]
    {
      assert slots[k] == pending[i];
      if IsTxOf(slots[k], chan) {
        slots[k] := slots[k].(dword1 := EvDword1(chan, STALE_EVENT));
      }
      pending := pending[i := Stale(pending[i], chan)];
    }

    /** `devRp` points just past the first `v` waiting events. */
    ghost predicate Sees(devRp: int, v: nat)
      requires Valid()
      reads this, ring, slots
    {
      && v <= |pending|
      && devRp == ring.Addr(Wrap(ring.r + v, ring.elements))
    }

    lemma SeesNothing(devRp: int, v: nat)
      requires Valid() && Sees(devRp, v)
      ensures ring.rp == devRp <==> v == 0
    {
      ring.SameSlot(ring.r, Wrap(ring.r + v, ring.elements));
    }

    method ReadDeviceRp() returns (devRp: int)
      requires Valid()
      ensures Sees(devRp, |pending|)
    {
      devRp := ring.ToVirtual(ctxtRp);
    }

    /** The device's read pointer is looked at again only when the events seen are used up, or the quota is. */
    method LookAgain(devRp: int, left: nat, ghost v: nat) returns (devRp': int, ghost v': nat)
      requires Valid() && Sees(devRp, v)
      ensures Sees(devRp', v')
      ensures devRp' != ring.rp <==> v' > 0
      ensures v' == 0 ==> pending == []
    {
      devRp', v' := devRp, v;
      SeesNothing(devRp', v');
      if ring.rp == devRp || left == 0 {
        devRp' := ReadDeviceRp();
        v' := |pending|;
        SeesNothing(devRp', v');
      }
    }

    /** One event is read and its slot given back, the device being at work in between. */
    method TakeOne(arriving: seq<Event>, ghost devRp: int, ghost v: nat) returns (e: Event, came: seq<Event>)
      requires Valid() && pending != [] && v > 0 && Sees(devRp, v)
      modifies this, ring, slots
      ensures Valid() && Sees(devRp, v - 1)
      ensures e == old(pending)[0] && taken == old(taken) + [e]
      ensures came <= arriving && old(pending) + came == [e] + pending
    {
      e := EventAtRp();
      var k := DeviceProduces(arriving);
      came := arriving[..k];
      Recycle();
    }

    /**
     mhi_process_data_event_ring. `arrivals` is what the device tries to append
     during each turn; it becomes visible only when the device's read pointer
     is read again. `handled` are the events parsed as transfers, `arrived`
     what the device did append.
     */
    method ProcessDataEvents(quota: nat, arrivals: seq<seq<Event>>)
      returns (count: nat, handled: seq<Event>, arrived: seq<Event>)
      requires Valid()
      modifies this, ring, slots
      ensures Valid()
      ensures var all := old(pending) + arrived;
              && count == Consumed(all, quota)
              && handled == Xfers(all[..count])
              && taken == old(taken) + all[..count]
              && pending == all[count..]
    {
      ghost var done, was := [], pending;
      count, handled, arrived := 0, [], [];
      var left := quota;
      var j := 0;
      var devRp := ReadDeviceRp();
      ghost var v := |pending|;
      SeesNothing(devRp, v);
      assert Passed(done, quota, handled, left);
      hide Consumed, Xfers, Passed, IsXfer, Used;
      while devRp != ring.rp && left > 0
        invariant Valid() && v >= 0 && Sees(devRp, v)
        invariant devRp != ring.rp <==> v > 0
        invariant v == 0 ==> pending == []
        invariant |done| == count && Passed(done, quota, handled, left)
        invariant was + arrived == done + pending
        invariant taken == old(taken) + done
        decreases if j < |arrivals| then |arrivals| - j else 0, |pending|
      {
        ghost var before := pending;
        var e, came := TakeOne(if j < |arrivals| then arrivals[j] else [], devRp, v);
        Regroup(was, arrived, done, before, came, e, pending);
        j := j + 1;
        arrived := arrived + came;
        PassOneMore(done, e, quota, handled, left);
        done := done + [e];
        if IsXfer(e) {
          handled := handled + [e];
          left := left - 1;
        }
        devRp, v := LookAgain(devRp, left, v - 1);
        count := count + 1;
      }
      PassEnds(done, pending, quota, handled, left);
    }
  }

  ghost function PartlyMarked(evs: seq<Event>, i: nat, chan: nat): (r: seq<Event>)
    requires i <= |evs|
    ensures |r| == |evs|
  {
    MarkStale(evs[..i], chan) + evs[i..]
  }

  lemma MarkedEnds(evs: seq<Event>, chan: nat)
    ensures PartlyMarked(evs, 0, chan) == evs
    ensures PartlyMarked(evs, |evs|, chan) == MarkStale(evs, chan)
  {
    assert evs[..|evs|] == evs;
  }

  lemma MarkedSoFar(evs: seq<Event>, i: nat, chan: nat)
    requires i < |evs|
    ensures var p := PartlyMarked(evs, i, chan);
            p[i := Stale(p[i], chan)] == PartlyMarked(evs, i + 1, chan)
  {
  }

  lemma Regroup(was: seq<Event>, arrived: seq<Event>, done: seq<Event>, before: seq<Event>, came: seq<Event>, e: Event, now: seq<Event>)
    requires was + arrived == done + before && before + came == [e] + now
    ensures was + (arrived + came) == (done + [e]) + now
  {
    assert was + (arrived + came) == (was + arrived) + came == done + (before + came);
  }

  lemma {:induction false} XfersAppend(evs: seq<Event>, e: Event)
    ensures Xfers(evs + [e]) == Xfers(evs) + (if IsXfer(e) then [e] else [])
  {
    if evs == [] {
      assert evs + [e] == [e];
    } else {
      XfersAppend(evs[1..], e);
      assert (evs + [e])[1..] == evs[1..] + [e];
    }
  }

  /** A pass is over when nothing waits or the quota is used up. */
  lemma PassEnds(done: seq<Event>, rest: seq<Event>, quota: nat, handled: seq<Event>, left: nat)
    requires Passed(done, quota, handled, left) && (rest == [] || left == 0)
    ensures Consumed(done + rest, quota) == |done| && handled == Xfers((done + rest)[..|done|])
    ensures (done + rest)[..|done|] == done && (done + rest)[|done|..] == rest
  {
    PassesCompose(done, rest, quota);
    assert (done + rest)[..|done|] == done;
  }

  /** `done` was consumed by a pass with this quota, which parsed `handled` and has `left` to go. */
  predicate Passed(done: seq<Event>, quota: nat, handled: seq<Event>, left: nat) {
    Consumed(done, quota) == |done| && handled == Xfers(done) && |handled| + left == quota
  }

  lemma PassOneMore(done: seq<Event>, e: Event, quota: nat, handled: seq<Event>, left: nat)
    requires Passed(done, quota, handled, left) && left > 0
    ensures if IsXfer(e) then Passed(done + [e], quota, handled + [e], left - 1) else Passed(done + [e], quota, handled, left)
  {
    PassesCompose(done, [e], quota);
    XfersAppend(done, e);
  }
}
