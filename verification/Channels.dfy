/**
 A transfer channel: a transfer ring the device reads and a buffer ring the
 host keeps beside it.

 `Chan` is what a channel means: one queue of buffers, with everything the
 driver owes its client and the DMA layer for them. Class `Channel` is the
 driver's form, with two rings, slots overwritten in place and byte pointers;
 each of its methods is proved to change the meaning as the function of the
 same name says. The lemmas at the end are about any run of those functions.
 */
module Channels {
  import opened Basics
  import opened Rings
  import opened Power
  import opened Doorbells

  datatype Errno = Success | NoMem | Io

  /** How the client hands buffers over; decides the queueing routine. */
  datatype Kind = Buffer | Skb | Dma

  datatype Status = Transferred | Overflow | NotConnected

  /** Completion codes MHI_EV_CC_*, in the groups the handler distinguishes. */
  datatype Code = CcOverflow | CcEot | CcEob | CcOob | CcDbMode | CcBadTre | CcUnknown

  datatype BufInfo = BufInfo(cbBuf: int, pAddr: int, len: nat, preMapped: bool)

  datatype Tre = Tre(ptr: int, dword0: nat, dword1: nat)

  /** What one slot of the two rings holds. */
  datatype Entry = Entry(info: BufInfo, tre: Tre)

  /** What the client gets back through its callback. */
  datatype Result = Result(cbBuf: int, bytes: nat, status: Status)

  /**
   One call to queue a buffer, with what the call meets: the address the DMA
   layer maps it to (the client's own for `Dma`), or a failure to map it, and
   the power state at the time. mhi_queue_buf looks at the power state twice,
   the second time as `later`; the others hold it in between.
   */
  datatype Request = Request(cbBuf: int, len: nat, flags: nat, mapping: Option<int>, pm: Pm, later: Pm)

  datatype Chan = Chan(
    n: nat, iommu: int, kind: Kind, uplink: bool, intmod: bool, enabled: bool,
    queue: seq<Entry>, accepted: seq<int>, returned: seq<Result>,
    mapped: seq<int>, unmapped: seq<int>,
    w: nat, bell: Bell, pending: int, votes: int, kicks: nat)

  const TRE_SIZE := 16
  const MAX_MTU := 0xffff

  // --- Queueing --------------------------------------------------------------

  function B2N(b: bool): nat { if b then 1 else 0 }

  /** MHI_TRE_DATA_DWORD1 */
  function DataDword1(bei: bool, ieot: bool, ieob: bool, chain: bool): nat {
    0x20000 + B2N(bei) * 0x400 + B2N(ieot) * 0x200 + B2N(ieob) * 0x100 + B2N(chain)
  }

  /** The slot contents for an accepted request; MHI_EOB is 0, so it never sets a bit. */
  function EntryOf(kind: Kind, intmod: bool, q: Request): Entry
    requires q.mapping.Some?
  {
    Entry(
      BufInfo(q.cbBuf, q.mapping.value, q.len, kind == Dma),
      Tre(q.mapping.value, q.len % (MAX_MTU + 1),
          if kind == Buffer then DataDword1(intmod, q.flags % 2 == 1, false, (q.flags / 2) % 2 == 1)
          else DataDword1(true, true, false, false)))
  }

  function Verdict(c: Chan, q: Request): Errno {
    var full := |c.queue| + 1 == c.n;
    if c.kind == Buffer && InErrorState(q.pm) then Io
    else if full then NoMem
    else if InErrorState(q.pm) then Io
    else if q.mapping.None? then NoMem
    else Success
  }

  /** The power state that decides about resuming the link and about the doorbell. */
  function Look(kind: Kind, q: Request): Pm { if kind == Buffer then q.later else q.pm }

  /** A suspended link is asked to resume, by a vote taken and given back at once. */
  function Kick(c: Chan, pm: Pm): Chan {
    if InSuspendState(pm) then c.(kicks := c.kicks + 1) else c
  }

  /** A buffer that cannot be mapped leaves nothing behind but, where the state was looked at first, the request to resume. */
  function Queue(c: Chan, q: Request): Chan
    requires c.w < c.n
  {
    if Verdict(c, q) == Success then RingDb(Kick(Enter(c, EntryOf(c.kind, c.intmod, q)), Look(c.kind, q)), Look(c.kind, q))
    else if c.kind != Buffer && |c.queue| + 1 != c.n && !InErrorState(q.pm) then Kick(c, q.pm)
    else c
  }

  /** The slot is filled, both write pointers advance and the packet is counted. */
  function Enter(c: Chan, e: Entry): Chan
    requires c.w < c.n
  {
    c.(queue := c.queue + [e],
       accepted := c.accepted + [e.info.cbBuf],
       mapped := if e.info.preMapped then c.mapped else c.mapped + [e.info.pAddr],
       w := Next(c.w, c.n),
       pending := if c.uplink then c.pending + 1 else c.pending,
       votes := if c.uplink && c.pending + 1 == 1 then c.votes + 1 else c.votes)
  }

  /** The doorbell for everything queued so far, if the power state lets it be rung. */
  function RingDb(c: Chan, pm: Pm): Chan {
    if DbAccessValid(pm) then c.(bell := Announce(c.bell, c.iommu + c.w * TRE_SIZE)) else c
  }

  /** Asking for the link before the rings are touched comes to the same as asking afterwards. */
  lemma KickFirst(c: Chan, e: Entry, pm: Pm)
    requires c.w < c.n
    ensures Kick(c, pm).w < c.n && Kick(c, pm).n == c.n
    ensures Enter(Kick(c, pm), e) == Kick(Enter(c, e), pm)
  {
  }

  /** Requests made one after the other. */
  function QueueAll(c: Chan, qs: seq<Request>): (c': Chan)
    requires c.w < c.n
    ensures c'.n == c.n && c'.w < c'.n
    ensures c.queue <= c'.queue
    decreases |qs|
  {
    if qs == [] then c else Queue(QueueAll(c, qs[..|qs|-1]), qs[|qs|-1])
  }

  lemma QueueAllNext(c: Chan, qs: seq<Request>, i: nat)
    requires c.w < c.n && i < |qs|
    ensures QueueAll(c, qs[..i+1]) == Queue(QueueAll(c, qs[..i]), qs[i])
  {
    assert qs[..i+1][..i] == qs[..i];
  }

  // --- Completion ------------------------------------------------------------

  /** The oldest buffer leaves the rings and goes back to the client. */
  function Retire(c: Chan, bytes: nat, status: Status): Chan
    requires c.queue != []
  {
    var b := c.queue[0].info;
    c.(queue := c.queue[1..],
       returned := c.returned + [Result(b.cbBuf, bytes, status)],
       unmapped := if b.preMapped then c.unmapped else c.unmapped + [b.pAddr])
  }

  /** The pending-packet count and the runtime vote it backs are given up for one uplink buffer. */
  function Release(c: Chan): Chan {
    if !c.uplink then c
    else c.(pending := c.pending - 1, votes := if c.pending - 1 == 0 then c.votes - 1 else c.votes)
  }

  /** The client's `k`-th callback may queue more buffers. */
  function Reaction(react: seq<seq<Request>>, k: nat): seq<Request> {
    if k < |react| then react[k] else []
  }

  /** `k` completions in a row, each with its callback. */
  function Complete(c: Chan, k: nat, bytes: nat, status: Status, react: seq<seq<Request>>): (c': Chan)
    requires c.w < c.n && k <= |c.queue|
    ensures c'.n == c.n && c'.w < c'.n
    ensures c.queue[k..] <= c'.queue
  {
    if k == 0 then c
    else
      var c1 := Complete(c, k - 1, bytes, status, react);
      assert c.queue[k..] == c.queue[k-1..][1..] <= c1.queue[1..];
      Release(QueueAll(Retire(c1, bytes, status), Reaction(react, k - 1)))
  }

  /** Everything outstanding handed back, as a channel reset does. */
  function Reset(c: Chan): Chan
    decreases |c.queue|
  {
    if c.queue == [] then c else Reset(Retire(Release(c), 0, NotConnected))
  }

  /** An out-of-buffer or doorbell-mode event: doorbells count again, and one is due if work waits. */
  function DoorbellEvent(c: Chan, pm: Pm): Chan {
    var c1 := c.(bell := c.bell.(dbMode := true));
    if c.queue != [] then RingDb(c1, pm) else c1
  }

  /** How far a completion naming slot `slot` advances the read pointer. */
  function Steps(r: nat, slot: nat, n: nat): (k: nat)
    requires r < n && slot < n
  {
    Used(r, Next(slot, n), n)
  }

  /** What a completion event does to an enabled channel. */
  function OnEvent(c: Chan, code: Code, k: nat, len: nat, pm: Pm, react: seq<seq<Request>>): Chan
    requires c.w < c.n && k <= |c.queue|
  {
    if !c.enabled then c
    else match code
      case CcOverflow => Complete(c, k, len, Overflow, react)
      case CcEot | CcEob => Complete(c, k, len, Transferred, react)
      case CcOob | CcDbMode => DoorbellEvent(c, pm)
      case CcBadTre | CcUnknown => c
  }

  predicate IsCompletion(code: Code) { code in {CcOverflow, CcEot, CcEob} }

  class Channel {
    const kind: Kind
    const uplink: bool
    const intmod: bool
    const burst: bool
    const treRing: Ring
    const bufRing: Ring
    const treSlots: array<Tre>
    const bufSlots: array<BufInfo>
    var enabled: bool
    var dbMode: bool
    var dbVal: int
    var ctxtWp: int
    var pendingPkts: int
    var votes: int
    var kicks: nat
    var written: seq<int>            // everything written to the doorbell register
    ghost var queue: seq<Entry>
    ghost var accepted: seq<int>
    ghost var returned: seq<Result>
    ghost var mapped: seq<int>
    ghost var unmapped: seq<int>

    ghost predicate Valid()
      reads this, treRing, bufRing, treSlots, bufSlots
    {
      var n := treRing.elements;
      && treRing != bufRing
      && treRing.Valid() && bufRing.Valid()
      && 2 <= n == bufRing.elements == treSlots.Length == bufSlots.Length
      && treRing.elSize == TRE_SIZE
      && treRing.r == bufRing.r && treRing.w == bufRing.w
      && |queue| == Used(treRing.r, treRing.w, n)
      && (forall i :: 0 <= i < |queue| ==> Holds(Wrap(treRing.r + i, n), queue[i]))
      && (kind != Dma ==> forall k :: 0 <= k < n ==> !bufSlots[k].preMapped)
    }

    ghost predicate Holds(slot: nat, e: Entry)
      requires slot < treSlots.Length && slot < bufSlots.Length
      reads treSlots, bufSlots
    {
      treSlots[slot] == e.tre && bufSlots[slot] == e.info
    }

    ghost function View(): Chan
      reads this, treRing
    {
      Chan(treRing.elements, treRing.iommuBase, kind, uplink, intmod, enabled,
           queue, accepted, returned, mapped, unmapped,
           treRing.w, Bell(burst, dbMode, dbVal, ctxtWp, written), pendingPkts, votes, kicks)
    }

    /** mhi_init_chan_ctxt: both rings empty, nothing announced, doorbells armed. */
    constructor (kind: Kind, uplink: bool, intmod: bool, burst: bool, base: int, iommu: int,
                 elements: nat, bufBase: int, bufInfoSize: nat, dbVal: int, pendingPkts: int, votes: int)
      requires 2 <= elements && 0 < bufInfoSize
      ensures Valid() && !enabled
      ensures View() == Chan(elements, iommu, kind, uplink, intmod, false, [], [], [], [], [],
                             0, Bell(burst, true, dbVal, iommu, []), pendingPkts, votes, 0)
      ensures fresh(treRing) && fresh(bufRing) && fresh(treSlots) && fresh(bufSlots)
    {
      this.kind, this.uplink, this.intmod, this.burst := kind, uplink, intmod, burst;
      var t := new Ring(base, iommu, TRE_SIZE, elements);
      var b := new Ring(bufBase, bufBase, bufInfoSize, elements);
      treRing, bufRing := t, b;
      treSlots := new Tre[elements](_ => Tre(0, 0, 0));
      bufSlots := new BufInfo[elements](_ => BufInfo(0, 0, 0, false));
      enabled, dbMode, ctxtWp, kicks, written := false, true, iommu, 0, [];
      this.dbVal, this.pendingPkts, this.votes := dbVal, pendingPkts, votes;
      queue, accepted, returned, mapped, unmapped := [], [], [], [], [];
    }

    /** mhi_ring_chan_db */
    method RingChanDb()
      requires treRing.Valid() && treRing.elSize == TRE_SIZE
      modifies this`ctxtWp, this`dbVal, this`dbMode, this`written
      ensures View().bell == Announce(old(View().bell), treRing.iommuBase + treRing.w * TRE_SIZE)
      ensures !burst || old(dbMode) ==> dbVal == ctxtWp == treRing.iommuBase + treRing.w * TRE_SIZE && written == old(written) + [dbVal]
      ensures burst ==> !dbMode
    {
      var db := treRing.iommuBase + (treRing.wp - treRing.base);
      ctxtWp := db;
      if burst {
        if dbMode {
          dbVal := db;
          written := written + [db];
          dbMode := false;
        }
      } else {
        dbVal := db;
        written := written + [db];
      }
    }

    /** Fill the slots under the two write pointers; nothing outstanding is touched. */
    method FillSlots(e: Entry)
      requires Valid() && |queue| + 1 < treRing.elements && e.info.preMapped == (kind == Dma)
      modifies treSlots, bufSlots
      ensures Valid()
      ensures Holds(treRing.w, e)
    {
      var k := bufRing.WriteSlot();
      bufSlots[k] := e.info;
      k := treRing.WriteSlot();
      treSlots[k] := e.tre;
    }

    /** Both write pointers advance, the transfer ring's first. */
    method AdvanceWp(ghost e: Entry)
      requires Valid() && |queue| + 1 < treRing.elements && Holds(treRing.w, e)
      modifies this`queue, this`accepted, this`mapped, treRing`wp, treRing`w, bufRing`wp, bufRing`w
      ensures Valid()
      ensures treRing.w == Next(old(treRing.w), treRing.elements)
      ensures queue == old(queue) + [e]
      ensures accepted == old(accepted) + [e.info.cbBuf]
      ensures mapped == if e.info.preMapped then old(mapped) else old(mapped) + [e.info.pAddr]
    {
      QueueMoves(treRing.r, treRing.w, treRing.elements);
      hide Next, Used;
      treRing.AddElement();
      bufRing.AddElement();
      queue := queue + [e];
      accepted := accepted + [e.info.cbBuf];
      mapped := if e.info.preMapped then mapped else mapped + [e.info.pAddr];
    }

    /** Fill the slots under the write pointers and move past them. */
    method Place(e: Entry)
      requires Valid() && |queue| + 1 < treRing.elements && e.info.preMapped == (kind == Dma)
      modifies this`queue, this`accepted, this`mapped, treSlots, bufSlots
      modifies treRing`wp, treRing`w, bufRing`wp, bufRing`w
      ensures Valid()
      ensures treRing.w == Next(old(treRing.w), treRing.elements)
      ensures queue == old(queue) + [e]
      ensures accepted == old(accepted) + [e.info.cbBuf]
      ensures mapped == if e.info.preMapped then old(mapped) else old(mapped) + [e.info.pAddr]
    {
      FillSlots(e);
      AdvanceWp(e);
    }

    /** The doorbell, if the power state lets it be rung. */
    method Publish(pm: Pm)
      requires Valid()
      modifies this`ctxtWp, this`dbVal, this`dbMode, this`written
      ensures Valid()
      ensures View() == RingDb(old(View()), pm)
    {
      if DbAccessValid(pm) {
        RingChanDb();
      }
    }

    method CountPending()
      requires Valid()
      modifies this`pendingPkts, this`votes
      ensures Valid()
      ensures pendingPkts == if uplink then old(pendingPkts) + 1 else old(pendingPkts)
      ensures votes == if uplink && pendingPkts == 1 then old(votes) + 1 else old(votes)
    {
      if uplink {
        pendingPkts := pendingPkts + 1;
        if pendingPkts == 1 {
          votes := votes + 1;
        }
      }
    }

    /** The buffer form moves the pointers before it counts the packet, the other two count it first. */
    method EnterRings(e: Entry)
      requires Valid() && |queue| + 1 < treRing.elements && e.info.preMapped == (kind == Dma)
      modifies this, treRing, bufRing, treSlots, bufSlots
      ensures Valid()
      ensures View() == Enter(old(View()), e)
      ensures treRing.r == old(treRing.r)
    {
      if kind == Buffer {
        Place(e);
        CountPending();
      } else {
        CountPending();
        Place(e);
      }
    }

    /** runtime_get followed by runtime_put, for a suspended link. */
    method Resume(pm: Pm)
      requires Valid()
      modifies this`kicks
      ensures Valid()
      ensures View() == Kick(old(View()), pm)
    {
      if InSuspendState(pm) {
        kicks := kicks + 1;
      }
    }

    /** mhi_queue_skb and mhi_queue_dma, which differ only in who maps the buffer. */
    method QueueSkbOrDma(q: Request) returns (ret: Errno)
      requires Valid() && kind != Buffer
      modifies this, treRing, bufRing, treSlots, bufSlots
      ensures Valid()
      ensures ret == Verdict(old(View()), q)
      ensures View() == Queue(old(View()), q)
      ensures treRing.r == old(treRing.r)
    {
      var full := treRing.IsFull();
      if full {
        return NoMem;
      }
      if InErrorState(q.pm) {
        return Io;
      }
      ghost var c := View();
      assert Verdict(c, q) == if q.mapping.None? then NoMem else Success;
      Resume(q.pm);
      if q.mapping.None? {
        return NoMem;
      }
      var e := EntryOf(kind, intmod, q);
      KickFirst(c, e, q.pm);
      assert e.info.preMapped == (kind == Dma) && |queue| + 1 < treRing.elements;
      hide Kick, Enter, RingDb, Verdict, EntryOf;
      EnterRings(e);
      Publish(q.pm);
      ret := Success;
    }

    /** mhi_queue_buf with mhi_gen_tre: the slot is filled and the pointers moved before the power state is looked at again. */
    method QueueBuf(q: Request) returns (ret: Errno)
      requires Valid() && kind == Buffer
      modifies this, treRing, bufRing, treSlots, bufSlots
      ensures Valid()
      ensures ret == Verdict(old(View()), q)
      ensures View() == Queue(old(View()), q)
      ensures treRing.r == old(treRing.r)
    {
      if InErrorState(q.pm) {
        return Io;
      }
      var full := treRing.IsFull();
      if full {
        return NoMem;
      }
      if q.mapping.None? {
        return NoMem;
      }
      var e := EntryOf(kind, intmod, q);
      EnterRings(e);
      Resume(q.later);
      Publish(q.later);
      ret := Success;
    }

    /** The client's callback, queueing what it chooses to queue. */
    method Callback(qs: seq<Request>)
      requires Valid()
      modifies this, treRing, bufRing, treSlots, bufSlots
      ensures Valid()
      ensures View() == QueueAll(old(View()), qs)
      ensures treRing.r == old(treRing.r)
    {
      var i := 0;
      assert qs[..0] == [];
      while i < |qs|
        invariant 0 <= i <= |qs|
        invariant Valid()
        invariant View() == QueueAll(old(View()), qs[..i])
        invariant treRing.r == old(treRing.r)
      {
        QueueAllNext(old(View()), qs, i);
        hide QueueAll, Queue, Verdict;
        var _ := Submit(qs[i]);
        i := i + 1;
      }
      assert qs[..i] == qs;
    }

    method Submit(q: Request) returns (ret: Errno)
      requires Valid()
      modifies this, treRing, bufRing, treSlots, bufSlots
      ensures Valid()
      ensures ret == Verdict(old(View()), q)
      ensures View() == Queue(old(View()), q)
      ensures treRing.r == old(treRing.r)
    {
      if kind == Buffer {
        ret := QueueBuf(q);
      } else {
        ret := QueueSkbOrDma(q);
      }
    }

    // --- Completion and reset ------------------------------------------------

    /** Both read pointers advance, the buffer ring's first. */
    method AdvanceRp()
      requires Valid() && queue != []
      modifies this`queue, treRing`rp, treRing`r, bufRing`rp, bufRing`r
      ensures Valid()
      ensures queue == old(queue)[1..]
      ensures treRing.r == Next(old(treRing.r), treRing.elements)
    {
      QueueMoves(treRing.r, treRing.w, treRing.elements);
      bufRing.DelElement();
      treRing.DelElement();
      queue := queue[1..];
    }

    /** The oldest entry leaves both rings; it is unmapped if the driver mapped it. */
    method RetireOldest(bytes: nat, status: Status)
      requires Valid() && queue != []
      modifies this`queue, this`returned, this`unmapped, treRing`rp, treRing`r, bufRing`rp, bufRing`r
      ensures Valid()
      ensures View() == Retire(old(View()), bytes, status)
      ensures treRing.r == Next(old(treRing.r), treRing.elements)
    {
      var k := bufRing.ReadSlot();
      var b := bufSlots[k];
      assert b == queue[0].info by {
        assert Holds(Wrap(treRing.r + 0, treRing.elements), queue[0]);
      }
      AdvanceRp();
      if !b.preMapped {
        unmapped := unmapped + [b.pAddr];
      }
      returned := returned + [Result(b.cbBuf, bytes, status)];
    }

    method UncountPending()
      requires Valid()
      modifies this`pendingPkts, this`votes
      ensures Valid()
      ensures View() == Release(old(View()))
    {
      if uplink {
        pendingPkts := pendingPkts - 1;
        if pendingPkts == 0 {
          votes := votes - 1;
        }
      }
    }

    /** Turn `i` of the completion loop of parse_xfer_event, begun in state `c`. */
    method CompleteTurn(ghost c: Chan, i: nat, bytes: nat, status: Status, react: seq<seq<Request>>)
      requires Valid()
      requires c.w < c.n && i < |c.queue| && View() == Complete(c, i, bytes, status, react)
      modifies this, treRing, bufRing, treSlots, bufSlots
      ensures Valid()
      ensures View() == Complete(c, i + 1, bytes, status, react)
      ensures treRing.r == Next(old(treRing.r), treRing.elements)
    {
      CompleteLeaves(c, i, bytes, status, react);
      RetireOldest(bytes, status);
      Callback(Reaction(react, i));
      UncountPending();
    }

    /** Where the device's read pointer stands after the element at `ptr`. */
    method DevRp(ptr: int, ghost slot: nat) returns (devRp: int)
      requires Valid() && slot < treRing.elements && ptr == treRing.Phys(slot)
      ensures devRp == treRing.Addr(Next(slot, treRing.elements))
    {
      treRing.AdvanceIsNext(treRing.Addr(slot), slot);
      devRp := treRing.ToVirtual(ptr) + TRE_SIZE;
      if devRp >= treRing.base + TRE_SIZE * treRing.elements {
        devRp := treRing.base;
      }
    }

    /** The read pointer meets the device's after exactly the counted steps. */
    lemma Reached(devRp: int, r0: nat, i: nat, slot: nat)
      requires treRing.Valid() && r0 < treRing.elements && slot < treRing.elements
      requires i <= Steps(r0, slot, treRing.elements) && treRing.r == Wrap(r0 + i, treRing.elements)
      requires devRp == treRing.Addr(Next(slot, treRing.elements))
      ensures treRing.rp == devRp <==> i == Steps(r0, slot, treRing.elements)
    {
      treRing.SameSlot(treRing.r, Next(slot, treRing.elements));
    }

    /** After `i` turns, of which there are to be `k`, of a loop that began in state `c` with the read pointer on slot `r0`. */
    ghost predicate Midway(c: Chan, r0: nat, i: nat, k: nat, bytes: nat, status: Status, react: seq<seq<Request>>)
      reads this, treRing, bufRing, treSlots, bufSlots
    {
      && Valid()
      && c.w < c.n == treRing.elements && r0 < c.n && i <= k <= |c.queue| < c.n
      && treRing.r == Wrap(r0 + i, c.n)
      && View() == Complete(c, i, bytes, status, react)
    }

    lemma SettingOut(k: nat, bytes: nat, status: Status, react: seq<seq<Request>>)
      requires Valid() && k <= |queue|
      ensures Midway(View(), treRing.r, 0, k, bytes, status, react)
    {
    }

    lemma Arrived(c: Chan, r0: nat, k: nat, bytes: nat, status: Status, react: seq<seq<Request>>)
      requires Midway(c, r0, k, k, bytes, status, react)
      ensures Valid() && c.w < c.n && k <= |c.queue| && View() == Complete(c, k, bytes, status, react)
    {
    }

    method CompleteOne(ghost c: Chan, ghost r0: nat, i: nat, devRp: int, ghost slot: nat,
                       bytes: nat, status: Status, react: seq<seq<Request>>)
      requires r0 < treRing.elements && slot < treRing.elements && devRp == treRing.Addr(Next(slot, treRing.elements))
      requires i < Steps(r0, slot, treRing.elements)
      requires Midway(c, r0, i, Steps(r0, slot, treRing.elements), bytes, status, react)
      modifies this, treRing, bufRing, treSlots, bufSlots
      ensures Midway(c, r0, i + 1, Steps(r0, slot, treRing.elements), bytes, status, react)
      ensures treRing.rp == devRp <==> i + 1 == Steps(r0, slot, treRing.elements)
    {
      CompleteTurn(c, i, bytes, status, react);
      Reached(devRp, r0, i + 1, slot);
    }

    /**
     The loop of parse_xfer_event: everything up to and including the element
     that the event points to is completed, however the callbacks refill the
     ring meanwhile.
     */
    method CompleteUpTo(ptr: int, ghost slot: nat, bytes: nat, status: Status, react: seq<seq<Request>>)
      requires Valid()
      requires slot < treRing.elements && ptr == treRing.Phys(slot)
      requires Steps(treRing.r, slot, treRing.elements) <= |queue|
      modifies this, treRing, bufRing, treSlots, bufSlots
      ensures Valid()
      ensures View() == Complete(old(View()), Steps(old(treRing.r), slot, treRing.elements), bytes, status, react)
    {
      hide Complete, Midway, Steps, Used, Next, Holds;
      var devRp := DevRp(ptr, slot);
      ghost var k := Steps(treRing.r, slot, treRing.elements);
      ghost var c, r0 := View(), treRing.r;
      var i := 0;
      Reached(devRp, r0, i, slot);
      SettingOut(k, bytes, status, react);
      while treRing.rp != devRp
        invariant i <= k && Midway(c, r0, i, k, bytes, status, react)
        invariant treRing.rp == devRp <==> i == k
        decreases k - i
      {
        CompleteOne(c, r0, i, devRp, slot, bytes, status, react);
        i := i + 1;
      }
      Arrived(c, r0, k, bytes, status, react);
    }

    /** The out-of-buffer and doorbell-mode branch of parse_xfer_event. */
    method RearmDoorbell(pm: Pm)
      requires Valid()
      modifies this`ctxtWp, this`dbVal, this`dbMode, this`written
      ensures Valid()
      ensures View() == DoorbellEvent(old(View()), pm)
    {
      dbMode := true;
      treRing.PointerOrder();
      assert treRing.wp != treRing.rp <==> queue != [];
      hide RingDb, Announce;
      if treRing.wp != treRing.rp {
        Publish(pm);
      }
    }

    /**
     parse_xfer_event. A completion must name an element from the one before
     the oldest outstanding (which completes nothing) to the newest outstanding.
     */
    method ParseXferEvent(code: Code, ptr: int, ghost slot: nat, dword0: nat, pm: Pm, react: seq<seq<Request>>)
      requires Valid()
      requires slot < treRing.elements
      requires enabled && IsCompletion(code) ==>
                 ptr == treRing.Phys(slot) && Steps(treRing.r, slot, treRing.elements) <= |queue|
      modifies this, treRing, bufRing, treSlots, bufSlots
      ensures Valid()
      ensures View() == OnEvent(old(View()), code,
                                if old(enabled) && IsCompletion(code) then Steps(old(treRing.r), slot, treRing.elements) else 0,
                                dword0 % 0x1_0000, pm, react)
    {
      if !enabled {
        return;
      }
      match code
      case CcOverflow =>
        CompleteUpTo(ptr, slot, dword0 % 0x1_0000, Overflow, react);
      case CcEot | CcEob =>
        CompleteUpTo(ptr, slot, dword0 % 0x1_0000, Transferred, react);
      case CcOob | CcDbMode =>
        RearmDoorbell(pm);
      case CcBadTre | CcUnknown =>
    }

    /** mhi_reset_data_chan, for clients that queue nothing from a disconnect callback. */
    method ResetDataChan()
      requires Valid()
      modifies this, treRing, bufRing
      ensures Valid() && queue == []
      ensures View() == Reset(old(View()))
    {
      treRing.PointerOrder();
      while treRing.rp != treRing.wp
        invariant Valid()
        invariant Reset(View()) == Reset(old(View()))
        invariant treRing.rp != treRing.wp <==> queue != []
        decreases |queue|
      {
        UncountPending();
        RetireOldest(0, NotConnected);
        treRing.PointerOrder();
      }
    }
  }

  /** After `k` completions the entries queued later than those are still at the front. */
  lemma CompleteLeaves(c: Chan, k: nat, bytes: nat, status: Status, react: seq<seq<Request>>)
    requires c.w < c.n && k < |c.queue|
    ensures Complete(c, k, bytes, status, react).queue != []
  {
    assert c.queue[k..] <= Complete(c, k, bytes, status, react).queue;
  }

  // --- What holds over every run ----------------------------------------------

  function Bufs(rs: seq<Result>): seq<int> { seq(|rs|, i requires 0 <= i < |rs| => rs[i].cbBuf) }

  function QueuedBufs(es: seq<Entry>): seq<int> { seq(|es|, i requires 0 <= i < |es| => es[i].info.cbBuf) }

  /** The addresses the driver itself mapped, in order. */
  function DriverMapped(es: seq<Entry>): seq<int> {
    if es == [] then []
    else
      var rest := DriverMapped(es[..|es|-1]);
      var last := es[|es|-1].info;
      if last.preMapped then rest else rest + [last.pAddr]
  }

  /**
   The books balance: what was accepted is what went back followed by what is
   outstanding, in order; what was mapped is what was unmapped followed by the
   mappings of what is outstanding. On an uplink channel the packet count is
   the number outstanding above `p0`, and the runtime vote is held exactly
   while the count is positive.
   */
  ghost predicate Sound(c: Chan, p0: int, v0: int) {
    && c.w < c.n
    && |c.queue| < c.n
    && c.accepted == Bufs(c.returned) + QueuedBufs(c.queue)
    && c.mapped == c.unmapped + DriverMapped(c.queue)
    && (forall i :: 0 <= i < |c.queue| ==> c.queue[i].info.preMapped == (c.kind == Dma))
    && (c.uplink ==> c.pending == p0 + |c.queue| && c.votes == v0 + B2N(c.pending > 0))
  }

  datatype Op =
    | OpQueue(q: Request)
    | OpEvent(code: Code, k: nat, len: nat, pm: Pm, react: seq<seq<Request>>)
    | OpReset
    | OpEnable(on: bool)

  /** One step of the channel; an event that completes more than is outstanding is not one a device sends. */
  function Apply(c: Chan, op: Op): (c': Chan)
    requires c.w < c.n
    ensures c'.n == c.n && c'.w < c'.n
  {
    match op
    case OpQueue(q) => Queue(c, q)
    case OpEvent(code, k, len, pm, react) => if k <= |c.queue| then OnEvent(c, code, k, len, pm, react) else c
    case OpReset => ResetKeepsShape(c); Reset(c)
    case OpEnable(on) => c.(enabled := on)
  }

  function Run(c: Chan, ops: seq<Op>): (c': Chan)
    requires c.w < c.n
    ensures c'.n == c.n && c'.w < c'.n
    decreases |ops|
  {
    if ops == [] then c else Apply(Run(c, ops[..|ops|-1]), ops[|ops|-1])
  }

  lemma {:induction false} ResetKeepsShape(c: Chan)
    ensures Reset(c).n == c.n && Reset(c).w == c.w
    decreases |c.queue|
  {
    if c.queue != [] {
      ResetKeepsShape(Retire(Release(c), 0, NotConnected));
    }
  }

  lemma {:induction false} DriverMappedHead(es: seq<Entry>)
    requires es != []
    ensures DriverMapped(es) == (if es[0].info.preMapped then [] else [es[0].info.pAddr]) + DriverMapped(es[1..])
    decreases |es|
  {
    if |es| > 1 {
      DriverMappedHead(es[..|es|-1]);
      assert es[..|es|-1][1..] == es[1..][..|es|-2];
    }
  }

  lemma EnterSound(c: Chan, e: Entry, p0: int, v0: int)
    requires Sound(c, p0, v0) && |c.queue| + 1 < c.n && e.info.preMapped == (c.kind == Dma)
    ensures Sound(Enter(c, e), p0, v0)
  {
    assert (c.queue + [e])[..|c.queue|] == c.queue;
    assert QueuedBufs(c.queue + [e]) == QueuedBufs(c.queue) + [e.info.cbBuf];
  }

  /** Neither the doorbell nor a request to resume touches the books. */
  lemma KickSound(c: Chan, pm: Pm, p0: int, v0: int)
    requires Sound(c, p0, v0)
    ensures Sound(Kick(c, pm), p0, v0)
  {
    var d := Kick(c, pm);
    assert d == c.(kicks := d.kicks);
  }

  lemma RingDbSound(c: Chan, pm: Pm, p0: int, v0: int)
    requires Sound(c, p0, v0)
    ensures Sound(RingDb(c, pm), p0, v0)
  {
    var d := RingDb(c, pm);
    assert d == c.(bell := d.bell);
  }

  lemma QueueSound(c: Chan, q: Request, p0: int, v0: int)
    requires Sound(c, p0, v0)
    ensures Sound(Queue(c, q), p0, v0)
  {
    if Verdict(c, q) == Success {
      var e := EntryOf(c.kind, c.intmod, q);
      EnterSound(c, e, p0, v0);
      KickSound(Enter(c, e), Look(c.kind, q), p0, v0);
      RingDbSound(Kick(Enter(c, e), Look(c.kind, q)), Look(c.kind, q), p0, v0);
    } else {
      KickSound(c, q.pm, p0, v0);
    }
    hide Sound, Kick, Enter, RingDb, EntryOf;
  }

  lemma {:induction false} QueueAllSound(c: Chan, qs: seq<Request>, p0: int, v0: int)
    requires Sound(c, p0, v0)
    ensures Sound(QueueAll(c, qs), p0, v0)
    decreases |qs|
  {
    if qs != [] {
      QueueAllSound(c, qs[..|qs|-1], p0, v0);
      QueueSound(QueueAll(c, qs[..|qs|-1]), qs[|qs|-1], p0, v0);
    }
  }

  /** Retiring a buffer leaves its packet counted until it is released. */
  lemma RetireSound(c: Chan, bytes: nat, status: Status, p0: int, v0: int)
    requires Sound(c, p0, v0) && c.queue != []
    ensures Sound(Retire(c, bytes, status), p0 + 1, v0)
  {
    var c' := Retire(c, bytes, status);
    DriverMappedHead(c.queue);
    assert Bufs(c'.returned) == Bufs(c.returned) + [c.queue[0].info.cbBuf];
    assert QueuedBufs(c.queue) == [c.queue[0].info.cbBuf] + QueuedBufs(c'.queue);
  }

  lemma ReleaseSound(c: Chan, p0: int, v0: int)
    requires Sound(c, p0 + 1, v0)
    ensures Sound(Release(c), p0, v0)
  {
    var d := Release(c);
    assert d == c.(pending := d.pending, votes := d.votes);
  }

  lemma {:induction false} CompleteSound(c: Chan, k: nat, bytes: nat, status: Status, react: seq<seq<Request>>, p0: int, v0: int)
    requires Sound(c, p0, v0) && k <= |c.queue|
    ensures Sound(Complete(c, k, bytes, status, react), p0, v0)
  {
    if k > 0 {
      CompleteSound(c, k - 1, bytes, status, react, p0, v0);
      CompleteLeaves(c, k - 1, bytes, status, react);
      var c1 := Complete(c, k - 1, bytes, status, react);
      RetireSound(c1, bytes, status, p0, v0);
      var c2 := QueueAll(Retire(c1, bytes, status), Reaction(react, k - 1));
      QueueAllSound(Retire(c1, bytes, status), Reaction(react, k - 1), p0 + 1, v0);
      hide QueueAll, Retire;
      ReleaseSound(c2, p0, v0);
    }
  }

  lemma {:induction false} ResetSound(c: Chan, p0: int, v0: int)
    requires Sound(c, p0, v0)
    ensures Sound(Reset(c), p0, v0) && Reset(c).queue == []
    ensures Reset(c).accepted == c.accepted && Reset(c).mapped == c.mapped
    decreases |c.queue|
  {
    if c.queue != [] {
      RetireSound(Release(c), 0, NotConnected, p0 - 1, v0);
      ResetSound(Retire(Release(c), 0, NotConnected), p0, v0);
    }
  }

  lemma EventSound(c: Chan, code: Code, k: nat, len: nat, pm: Pm, react: seq<seq<Request>>, p0: int, v0: int)
    requires Sound(c, p0, v0) && k <= |c.queue|
    ensures Sound(OnEvent(c, code, k, len, pm, react), p0, v0)
  {
    if c.enabled && IsCompletion(code) {
      CompleteSound(c, k, len, if code == CcOverflow then Overflow else Transferred, react, p0, v0);
    } else {
      var c1 := c.(bell := c.bell.(dbMode := true));
      RingDbSound(c1, pm, p0, v0);
    }
    hide Complete, RingDb;
  }

  lemma ApplySound(c: Chan, op: Op, p0: int, v0: int)
    requires Sound(c, p0, v0)
    ensures Sound(Apply(c, op), p0, v0)
  {
    match op
    case OpQueue(q) => QueueSound(c, q, p0, v0);
    case OpEvent(code, k, len, pm, react) =>
      if k <= |c.queue| {
        EventSound(c, code, k, len, pm, react, p0, v0);
      }
    case OpReset => ResetSound(c, p0, v0);
    case OpEnable(on) =>
  }

  /** The books balance after any run of queueing, events, resets and state changes. */
  lemma {:induction false} RunSound(c: Chan, ops: seq<Op>, p0: int, v0: int)
    requires Sound(c, p0, v0)
    ensures Sound(Run(c, ops), p0, v0)
    decreases |ops|
  {
    if ops != [] {
      RunSound(c, ops[..|ops|-1], p0, v0);
      ApplySound(Run(c, ops[..|ops|-1]), ops[|ops|-1], p0, v0);
    }
  }

  /** A freshly prepared channel, with the controller-wide counters as found. */
  ghost predicate Fresh(c: Chan) {
    && c.w < c.n && c.queue == [] && c.accepted == [] && c.returned == []
    && c.mapped == [] && c.unmapped == []
    && c.votes == B2N(c.pending > 0)
  }

  /**
   The two rings are one FIFO queue. Over any run, the `i`-th buffer handed
   back is the `i`-th accepted, none is handed back twice, and once a reset
   ends the run every accepted buffer has been handed back and every mapping
   undone, in order.
   */
  lemma OneFifo(c: Chan, ops: seq<Op>)
    requires Fresh(c)
    ensures var d := Run(c, ops);
            && Bufs(d.returned) <= d.accepted
            && |d.returned| + |d.queue| == |d.accepted|
            && d.unmapped <= d.mapped
    ensures var d := Run(c, ops + [OpReset]);
            Bufs(d.returned) == d.accepted == Run(c, ops).accepted && d.unmapped == d.mapped == Run(c, ops).mapped
  {
    RunSound(c, ops, c.pending, 0);
    assert (ops + [OpReset])[..|ops|] == ops;
    ResetSound(Run(c, ops), c.pending, 0);
  }

  // --- What is queued is what was asked for --------------------------------------------

  /** The request finds a slot, a controller that is not in error, and a mapping. */
  predicate LetIn(c: Chan, q: Request) { |c.queue| + 1 < c.n && !InErrorState(q.pm) && q.mapping.Some? }

  /** Of the requests made one after the other, those that are let in. */
  function LetInOf(c: Chan, qs: seq<Request>): seq<Request>
    requires c.w < c.n
    decreases |qs|
  {
    if qs == [] then []
    else LetInOf(c, qs[..|qs|-1]) + if LetIn(QueueAll(c, qs[..|qs|-1]), qs[|qs|-1]) then [qs[|qs|-1]] else []
  }

  /** Those let in by the callbacks of `k` completions. */
  function LetInDuring(c: Chan, k: nat, bytes: nat, status: Status, react: seq<seq<Request>>): seq<Request>
    requires c.w < c.n && k <= |c.queue|
  {
    if k == 0 then []
    else
      CompleteLeaves(c, k - 1, bytes, status, react);
      LetInDuring(c, k - 1, bytes, status, react)
      + LetInOf(Retire(Complete(c, k - 1, bytes, status, react), bytes, status), Reaction(react, k - 1))
  }

  function LetInBy(c: Chan, op: Op): seq<Request>
    requires c.w < c.n
  {
    match op
    case OpQueue(q) => if LetIn(c, q) then [q] else []
    case OpEvent(code, k, len, pm, react) =>
      if c.enabled && IsCompletion(code) && k <= |c.queue|
      then LetInDuring(c, k, len, if code == CcOverflow then Overflow else Transferred, react) else []
    case _ => []
  }

  /** The requests let in over a run, in order. */
  function LetInOver(c: Chan, ops: seq<Op>): seq<Request>
    requires c.w < c.n
    decreases |ops|
  {
    if ops == [] then [] else LetInOver(c, ops[..|ops|-1]) + LetInBy(Run(c, ops[..|ops|-1]), ops[|ops|-1])
  }

  function CbBufs(qs: seq<Request>): seq<int> { seq(|qs|, i requires 0 <= i < |qs| => qs[i].cbBuf) }

  function Mappings(qs: seq<Request>): seq<int>
    requires forall i :: 0 <= i < |qs| ==> qs[i].mapping.Some?
  {
    seq(|qs|, i requires 0 <= i < |qs| => qs[i].mapping.value)
  }

  /**
   The slot serves the request: the device is sent to where the buffer is mapped,
   for its length in 16 bits, and the client will get its own buffer back. A
   buffer form interrupts and chains as its flags say; the others always end a
   transfer and interrupt.
   */
  predicate Serves(e: Entry, q: Request, kind: Kind, intmod: bool) {
    && q.mapping == Some(e.tre.ptr) && e.tre.dword0 == q.len % 0x1_0000
    && e.info.cbBuf == q.cbBuf && Some(e.info.pAddr) == q.mapping && e.info.len == q.len && e.info.preMapped == (kind == Dma)
    && (Ieot(e.tre.dword1) <==> kind != Buffer || q.flags % 2 == 1)
    && (Chained(e.tre.dword1) <==> kind == Buffer && (q.flags / 2) % 2 == 1)
    && (Bei(e.tre.dword1) <==> kind != Buffer || intmod)
    && TypeOf(e.tre.dword1) == 2
  }

  /** The channel after the requests `rs` were let in: what it accepted, mapped and has outstanding are theirs. */
  ghost predicate Owes(c: Chan, rs: seq<Request>) {
    && (forall i :: 0 <= i < |rs| ==> rs[i].mapping.Some?)
    && c.accepted == CbBufs(rs)
    && c.mapped == (if c.kind == Dma then [] else Mappings(rs))
    && |c.queue| <= |rs|
    && forall i :: 0 <= i < |c.queue| ==> Serves(c.queue[i], rs[|rs| - |c.queue| + i], c.kind, c.intmod)
  }

  lemma EntryServes(c: Chan, q: Request)
    requires q.mapping.Some?
    ensures Serves(EntryOf(c.kind, c.intmod, q), q, c.kind, c.intmod)
  {
  }

  /** An update that touches none of what a channel owes. */
  lemma SameOwed(c: Chan, d: Chan, rs: seq<Request>)
    requires Owes(c, rs) && d.accepted == c.accepted && d.mapped == c.mapped && d.queue == c.queue && d.kind == c.kind && d.intmod == c.intmod
    ensures Owes(d, rs)
  {
  }

  lemma EnterOwes(c: Chan, rs: seq<Request>, q: Request, e: Entry)
    requires c.w < c.n && Owes(c, rs) && q.mapping.Some? && Serves(e, q, c.kind, c.intmod)
    ensures Owes(Enter(c, e), rs + [q])
  {
    hide Serves;
    assert e.info.cbBuf == q.cbBuf && e.info.pAddr == q.mapping.value && e.info.preMapped == (c.kind == Dma) by {
      assert Serves(e, q, c.kind, c.intmod);
      ServesMeans(e, q, c.kind, c.intmod);
    }
    assert CbBufs(rs + [q]) == CbBufs(rs) + [q.cbBuf];
    assert Mappings(rs + [q]) == Mappings(rs) + [q.mapping.value];
  }

  lemma ServesMeans(e: Entry, q: Request, kind: Kind, intmod: bool)
    requires Serves(e, q, kind, intmod)
    ensures q.mapping == Some(e.info.pAddr) && e.info.cbBuf == q.cbBuf && e.info.preMapped == (kind == Dma)
  {
  }

  lemma QueueOwes(c: Chan, rs: seq<Request>, q: Request)
    requires c.w < c.n && |c.queue| < c.n && Owes(c, rs)
    ensures Owes(Queue(c, q), rs + if LetIn(c, q) then [q] else [])
    ensures Queue(c, q).kind == c.kind && |Queue(c, q).queue| < c.n
  {
    var d := Queue(c, q);
    if LetIn(c, q) {
      var e := EntryOf(c.kind, c.intmod, q);
      EntryServes(c, q);
      EnterOwes(c, rs, q, e);
      hide Owes, EntryOf;
      SameOwed(Enter(c, e), d, rs + [q]);
    } else {
      hide Owes, EntryOf;
      SameOwed(c, d, rs);
      assert rs + [] == rs;
    }
  }

  lemma {:induction false} QueueAllOwes(c: Chan, rs: seq<Request>, qs: seq<Request>)
    requires c.w < c.n && |c.queue| < c.n && Owes(c, rs)
    ensures Owes(QueueAll(c, qs), rs + LetInOf(c, qs)) && |QueueAll(c, qs).queue| < c.n
    decreases |qs|
  {
    hide Owes, Queue, LetIn;
    if qs == [] {
      assert rs + [] == rs;
    } else {
      var init, q := qs[..|qs|-1], qs[|qs|-1];
      QueueAllOwes(c, rs, init);
      var d := QueueAll(c, init);
      QueueOwes(d, rs + LetInOf(c, init), q);
      var more := if LetIn(d, q) then [q] else [];
      assert (rs + LetInOf(c, init)) + more == rs + (LetInOf(c, init) + more);
    }
  }

  lemma RetireOwes(c: Chan, rs: seq<Request>, bytes: nat, status: Status)
    requires Owes(c, rs) && c.queue != []
    ensures Owes(Retire(c, bytes, status), rs)
  {
    hide Serves;
    var d := Retire(c, bytes, status);
    forall i | 0 <= i < |d.queue|
      ensures Serves(d.queue[i], rs[|rs| - |d.queue| + i], c.kind, c.intmod)
    {
      assert Serves(c.queue[i + 1], rs[|rs| - |c.queue| + (i + 1)], c.kind, c.intmod);
    }
  }

  lemma ReleaseOwes(c: Chan, rs: seq<Request>)
    requires Owes(c, rs)
    ensures Owes(Release(c), rs)
  {
    SameOwed(c, Release(c), rs);
    hide Owes;
  }

  lemma {:induction false} CompleteOwes(c: Chan, rs: seq<Request>, k: nat, bytes: nat, status: Status, react: seq<seq<Request>>)
    requires c.w < c.n && |c.queue| < c.n && Owes(c, rs) && k <= |c.queue|
    ensures Owes(Complete(c, k, bytes, status, react), rs + LetInDuring(c, k, bytes, status, react))
    ensures |Complete(c, k, bytes, status, react).queue| < c.n
  {
    hide Owes, QueueAll, LetInOf;
    if k == 0 {
      assert rs + [] == rs;
    } else {
      CompleteLeaves(c, k - 1, bytes, status, react);
      CompleteOwes(c, rs, k - 1, bytes, status, react);
      var c1, rs1 := Complete(c, k - 1, bytes, status, react), rs + LetInDuring(c, k - 1, bytes, status, react);
      RetireOwes(c1, rs1, bytes, status);
      var c2 := Retire(c1, bytes, status);
      assert c2.w == c1.w && c2.n == c1.n && |c2.queue| == |c1.queue| - 1;
      QueueAllOwes(c2, rs1, Reaction(react, k - 1));
      var c3 := QueueAll(c2, Reaction(react, k - 1));
      assert |Release(c3).queue| == |c3.queue|;
      hide Retire, Release;
      ReleaseOwes(c3, rs1 + LetInOf(c2, Reaction(react, k - 1)));
      assert rs1 + LetInOf(c2, Reaction(react, k - 1)) == rs + LetInDuring(c, k, bytes, status, react);
    }
  }

  lemma {:induction false} ResetOwes(c: Chan, rs: seq<Request>)
    requires Owes(c, rs)
    ensures Owes(Reset(c), rs)
    decreases |c.queue|
  {
    hide Owes;
    if c.queue != [] {
      ReleaseOwes(c, rs);
      RetireOwes(Release(c), rs, 0, NotConnected);
      ResetOwes(Retire(Release(c), 0, NotConnected), rs);
    }
  }

  lemma ApplyOwes(c: Chan, rs: seq<Request>, op: Op)
    requires c.w < c.n && |c.queue| < c.n && Owes(c, rs)
    ensures Owes(Apply(c, op), rs + LetInBy(c, op))
  {
    hide Owes, Queue, Complete, Reset, LetInDuring;
    assert rs + [] == rs;
    match op
    case OpQueue(q) => QueueOwes(c, rs, q);
    case OpEvent(code, k, len, pm, react) =>
      if c.enabled && IsCompletion(code) && k <= |c.queue| {
        CompleteOwes(c, rs, k, len, if code == CcOverflow then Overflow else Transferred, react);
      } else {
        SameOwed(c, Apply(c, op), rs);
      }
    case OpReset => ResetOwes(c, rs);
    case OpEnable(on) => SameOwed(c, Apply(c, op), rs);
  }

  lemma {:induction false} RunOwes(c: Chan, ops: seq<Op>)
    requires Fresh(c)
    ensures Owes(Run(c, ops), LetInOver(c, ops))
    decreases |ops|
  {
    if ops != [] {
      RunOwes(c, ops[..|ops|-1]);
      RunSound(c, ops[..|ops|-1], c.pending, 0);
      hide Owes, Apply, LetInBy;
      ApplyOwes(Run(c, ops[..|ops|-1]), LetInOver(c, ops[..|ops|-1]), ops[|ops|-1]);
    }
  }

  /**
   The buffers handed back are those of the first requests `rs`, in order, and
   the outstanding ones are the others'; what the driver mapped are the mappings
   of `rs`; and each outstanding descriptor sends the device to its own request's
   mapping, for its length.
   */
  ghost predicate OwnBack(d: Chan, rs: seq<Request>) {
    && (forall i :: 0 <= i < |rs| ==> rs[i].mapping.Some?)
    && d.accepted == CbBufs(rs) && Bufs(d.returned) <= CbBufs(rs) && |d.returned| + |d.queue| == |rs|
    && d.mapped == (if d.kind == Dma then [] else Mappings(rs))
    && forall i :: 0 <= i < |d.queue| ==> Serves(d.queue[i], rs[|d.returned| + i], d.kind, d.intmod)
  }

  lemma OwesMeans(d: Chan, rs: seq<Request>)
    requires Owes(d, rs) && |d.returned| + |d.queue| == |d.accepted| && Bufs(d.returned) <= d.accepted
    ensures OwnBack(d, rs)
  {
    hide Serves, Bufs;
  }

  /** Clients get their own buffers back, over any run and for all requests that were let in. */
  lemma OwnBuffersBack(c: Chan, ops: seq<Op>)
    requires Fresh(c)
    ensures OwnBack(Run(c, ops), LetInOver(c, ops))
  {
    RunOwes(c, ops);
    OneFifo(c, ops);
    OwesMeans(Run(c, ops), LetInOver(c, ops));
    hide *;
  }

  // --- What single calls do -----------------------------------------------------------

  /** Each refusal has its own cause, looked for in the order of the routine; anything else is let in. */
  lemma VerdictMeans(c: Chan, q: Request)
    requires |c.queue| < c.n
    ensures Verdict(c, q) == Success <==> LetIn(c, q)
    ensures c.kind == Buffer ==> (Verdict(c, q) == Io <==> InErrorState(q.pm))
    ensures c.kind != Buffer ==> (Verdict(c, q) == Io <==> InErrorState(q.pm) && |c.queue| + 1 != c.n)
  {
  }

  /**
   A request let in is announced if the doorbell may be rung at the time the
   routine looks, and the ring's write pointer has then moved on by one; nothing
   is announced otherwise. A suspended link is asked to resume exactly by calls
   that get as far as looking at it.
   */
  lemma QueueTells(c: Chan, q: Request)
    requires c.w < c.n && |c.queue| < c.n
    ensures var d, pm := Queue(c, q), if c.kind == Buffer then q.later else q.pm;
            && d.w == (if LetIn(c, q) then Next(c.w, c.n) else c.w)
            && (LetIn(c, q) && DbAccessValid(pm) ==> Told(d.bell, c.iommu + d.w * 16) && (d.bell.burst ==> !d.bell.dbMode))
            && (!(LetIn(c, q) && DbAccessValid(pm)) ==> d.bell == c.bell)
            && (d.kicks == c.kicks + 1 <==>
                  InSuspendState(pm) && |c.queue| + 1 != c.n && !InErrorState(q.pm) && (c.kind == Buffer ==> q.mapping.Some?))
            && (d.kicks == c.kicks || d.kicks == c.kicks + 1)
  {
  }

  /**
   What an event tells the client: of an enabled channel a completion hands back
   the `k` oldest buffers with the length of the event, an overflow the same
   marked as such; no other event hands anything back.
   */
  lemma EventTells(c: Chan, code: Code, k: nat, len: nat, pm: Pm, react: seq<seq<Request>>)
    requires c.w < c.n && k <= |c.queue|
    ensures OnEvent(c, code, k, len, pm, react).returned
            == c.returned + if c.enabled && code in {CcOverflow, CcEot, CcEob}
                            then seq(k, i requires 0 <= i < k =>
                                          Result(c.queue[i].info.cbBuf, len, if code == CcOverflow then Overflow else Transferred))
                            else []
    ensures !c.enabled || code in {CcBadTre, CcUnknown} ==> OnEvent(c, code, k, len, pm, react) == c
  {
    if c.enabled && IsCompletion(code) {
      CompleteReturns(c, k, len, if code == CcOverflow then Overflow else Transferred, react);
    } else {
      hide Complete;
      assert c.returned + [] == c.returned;
    }
  }

  /** A reset tells the client that nothing of what is outstanding was transferred, oldest first, and rings nothing. */
  lemma {:induction false} ResetTells(c: Chan)
    ensures var d := Reset(c);
            && d.returned == c.returned + seq(|c.queue|, i requires 0 <= i < |c.queue| => Result(c.queue[i].info.cbBuf, 0, NotConnected))
            && d.bell == c.bell && d.kicks == c.kicks && d.enabled == c.enabled
    decreases |c.queue|
  {
    if c.queue == [] {
      assert c.returned + [] == c.returned;
    } else {
      var d := Retire(Release(c), 0, NotConnected);
      ResetTells(d);
      assert d.queue == c.queue[1..] && d.returned == c.returned + [Result(c.queue[0].info.cbBuf, 0, NotConnected)];
      assert d.bell == c.bell && d.kicks == c.kicks && d.enabled == c.enabled;
      hide Retire, Release;
    }
  }

  /** A doorbell event arms the doorbell; if work waits and it may be rung it is, and the register written. */
  lemma DoorbellEventRings(c: Chan, code: Code, k: nat, len: nat, pm: Pm, react: seq<seq<Request>>)
    requires c.w < c.n && k <= |c.queue| && c.enabled && code in {CcOob, CcDbMode}
    ensures var b, wp := OnEvent(c, code, k, len, pm, react).bell, c.iommu + c.w * TRE_SIZE;
            if c.queue != [] && DbAccessValid(pm)
            then b.ctxtWp == wp && b.written == c.bell.written + [wp] && (b.burst ==> !b.dbMode)
            else b == c.bell.(dbMode := true)
  {
  }

  /** What completes does not depend on the callbacks: the `k` oldest, in order, whatever is queued meanwhile. */
  lemma {:induction false} CompleteReturns(c: Chan, k: nat, bytes: nat, status: Status, react: seq<seq<Request>>)
    requires c.w < c.n && k <= |c.queue|
    ensures Complete(c, k, bytes, status, react).returned
            == c.returned + seq(k, i requires 0 <= i < k => Result(c.queue[i].info.cbBuf, bytes, status))
  {
    hide Queue, Reaction;
    if k > 0 {
      var c1 := Complete(c, k - 1, bytes, status, react);
      CompleteReturns(c, k - 1, bytes, status, react);
      assert c1.queue[0] == c.queue[k-1] by {
        assert c.queue[k-1..] <= c1.queue && c.queue[k-1..][0] == c.queue[k-1];
      }
      QueueAllReturns(Retire(c1, bytes, status), Reaction(react, k - 1));
      hide QueueAll;
    }
  }

  lemma {:induction false} QueueAllReturns(c: Chan, qs: seq<Request>)
    requires c.w < c.n
    ensures QueueAll(c, qs).returned == c.returned
    decreases |qs|
  {
    if qs != [] {
      QueueAllReturns(c, qs[..|qs|-1]);
    }
  }

  function SlotAt(r: nat, i: nat, n: nat): nat
    requires r < n && i < n
  {
    Wrap(r + i, n)
  }

  /**
   Which completions are safe. Counted from the read pointer, an event naming
   slot `slot` takes only outstanding elements off the ring exactly when it
   names one of them or the slot just behind them; a repeated last completion
   is thus harmless.
   */
  lemma EventInWindow(r: nat, slot: nat, n: nat, outstanding: nat)
    requires r < n && slot < n && outstanding < n
    ensures Steps(r, slot, n) <= outstanding <==>
            Next(slot, n) == r || exists i: nat :: i < outstanding && slot == SlotAt(r, i, n)
    ensures Next(slot, n) == r ==> Steps(r, slot, n) == 0
  {
    assert slot == SlotAt(r, Used(r, slot, n), n);
    forall i: nat | i < outstanding && slot == SlotAt(r, i, n)
      ensures i == Used(r, slot, n)
    {
    }
  }

  /** The descriptor carries the client's length exactly when it fits 16 bits. */
  lemma DescriptorLength(kind: Kind, intmod: bool, q: Request)
    requires q.mapping.Some?
    ensures EntryOf(kind, intmod, q).tre.dword0 == q.len <==> q.len <= MAX_MTU
  {
  }

  /** End-of-transfer and chain bits of a descriptor. */
  function Ieot(dword1: nat): bool { (dword1 / 0x200) % 2 == 1 }

  function Chained(dword1: nat): bool { dword1 % 2 == 1 }

  /** No interrupt for the event; the type of the element. */
  function Bei(dword1: nat): bool { (dword1 / 0x400) % 2 == 1 }

  function TypeOf(dword1: nat): nat { dword1 / 0x1_0000 }

  const MHI_EOB := 0
  const MHI_EOT := 1
  const MHI_CHAIN := 2

  /** MHI_EOT and MHI_CHAIN reach their bits; MHI_EOB, being 0, marks nothing at all. */
  lemma FlagBits(intmod: bool, q: Request)
    requires q.mapping.Some? && q.flags <= 2
    ensures var d := EntryOf(Buffer, intmod, q).tre.dword1;
            (Ieot(d) <==> q.flags == MHI_EOT) && (Chained(d) <==> q.flags == MHI_CHAIN) && (d / 0x100) % 2 == 0
  {
  }
}
