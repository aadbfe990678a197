/**
 The receive side of the byte-stream device.

 A node owns one more buffer than its ring takes, and never requeues the buffer
 it has just emptied but the one before it, so that every ring slot keeps
 pointing at the same buffer for ever. The completion callback relies on that:
 it does not look a buffer up, it counts.

 `Uci` is the state of a node together with what the device sees of it: the
 buffers in the ring by number, oldest first (`Channels` shows the ring is that
 queue), the slot the next one goes to, and the memory the device writes. Class
 `UciNode` is the driver's form, which knows buffers by address.
 */
module UciReceive {
  import opened Basics
  import opened Rings

  /** An entry of the pending list: one of the node's own buffers, or a copy of what was in one. */
  datatype Pend = Page(k: nat) | Copied(data: seq<nat>)

  datatype Uci = Uci(
    pages: seq<seq<nat>>,        // what each buffer contains
    mtu: nat,
    copying: bool,               // DUN, QMI and MBIM channels copy in the callback
    lens: seq<nat>, nrTrb: nat, rxError: nat,
    pending: seq<Pend>, cur: Option<Pend>, rxSize: nat,
    filled: nat,                 // how many buffers the opening has queued
    ring: seq<nat>, w: nat,
    received: seq<nat>, delivered: seq<nat>)

  /** What one completion brings; `kept` says whether a copy was made, `queued` whether requeueing was let through. */
  datatype Arrival = Arrival(payload: seq<nat>, bytes: nat, connected: bool, kept: bool, queued: bool)

  /** One call to read; `uncopied` counts the bytes user space could not take. */
  datatype ReadCall = ReadCall(count: nat, enabled: bool, uncopied: nat, queued: bool)

  datatype Outcome = Bytes(data: seq<nat>) | Invalid | Restart | Again | NotTaken(n: nat) | NotRequeued

  /** The buffer before number `k`, cyclically. */
  function Prev(k: nat, n: nat): (p: nat)
    requires k < n
    ensures p < n && Next(p, n) == k
  {
    if k == 0 then n - 1 else k - 1
  }

  predicate Shaped(s: Uci) {
    && 2 <= |s.pages| == |s.lens|
    && s.nrTrb < |s.pages| && s.w < |s.pages| && s.filled < |s.pages|
    && (forall k :: 0 <= k < |s.pages| ==> |s.pages[k]| == s.mtu)
    && (forall i :: 0 <= i < |s.ring| ==> s.ring[i] < |s.pages|)
    && (forall i :: 0 <= i < |s.pending| && s.pending[i].Page? ==> s.pending[i].k < |s.pages|)
    && (s.cur.Some? && s.cur.value.Page? ==> s.cur.value.k < |s.pages|)
  }

  function Front(m: seq<nat>, len: nat): seq<nat> { if len <= |m| then m[..len] else m }

  /** What a reader finds in an entry now. */
  function Content(s: Uci, p: Pend): seq<nat>
    requires Shaped(s) && (p.Page? ==> p.k < |s.pages|)
  {
    match p
    case Copied(data) => data
    case Page(k) => Front(s.pages[k], s.lens[k])
  }

  // --- The operations ----------------------------------------------------------

  /** mhi_queue_transfer takes a buffer if the ring has room and the controller lets it through. */
  predicate Accepts(s: Uci, queued: bool) { queued && |s.ring| + 1 < |s.pages| }

  function Requeue(s: Uci, k: nat, queued: bool): (s': Uci)
    requires Shaped(s) && k < |s.pages|
    ensures Shaped(s')
  {
    if Accepts(s, queued) then s.(ring := s.ring + [k], w := Next(s.w, |s.pages|)) else s
  }

  function Overwrite(m: seq<nat>, payload: seq<nat>): (m': seq<nat>)
    requires |payload| <= |m|
    ensures |m'| == |m| && m'[..|payload|] == payload
  {
    payload + m[|payload|..]
  }

  /** The device fills the oldest buffer in the ring, which then leaves it. */
  function Dma(s: Uci, payload: seq<nat>): (s': Uci)
    requires Shaped(s) && s.ring != [] && |payload| <= s.mtu
    ensures Shaped(s')
  {
    var k := s.ring[0];
    s.(ring := s.ring[1..], pages := s.pages[k := Overwrite(s.pages[k], payload)])
  }

  /** A transfer the callback accepts: not a disconnect, not empty and not longer than the buffer. */
  predicate InRange(s: Uci, r: Arrival) { r.connected && 1 <= r.bytes <= s.mtu }

  /** mhi_dl_xfer_cb, handed buffer number `b` */
  function Callback(s: Uci, b: nat, r: Arrival): (s': Uci)
    requires Shaped(s)
    ensures Shaped(s')
  {
    var k := s.nrTrb;
    if k != b then s.(rxError := s.rxError + 1)
    else
      var s1 := s.(nrTrb := Next(k, |s.pages|));
      if InRange(s, r) then Keep(s1.(lens := s.lens[k := r.bytes]), k, r) else s1
  }

  /** What is done with an accepted transfer in buffer `k`. */
  function Keep(s: Uci, k: nat, r: Arrival): (s': Uci)
    requires Shaped(s) && k < |s.pages|
    ensures Shaped(s')
  {
    var got := Content(s, Page(k));
    if !s.copying then s.(pending := s.pending + [Page(k)], received := s.received + got)
    else
      var s1 := Requeue(s, Prev(k, |s.pages|), r.queued);
      if r.kept then s1.(pending := s.pending + [Copied(got)], received := s.received + got) else s1
  }

  /** The device completes the oldest buffer and the callback runs. */
  function Complete(s: Uci, r: Arrival): (s': Uci)
    requires Shaped(s) && s.ring != [] && |r.payload| <= s.mtu
    ensures Shaped(s')
  {
    Callback(Dma(s, r.payload), s.ring[0], r)
  }

  function LenOf(s: Uci, p: Pend): nat
    requires Shaped(s) && (p.Page? ==> p.k < |s.pages|)
  {
    if p.Page? then s.lens[p.k] else |p.data|
  }

  /** The entry being read, after the first pending one is taken if there was none. */
  function Pick(s: Uci): (s': Uci)
    requires Shaped(s) && (s.cur.Some? || s.pending != [])
    ensures Shaped(s') && s'.cur.Some?
  {
    if s.cur.Some? then s
    else s.(cur := Some(s.pending[0]), pending := s.pending[1..], rxSize := LenOf(s, s.pending[0]))
  }

  /** The next `n` of the `rest` bytes of `m` not yet read. */
  function Piece(m: seq<nat>, rest: nat, n: nat): seq<nat> {
    if n <= rest <= |m| then m[|m| - rest..][..n] else []
  }

  /** The entry has been read to the end; the buffer before it goes back to the ring. */
  function Finish(s: Uci, data: seq<nat>, queued: bool): (res: (Uci, Outcome))
    requires Shaped(s) && s.cur.Some?
    ensures Shaped(res.0)
  {
    var s1 := s.(cur := None);
    match s.cur.value
    case Copied(_) => (s1.(delivered := s1.delivered + data), Bytes(data))
    case Page(k) =>
      if Accepts(s1, queued) then (Requeue(s1, Prev(k, |s.pages|), queued).(delivered := s1.delivered + data), Bytes(data))
      else (s1, NotRequeued)
  }

  /** The state after `n` bytes of the current entry have been read and more are left. */
  function PartRead(s: Uci, n: nat): (d: Uci)
    requires Shaped(s) && s.cur.Some? && n < s.rxSize
    ensures Shaped(d)
  {
    s.(rxSize := s.rxSize - n, delivered := s.delivered + Piece(Content(s, s.cur.value), s.rxSize, n))
  }

  /** The rest of a read, once an entry has been picked. */
  function Take(s: Uci, q: ReadCall): (res: (Uci, Outcome))
    requires Shaped(s) && s.cur.Some?
    ensures Shaped(res.0)
  {
    var n := Min(q.count, s.rxSize);
    var data := Piece(Content(s, s.cur.value), s.rxSize, n);
    if q.uncopied > 0 then (s, NotTaken(q.uncopied))
    else if n < s.rxSize then (PartRead(s, n), Bytes(data))
    else Finish(s.(rxSize := 0), data, q.queued)
  }

  /** mhi_uci_read */
  function Read(s: Uci, q: ReadCall): (res: (Uci, Outcome))
    requires Shaped(s)
    ensures Shaped(res.0)
  {
    if s.rxError > 0 then (s, Invalid)
    else if !q.enabled then (s, Restart)
    else if s.cur.None? && s.pending == [] then (s, Again)
    else Take(Pick(s), q)
  }

  // --- Opening -------------------------------------------------------------------

  /** The channel has been started, and nothing is queued yet. */
  ghost predicate Empty(s: Uci) {
    && Shaped(s) && s.nrTrb == 0 && s.rxError == 0 && s.pending == [] && s.cur == None
    && s.filled == s.w == 0 && s.ring == []
    && s.received == [] && s.delivered == []
  }

  /** All buffers but the last have been queued. Only then does open return, and can anybody read. */
  predicate Open(s: Uci) { s.filled + 1 == |s.pages| }

  /** One turn of the loop of mhi_queue_inbound. */
  function Fill(s: Uci): (s': Uci)
    requires Shaped(s) && s.filled + 1 < |s.pages|
    ensures Shaped(s')
  {
    Requeue(s, s.filled, true).(filled := s.filled + 1)
  }

  /** The device can only complete what is in the ring, and fills no more than the buffer. */
  predicate CanArrive(s: Uci, r: Arrival) { s.ring != [] && |r.payload| <= s.mtu }

  function ArriveOne(s: Uci, r: Arrival): (s': Uci)
    requires Shaped(s)
    ensures Shaped(s') && s'.mtu == s.mtu && s'.copying == s.copying
    ensures s'.filled == s.filled && |s'.pages| == |s.pages| && |s'.ring| <= |s.ring|
  {
    if CanArrive(s, r) then Complete(s, r) else s
  }

  /** Transfers completed one after the other. */
  function Arrive(s: Uci, rs: seq<Arrival>): (s': Uci)
    requires Shaped(s)
    ensures Shaped(s') && s'.filled == s.filled && |s'.pages| == |s.pages| && |s'.ring| <= |s.ring|
    decreases |rs|
  {
    if rs == [] then s else ArriveOne(Arrive(s, rs[..|rs|-1]), rs[|rs|-1])
  }

  lemma ArriveNext(s: Uci, rs: seq<Arrival>, i: nat)
    requires Shaped(s) && i < |rs|
    ensures Arrive(s, rs[..i+1]) == ArriveOne(Arrive(s, rs[..i]), rs[i])
  {
    assert rs[..i+1][..i] == rs[..i];
  }

  /** What the device completes before turn `i` of the filling. */
  function Meanwhile(during: seq<seq<Arrival>>, i: nat): seq<Arrival> {
    if i < |during| then during[i] else []
  }

  /** The first `k` turns of the filling. The channel is started already, and completions take no lock that the loop holds. */
  function FillTurns(s: Uci, during: seq<seq<Arrival>>, k: nat): (s': Uci)
    requires Shaped(s) && s.filled + k < |s.pages|
    ensures Shaped(s') && s'.filled == s.filled + k && |s'.pages| == |s.pages| && |s'.ring| <= |s.ring| + k
    decreases k
  {
    if k == 0 then s else Fill(Arrive(FillTurns(s, during, k - 1), Meanwhile(during, k - 1)))
  }

  // --- The driver's form ----------------------------------------------------------

  /** `struct uci_buf` */
  datatype UciBuf = UciBuf(data: int, len: nat, nrTrb: nat)

  class UciNode {
    const mtu: nat
    const copying: bool
    const bufs: array<UciBuf>
    var nrTrb: nat
    var rxError: nat
    var pending: seq<Pend>
    var cur: Option<Pend>
    var rxSize: nat
    var ring: seq<int>               // addresses in the ring, oldest first
    var mem: map<int, seq<nat>>      // what lies at each buffer's address
    ghost var view: Uci

    /** The buffers as the driver and the device see them. */
    ghost predicate BufsAgree()
      reads this, bufs
    {
      && |view.pages| == |view.lens| == bufs.Length
      && (forall k :: 0 <= k < bufs.Length ==>
            && bufs[k].nrTrb == k && bufs[k].len == view.lens[k]
            && bufs[k].data in mem && mem[bufs[k].data] == view.pages[k])
      && (forall i, j :: 0 <= i < j < bufs.Length ==> bufs[i].data != bufs[j].data)
    }

    ghost predicate Valid()
      reads this, bufs
    {
      && Shaped(view) && BufsAgree()
      && view.mtu == mtu && view.copying == copying && view.nrTrb == nrTrb && view.rxError == rxError
      && view.pending == pending && view.cur == cur && view.rxSize == rxSize
      && |ring| == |view.ring|
      && forall i :: 0 <= i < |ring| ==> ring[i] == bufs[view.ring[i]].data
    }

    /** mhi_queue_inbound, its first part: the buffers are allocated and numbered. */
    constructor (addrs: seq<int>, mtu: nat, copying: bool)
      requires 2 <= |addrs| && forall i, j :: 0 <= i < j < |addrs| ==> addrs[i] != addrs[j]
      ensures Valid() && fresh(bufs)
      ensures view == Uci(seq(|addrs|, _ => seq(mtu, _ => 0)), mtu, copying, seq(|addrs|, _ => 0), 0, 0,
                          [], None, 0, 0, [], 0, [], [])
      ensures Empty(view)
    {
      this.mtu, this.copying := mtu, copying;
      bufs := new UciBuf[|addrs|](k requires 0 <= k < |addrs| => UciBuf(addrs[k], 0, k));
      nrTrb, rxError, pending, cur, rxSize, ring := 0, 0, [], None, 0, [];
      mem := map a | a in addrs :: seq(mtu, _ => 0);
      view := Uci(seq(|addrs|, _ => seq(mtu, _ => 0)), mtu, copying, seq(|addrs|, _ => 0), 0, 0, [], None, 0, 0, [], 0, [], []);
    }

    method QueueTransfer(k: nat, queued: bool) returns (ok: bool)
      requires Valid() && k < bufs.Length
      modifies this`ring, this`view
      ensures Valid()
      ensures view == Requeue(old(view), k, queued) && (ok <==> Accepts(old(view), queued))
    {
      ok := queued && |ring| + 1 < bufs.Length;
      if ok {
        ring := ring + [bufs[k].data];
      }
      view := Requeue(view, k, queued);
    }

    /**
     mhi_queue_inbound, its second part. The controller lets `allowed` requests
     through, and what the device completes `during` the loop is called back
     between its turns. A refusal ends the opening.
     */
    method QueueInbound(allowed: nat, during: seq<seq<Arrival>>) returns (ok: bool)
      requires Valid() && view.filled == 0 && ring == []
      modifies this, bufs
      ensures Valid()
      ensures ok <==> bufs.Length <= allowed + 1
      ensures view == if ok then FillTurns(old(view), during, bufs.Length - 1)
                      else Arrive(FillTurns(old(view), during, allowed), Meanwhile(during, allowed))
      ensures ok ==> Open(view)
    {
      hide BufsAgree, FillTurns, Arrive, Fill, Shaped;
      ghost var s0 := view;
      var i, nrTrbs := 0, bufs.Length - 1;
      FillBegins(during);
      while i < nrTrbs
        invariant 0 <= i <= nrTrbs && i <= allowed
        invariant Filling(s0, during, i)
      {
        var ret := FillTurn(s0, i, during, i < allowed);
        if !ret {
          return false;
        }
        i := i + 1;
      }
      ok := true;
    }

    /** The filling began in state `s0` and `i` of its turns have been made. */
    ghost predicate Filling(s0: Uci, during: seq<seq<Arrival>>, i: nat)
      reads this, bufs
    {
      && Valid() && Shaped(s0) && s0.filled == 0 && s0.ring == [] && i < |s0.pages| == bufs.Length
      && view == FillTurns(s0, during, i)
    }

    lemma FillBegins(during: seq<seq<Arrival>>)
      requires Valid() && view.filled == 0 && ring == []
      ensures Filling(view, during, 0)
    {
    }

    method FillTurn(ghost s0: Uci, i: nat, during: seq<seq<Arrival>>, queued: bool) returns (ok: bool)
      requires Filling(s0, during, i) && i + 1 < bufs.Length
      modifies this, bufs
      ensures ok == queued && Valid()
      ensures if ok then Filling(s0, during, i + 1) else view == Arrive(FillTurns(s0, during, i), Meanwhile(during, i))
    {
      DeviceArrives(Meanwhile(during, i));
      hide Arrive, Shaped, BufsAgree;
      ok := FillNext(i, queued);
    }

    method FillNext(i: nat, queued: bool) returns (ok: bool)
      requires Valid() && i == view.filled && i + 1 < bufs.Length && |ring| <= i
      modifies this`ring, this`view
      ensures Valid() && ok == queued
      ensures view == if ok then Fill(old(view)) else old(view)
    {
      ok := QueueTransfer(i, queued);
      if ok {
        view := view.(filled := i + 1);
      }
    }

    method DeviceArrives(rs: seq<Arrival>)
      requires Valid()
      modifies this, bufs
      ensures Valid()
      ensures view == Arrive(old(view), rs)
    {
      var i := 0;
      assert rs[..0] == [];
      while i < |rs|
        invariant 0 <= i <= |rs|
        invariant Valid() && view == Arrive(old(view), rs[..i])
      {
        ArriveNext(old(view), rs, i);
        hide Arrive, Complete, BufsAgree;
        if ring != [] && |rs[i].payload| <= mtu {
          DeviceCompletes(rs[i]);
        }
        i := i + 1;
      }
      assert rs[..i] == rs;
    }

    /** The device writes the oldest buffer in the ring and takes it off. */
    method DeviceFills(payload: seq<nat>) returns (a: int)
      requires Valid() && ring != [] && |payload| <= mtu
      modifies this`ring, this`view, this`mem
      ensures Valid()
      ensures view == Dma(old(view), payload) && a == bufs[old(view).ring[0]].data
    {
      a := ring[0];
      assert a == bufs[view.ring[0]].data;
      mem := mem[a := Overwrite(mem[a], payload)];
      ring := ring[1..];
      view := Dma(view, payload);
    }

    /** mhi_dl_xfer_cb: the buffer counted to be next must be the one handed back. */
    method DlXferCb(a: int, ghost b: nat, r: Arrival)
      requires Valid() && b < bufs.Length && a == bufs[b].data
      modifies this, bufs
      ensures Valid()
      ensures view == Callback(old(view), b, r)
    {
      var k := nrTrb;
      if bufs[k].nrTrb != k || bufs[k].data != a {
        rxError := rxError + 1;
        view := view.(rxError := rxError);
        return;
      }
      CountOn();
      if !r.connected || r.bytes > mtu || r.bytes <= 0 {
        return;
      }
      NoteLength(k, r.bytes);
      KeepTransfer(k, r);
    }

    /** A completion as a whole: the device's part and the callback. */
    method DeviceCompletes(r: Arrival)
      requires Valid() && ring != [] && |r.payload| <= mtu
      modifies this, bufs
      ensures Valid()
      ensures view == Complete(old(view), r)
    {
      ghost var b := view.ring[0];
      var a := DeviceFills(r.payload);
      DlXferCb(a, b, r);
    }

    method CountOn()
      requires Valid()
      modifies this`nrTrb, this`view
      ensures Valid()
      ensures view == old(view).(nrTrb := Next(old(nrTrb), bufs.Length))
    {
      nrTrb := nrTrb + 1;
      if nrTrb == bufs.Length {
        nrTrb := 0;
      }
      view := view.(nrTrb := nrTrb);
    }

    method NoteLength(k: nat, bytes: nat)
      requires Valid() && k < bufs.Length
      modifies bufs, this`view
      ensures Valid()
      ensures view == old(view).(lens := old(view).lens[k := bytes])
    {
      bufs[k] := bufs[k].(len := bytes);
      view := view.(lens := view.lens[k := bytes]);
    }

    method KeepTransfer(k: nat, r: Arrival)
      requires Valid() && k < bufs.Length
      modifies this`pending, this`ring, this`view
      ensures Valid()
      ensures view == Keep(old(view), k, r)
    {
      var got := Front(mem[bufs[k].data], bufs[k].len);
      if copying {
        var _ := RequeueBefore(k, r.queued);
        if r.kept {
          Append(Copied(got), got);
        }
      } else {
        Append(Page(k), got);
      }
    }

    method Append(p: Pend, ghost got: seq<nat>)
      requires Valid() && (p.Page? ==> p.k < bufs.Length)
      modifies this`pending, this`view
      ensures Valid()
      ensures view == old(view).(pending := old(pending) + [p], received := old(view).received + got)
    {
      pending := pending + [p];
      view := view.(pending := pending, received := view.received + got);
    }

    /** The bytes and the length of an entry. */
    method Entry(p: Pend) returns (m: seq<nat>, len: nat)
      requires Valid() && (p.Page? ==> p.k < bufs.Length)
      ensures m == Content(view, p) && len == LenOf(view, p)
    {
      match p
      case Copied(data) => return data, |data|;
      case Page(k) => return Front(mem[bufs[k].data], bufs[k].len), bufs[k].len;
    }

    /** mhi_uci_read; where the source would wait for something to read, the result says so. */
    method UciRead(q: ReadCall) returns (out: Outcome)
      requires Valid()
      modifies this
      ensures Valid()
      ensures (view, out) == Read(old(view), q)
    {
      if rxError > 0 {
        return Invalid;
      }
      if !q.enabled {
        return Restart;
      }
      if cur.None? && pending == [] {
        return Again;
      }
      if cur.None? {
        PickNext();
      }
      out := CopyOut(q);
    }

    method PickNext()
      requires Valid() && cur.None? && pending != []
      modifies this`cur, this`pending, this`rxSize, this`view
      ensures Valid()
      ensures view == Pick(old(view))
    {
      var _, len := Entry(pending[0]);
      cur, pending, rxSize := Some(pending[0]), pending[1..], len;
      view := Pick(view);
    }

    method CopyOut(q: ReadCall) returns (out: Outcome)
      requires Valid() && cur.Some?
      modifies this
      ensures Valid()
      ensures (view, out) == Take(old(view), q)
    {
      var m, _ := Entry(cur.value);
      var toCopy := Min(q.count, rxSize);
      var data := Piece(m, rxSize, toCopy);
      if q.uncopied > 0 {
        return NotTaken(q.uncopied);
      }
      rxSize := rxSize - toCopy;
      if rxSize == 0 {
        view := view.(rxSize := 0);
        out := LetGo(data, q.queued);
      } else {
        view := PartRead(view, toCopy);
        out := Bytes(data);
      }
    }

    /** The entry is read; unless it was a copy the buffer before it goes back. */
    method LetGo(data: seq<nat>, queued: bool) returns (out: Outcome)
      requires Valid() && cur.Some?
      modifies this
      ensures Valid()
      ensures (view, out) == Finish(old(view), data, queued)
    {
      var p := cur.value;
      cur := None;
      view := view.(cur := None);
      var ok := true;
      if p.Page? {
        ok := RequeueBefore(p.k, queued);
      }
      if !ok {
        return NotRequeued;
      }
      Deliver(data);
      out := Bytes(data);
    }

    method RequeueBefore(k: nat, queued: bool) returns (ok: bool)
      requires Valid() && k < bufs.Length
      modifies this`ring, this`view
      ensures Valid()
      ensures view == Requeue(old(view), Prev(k, bufs.Length), queued) && (ok <==> Accepts(old(view), queued))
    {
      var prev := if bufs[k].nrTrb != 0 then bufs[k].nrTrb - 1 else bufs.Length - 1;
      ok := QueueTransfer(prev, queued);
    }

    ghost method Deliver(data: seq<nat>)
      requires Valid()
      modifies this`view
      ensures Valid()
      ensures view == old(view).(delivered := old(view).delivered + data)
    {
      view := view.(delivered := view.delivered + data);
    }
  }
}
