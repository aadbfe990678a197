/**
 The rotation of receive buffers stays locked to the ring.

 With one buffer more than the ring takes, and the buffer before the one just
 finished going back each time, slot `k` always holds buffer `k`. From that
 follows what the node promises its readers: the address check never fails, no
 unread byte is overwritten, and bytes are read in the order they arrived.
 `UciUnlocked` says what breaks it.
 */
module UciRotation {
  import opened Basics
  import opened Rings
  import opened UciReceive

  /** Everything read neither fully nor at all, oldest first. */
  function Unread(s: Uci): seq<Pend> {
    (if s.cur.Some? then [s.cur.value] else []) + s.pending
  }

  /** The node's own buffers that are waiting to be read. */
  function PagesHeld(s: Uci): nat { if s.copying then 0 else |Unread(s)| }

  /** The number of the buffer `i` places after number `k`. */
  function After(k: nat, i: nat, n: nat): nat
    requires k < n && i < n
  {
    Wrap(k + i, n)
  }

  /** The slot of the `i`-th oldest ring entry. */
  function SlotInRing(s: Uci, i: nat): nat
    requires s.w < |s.pages| && i < |s.ring| < |s.pages|
  {
    After(s.w, |s.pages| - |s.ring| + i, |s.pages|)
  }

  /** Slot `k` of the ring refers to buffer `k`. */
  ghost predicate SlotsMatch(s: Uci)
    requires Shaped(s) && |s.ring| < |s.pages|
  {
    forall i :: 0 <= i < |s.ring| ==> s.ring[i] == SlotInRing(s, i)
  }

  /** The ring holds the buffers from the one counted to be next, in turn. */
  ghost predicate Counted(s: Uci)
    requires Shaped(s)
  {
    && |s.ring| < |s.pages|
    && forall i :: 0 <= i < |s.ring| ==> s.ring[i] == After(s.nrTrb, i, |s.pages|)
  }

  /** The waiting buffers are the ones just before the one counted to be next. */
  ghost predicate Lined(s: Uci)
    requires Shaped(s) && |Unread(s)| < |s.pages|
  {
    forall j :: 0 <= j < |Unread(s)| ==> Unread(s)[j] == Page(After(s.nrTrb, |s.pages| - |Unread(s)| + j, |s.pages|))
  }

  /** The buffers queued so far are in the ring or waiting, all in turn; once the node is open one more is spare. */
  ghost predicate Rotates(s: Uci)
    requires Shaped(s)
  {
    && |s.ring| + PagesHeld(s) == s.filled
    && Counted(s)
    && s.w == After(s.nrTrb, |s.ring|, |s.pages|)
    && (!Open(s) ==> s.w == s.filled)
    && if s.copying then forall j :: 0 <= j < |Unread(s)| ==> Unread(s)[j].Copied? else Lined(s)
  }

  ghost predicate Readable(s: Uci, ps: seq<Pend>)
    requires Shaped(s) && forall i :: 0 <= i < |ps| && ps[i].Page? ==> ps[i].k < |s.pages|
  {
    forall j :: 0 <= j < |ps| ==> 1 <= LenOf(s, ps[j]) == |Content(s, ps[j])|
  }

  /** Every waiting entry has something to read, and what was received is what was delivered and what is owed. */
  ghost predicate Accounted(s: Uci)
    requires Shaped(s)
  {
    && Readable(s, Unread(s))
    && (s.cur.Some? ==> 1 <= s.rxSize <= LenOf(s, s.cur.value))
    && s.received == s.delivered + Owed(s)
  }

  ghost predicate Locked(s: Uci) {
    Shaped(s) && Rotates(s) && Accounted(s) && s.rxError == 0
  }

  /** The bytes still owed to the reader. */
  function Owed(s: Uci): seq<nat>
    requires Shaped(s)
  {
    (if s.cur.Some? then Piece(Content(s, s.cur.value), s.rxSize, s.rxSize) else []) + Waiting(s, s.pending)
  }

  function Waiting(s: Uci, ps: seq<Pend>): seq<nat>
    requires Shaped(s) && forall i :: 0 <= i < |ps| && ps[i].Page? ==> ps[i].k < |s.pages|
  {
    if ps == [] then [] else Content(s, ps[0]) + Waiting(s, ps[1..])
  }

  lemma {:induction false} WaitingSame(s: Uci, t: Uci, ps: seq<Pend>)
    requires Shaped(s) && Shaped(t) && |s.pages| == |t.pages|
    requires forall i :: 0 <= i < |ps| && ps[i].Page? ==> ps[i].k < |s.pages|
    requires forall i :: 0 <= i < |ps| ==> Content(s, ps[i]) == Content(t, ps[i])
    ensures Waiting(s, ps) == Waiting(t, ps)
  {
    if ps != [] {
      assert Content(s, ps[0]) == Content(t, ps[0]);
      assert forall i :: 0 <= i < |ps[1..]| ==> ps[1..][i] == ps[i + 1];
      WaitingSame(s, t, ps[1..]);
    }
  }

  lemma {:induction false} WaitingAppend(s: Uci, ps: seq<Pend>, p: Pend)
    requires Shaped(s) && (p.Page? ==> p.k < |s.pages|)
    requires forall i :: 0 <= i < |ps| && ps[i].Page? ==> ps[i].k < |s.pages|
    ensures Waiting(s, ps + [p]) == Waiting(s, ps) + Content(s, p)
  {
    if ps == [] {
      assert (ps + [p])[1..] == [];
    } else {
      WaitingAppend(s, ps[1..], p);
      assert (ps + [p])[1..] == ps[1..] + [p];
    }
  }

  /** While the rotation is locked every slot holds the buffer of its own number, and no waiting buffer is in the ring. */
  lemma LockedMeans(s: Uci)
    requires Locked(s)
    ensures SlotsMatch(s)
    ensures forall k :: 0 <= k < |s.pages| && Page(k) in Unread(s) ==> k !in s.ring
  {
    forall k | 0 <= k < |s.pages| && Page(k) in Unread(s)
      ensures k !in s.ring
    {
      var j :| 0 <= j < |Unread(s)| && Unread(s)[j] == Page(k);
    }
  }

  /** Entries read the same in both states. */
  ghost predicate ReadSame(s: Uci, d: Uci)
    requires Shaped(s) && Shaped(d) && |s.pages| == |d.pages|
  {
    forall j :: 0 <= j < |Unread(s)| ==>
      LenOf(d, Unread(s)[j]) == LenOf(s, Unread(s)[j]) && Content(d, Unread(s)[j]) == Content(s, Unread(s)[j])
  }

  lemma PartsSame(s: Uci, d: Uci)
    requires Shaped(s) && Shaped(d) && |s.pages| == |d.pages| && ReadSame(s, d)
    ensures Waiting(s, s.pending) == Waiting(d, s.pending)
    ensures s.cur.Some? ==> Content(s, s.cur.value) == Content(d, s.cur.value) && LenOf(s, s.cur.value) == LenOf(d, s.cur.value)
  {
    var c := |Unread(s)| - |s.pending|;
    forall i | 0 <= i < |s.pending|
      ensures Content(s, s.pending[i]) == Content(d, s.pending[i])
    {
      assert Unread(s)[c + i] == s.pending[i];
    }
    WaitingSame(s, d, s.pending);
    assert s.cur.Some? ==> Unread(s)[0] == s.cur.value;
  }

  /** An entry added at the end adds what it reads as. */
  lemma OwedGrows(s: Uci, d: Uci, p: Pend)
    requires Shaped(s) && Shaped(d) && |s.pages| == |d.pages| && ReadSame(s, d)
    requires p.Page? ==> p.k < |s.pages|
    requires d.cur == s.cur && d.pending == s.pending + [p] && d.rxSize == s.rxSize
    ensures Owed(d) == Owed(s) + Content(d, p)
  {
    PartsSame(s, d);
    WaitingAppend(d, s.pending, p);
  }

  lemma ReadableGrows(s: Uci, d: Uci, p: Pend)
    requires Shaped(s) && Shaped(d) && |s.pages| == |d.pages| && Readable(s, Unread(s)) && ReadSame(s, d)
    requires p.Page? ==> p.k < |s.pages|
    requires d.cur == s.cur && d.pending == s.pending + [p] && 1 <= LenOf(d, p) == |Content(d, p)|
    ensures Readable(d, Unread(d))
  {
    var us, ds := Unread(s), Unread(d);
    assert ds == us + [p];
    forall j | 0 <= j < |ds|
      ensures 1 <= LenOf(d, ds[j]) == |Content(d, ds[j])|
    {
      if j < |us| {
        assert ds[j] == us[j] && 1 <= LenOf(s, us[j]) == |Content(s, us[j])|;
      }
    }
  }

  lemma AccountsGrow(s: Uci, d: Uci, p: Pend)
    requires Shaped(s) && Shaped(d) && |s.pages| == |d.pages| && Accounted(s) && ReadSame(s, d)
    requires p.Page? ==> p.k < |s.pages|
    requires d.cur == s.cur && d.pending == s.pending + [p] && d.rxSize == s.rxSize && d.delivered == s.delivered
    requires 1 <= LenOf(d, p) == |Content(d, p)| && d.received == s.received + Content(d, p)
    ensures Accounted(d)
  {
    OwedGrows(s, d, p);
    PartsSame(s, d);
    ReadableGrows(s, d, p);
  }

  lemma AccountsStay(s: Uci, d: Uci)
    requires Shaped(s) && Shaped(d) && |s.pages| == |d.pages| && Accounted(s) && ReadSame(s, d)
    requires d.cur == s.cur && d.pending == s.pending && d.rxSize == s.rxSize && d.delivered == s.delivered && d.received == s.received
    ensures Accounted(d)
  {
    PartsSame(s, d);
    assert Unread(d) == Unread(s);
  }

  /** The node just after the device has filled buffer `nrTrb` and its length is noted. */
  function Filled(s: Uci, r: Arrival): (t: Uci)
    requires Shaped(s) && s.ring != [] && |r.payload| <= s.mtu
    ensures Shaped(t)
  {
    Dma(s, r.payload).(nrTrb := Next(s.nrTrb, |s.pages|), lens := s.lens[s.nrTrb := r.bytes])
  }

  /** An arrival of as many bytes as it claims. */
  predicate Honest(r: Arrival) { r.bytes == |r.payload| }

  /** Filling a buffer touches nothing that waits to be read. */
  lemma FilledKeeps(s: Uci, r: Arrival)
    requires Locked(s) && s.ring != [] && InRange(s, r) && Honest(r)
    ensures s.ring[0] == s.nrTrb
    ensures Content(Filled(s, r), Page(s.nrTrb)) == r.payload
    ensures ReadSame(s, Filled(s, r))
  {
    LockedMeans(s);
    var t := Filled(s, r);
    assert s.ring[0] == After(s.nrTrb, 0, |s.pages|);
    forall j | 0 <= j < |Unread(s)|
      ensures LenOf(t, Unread(s)[j]) == LenOf(s, Unread(s)[j]) && Content(t, Unread(s)[j]) == Content(s, Unread(s)[j])
    {
      var p := Unread(s)[j];
      if p.Page? {
        assert p.k !in s.ring;
      }
    }
  }

  /** A locked node that accepts a transfer passes the address check, so only the pending list and the ring are left to look at. */
  lemma CompletedIsKept(s: Uci, r: Arrival)
    requires Locked(s) && s.ring != [] && InRange(s, r) && Honest(r)
    ensures Complete(s, r) == Keep(Filled(s, r), s.nrTrb, r)
  {
    FilledKeeps(s, r);
  }

  lemma AfterNext(k: nat, i: nat, n: nat)
    requires k < n && i + 1 < n
    ensures After(Next(k, n), i, n) == After(k, i + 1, n)
  {
  }

  lemma CompletedPageAccounts(s: Uci, r: Arrival)
    requires Locked(s) && !s.copying && s.ring != [] && InRange(s, r) && Honest(r)
    ensures var d := Complete(s, r);
            Accounted(d) && d.rxError == 0 && d.received == s.received + r.payload
  {
    FilledKeeps(s, r);
    CompletedIsKept(s, r);
    var t, d := Filled(s, r), Complete(s, r);
    assert forall q: Pend | q.Page? ==> q.k < |s.pages| :: Content(d, q) == Content(t, q) && LenOf(d, q) == LenOf(t, q);
    AccountsGrow(s, d, Page(s.nrTrb));
  }

  /** The oldest buffer leaves the ring and joins the end of the waiting ones. */
  lemma PageTurns(s: Uci, d: Uci)
    requires Shaped(s) && Shaped(d) && |d.pages| == |s.pages| && Rotates(s) && !s.copying && !d.copying
    requires s.ring != [] && d.ring == s.ring[1..] && d.w == s.w && d.filled == s.filled && d.nrTrb == Next(s.nrTrb, |s.pages|)
    requires Unread(d) == Unread(s) + [Page(s.nrTrb)]
    ensures Rotates(d)
  {
    var n := |s.pages|;
    forall i | 0 <= i < |d.ring|
      ensures d.ring[i] == After(d.nrTrb, i, n)
    {
      AfterNext(s.nrTrb, i, n);
      assert s.ring[i + 1] == After(s.nrTrb, i + 1, n);
    }
    forall j | 0 <= j < |Unread(d)|
      ensures Unread(d)[j] == Page(After(d.nrTrb, n - |Unread(d)| + j, n))
    {
      if j < |Unread(s)| {
        assert Unread(s)[j] == Page(After(s.nrTrb, n - |Unread(s)| + j, n));
      }
    }
  }

  lemma CompletedPageRotates(s: Uci, r: Arrival)
    requires Locked(s) && !s.copying && s.ring != [] && InRange(s, r) && Honest(r)
    ensures Rotates(Complete(s, r))
  {
    CompletedIsKept(s, r);
    var d := Complete(s, r);
    assert Unread(d) == Unread(s) + [Page(s.nrTrb)];
    PageTurns(s, d);
  }

  lemma CompletedCopyAccounts(s: Uci, r: Arrival)
    requires Locked(s) && s.copying && s.ring != [] && InRange(s, r) && Honest(r)
    ensures var d := Complete(s, r);
            Accounted(d) && d.rxError == 0 && d.received == s.received + (if r.kept then r.payload else [])
  {
    FilledKeeps(s, r);
    CompletedIsKept(s, r);
    var t, d := Filled(s, r), Complete(s, r);
    assert forall q: Pend | q.Page? ==> q.k < |s.pages| :: Content(d, q) == Content(t, q) && LenOf(d, q) == LenOf(t, q);
    if r.kept {
      AccountsGrow(s, d, Copied(r.payload));
    } else {
      AccountsStay(s, d);
    }
  }

  /** The oldest buffer leaves the ring and the spare one enters it. */
  lemma CopyTurns(s: Uci, d: Uci)
    requires Shaped(s) && Shaped(d) && |d.pages| == |s.pages| && Counted(s) && |s.ring| + 1 == |s.pages|
    requires d.ring == s.ring[1..] + [Prev(s.nrTrb, |s.pages|)] && d.nrTrb == Next(s.nrTrb, |s.pages|)
    ensures Counted(d)
  {
    var n := |s.pages|;
    forall i | 0 <= i < |d.ring|
      ensures d.ring[i] == After(d.nrTrb, i, n)
    {
      if i + 1 < |s.ring| {
        AfterNext(s.nrTrb, i, n);
        assert s.ring[i + 1] == After(s.nrTrb, i + 1, n);
      }
    }
  }

  lemma CompletedCopyRotates(s: Uci, r: Arrival)
    requires Locked(s) && Open(s) && s.copying && s.ring != [] && InRange(s, r) && Honest(r) && r.queued
    ensures Rotates(Complete(s, r))
  {
    CompletedIsKept(s, r);
    var n, d := |s.pages|, Complete(s, r);
    assert Unread(d) == Unread(s) + (if r.kept then [Copied(r.payload)] else []) by {
      FilledKeeps(s, r);
    }
    CopyTurns(s, d);
  }

  // --- Reading -----------------------------------------------------------------

  /** Entries read by what the buffers and their lengths are, nothing else. */
  lemma {:induction false} SameBuffers(s: Uci, d: Uci, ps: seq<Pend>)
    requires Shaped(s) && Shaped(d) && d.pages == s.pages && d.lens == s.lens
    requires forall i :: 0 <= i < |ps| && ps[i].Page? ==> ps[i].k < |s.pages|
    ensures Waiting(s, ps) == Waiting(d, ps)
  {
    if ps != [] {
      SameBuffers(s, d, ps[1..]);
    }
  }

  /** Moving entries between the list and the reader changes neither the rotation nor what they read as. */
  lemma SameTurns(s: Uci, d: Uci)
    requires Locked(s) && Shaped(d) && d.pages == s.pages && d.lens == s.lens && d.copying == s.copying
    requires d.ring == s.ring && d.w == s.w && d.nrTrb == s.nrTrb && d.filled == s.filled && Unread(d) == Unread(s)
    ensures Rotates(d) && Readable(d, Unread(d))
  {
  }

  lemma PickOwed(s: Uci)
    requires Locked(s) && s.cur.None? && s.pending != []
    ensures Owed(Pick(s)) == Owed(s) && Pick(s).rxSize == LenOf(Pick(s), s.pending[0]) >= 1
  {
    var d := Pick(s);
    SameBuffers(s, d, s.pending[1..]);
    var p := s.pending[0];
    assert Unread(s)[0] == p;
    var m := Content(s, p);
    assert m == Content(d, p) && LenOf(s, p) == LenOf(d, p) == |m|;
    assert Piece(m, |m|, |m|) == m;
    assert Waiting(s, s.pending) == m + Waiting(s, s.pending[1..]);
  }

  lemma PickLocked(s: Uci)
    requires Locked(s) && (s.cur.Some? || s.pending != [])
    ensures Locked(Pick(s)) && Owed(Pick(s)) == Owed(s) && Unread(Pick(s)) == Unread(s)
  {
    if s.cur.None? {
      assert Unread(Pick(s)) == Unread(s);
      SameTurns(s, Pick(s));
      PickOwed(s);
    }
  }

  /** Reading on in the current entry takes the next bytes owed. */
  lemma PieceSplits(m: seq<nat>, rest: nat, n: nat)
    requires n <= rest <= |m|
    ensures Piece(m, rest, rest) == Piece(m, rest, n) + Piece(m, rest - n, rest - n)
  {
  }

  lemma PartReadOwed(s: Uci, n: nat)
    requires Shaped(s) && s.cur.Some? && n < s.rxSize <= |Content(s, s.cur.value)|
    ensures var data := Piece(Content(s, s.cur.value), s.rxSize, n);
            |data| == n && Owed(s) == data + Owed(PartRead(s, n))
  {
    var d, m := PartRead(s, n), Content(s, s.cur.value);
    assert Content(d, d.cur.value) == m;
    SameBuffers(s, d, s.pending);
    var data, rest, more := Piece(m, s.rxSize, n), Piece(m, s.rxSize - n, s.rxSize - n), Waiting(s, s.pending);
    assert Owed(d) == rest + more;
    assert Owed(s) == data + (rest + more) by {
      PieceSplits(m, s.rxSize, n);
      assert (data + rest) + more == data + (rest + more);
    }
  }

  lemma PartReadLocked(s: Uci, n: nat)
    requires Locked(s) && s.cur.Some? && n < s.rxSize
    ensures Locked(PartRead(s, n))
  {
    var d := PartRead(s, n);
    assert Unread(s)[0] == s.cur.value;
    assert Unread(d) == Unread(s);
    hide Waiting, Piece;
    SameTurns(s, d);
    PartReadOwed(s, n);
    assert s.received == d.delivered + Owed(d);
  }

  /** Finishing the oldest waiting buffer puts the spare one into the ring, in its turn. */
  lemma FinishTurns(s: Uci, d: Uci)
    requires Locked(s) && Open(s) && !s.copying && s.cur.Some? && Shaped(d) && |d.pages| == |s.pages| && d.filled == s.filled
    requires s.cur.value.Page?
    requires d.ring == s.ring + [Prev(s.cur.value.k, |s.pages|)] && d.w == Next(s.w, |s.pages|) && d.nrTrb == s.nrTrb
    requires Unread(d) == Unread(s)[1..] && !d.copying
    ensures Rotates(d)
  {
    assert Unread(s)[0] == s.cur.value;
    assert s.cur.value.k == After(s.nrTrb, |s.pages| - |Unread(s)|, |s.pages|);
    assert Prev(s.cur.value.k, |s.pages|) == s.w;
  }

  lemma FinishAccounts(s: Uci, d: Uci)
    requires Shaped(s) && Accounted(s) && s.cur.Some? && Shaped(d)
    requires d.pages == s.pages && d.lens == s.lens && d.pending == s.pending && d.cur == None
    requires d.received == s.received && d.delivered == s.delivered + Piece(Content(s, s.cur.value), s.rxSize, s.rxSize)
    ensures Accounted(d) && Owed(s) == Piece(Content(s, s.cur.value), s.rxSize, s.rxSize) + Owed(d)
  {
    SameBuffers(s, d, s.pending);
    assert Unread(d) == Unread(s)[1..];
  }

  /** A finished copy is simply let go. */
  lemma FinishedCopyLocked(s: Uci, d: Uci)
    requires Locked(s) && s.copying && s.cur.Some?
    requires d == s.(rxSize := 0, cur := None, delivered := s.delivered + Piece(Content(s, s.cur.value), s.rxSize, s.rxSize))
    ensures Locked(d)
  {
    assert Unread(s)[0] == s.cur.value;
    assert Unread(d) == Unread(s)[1..];
    FinishAccounts(s, d);
  }

  /** For a finished buffer, the spare one goes into the ring. */
  lemma FinishedPageLocked(s: Uci, d: Uci)
    requires Locked(s) && Open(s) && !s.copying && s.cur.Some? && s.cur.value.Page?
    requires d == s.(rxSize := 0, cur := None, delivered := s.delivered + Piece(Content(s, s.cur.value), s.rxSize, s.rxSize),
                     ring := s.ring + [Prev(s.cur.value.k, |s.pages|)], w := Next(s.w, |s.pages|))
    ensures Locked(d)
  {
    assert Unread(s)[0] == s.cur.value;
    assert Unread(d) == Unread(s)[1..];
    FinishAccounts(s, d);
    FinishTurns(s, d);
  }

  lemma FinishedLocked(s: Uci)
    requires Locked(s) && Open(s) && s.cur.Some?
    ensures var data := Piece(Content(s, s.cur.value), s.rxSize, s.rxSize);
            var res := Finish(s.(rxSize := 0), data, true);
            Locked(res.0) && res.1 == Bytes(data) && |data| == s.rxSize && data <= Owed(s)
            && res.0.delivered == s.delivered + data && res.0.received == s.received
  {
    assert Unread(s)[0] == s.cur.value;
    var data := Piece(Content(s, s.cur.value), s.rxSize, s.rxSize);
    var d := Finish(s.(rxSize := 0), data, true).0;
    if s.copying {
      FinishedCopyLocked(s, d);
    } else {
      assert s.cur.value == Page(After(s.nrTrb, |s.pages| - |Unread(s)|, |s.pages|));
      FinishedPageLocked(s, d);
    }
  }

  lemma TakeLocked(s: Uci, q: ReadCall)
    requires Locked(s) && Open(s) && s.cur.Some? && q.queued && q.uncopied == 0
    ensures var res := Take(s, q);
            && Locked(res.0) && res.0.received == s.received && res.1.Bytes? && |res.0.pages| == |s.pages|
            && res.1.data <= Owed(s) && res.0.delivered == s.delivered + res.1.data
            && |res.1.data| == Min(q.count, s.rxSize)
  {
    var n := Min(q.count, s.rxSize);
    if n < s.rxSize {
      PartReadLocked(s, n);
      assert Unread(s)[0] == s.cur.value;
      PartReadOwed(s, n);
    } else {
      FinishedLocked(s);
    }
  }

  /**
   Reading keeps the rotation locked and hands over the next bytes owed: as
   many as asked for, up to the end of the entry being read.
   */
  lemma ReadLocked(s: Uci, q: ReadCall)
    requires Locked(s) && Open(s) && q.queued
    ensures var res := Read(s, q);
            && Locked(res.0) && res.0.received == s.received && |res.0.pages| == |s.pages|
            && match res.1
               case Bytes(data) => Unread(s) != [] && data <= Owed(s) && res.0.delivered == s.delivered + data
                                   && |data| == Min(q.count, Pick(s).rxSize)
               case _ => Owed(res.0) == Owed(s) && res.0.delivered == s.delivered
    ensures Read(s, q).1.Bytes? <==> q.enabled && Unread(s) != [] && q.uncopied == 0
  {
    if q.enabled && (s.cur.Some? || s.pending != []) {
      PickLocked(s);
      if q.uncopied == 0 {
        TakeLocked(Pick(s), q);
      }
    }
  }

  /** Each refusal of a read has its own cause, in this order, and leaves everything as it was but for the entry picked. */
  lemma ReadRefusals(s: Uci, q: ReadCall)
    requires Shaped(s)
    ensures var out := Read(s, q).1;
            && (out == Invalid <==> s.rxError > 0)
            && (out == Restart <==> s.rxError == 0 && !q.enabled)
            && (out == Again <==> s.rxError == 0 && q.enabled && Unread(s) == [])
            && (out.NotTaken? <==> s.rxError == 0 && q.enabled && Unread(s) != [] && q.uncopied > 0)
            && (out.NotTaken? ==> out.n == q.uncopied)
            && (out in {Invalid, Restart, Again} ==> Read(s, q).0 == s)
            && (out.NotTaken? ==> Read(s, q).0 == Pick(s))
  {
    hide Piece, Content, Requeue;
  }

  // --- What holds over every run -------------------------------------------------

  /** A turn of the filling, a transfer, or a read. */
  datatype Op = OpFill | OpArrive(r: Arrival) | OpRead(q: ReadCall)

  /** A device that sends between one byte and a buffer's length, and a controller that lets requeueing through. */
  predicate Ordinary(mtu: nat, op: Op) {
    match op
    case OpFill => true
    case OpArrive(r) => r.connected && 1 <= r.bytes <= mtu && Honest(r) && r.queued
    case OpRead(q) => q.queued
  }

  predicate AllOrdinary(mtu: nat, ops: seq<Op>) {
    forall i :: 0 <= i < |ops| ==> Ordinary(mtu, ops[i])
  }

  /** Nobody reads before the node is open. */
  function Apply(s: Uci, op: Op): (s': Uci)
    requires Shaped(s)
    ensures Shaped(s') && s'.mtu == s.mtu && |s'.pages| == |s.pages| && s'.copying == s.copying && s.filled <= s'.filled
  {
    match op
    case OpFill => if Open(s) then s else Fill(s)
    case OpArrive(r) => ArriveOne(s, r)
    case OpRead(q) => if Open(s) then Read(s, q).0 else s
  }

  function Run(s: Uci, ops: seq<Op>): (s': Uci)
    requires Shaped(s)
    ensures Shaped(s') && s'.mtu == s.mtu && |s'.pages| == |s.pages| && s'.copying == s.copying && s.filled <= s'.filled
    decreases |ops|
  {
    if ops == [] then s else Apply(Run(s, ops[..|ops|-1]), ops[|ops|-1])
  }

  lemma RunLast(s: Uci, ops: seq<Op>, op: Op)
    requires Shaped(s)
    ensures Run(s, ops + [op]) == Apply(Run(s, ops), op)
  {
    hide Apply;
    assert (ops + [op])[..|ops|] == ops && (ops + [op])[|ops|] == op;
  }

  /** The payloads that arrived and were kept, put together. */
  function Sent(s: Uci, ops: seq<Op>): seq<nat>
    requires Shaped(s)
    decreases |ops|
  {
    if ops == [] then []
    else
      var before, op := Run(s, ops[..|ops|-1]), ops[|ops|-1];
      Sent(s, ops[..|ops|-1])
      + if op.OpArrive? && CanArrive(before, op.r) && (!before.copying || op.r.kept) then op.r.payload else []
  }

  /** What the reads returned, put together. */
  function Returned(s: Uci, ops: seq<Op>): seq<nat>
    requires Shaped(s)
    decreases |ops|
  {
    if ops == [] then []
    else
      var before, op := Run(s, ops[..|ops|-1]), ops[|ops|-1];
      Returned(s, ops[..|ops|-1])
      + if op.OpRead? && Open(before) && Read(before, op.q).1.Bytes? then Read(before, op.q).1.data else []
  }

  /** A transfer completes before the last buffer is queued. */
  predicate TooEarly(s: Uci, op: Op) { op.OpArrive? && CanArrive(s, op.r) && !Open(s) }

  /** Some transfer did. */
  predicate Early(s: Uci, ops: seq<Op>)
    requires Shaped(s)
    decreases |ops|
  {
    ops != [] && (Early(s, ops[..|ops|-1]) || TooEarly(Run(s, ops[..|ops|-1]), ops[|ops|-1]))
  }

  /** While nothing is read, the next buffer of the filling is the next in turn. */
  lemma FillLocked(s: Uci)
    requires Locked(s) && !Open(s)
    ensures Locked(Fill(s))
  {
    var d := Fill(s);
    assert Unread(d) == Unread(s);
    SameBuffers(s, d, s.pending);
    assert d.ring == s.ring + [s.filled];
  }

  lemma ApplyLocked(s: Uci, op: Op)
    requires Locked(s) && Ordinary(s.mtu, op) && (s.copying ==> !TooEarly(s, op))
    ensures Locked(Apply(s, op))
    ensures Apply(s, op).received
            == s.received + if op.OpArrive? && CanArrive(s, op.r) && (!s.copying || op.r.kept) then op.r.payload else []
  {
    hide Locked;
    match op
    case OpFill => if !Open(s) { FillLocked(s); }
    case OpArrive(r) => if CanArrive(s, r) { CompletedLocked(s, r); }
    case OpRead(q) => if Open(s) { ReadLocked(s, q); }
  }

  lemma CompletedLocked(s: Uci, r: Arrival)
    requires Locked(s) && s.ring != [] && Requeued(s, r) && Honest(r) && (s.copying ==> Open(s))
    ensures Locked(Complete(s, r))
    ensures Complete(s, r).received == s.received + if !s.copying || r.kept then r.payload else []
  {
    if s.copying {
      CompletedCopyAccounts(s, r);
      CompletedCopyRotates(s, r);
    } else {
      CompletedPageAccounts(s, r);
      CompletedPageRotates(s, r);
    }
  }

  /** The transfer is in range, and on a copying node, which requeues at once, the requeueing goes through. */
  predicate Requeued(s: Uci, r: Arrival) {
    InRange(s, r) && (s.copying ==> r.queued)
  }

  /**
   The rotation never unlocks, from the empty ring on: after any run of filling,
   in-range transfers and reads, in any order, slot `k` holds buffer `k`, the
   address check has never failed, no waiting buffer is in the ring, and the
   bytes read so far followed by the bytes owed are the payloads that arrived,
   in order. A node that copies must only be spared transfers during the filling.
   */
  lemma StreamInOrder(s: Uci, ops: seq<Op>)
    requires Empty(s) && AllOrdinary(s.mtu, ops) && (s.copying ==> !Early(s, ops))
    ensures Locked(Run(s, ops)) && SlotsMatch(Run(s, ops)) && Run(s, ops).rxError == 0
    ensures forall k :: 0 <= k < |s.pages| && Page(k) in Unread(Run(s, ops)) ==> k !in Run(s, ops).ring
    ensures Sent(s, ops) == Run(s, ops).received == Returned(s, ops) + Owed(Run(s, ops))
  {
    EmptyRun(s, ops);
    LockedMeans(Run(s, ops));
  }

  lemma {:induction false} EmptyRun(s: Uci, ops: seq<Op>)
    requires Empty(s) && AllOrdinary(s.mtu, ops) && (s.copying ==> !Early(s, ops))
    ensures var d := Run(s, ops);
            Locked(d) && d.received == Sent(s, ops) && d.delivered == Returned(s, ops)
    decreases |ops|
  {
    if ops != [] {
      hide Apply, Locked;
      var before, op := Run(s, ops[..|ops|-1]), ops[|ops|-1];
      EmptyRun(s, ops[..|ops|-1]);
      ApplyLocked(before, op);
      DeliveredIsReturned(before, op);
    }
  }

  lemma DeliveredIsReturned(s: Uci, op: Op)
    requires Locked(s) && Ordinary(s.mtu, op)
    ensures Apply(s, op).delivered
            == s.delivered + if op.OpRead? && Open(s) && Read(s, op.q).1.Bytes? then Read(s, op.q).1.data else []
  {
    match op
    case OpFill =>
    case OpArrive(r) =>
    case OpRead(q) => if Open(s) { ReadLocked(s, q); }
  }

  /** The filling of `QueueInbound`, with the transfers it meets, is such a run. */
  lemma {:induction false} FillingIsRun(s: Uci, during: seq<seq<Arrival>>, k: nat) returns (ops: seq<Op>)
    requires Shaped(s) && s.filled + k < |s.pages|
    ensures Run(s, ops) == FillTurns(s, during, k)
    decreases k
  {
    hide Apply, Arrive, Fill, Shaped, Open;
    ops := [];
    if k > 0 {
      ops := FillingIsRun(s, during, k - 1);
      ops := ArriveIsRun(s, ops, Meanwhile(during, k - 1));
      FillStep(Run(s, ops));
      RunLast(s, ops, OpFill);
      ops := ops + [OpFill];
    }
  }

  lemma FillStep(s: Uci)
    requires Shaped(s) && s.filled + 1 < |s.pages|
    ensures Apply(s, OpFill) == Fill(s)
  {
  }

  lemma {:induction false} ArriveIsRun(s: Uci, before: seq<Op>, rs: seq<Arrival>) returns (ops: seq<Op>)
    requires Shaped(s)
    ensures Run(s, ops) == Arrive(Run(s, before), rs)
    decreases |rs|
  {
    ops := before;
    if rs != [] {
      ops := ArriveIsRun(s, before, rs[..|rs|-1]);
      RunLast(s, ops, OpArrive(rs[|rs|-1]));
      ops := ops + [OpArrive(rs[|rs|-1])];
    }
  }

  /** A transfer that is a disconnect, empty or longer than the buffer is counted and dropped: nothing is kept of it and nothing requeued. */
  lemma OutOfRangeDropped(s: Uci, r: Arrival)
    requires Shaped(s) && CanArrive(s, r) && s.ring[0] == s.nrTrb
    requires !r.connected || r.bytes == 0 || r.bytes > s.mtu
    ensures var d := Complete(s, r);
            && d.nrTrb == Next(s.nrTrb, |s.pages|) && d.ring == s.ring[1..] && d.rxError == s.rxError
            && d.pending == s.pending && d.received == s.received && d.lens == s.lens
  {
  }

  // --- Failure and reset -------------------------------------------------------------

  /** A failed check is never forgotten, and refuses every read from then on. */
  lemma {:induction false} FailureStays(s: Uci, ops: seq<Op>, q: ReadCall)
    requires Shaped(s) && s.rxError > 0
    ensures Run(s, ops).rxError > 0 && Read(Run(s, ops), q) == (Run(s, ops), Invalid)
    decreases |ops|
  {
    if ops != [] {
      FailureStays(s, ops[..|ops|-1], q);
    }
  }

  /** The channel is reset: every queued buffer comes back, oldest first, as a disconnect. */
  function Disconnect(s: Uci): (d: Uci)
    requires Shaped(s)
    ensures Shaped(d)
    decreases |s.ring|
  {
    if s.ring == [] then s else Disconnect(Complete(s, Arrival([], 0, false, false, false)))
  }

  /** A reset hands back every buffer without failing the check, and leaves what waits to be read alone. */
  lemma {:induction false} DisconnectPasses(s: Uci)
    requires Shaped(s) && Counted(s)
    ensures var d := Disconnect(s);
            d.ring == [] && d.rxError == s.rxError && Unread(d) == Unread(s) && Owed(d) == Owed(s)
    decreases |s.ring|
  {
    if s.ring != [] {
      var d := Complete(s, Arrival([], 0, false, false, false));
      assert s.ring[0] == After(s.nrTrb, 0, |s.pages|);
      assert Overwrite(s.pages[s.ring[0]], []) == s.pages[s.ring[0]];
      assert d.pages == s.pages;
      forall i | 0 <= i < |d.ring|
        ensures d.ring[i] == After(d.nrTrb, i, |d.pages|)
      {
        assert s.ring[i + 1] == After(s.nrTrb, i + 1, |s.pages|);
      }
      DisconnectPasses(d);
      SameBuffers(s, d, s.pending);
    }
  }
}
