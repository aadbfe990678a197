/**
 What unlocks the rotation of receive buffers.

 The check of the callback compares the buffer that comes up with the buffer it
 counts. A node is doomed once some buffer in its ring is not the one that will
 be counted when it comes up: nothing the driver does puts that right. Three
 things lead there by ordinary traffic alone, and each has its exact condition
 here: a transfer completed while the ring is still being filled, a
 transfer whose buffer is not requeued, and a read whose requeueing is refused.
 */
module UciUnlocked {
  import opened Basics
  import opened Rings
  import opened UciReceive
  import opened UciRotation

  // --- Safe and doomed nodes ---------------------------------------------------------

  /** Whatever ordinary traffic follows, the address check does not fail. */
  ghost predicate NeverFails(s: Uci)
    requires Shaped(s)
  {
    forall ops :: AllOrdinary(s.mtu, ops) ==> Run(s, ops).rxError == 0
  }

  lemma {:induction false} LockedNeverFails(s: Uci, ops: seq<Op>)
    requires Locked(s) && AllOrdinary(s.mtu, ops) && (s.copying ==> Open(s) || |s.pages| == 2)
    ensures Locked(Run(s, ops))
    decreases |ops|
  {
    if ops != [] {
      LockedNeverFails(s, ops[..|ops|-1]);
      ApplyLocked(Run(s, ops[..|ops|-1]), ops[|ops|-1]);
    }
  }

  /** The `p`-th oldest ring entry is not the buffer that will be counted when it comes up. */
  predicate Misplaced(s: Uci, p: nat)
    requires Shaped(s)
  {
    p < |s.ring| && p < |s.pages| && s.ring[p] != After(s.nrTrb, p, |s.pages|)
  }

  /** The address check has failed, or will when some buffer now in the ring comes up. */
  ghost predicate Doomed(s: Uci) {
    Shaped(s) && (s.rxError > 0 || exists p: nat :: Misplaced(s, p))
  }

  lemma MisplacedMoves(s: Uci, r: Arrival, p: nat)
    requires Shaped(s) && CanArrive(s, r) && Misplaced(s, p)
    ensures Complete(s, r).rxError > 0 || (p > 0 && Misplaced(Complete(s, r), p - 1))
  {
    if p > 0 {
      AfterNext(s.nrTrb, p - 1, |s.pages|);
    }
  }

  /** Nothing saves a doomed node. */
  lemma DoomedApply(s: Uci, op: Op)
    requires Doomed(s)
    ensures Doomed(Apply(s, op))
  {
    var d := Apply(s, op);
    if s.rxError == 0 {
      var p: nat :| Misplaced(s, p);
      if op.OpArrive? && CanArrive(s, op.r) {
        MisplacedMoves(s, op.r, p);
      } else {
        assert Misplaced(d, p);
      }
    }
  }

  /** One byte, in range, and dropped by a copying node: it moves the rotation and nothing else. */
  function OneByte(): Arrival { Arrival([0], 1, true, false, true) }

  lemma {:induction false} RunFirst(s: Uci, op: Op, ops: seq<Op>)
    requires Shaped(s)
    ensures Run(s, [op] + ops) == Run(Apply(s, op), ops)
    decreases |ops|
  {
    hide Apply;
    if ops == [] {
      RunLast(s, [], op);
      assert [] + [op] == [op] + [];
    } else {
      RunFirst(s, op, ops[..|ops|-1]);
      RunLast(s, [op] + ops[..|ops|-1], ops[|ops|-1]);
      assert [op] + ops[..|ops|-1] + [ops[|ops|-1]] == [op] + ops;
    }
  }

  /** What ordinary traffic can still bring about after one more step it could bring about before it. */
  lemma UnsafeBefore(s: Uci, op: Op)
    requires Shaped(s) && Ordinary(s.mtu, op) && !NeverFails(Apply(s, op))
    ensures !NeverFails(s)
  {
    hide Apply, Run;
    var ops :| AllOrdinary(s.mtu, ops) && Run(Apply(s, op), ops).rxError != 0;
    RunFirst(s, op, ops);
    assert AllOrdinary(s.mtu, [op] + ops);
  }

  /** Transfers alone bring the misplaced buffer up. */
  lemma {:induction false} MisplacedIsUnsafe(s: Uci, p: nat)
    requires Shaped(s) && 1 <= s.mtu && (s.rxError > 0 || Misplaced(s, p))
    ensures !NeverFails(s)
    decreases if s.rxError > 0 then 0 else p + 1
  {
    if s.rxError > 0 {
      assert Run(s, []) == s;
    } else {
      MisplacedMoves(s, OneByte(), p);
      hide NeverFails;
      var d := Apply(s, OpArrive(OneByte()));
      MisplacedIsUnsafe(d, if d.rxError > 0 then 0 else p - 1);
      UnsafeBefore(s, OpArrive(OneByte()));
    }
  }

  lemma DoomedIsUnsafe(s: Uci)
    requires Doomed(s) && 1 <= s.mtu
    ensures !NeverFails(s)
  {
    var p: nat :| s.rxError > 0 || Misplaced(s, p);
    MisplacedIsUnsafe(s, p);
  }

  // --- A transfer during the filling ------------------------------------------------

  /** It puts the last buffer where the next one of the filling belongs. */
  lemma TooEarlyDooms(s: Uci, r: Arrival)
    requires Locked(s) && s.copying && !Open(s) && CanArrive(s, r) && Requeued(s, r) && Honest(r)
    ensures Doomed(Complete(s, r))
  {
    CompletedIsKept(s, r);
    var n, d := |s.pages|, Complete(s, r);
    assert s.nrTrb == 0;
    assert d.ring == s.ring[1..] + [n - 1];
    assert Misplaced(d, s.filled - 1);
  }

  lemma {:induction false} EarlyDooms(s: Uci, ops: seq<Op>)
    requires Empty(s) && s.copying && AllOrdinary(s.mtu, ops) && Early(s, ops)
    ensures Doomed(Run(s, ops))
    decreases |ops|
  {
    hide Doomed, Locked;
    var init, op := ops[..|ops|-1], ops[|ops|-1];
    if Early(s, init) {
      EarlyDooms(s, init);
      DoomedApply(Run(s, init), op);
    } else {
      EmptyRun(s, init);
      TooEarlyDooms(Run(s, init), op.r);
    }
  }

  /** A node that copies and is not open yet can still meet such a transfer. */
  lemma StillFilling(s: Uci)
    requires Locked(s) && s.copying && !Open(s) && 3 <= |s.pages| && 1 <= s.mtu
    ensures !NeverFails(s)
  {
    if s.ring == [] {
      FillLocked(s);
      EarlyIsUnsafe(Fill(s));
      UnsafeBefore(s, OpFill);
    } else {
      EarlyIsUnsafe(s);
    }
  }

  lemma EarlyIsUnsafe(s: Uci)
    requires Locked(s) && s.copying && !Open(s) && s.ring != [] && 1 <= s.mtu
    ensures !NeverFails(s)
  {
    TooEarlyDooms(s, OneByte());
    DoomedIsUnsafe(Complete(s, OneByte()));
    UnsafeBefore(s, OpArrive(OneByte()));
  }

  lemma EarlyFails(s: Uci, ops: seq<Op>)
    requires Empty(s) && s.copying && 1 <= s.mtu && AllOrdinary(s.mtu, ops) && Early(s, ops)
    ensures |s.pages| != 2 && !NeverFails(Run(s, ops))
  {
    assert Shaped(s);
    hide Early, Doomed, Empty, NeverFails, AllOrdinary;
    EarlyDooms(s, ops);
    if |s.pages| == 2 {
      NoneEarlyOfTwo(s, ops);
    }
    DoomedIsUnsafe(Run(s, ops));
  }

  /** A locked node is safe exactly if it does not copy, has only two buffers or is open. */
  lemma LockedIsSafeIffOpen(s: Uci)
    requires Locked(s) && 1 <= s.mtu
    ensures NeverFails(s) <==> !s.copying || |s.pages| == 2 || Open(s)
  {
    assert 2 <= |s.pages| by {
      assert Shaped(s);
    }
    hide Locked, NeverFails;
    if s.copying && |s.pages| > 2 && !Open(s) {
      StillFilling(s);
    } else {
      LockedIsSafe(s);
    }
  }

  /**
   From the empty ring on, ordinary traffic never fails the check exactly if the
   channel does not copy, or has only two buffers, or all of them but the last
   have been queued and no transfer completed before that.
   */
  lemma NeverFailsIffFilledFirst(s: Uci, ops: seq<Op>)
    requires Empty(s) && 1 <= s.mtu && AllOrdinary(s.mtu, ops)
    ensures NeverFails(Run(s, ops)) <==> !s.copying || |s.pages| == 2 || (Open(Run(s, ops)) && !Early(s, ops))
  {
    if s.copying && Early(s, ops) {
      EarlyFails(s, ops);
    } else {
      EmptyRun(s, ops);
      LockedIsSafeIffOpen(Run(s, ops));
    }
    hide *;
  }

  lemma LockedIsSafe(s: Uci)
    requires Locked(s) && (s.copying ==> Open(s) || |s.pages| == 2)
    ensures NeverFails(s)
  {
    forall ops | AllOrdinary(s.mtu, ops)
      ensures Run(s, ops).rxError == 0
    {
      LockedNeverFails(s, ops);
    }
  }

  /** With two buffers the filling is a single turn. */
  lemma {:induction false} NoneEarlyOfTwo(s: Uci, ops: seq<Op>)
    requires Empty(s) && |s.pages| == 2
    ensures !Early(s, ops) && (!Open(Run(s, ops)) ==> Run(s, ops).ring == [])
    decreases |ops|
  {
    if ops != [] {
      NoneEarlyOfTwo(s, ops[..|ops|-1]);
    }
  }

  /** Four buffers, and a transfer completed after the first is queued: the next one after the opening fails the check. */
  lemma FillingRace(s: Uci)
    requires Empty(s) && s.copying && |s.pages| == 4 && 1 <= s.mtu
    ensures var before, t := [OpFill, OpArrive(OneByte()), OpFill, OpFill], OpArrive(OneByte());
            && AllOrdinary(s.mtu, before + [t])
            && Open(Run(s, before)) && Run(s, before).ring == [3, 1, 2] && Run(s, before).rxError == 0
            && Run(s, before + [t]).rxError == 1
  {
    var t := OpArrive(OneByte());
    var before := [OpFill, t, OpFill, OpFill];
    assert AllOrdinary(s.mtu, before + [t]);
    hide *;
    RaceStates(s);
    FourSteps(s, OpFill, t, OpFill, OpFill);
    RunLast(s, before, t);
  }

  lemma RaceStates(s: Uci)
    requires Empty(s) && s.copying && |s.pages| == 4 && 1 <= s.mtu
    ensures var t := OpArrive(OneByte());
            var d := Apply(Apply(Apply(Apply(s, OpFill), t), OpFill), OpFill);
            Open(d) && d.ring == [3, 1, 2] && d.rxError == 0 && Apply(d, t).rxError == 1
  {
    var t := OpArrive(OneByte());
    var s1 := Apply(s, OpFill);
    assert s1.ring == [0] && s1.nrTrb == 0 && s1.filled == 1;
    var s2 := Apply(s1, t);
    assert s2.ring == [3] && s2.nrTrb == 1 && s2.filled == 1 && s2.rxError == 0;
    var s3 := Apply(s2, OpFill);
    assert s3.ring == [3, 1] && s3.nrTrb == 1 && s3.filled == 2 && s3.rxError == 0;
    var d := Apply(s3, OpFill);
    assert d.ring == [3, 1, 2] && d.nrTrb == 1 && d.filled == 3 && d.rxError == 0;
  }

  lemma FourSteps(s: Uci, a: Op, b: Op, c: Op, d: Op)
    requires Shaped(s)
    ensures Run(s, [a, b, c, d]) == Apply(Apply(Apply(Apply(s, a), b), c), d)
  {
    assert Run(s, []) == s;
    hide *;
    RunLast(s, [], a);
    RunLast(s, [] + [a], b);
    RunLast(s, [] + [a] + [b], c);
    RunLast(s, [] + [a] + [b] + [c], d);
    Four(a, b, c, d);
  }

  lemma Four<T>(a: T, b: T, c: T, d: T)
    ensures [] + [a] + [b] + [c] + [d] == [a, b, c, d]
  {
  }

  // --- A buffer that is not requeued --------------------------------------------------

  /** A read that takes an entry to its end. */
  function ReadAll(mtu: nat): ReadCall { ReadCall(mtu, true, 0, true) }

  /** Buffer `h` was completed for nothing while `u` others wait to be read; the rest is in turn. */
  ghost predicate Hole(s: Uci, h: nat, u: nat) {
    && Shaped(s) && h < |s.pages| && s.rxError == 0 && 1 <= s.mtu
    && PagesHeld(s) == u && |s.ring| + u + 1 == s.filled
    && s.nrTrb == After(h, 1, |s.pages|)
    && (forall i :: 0 <= i < |s.ring| ==> s.ring[i] == After(h, 1 + i, |s.pages|))
    && (!Open(s) ==> After(h, 1 + |s.ring|, |s.pages|) == s.filled)
    && (!s.copying ==> WaitingBefore(s, h))
  }

  /** The entries that wait are the buffers before `h`, each with something to read. */
  ghost predicate WaitingBefore(s: Uci, h: nat)
    requires Shaped(s) && h < |s.pages|
  {
    var u := |Unread(s)|;
    && u < |s.pages|
    && (forall i :: 0 <= i < u ==> Unread(s)[i] == Page(After(h, |s.pages| - u + i, |s.pages|)))
    && Readable(s, Unread(s)) && (s.cur.Some? ==> 1 <= s.rxSize <= LenOf(s, s.cur.value))
  }

  /** The filling goes on behind it. */
  lemma HoleFills(s: Uci, h: nat, u: nat)
    requires Hole(s, h, u) && !Open(s)
    ensures Hole(Fill(s), h, u)
  {
    var d := Fill(s);
    assert d.ring == s.ring + [s.filled] && Unread(d) == Unread(s);
    hide Readable;
    assert Readable(s, Unread(s)) ==> Readable(d, Unread(d)) by {
      SameReadable(s, d);
    }
  }

  lemma SameReadable(s: Uci, d: Uci)
    requires Shaped(s) && Shaped(d) && d.pages == s.pages && d.lens == s.lens && Unread(d) == Unread(s)
    ensures Readable(s, Unread(s)) ==> Readable(d, Unread(d))
  {
  }

  /** Reading the oldest entry, a buffer, to its end puts the buffer before it into the ring. */
  lemma ReadToEnd(s: Uci, k: nat)
    requires Shaped(s) && Open(s) && s.rxError == 0 && Unread(s) != [] && Unread(s)[0] == Page(k) && k < |s.pages|
    requires Readable(s, Unread(s)) && (s.cur.Some? ==> 1 <= s.rxSize <= LenOf(s, s.cur.value)) && |s.ring| + 1 < |s.pages|
    ensures var d := Apply(s, OpRead(ReadAll(s.mtu)));
            && d.ring == s.ring + [Prev(k, |s.pages|)] && Unread(d) == Unread(s)[1..] && d.cur == None
            && d.pages == s.pages && d.lens == s.lens && d.nrTrb == s.nrTrb && d.rxError == 0 && d.filled == s.filled
  {
    var p := Pick(s);
    assert p.cur == Some(Page(k)) && p.pending == Unread(s)[1..];
    assert 1 <= p.rxSize <= LenOf(s, Page(k)) == |Content(s, Page(k))| <= s.mtu;
    assert Min(s.mtu, p.rxSize) == p.rxSize;
  }

  /** The buffer that goes in is the next in turn. */
  lemma HoleDrains(s: Uci, h: nat, u: nat)
    requires Hole(s, h, u) && Open(s) && !s.copying && u > 0
    ensures Hole(Apply(s, OpRead(ReadAll(s.mtu))), h, u - 1)
  {
    hide Apply;
    var n, k := |s.pages|, After(h, |s.pages| - u, |s.pages|);
    assert Unread(s)[0] == Page(After(h, n - u + 0, n));
    ReadToEnd(s, k);
    assert Prev(k, n) == After(h, 1 + |s.ring|, n);
    ShorterHole(s, Apply(s, OpRead(ReadAll(s.mtu))), h, u);
  }

  lemma ShorterHole(s: Uci, d: Uci, h: nat, u: nat)
    requires Hole(s, h, u) && Open(s) && !s.copying && u > 0
    requires Shaped(d) && d.mtu == s.mtu && !d.copying && d.filled == s.filled
    requires d.ring == s.ring + [After(h, 1 + |s.ring|, |s.pages|)] && Unread(d) == Unread(s)[1..] && d.cur == None
    requires d.pages == s.pages && d.lens == s.lens && d.nrTrb == s.nrTrb && d.rxError == 0
    ensures Hole(d, h, u - 1)
  {
    var n, us, ds := |s.pages|, Unread(s), Unread(d);
    forall i | 0 <= i < u - 1
      ensures ds[i] == Page(After(h, n - (u - 1) + i, n)) && 1 <= LenOf(d, ds[i]) == |Content(d, ds[i])|
    {
      assert ds[i] == us[i + 1] && us[i + 1] == Page(After(h, n - u + (i + 1), n));
    }
  }

  /** Once nothing waits, the next transfer puts buffer `h` back in where the one before it belongs. */
  function Beat(s: Uci): (d: Uci)
    requires Shaped(s)
    ensures Shaped(d) && d.mtu == s.mtu
  {
    var s1 := Apply(s, OpArrive(OneByte()));
    if s.copying then s1 else Apply(s1, OpRead(ReadAll(s.mtu)))
  }

  lemma HoleDooms(s: Uci, h: nat)
    requires Hole(s, h, 0) && Open(s) && 3 <= |s.pages|
    ensures Doomed(Beat(s))
  {
    var n, d := |s.pages|, Beat(s);
    assert s.ring[0] == After(h, 1 + 0, n);
    assert Prev(After(h, 1, n), n) == h;
    if s.copying {
      CopyBeat(s);
    } else {
      PageBeat(s);
    }
    assert d.ring[n - 3] == h != After(d.nrTrb, n - 3, n);
    assert Misplaced(d, n - 3);
  }

  lemma CopyBeat(s: Uci)
    requires Shaped(s) && s.copying && 1 <= s.mtu && s.ring != [] && s.ring[0] == s.nrTrb && |s.ring| < |s.pages|
    ensures Beat(s).ring == s.ring[1..] + [Prev(s.nrTrb, |s.pages|)]
    ensures Beat(s).nrTrb == Next(s.nrTrb, |s.pages|) && |Beat(s).pages| == |s.pages|
  {
  }

  lemma PageBeat(s: Uci)
    requires Shaped(s) && Open(s) && !s.copying && 1 <= s.mtu && s.rxError == 0 && Unread(s) == []
    requires s.ring != [] && s.ring[0] == s.nrTrb && |s.ring| < |s.pages|
    ensures Beat(s).ring == s.ring[1..] + [Prev(s.nrTrb, |s.pages|)]
    ensures Beat(s).nrTrb == Next(s.nrTrb, |s.pages|) && |Beat(s).pages| == |s.pages|
  {
    var s1 := Apply(s, OpArrive(OneByte()));
    assert Unread(s1) == [Page(s.nrTrb)] && s1.lens[s.nrTrb] == 1;
    ReadToEnd(s1, s.nrTrb);
  }

  /** The ring is filled up, the waiting entries are read, and the next transfer dooms the node. */
  lemma {:induction false} HoleFails(s: Uci, h: nat, u: nat)
    requires 3 <= |s.pages| && Hole(s, h, u)
    ensures !NeverFails(s)
    decreases |s.pages| - s.filled, u
  {
    HoleMeans(s, h, u);
    hide Hole, Doomed, NeverFails, Read, Complete;
    if !Open(s) {
      HoleFills(s, h, u);
      HoleFails(Fill(s), h, u);
      UnsafeBefore(s, OpFill);
    } else if u > 0 {
      HoleDrains(s, h, u);
      HoleFails(Apply(s, OpRead(ReadAll(s.mtu))), h, u - 1);
      UnsafeBefore(s, OpRead(ReadAll(s.mtu)));
    } else {
      HoleDooms(s, h);
      BeatIsUnsafe(s);
    }
  }

  lemma BeatIsUnsafe(s: Uci)
    requires Shaped(s) && 1 <= s.mtu && Doomed(Beat(s))
    ensures !NeverFails(s)
  {
    hide Apply, Doomed, NeverFails;
    DoomedIsUnsafe(Beat(s));
    if !s.copying {
      UnsafeBefore(Apply(s, OpArrive(OneByte())), OpRead(ReadAll(s.mtu)));
    }
    UnsafeBefore(s, OpArrive(OneByte()));
  }

  lemma HoleMeans(s: Uci, h: nat, u: nat)
    requires Hole(s, h, u)
    ensures Shaped(s) && 1 <= s.mtu && s.filled < |s.pages| && (u > 0 ==> !s.copying)
  {
  }

  /** What a transfer not requeued changes: the ring, the count, and what is in the completed buffer, or was there already. */
  lemma UnqueuedChanges(s: Uci, r: Arrival)
    requires Locked(s) && CanArrive(s, r) && !InRange(s, r)
    ensures var d := Complete(s, r);
            && s.ring[0] == s.nrTrb && d.ring == s.ring[1..] && d.nrTrb == Next(s.nrTrb, |s.pages|)
            && d == s.(ring := d.ring, nrTrb := d.nrTrb, pages := d.pages) && |d.pages| == |s.pages|
            && forall k :: 0 <= k < |s.pages| && k != s.nrTrb ==> d.pages[k] == s.pages[k]
  {
    assert s.ring[0] == After(s.nrTrb, 0, |s.pages|);
  }

  lemma UnqueuedCopyChanges(s: Uci, r: Arrival)
    requires Locked(s) && s.copying && CanArrive(s, r) && !Requeued(s, r)
    ensures var d := Complete(s, r);
            && d.ring == s.ring[1..] && d.nrTrb == Next(s.nrTrb, |s.pages|) && d.rxError == 0 && PagesHeld(d) == 0
            && d.filled == s.filled && |d.pages| == |s.pages|
  {
    assert s.ring[0] == After(s.nrTrb, 0, |s.pages|);
  }

  lemma RingTurns(s: Uci, d: Uci)
    requires Locked(s) && s.ring != [] && Shaped(d) && |d.pages| == |s.pages| && d.ring == s.ring[1..]
    ensures forall i :: 0 <= i < |d.ring| ==> d.ring[i] == After(s.nrTrb, 1 + i, |s.pages|)
    ensures Next(s.nrTrb, |s.pages|) == After(s.nrTrb, 1, |s.pages|)
    ensures !Open(s) ==> After(s.nrTrb, 1 + |d.ring|, |s.pages|) == s.filled
  {
    forall i | 0 <= i < |d.ring|
      ensures d.ring[i] == After(s.nrTrb, 1 + i, |s.pages|)
    {
      assert s.ring[i + 1] == After(s.nrTrb, i + 1, |s.pages|);
    }
  }

  lemma UnqueuedIsHole(s: Uci, r: Arrival)
    requires Locked(s) && CanArrive(s, r) && 1 <= s.mtu && !Requeued(s, r)
    ensures Hole(Complete(s, r), s.nrTrb, PagesHeld(s))
  {
    var d := Complete(s, r);
    if s.copying {
      UnqueuedCopyChanges(s, r);
    } else {
      UnqueuedChanges(s, r);
      WaitingStays(s, d);
    }
    hide Complete, Accounted, SlotsMatch, Readable;
    RingTurns(s, d);
  }

  /** Only the completed buffer may have changed, and it is not waiting. */
  lemma WaitingStays(s: Uci, d: Uci)
    requires Locked(s) && !s.copying && s.ring != [] && s.ring[0] == s.nrTrb
    requires Shaped(d) && |d.pages| == |s.pages| && d.lens == s.lens && d.cur == s.cur && d.pending == s.pending && d.rxSize == s.rxSize
    requires forall k :: 0 <= k < |s.pages| && k != s.nrTrb ==> d.pages[k] == s.pages[k]
    ensures Unread(d) == Unread(s) && WaitingBefore(d, s.nrTrb)
  {
    hide Counted;
    LockedMeans(s);
    forall i | 0 <= i < |Unread(s)|
      ensures LenOf(d, Unread(s)[i]) == LenOf(s, Unread(s)[i]) && Content(d, Unread(s)[i]) == Content(s, Unread(s)[i])
    {
      assert Unread(s)[i].k !in s.ring;
    }
    assert s.cur.Some? ==> Unread(s)[0] == s.cur.value;
  }

  /** The ring is empty and no buffer of the node waits, so nothing will ever be queued or checked again. */
  ghost predicate Deserted(s: Uci) {
    && Shaped(s) && Open(s) && s.ring == [] && s.rxError == 0
    && forall i :: 0 <= i < |Unread(s)| ==> Unread(s)[i].Copied?
  }

  lemma ReadDeserted(s: Uci, q: ReadCall)
    requires Deserted(s)
    ensures Deserted(Read(s, q).0)
  {
    hide Piece, Front, Requeue, Content;
    if q.enabled && Unread(s) != [] {
      var p, d := Pick(s), Read(s, q).0;
      assert Unread(p) == Unread(s);
      assert p.cur.value == Unread(s)[0];
      assert Unread(d) == Unread(s) || Unread(d) == Unread(s)[1..];
    }
  }

  lemma {:induction false} DesertedStays(s: Uci, ops: seq<Op>)
    requires Deserted(s)
    ensures Deserted(Run(s, ops))
    decreases |ops|
  {
    if ops != [] {
      DesertedStays(s, ops[..|ops|-1]);
      var before, op := Run(s, ops[..|ops|-1]), ops[|ops|-1];
      if op.OpRead? {
        ReadDeserted(before, op.q);
      }
    }
  }

  lemma TwoBuffersDesert(s: Uci, r: Arrival)
    requires Locked(s) && CanArrive(s, r) && |s.pages| == 2 && !Requeued(s, r)
    ensures Deserted(Complete(s, r))
  {
    assert s.ring[0] == After(s.nrTrb, 0, 2);
    var d := Complete(s, r);
    if d.pending == s.pending {
      assert Unread(d) == Unread(s);
    } else {
      assert Unread(d) == Unread(s) + [d.pending[|s.pending|]];
    }
  }

  /**
   After a transfer the address check holds for good exactly if the transfer was
   in range and, where the callback requeues, its requeueing was let through and
   the filling was over; or if there are only two buffers. Otherwise ordinary
   traffic alone brings the node to the failed check, after which every read is
   refused; a node of two buffers is left with an empty ring and nothing to check.
   */
  lemma NeverFailsIffInRange(s: Uci, r: Arrival)
    requires Locked(s) && CanArrive(s, r) && 1 <= s.mtu
    requires InRange(s, r) ==> Honest(r)
    ensures NeverFails(Complete(s, r)) <==> (Requeued(s, r) && (s.copying ==> Open(s))) || |s.pages| == 2
  {
    var d := Complete(s, r);
    assert d == Apply(s, OpArrive(r)) && d.filled == s.filled;
    assert |s.pages| == 2 ==> Open(s);
    if Requeued(s, r) && s.copying && !Open(s) {
      TooEarlyDooms(s, r);
      DoomedIsUnsafe(d);
    } else if Requeued(s, r) {
      CompletedLocked(s, r);
      LockedIsSafe(d);
    } else if |s.pages| == 2 {
      TwoBuffersDesert(s, r);
      forall ops | AllOrdinary(d.mtu, ops)
        ensures Run(d, ops).rxError == 0
      {
        DesertedStays(d, ops);
      }
    } else {
      UnqueuedIsHole(s, r);
      HoleFails(d, s.nrTrb, PagesHeld(s));
    }
  }

  /** The read finishes one of the node's own buffers and the buffer before it is refused. */
  predicate Unqueues(s: Uci, q: ReadCall)
    requires Shaped(s)
  {
    && s.rxError == 0 && q.enabled && q.uncopied == 0 && !q.queued
    && Unread(s) != [] && Unread(s)[0].Page? && Pick(s).rxSize <= q.count
  }

  lemma OtherReadsLocked(s: Uci, q: ReadCall)
    requires Locked(s) && Open(s) && !Unqueues(s, q)
    ensures Locked(Read(s, q).0)
  {
    ReadLocked(s, q.(queued := true));
    if s.cur.Some? || s.pending != [] {
      assert Pick(s).cur.value == Unread(s)[0];
      assert Read(s, q).0 == Read(s, q.(queued := true)).0;
    }
  }

  /** Buffer `h` has been read and nothing queued for it; the entries that wait, and then the ring, follow in turn. */
  ghost predicate ReadHole(s: Uci, h: nat) {
    var u := |Unread(s)|;
    && Shaped(s) && Open(s) && !s.copying && h < |s.pages| && s.rxError == 0
    && |s.ring| + u + 2 == |s.pages|
    && s.nrTrb == After(h, 1 + u, |s.pages|)
    && (forall i :: 0 <= i < |s.ring| ==> s.ring[i] == After(h, 1 + u + i, |s.pages|))
    && (forall i :: 0 <= i < u ==> Unread(s)[i] == Page(After(h, 1 + i, |s.pages|)))
    && Readable(s, Unread(s)) && s.cur == None
  }

  /** The next read puts buffer `h` in where the one before it belongs. */
  lemma ReadHoleDooms(s: Uci, h: nat)
    requires ReadHole(s, h) && Unread(s) != []
    ensures Doomed(Apply(s, OpRead(ReadAll(s.mtu))))
  {
    hide Apply;
    var n, d := |s.pages|, Apply(s, OpRead(ReadAll(s.mtu)));
    var k := After(h, 1, n);
    assert Unread(s)[0] == Page(After(h, 1 + 0, n));
    ReadToEnd(s, k);
    assert Prev(k, n) == h;
    assert Misplaced(d, |s.ring|);
  }

  /** What such a read changes: the entry is gone, and nothing is in its place. */
  lemma UnqueuedReadChanges(s: Uci, q: ReadCall)
    requires Locked(s) && Unqueues(s, q)
    ensures var d := Read(s, q).0;
            && d == s.(cur := None, pending := Unread(s)[1..], rxSize := 0) && !s.copying
  {
    var p := Pick(s);
    assert p.cur.value == Unread(s)[0] && p.pending == Unread(s)[1..];
  }

  /** The entries after the one that is gone read as before. */
  lemma RestReadable(s: Uci, d: Uci)
    requires Shaped(s) && Readable(s, Unread(s)) && Unread(s) != []
    requires d == s.(cur := None, pending := Unread(s)[1..], rxSize := 0)
    ensures Shaped(d) && Unread(d) == Unread(s)[1..] && Readable(d, Unread(d))
  {
    assert Unread(d) == Unread(s)[1..];
    forall i | 0 <= i < |Unread(d)|
      ensures 1 <= LenOf(d, Unread(d)[i]) == |Content(d, Unread(d)[i])|
    {
      assert Unread(d)[i] == Unread(s)[i + 1];
    }
  }

  /** The ring and the entries after the one that is gone, counted from its buffer. */
  lemma RestTurns(s: Uci, d: Uci, h: nat)
    requires Shaped(s) && Open(s) && Rotates(s) && !s.copying && Unread(s) != [] && Unread(s)[0] == Page(h)
    requires d.ring == s.ring && d.nrTrb == s.nrTrb && Unread(d) == Unread(s)[1..]
    ensures var n, u := |s.pages|, |Unread(s)|;
            && |s.ring| + u + 1 == n && h < n && s.nrTrb == After(h, u, n)
            && (forall i :: 0 <= i < |d.ring| ==> d.ring[i] == After(h, u + i, n))
            && (forall i :: 0 <= i < u - 1 ==> Unread(d)[i] == Page(After(h, 1 + i, n)))
  {
    var n, u := |s.pages|, |Unread(s)|;
    assert Unread(s)[0] == Page(After(s.nrTrb, n - u + 0, n));
    forall i | 0 <= i < u - 1
      ensures Unread(d)[i] == Page(After(h, 1 + i, n))
    {
      assert Unread(s)[i + 1] == Page(After(s.nrTrb, n - u + (i + 1), n));
    }
    forall i | 0 <= i < |d.ring|
      ensures d.ring[i] == After(h, u + i, n)
    {
      assert s.ring[i] == After(s.nrTrb, i, n);
    }
  }

  lemma UnqueuedReadIsHole(s: Uci, q: ReadCall)
    requires Locked(s) && Open(s) && Unqueues(s, q)
    ensures ReadHole(Read(s, q).0, Unread(s)[0].k)
  {
    hide Read, Rotates, Readable, After;
    var d := Read(s, q).0;
    UnqueuedReadChanges(s, q);
    RestReadable(s, d);
    RestTurns(s, d, Unread(s)[0].k);
  }

  lemma UnqueuedReadFails(s: Uci, q: ReadCall)
    requires Locked(s) && Open(s) && Unqueues(s, q) && 1 <= s.mtu && 3 <= |s.pages|
    ensures !NeverFails(Read(s, q).0)
  {
    UnqueuedReadIsHole(s, q);
    UnqueuedReadChanges(s, q);
    hide Read, Locked, Unqueues, Apply;
    var d, h := Read(s, q).0, Unread(s)[0].k;
    if Unread(d) == [] {
      assert Hole(d, h, 0);
      HoleFails(d, h, 0);
    } else {
      ReadHoleDooms(d, h);
      DoomedIsUnsafe(Apply(d, OpRead(ReadAll(d.mtu))));
      UnsafeBefore(d, OpRead(ReadAll(d.mtu)));
    }
  }

  /**
   After a read the address check holds for good exactly unless the read finished
   one of the node's own buffers and requeueing was refused; or if there are only
   two buffers. A copying channel requeues nothing when it is read.
   */
  lemma NeverFailsAfterReadIff(s: Uci, q: ReadCall)
    requires Locked(s) && Open(s) && 1 <= s.mtu
    ensures NeverFails(Read(s, q).0) <==> !Unqueues(s, q) || |s.pages| == 2
  {
    hide Read;
    var d := Read(s, q).0;
    if !Unqueues(s, q) {
      OtherReadsLocked(s, q);
      ReadKeepsOpen(s, q);
      LockedIsSafe(d);
    } else if |s.pages| == 2 {
      UnqueuedReadChanges(s, q);
      assert Unread(d) == Unread(s)[1..] && |Unread(s)| == 1;
      forall ops | AllOrdinary(d.mtu, ops)
        ensures Run(d, ops).rxError == 0
      {
        DesertedStays(d, ops);
      }
    } else {
      UnqueuedReadFails(s, q);
    }
  }

  lemma ReadKeepsOpen(s: Uci, q: ReadCall)
    requires Shaped(s) && Open(s)
    ensures Open(Read(s, q).0)
  {
  }
}
