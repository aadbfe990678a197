/**
 The send side of the byte-stream device.

 A write is cut into pieces no longer than the channel's MTU, chained together
 so that the device sees one transfer. A chained element is not completed until
 its chain ends, so a writer that waited for room behind one might wait for
 ever; whoever takes the last free descriptor therefore ends the chain there.

 Completions run on other CPUs at any time. Here they happen before the free
 descriptors are counted, while the writer waits, and between the count and the
 enqueueing; one writer at a time holds the node's write mutex.
 */
module UciWrite {
  import opened Basics
  import opened Pieces
  import Channels

  datatype Tre = Tre(payload: seq<nat>, flags: nat)

  /** What one turn of the loop meets: how many elements complete at its three points, and what fails. */
  datatype Turn = Turn(
    before: nat, waiting: nat, between: nat,
    interrupted: bool, disabled: bool, noMemory: bool, uncopied: nat, refused: bool)

  datatype Outcome = Written(n: nat) | Invalid | Again | Restart | NoMem | NotTaken(n: nat) | Io | StillWaiting

  // --- What a write queues -----------------------------------------------------

  function Payloads(ts: seq<Tre>): seq<seq<nat>> { seq(|ts|, i requires 0 <= i < |ts| => ts[i].payload) }

  /** Piece `i` of `total` chains on exactly if more than one descriptor was seen free and it is not the last. */
  predicate Flagged(ts: seq<Tre>, seen: seq<nat>, total: nat) {
    && |ts| == |seen|
    && forall i :: 0 <= i < |ts| ==> ts[i].flags == if seen[i] > 1 && i + 1 < total then Channels.MHI_CHAIN else Channels.MHI_EOT
  }

  /** How many elements are left of `n` when up to `k` complete. */
  function Left(n: nat, k: nat): nat { n - Min(k, n) }

  /**
   How a turn ends for a piece of `n` bytes, with `used` of `cap` descriptors
   outstanding when it starts. Refusals come in this order; a signal counts only
   for a writer that has to go on waiting.
   */
  function Fate(t: Turn, nonblock: bool, used: nat, cap: nat, enabled: bool, n: nat): Outcome {
    if Left(used, t.before) >= cap && nonblock then Again
    else if !enabled then Restart
    else if Left(Left(used, t.before), t.waiting) >= cap then if t.interrupted then Restart else StillWaiting
    else if t.noMemory then NoMem
    else if t.uncopied > 0 then NotTaken(t.uncopied)
    else if t.disabled then Restart
    else if t.refused then Io
    else Written(n)
  }

  /** Nothing goes wrong in the turn; a signal does no harm where there is room. */
  predicate Harmless(t: Turn) { !t.disabled && !t.noMemory && t.uncopied == 0 && !t.refused }

  /**
   What accounts for an outcome other than success, in the turn it comes from: the
   ring is full when the turn ends, or is not and something failed after all that
   is tried before it had gone well.
   */
  predicate Caused(out: Outcome, t: Turn, nonblock: bool, full: bool, enabled: bool) {
    match out
    case Again => full && nonblock
    case StillWaiting => full && enabled && !t.interrupted
    case Restart => !enabled || (full && t.interrupted)
    case NoMem => !full && enabled && t.noMemory
    case NotTaken(n) => !full && enabled && !t.noMemory && n == t.uncopied > 0
    case Io => !full && enabled && !t.noMemory && t.uncopied == 0 && !t.disabled && t.refused
    case Invalid => false
    case Written(_) => false
  }

  /**
   A turn queues its piece exactly if the node is enabled, nothing goes wrong in
   it and it finds room: what completes before it looks makes some, or, for a
   writer that may wait, what completes meanwhile.
   */
  lemma FateMeans(t: Turn, nonblock: bool, used: nat, cap: nat, enabled: bool, n: nat)
    requires 0 < cap && used <= cap
    ensures Fate(t, nonblock, used, cap, enabled, n) == Written(n) <==>
            enabled && Harmless(t) && (used < cap || t.before > 0 || (!nonblock && t.waiting > 0))
    ensures Fate(t, nonblock, used, cap, enabled, n).Written? ==> Fate(t, nonblock, used, cap, enabled, n) == Written(n)
  {
  }

  /** The first `done` bytes of the buffer are queued as `ts`, for which `seen` descriptors were counted. */
  ghost predicate Progress(user: seq<nat>, mtu: nat, done: nat, ts: seq<Tre>, seen: seq<nat>)
    requires 0 < mtu && done <= |user|
  {
    && Payloads(ts) + Cut(user[done..], mtu) == Cut(user, mtu)
    && Flagged(ts, seen, |Cut(user, mtu)|)
  }

  lemma PieceProgress(user: seq<nat>, mtu: nat, done: nat, ts: seq<Tre>, seen: seq<nat>, t: Tre, avail: nat)
    requires 0 < mtu && done < |user| && Progress(user, mtu, done, ts, seen)
    requires var n := Min(|user| - done, mtu);
             t == Tre(user[done..][..n], if avail > 1 && n < |user| - done then Channels.MHI_CHAIN else Channels.MHI_EOT)
    ensures Progress(user, mtu, done + |t.payload|, ts + [t], seen + [avail])
  {
    var rest := user[done..];
    var n := |t.payload|;
    assert rest[n..] == user[done + n..];
    assert Payloads(ts + [t]) == Payloads(ts) + [t.payload];
    if n == |rest| {
      assert rest[..n] == rest && rest[n..] == [];
    }
    assert Cut(rest, mtu) == [t.payload] + Cut(rest[n..], mtu);
    assert Payloads(ts) + ([t.payload] + Cut(rest[n..], mtu)) == (Payloads(ts) + [t.payload]) + Cut(rest[n..], mtu);
    CutSizes(rest[n..], mtu);
  }

  /** Each of the `turns` turns that queued a piece went well, and a failure has its cause in the turn after them. */
  ghost predicate Accounted(out: Outcome, env: nat -> Turn, turns: nat, nonblock: bool, full: bool, enabled: bool) {
    && (forall j :: 0 <= j < turns ==> Harmless(env(j)))
    && (!out.Written? ==> Caused(out, env(turns), nonblock, full, enabled))
  }

  /** In every turn something completes before the writer looks for room, and nothing goes wrong. */
  ghost predicate AllMakeRoom(env: nat -> Turn) { forall i: nat :: Harmless(env(i)) && env(i).before > 0 }

  // --- The driver's loop -------------------------------------------------------

  class Node {
    const mtu: nat
    const cap: nat                   // descriptors the ring takes
    var enabled: bool
    var rxError: nat
    var queue: seq<Tre>              // outstanding, oldest first
    ghost var sent: seq<Tre>         // everything ever queued
    ghost var seen: seq<nat>         // the free descriptors counted, per element queued

    /** A full ring ends in the end of a chain. */
    ghost predicate Valid()
      reads this
    {
      && 0 < mtu && 0 < cap && |queue| <= cap
      && (|queue| == cap ==> queue[|queue|-1].flags == Channels.MHI_EOT)
      && |queue| <= |sent| && queue == sent[|sent| - |queue|..]
      && |seen| == |sent|
    }

    constructor (mtu: nat, cap: nat)
      requires 0 < mtu && 0 < cap
      ensures Valid() && sent == [] && enabled && rxError == 0
      ensures this.mtu == mtu && this.cap == cap
    {
      this.mtu, this.cap := mtu, cap;
      enabled, rxError := true, 0;
      queue, sent, seen := [], [], [];
    }

    /** The device completes the `k` oldest elements, or all there are; `Valid` says the rest are still the newest sent. */
    method Complete(k: nat)
      requires Valid()
      modifies this`queue
      ensures Valid()
      ensures |queue| == Left(|old(queue)|, k)
    {
      queue := queue[Min(k, |queue|)..];
    }

    method NrAvail() returns (n: nat)
      requires Valid()
      ensures n == cap - |queue|
    {
      n := cap - |queue|;
    }

    /**
     The element is queued; `nrAvail` was counted earlier, and since only this
     writer adds elements there is still at least that much room.
     */
    method Enqueue(t: Tre, ghost nrAvail: nat)
      requires Valid() && 0 < nrAvail <= cap - |queue|
      requires nrAvail == 1 ==> t.flags == Channels.MHI_EOT
      modifies this`queue, this`sent, this`seen
      ensures Valid()
      ensures queue == old(queue) + [t] && sent == old(sent) + [t] && seen == old(seen) + [nrAvail]
    {
      queue := queue + [t];
      sent := sent + [t];
      seen := seen + [nrAvail];
    }

    /**
     The wait for room. A writer that has to wait waits behind the end of a
     chain, never inside one.
     */
    method WaitForRoom(t: Turn, nonblock: bool) returns (out: Outcome, nrAvail: nat)
      requires Valid()
      modifies this`queue
      ensures Valid()
      ensures |queue| == Left(Left(|old(queue)|, t.before), if out == Again then 0 else t.waiting)
      ensures out == if Left(|old(queue)|, t.before) == cap && nonblock then Again
                     else if !enabled then Restart
                     else if nrAvail == 0 then if t.interrupted then Restart else StillWaiting
                     else Written(0)
      ensures nrAvail == cap - |queue|
      ensures out == StillWaiting ==> queue[cap-1].flags == Channels.MHI_EOT
    {
      Complete(t.before);
      nrAvail := NrAvail();
      if nrAvail == 0 && nonblock {
        return Again, nrAvail;
      }
      Complete(t.waiting);
      nrAvail := NrAvail();
      if !enabled || (nrAvail == 0 && t.interrupted) {
        return Restart, nrAvail;
      }
      out := if nrAvail == 0 then StillWaiting else Written(0);
    }

    /** One turn of the loop: the next piece of `rest` is queued, or nothing is. */
    method QueuePiece(rest: seq<nat>, t: Turn, nonblock: bool) returns (out: Outcome)
      requires Valid() && rest != []
      modifies this
      ensures Valid() && rxError == old(rxError)
      ensures out == Fate(t, nonblock, |old(queue)|, cap, old(enabled), Min(|rest|, mtu))
      ensures out.Written? ==> Harmless(t) && enabled && out.n == Min(|rest|, mtu)
      ensures !out.Written? ==> Caused(out, t, nonblock, |queue| == cap, enabled)
      ensures old(enabled) && !enabled ==> t.disabled
      ensures out.Written? ==> |queue| == Left(Left(Left(|old(queue)|, t.before), t.waiting), t.between) + 1
      ensures enabled ==> old(enabled)
      ensures old(enabled) && Harmless(t) && t.before > 0 ==> out.Written?
      ensures !out.Written? ==> sent == old(sent) && seen == old(seen)
      ensures out.Written? ==>
                && |seen| == |sent| == |old(sent)| + 1
                && sent[..|old(sent)|] == old(sent) && seen[..|old(seen)|] == old(seen)
                && seen[|old(seen)|] == cap - Left(Left(|old(queue)|, t.before), t.waiting)
                && sent[|old(sent)|] == Tre(rest[..out.n], if seen[|old(seen)|] > 1 && out.n < |rest| then Channels.MHI_CHAIN else Channels.MHI_EOT)
    {
      var nrAvail;
      out, nrAvail := WaitForRoom(t, nonblock);
      if !out.Written? {
        return;
      }
      var xferSize := Min(|rest|, mtu);
      if t.noMemory {
        return NoMem;
      }
      if t.uncopied > 0 {
        return NotTaken(t.uncopied);
      }
      Complete(t.between);
      if t.disabled {
        enabled := false;
      }
      var flags := if nrAvail > 1 && |rest| - xferSize > 0 then Channels.MHI_CHAIN else Channels.MHI_EOT;
      if !enabled {
        return Restart;
      }
      if t.refused {
        return Io;
      }
      Enqueue(Tre(rest[..xferSize], flags), nrAvail);
      out := Written(xferSize);
    }

    /** The turn that starts at byte `done` of a write whose first element is number `was`. */
    method QueueNext(user: seq<nat>, done: nat, ghost was: nat, t: Turn, nonblock: bool) returns (out: Outcome)
      requires Valid() && done < |user| && was <= |sent|
      requires Progress(user, mtu, done, sent[was..], seen[was..])
      modifies this
      ensures Valid() && rxError == old(rxError)
      ensures was <= |sent| && sent[..was] == old(sent)[..was]
      ensures !out.Written? ==> out != Invalid && sent == old(sent) && seen == old(seen)
      ensures out.Written? ==> 0 < out.n <= |user| - done && Progress(user, mtu, done + out.n, sent[was..], seen[was..])
      ensures out.Written? ==> |sent| == |old(sent)| + 1 && Harmless(t) && enabled
      ensures !out.Written? ==> Caused(out, t, nonblock, |queue| == cap, enabled)
      ensures old(enabled) && Harmless(t) && t.before > 0 ==> out.Written?
    {
      ghost var ts, sn := sent[was..], seen[was..];
      out := QueuePiece(user[done..], t, nonblock);
      if out.Written? {
        ghost var last, avail := sent[|sent|-1], seen[|sent|-1];
        assert sent[was..] == ts + [last] && seen[was..] == sn + [avail];
        PieceProgress(user, mtu, done, ts, sn, last, avail);
      }
    }

    /**
     mhi_uci_write. A write that succeeds has queued the pieces of the whole
     buffer, the last ending the chain; one that fails has queued those of the
     first `done` bytes.
     */
    method Write(user: seq<nat>, env: nat -> Turn, nonblock: bool) returns (out: Outcome, ghost done: nat)
      requires Valid()
      modifies this
      ensures Valid() && rxError == old(rxError)
      ensures |old(sent)| <= |sent| && sent[..|old(sent)|] == old(sent)
      ensures out == Invalid <==> user == [] || rxError > 0
      ensures out == Invalid ==> sent == old(sent)
      ensures out != Invalid ==> done <= |user| && Progress(user, mtu, done, sent[|old(sent)|..], seen[|old(sent)|..])
      ensures if out.Written? then out.n == done == |user| else done < |user| || out == Invalid
      ensures out == Invalid || (!old(enabled) && out == Restart && sent == old(sent))
              || Accounted(out, env, |sent| - |old(sent)|, nonblock, |queue| == cap, enabled)
      ensures user != [] && rxError == 0 && old(enabled) && AllMakeRoom(env) ==> out == Written(|user|)
    {
      done := 0;
      if user == [] || rxError > 0 {
        return Invalid, 0;
      }
      assert Progress(user, mtu, 0, sent[|sent|..], seen[|sent|..]);
      if !enabled {
        return Restart, 0;
      }
      out, done := WritePieces(user, env, nonblock);
    }

    /** The loop of mhi_uci_write. */
    method WritePieces(user: seq<nat>, env: nat -> Turn, nonblock: bool) returns (out: Outcome, ghost done: nat)
      requires Valid() && user != []
      modifies this
      ensures Valid() && rxError == old(rxError) && out != Invalid
      ensures |old(sent)| <= |sent| && sent[..|old(sent)|] == old(sent)
      ensures done <= |user| && Progress(user, mtu, done, sent[|old(sent)|..], seen[|old(sent)|..])
      ensures if out.Written? then out.n == done == |user| else done < |user|
      ensures Accounted(out, env, |sent| - |old(sent)|, nonblock, |queue| == cap, enabled)
      ensures old(enabled) && AllMakeRoom(env) ==> out.Written?
    {
      ghost var was := |sent|;
      var at, i := 0, 0;
      while at < |user|
        invariant Valid() && rxError == old(rxError)
        invariant at <= |user| && was <= |sent| && sent[..was] == old(sent)
        invariant Progress(user, mtu, at, sent[was..], seen[was..])
        invariant i == |sent| - was && (forall j :: 0 <= j < i ==> Harmless(env(j)))
        invariant (old(enabled) || i > 0) ==> enabled
        decreases |user| - at
      {
        out := QueueNext(user, at, was, env(i), nonblock);
        if !out.Written? {
          return out, at;
        }
        at := at + out.n;
        i := i + 1;
      }
      return Written(|user|), at;
    }
  }

  /** What a write has queued once it is through, and what it has queued if it fails on the way. */
  lemma ProgressMeans(user: seq<nat>, mtu: nat, done: nat, ts: seq<Tre>, seen: seq<nat>)
    requires 0 < mtu && done <= |user| && Progress(user, mtu, done, ts, seen)
    ensures Payloads(ts) <= Cut(user, mtu) && Flatten(Payloads(ts)) == user[..done]
    ensures done == |user| ==> Payloads(ts) == Cut(user, mtu)
    ensures forall i :: 0 <= i < |ts| ==> 1 <= |ts[i].payload| <= mtu
    ensures done == |user| && user != [] ==> ts != [] && ts[|ts|-1].flags == Channels.MHI_EOT
  {
    var rest := user[done..];
    FlattenAppend(Payloads(ts), Cut(rest, mtu));
    CutJoins(user, mtu);
    CutJoins(rest, mtu);
    CutSizes(user, mtu);
    assert user == user[..done] + rest;
    forall i | 0 <= i < |ts|
      ensures 1 <= |ts[i].payload| <= mtu
    {
      assert ts[i].payload == Payloads(ts)[i] == Cut(user, mtu)[i];
    }
    SameTail(Flatten(Payloads(ts)), user[..done], rest);
  }

  lemma SameTail(a: seq<nat>, b: seq<nat>, t: seq<nat>)
    requires a + t == b + t
    ensures a == b
  {
    assert |a| == |b|;
    forall i | 0 <= i < |a|
      ensures a[i] == b[i]
    {
      assert (a + t)[i] == (b + t)[i];
    }
  }

  // --- What the device makes of it ---------------------------------------------

  /** The transfers the device sees: whole ones, and the beginning of one still chained on. */
  datatype Transfers = Transfers(whole: seq<seq<nat>>, open: seq<nat>)

  function Seen(ts: seq<Tre>): Transfers {
    if ts == [] then Transfers([], [])
    else
      var before, last := Seen(ts[..|ts|-1]), ts[|ts|-1];
      if last.flags == Channels.MHI_CHAIN then before.(open := before.open + last.payload)
      else Transfers(before.whole + [before.open + last.payload], [])
  }

  /** No byte is lost or moved: whole transfers, then the open one, are the payloads in order. */
  lemma {:induction false} SeenKeepsBytes(ts: seq<Tre>)
    ensures Flatten(Seen(ts).whole) + Seen(ts).open == Flatten(Payloads(ts))
  {
    if ts != [] {
      var init, last := ts[..|ts|-1], ts[|ts|-1];
      SeenKeepsBytes(init);
      var s := Seen(init);
      assert Payloads(ts)[..|ts|-1] == Payloads(init);
      assert (s.whole + [s.open + last.payload])[..|s.whole|] == s.whole;
    }
  }

  /** A run of chained elements only adds to the open transfer. */
  lemma {:induction false} SeenChained(past: seq<Tre>, ts: seq<Tre>)
    requires forall i :: 0 <= i < |ts| ==> ts[i].flags == Channels.MHI_CHAIN
    ensures Seen(past + ts) == Seen(past).(open := Seen(past).open + Flatten(Payloads(ts)))
    decreases |ts|
  {
    if ts == [] {
      assert past + ts == past;
    } else {
      var init, last := ts[..|ts|-1], ts[|ts|-1];
      SeenChained(past, init);
      assert (past + ts)[..|past + ts|-1] == past + init && (past + ts)[|past + ts|-1] == last;
      assert Seen(past + ts) == Seen(past + init).(open := Seen(past + init).open + last.payload);
      assert Flatten(Payloads(ts)) == Flatten(Payloads(init)) + last.payload by {
        assert Payloads(ts)[..|ts|-1] == Payloads(init);
      }
      hide *;
    }
  }

  /** How many of the elements end a transfer. */
  function Ends(ts: seq<Tre>): nat {
    if ts == [] then 0 else Ends(ts[..|ts|-1]) + if ts[|ts|-1].flags == Channels.MHI_CHAIN then 0 else 1
  }

  lemma {:induction false} SeenCounts(past: seq<Tre>, ts: seq<Tre>)
    ensures |Seen(past + ts).whole| == |Seen(past).whole| + Ends(ts)
    decreases |ts|
  {
    if ts == [] {
      assert past + ts == past;
    } else {
      SeenCounts(past, ts[..|ts|-1]);
      assert (past + ts)[..|past + ts|-1] == past + ts[..|ts|-1];
    }
  }

  lemma {:induction false} NoEnds(ts: seq<Tre>)
    ensures Ends(ts) == 0 <==> forall i :: 0 <= i < |ts| ==> ts[i].flags == Channels.MHI_CHAIN
  {
    if ts != [] {
      NoEnds(ts[..|ts|-1]);
    }
  }

  /** Chained elements and then one that ends the chain: one transfer, behind what was open. */
  lemma SeenChain(past: seq<Tre>, init: seq<Tre>, last: Tre)
    requires last.flags != Channels.MHI_CHAIN
    ensures Seen(past + (init + [last])).open == []
    ensures |Seen(past + (init + [last])).whole| == |Seen(past).whole| + Ends(init) + 1
    ensures Ends(init) == 0 ==>
              Seen(past + (init + [last])).whole == Seen(past).whole + [Seen(past).open + Flatten(Payloads(init + [last]))]
  {
    var all := past + (init + [last]);
    assert all[..|all|-1] == past + init && all[|all|-1] == last;
    SeenCounts(past, init);
    if Ends(init) == 0 {
      NoEnds(init);
      SeenChained(past, init);
      var open, body := Seen(past).open, Flatten(Payloads(init));
      assert Payloads(init + [last])[..|init|] == Payloads(init);
      assert (open + body) + last.payload == open + (body + last.payload);
    }
  }

  /**
   One write is one transfer exactly when, at every piece but the last, more
   than one descriptor was free; the transfer is then the user's buffer, behind
   whatever an earlier write had left open.
   */
  lemma OneTransferIffRoom(past: seq<Tre>, user: seq<nat>, mtu: nat, ts: seq<Tre>, seen: seq<nat>)
    requires 0 < mtu && user != [] && Progress(user, mtu, |user|, ts, seen)
    ensures |Seen(past + ts).whole| == |Seen(past).whole| + 1 <==> forall i :: 0 <= i < |ts| - 1 ==> seen[i] > 1
    ensures Seen(past + ts).open == []
    ensures (forall i :: 0 <= i < |ts| - 1 ==> seen[i] > 1) ==>
              Seen(past + ts).whole == Seen(past).whole + [Seen(past).open + user]
  {
    ProgressMeans(user, mtu, |user|, ts, seen);
    var init, last := ts[..|ts|-1], ts[|ts|-1];
    assert ts == init + [last];
    SeenChain(past, init, last);
    NoEnds(init);
    assert forall i :: 0 <= i < |init| ==> init[i].flags == ts[i].flags;
    assert user[..|user|] == user;
  }

  /**
   What a failed write leaves behind: the transfer stays open exactly if the
   last element it queued was chained on, and the next transfer then starts with
   its bytes.
   */
  lemma FailedWriteLeavesOpen(past: seq<Tre>, user: seq<nat>, mtu: nat, done: nat, ts: seq<Tre>, seen: seq<nat>)
    requires 0 < mtu && done < |user| && Progress(user, mtu, done, ts, seen) && Seen(past).open == []
    ensures Seen(past + ts).open != [] <==> ts != [] && seen[|ts|-1] > 1
  {
    ProgressMeans(user, mtu, done, ts, seen);
    if ts == [] {
      assert past + ts == past;
    } else {
      var init, last := ts[..|ts|-1], ts[|ts|-1];
      assert (past + ts)[..|past + ts|-1] == past + init && (past + ts)[|past + ts|-1] == last;
      assert Seen(past + ts).open == if last.flags == Channels.MHI_CHAIN then Seen(past + init).open + last.payload else [];
      hide Seen;
      CutSizes(user[done..], mtu);
      assert |Cut(user, mtu)| > |ts|;
    }
  }
}
