/**
 No queued transfer is left unannounced.

 Outside M0 the driver may fill a transfer ring but not ring its doorbell; the
 M0 transition then rings every non-empty channel. Queueing, completions,
 doorbell events, power transitions and that hand-off run on different CPUs, so
 they are interleaved here at the granularity of the locks: a power transition
 needs the power lock for writing, queueing holds it for reading while it looks
 at the state, and the hand-off takes each channel's lock in turn.
 */
module Announcements {
  import opened Rings
  import opened Power
  import opened Doorbells

  /**
   One entry of the controller's channel table. `owed` marks a mhi_queue_buf call
   that has filled the ring but not yet looked at the power state. `rung` records
   that the doorbell register has been written, with work in the ring, since it
   was last armed.
   */
  datatype Chan = Chan(started: bool, resetReq: bool, n: nat, iommu: int, r: nat, w: nat, bell: Bell, owed: bool, rung: bool)

  predicate ShapeOk(c: Chan) { 2 <= c.n && c.r < c.n && c.w < c.n }

  type Table = t: seq<Chan> | forall c :: c in t ==> ShapeOk(c)

  /** The M0 hand-off: not running, about to take the power lock, or ringing, with the next channel. */
  datatype Handoff = Absent | Waiting | Ringing(next: nat)

  datatype Sys = Sys(pm: Pm, chans: Table, handoff: Handoff)

  datatype Step =
    | Queue(c: nat)        // mhi_queue_skb or mhi_queue_dma, under the power lock throughout
    | Fill(c: nat)         // mhi_queue_buf: mhi_gen_tre, before the power lock
    | Publish(c: nat)      // mhi_queue_buf: the rest
    | Complete(c: nat)
    | DoorbellEvent(c: nat)
    | Prepare(c: nat) | Unprepare(c: nat)
    | Change(t: Pm)        // any accepted transition but the one to M0
    | EnterM0 | TakeLock | RingNext | Leave

  function Phys(c: Chan): int { c.iommu + c.w * 16 }

  function Ring(c: Chan): (c': Chan)
    ensures ShapeOk(c) ==> ShapeOk(c')
  {
    var bell := Announce(c.bell, Phys(c));
    c.(bell := bell, rung := c.rung || (|bell.written| > |c.bell.written| && c.w != c.r))
  }

  /** db_mode is set: the next doorbell counts. */
  function Arm(c: Chan): (c': Chan)
    ensures ShapeOk(c) ==> ShapeOk(c')
  {
    c.(bell := c.bell.(dbMode := true), rung := false)
  }

  /** One turn of the loop in mhi_pm_m0_transition. */
  function HandOff(c: Chan): (c': Chan)
    ensures ShapeOk(c) ==> ShapeOk(c')
  {
    var c1 := if c.resetReq then Arm(c) else c;
    if c1.started && c1.w != c1.r then Ring(c1) else c1
  }

  function Advanced(c: Chan): Chan
    requires ShapeOk(c)
  {
    c.(w := Next(c.w, c.n))
  }

  predicate MayQueue(s: Sys, i: nat) {
    i < |s.chans| && s.chans[i].started && !s.chans[i].owed &&
    !InErrorState(s.pm) && Next(s.chans[i].w, s.chans[i].n) != s.chans[i].r
  }

  /** A step whose turn it is not leaves the system alone. */
  function Apply(s: Sys, step: Step): Sys {
    match step
    case Queue(i) =>
      if !MayQueue(s, i) then s
      else
        var c := Advanced(s.chans[i]);
        s.(chans := s.chans[i := if DbAccessValid(s.pm) then Ring(c) else c])
    case Fill(i) =>
      if !MayQueue(s, i) then s
      else s.(chans := s.chans[i := Advanced(s.chans[i]).(owed := true)])
    case Publish(i) =>
      if !(i < |s.chans| && s.chans[i].owed) then s
      else
        var c := s.chans[i].(owed := false);
        s.(chans := s.chans[i := if DbAccessValid(s.pm) then Ring(c) else c])
    case Complete(i) =>
      if !(i < |s.chans| && s.chans[i].r != s.chans[i].w) then s
      else s.(chans := s.chans[i := s.chans[i].(r := Next(s.chans[i].r, s.chans[i].n))])
    case DoorbellEvent(i) =>
      if !(i < |s.chans| && s.chans[i].started) then s
      else
        var c := Arm(s.chans[i]);
        s.(chans := s.chans[i := if c.w != c.r && DbAccessValid(s.pm) then Ring(c) else c])
    case Prepare(i) =>
      if !(i < |s.chans| && !s.chans[i].started) then s
      else
        var c := Arm(s.chans[i]);
        s.(chans := s.chans[i := c.(started := true, r := 0, w := 0, bell := c.bell.(ctxtWp := c.iommu))])
    case Unprepare(i) =>
      if !(i < |s.chans| && s.chans[i].started && !s.chans[i].owed) then s
      else s.(chans := s.chans[i := s.chans[i].(started := false, r := s.chans[i].w)])
    case Change(t) =>
      if s.handoff.Ringing? || t == M0 || !Allowed(s.pm, t) then s else s.(pm := t)
    case EnterM0 =>
      if s.handoff != Absent || !Allowed(s.pm, M0) then s else s.(pm := M0, handoff := Waiting)
    case TakeLock =>
      if s.handoff != Waiting then s else s.(handoff := Ringing(0))
    case RingNext =>
      if !(s.handoff.Ringing? && s.handoff.next < |s.chans|) then s
      else
        var i := s.handoff.next;
        s.(chans := s.chans[i := HandOff(s.chans[i])], handoff := Ringing(i + 1))
    case Leave =>
      if !(s.handoff.Ringing? && s.handoff.next >= |s.chans|) then s else s.(handoff := Absent)
  }

  function Run(s: Sys, steps: seq<Step>): Sys
    decreases |steps|
  {
    if steps == [] then s else Apply(Run(s, steps[..|steps|-1]), steps[|steps|-1])
  }

  /** Everything queued on this channel has been announced, and no doorbell that counts is left unrung. */
  predicate UpToDate(c: Chan) {
    c.started && !c.owed && c.w != c.r ==> Told(c.bell, Phys(c)) && (c.bell.burst ==> !c.bell.dbMode)
  }

  /** Channel `i` is past its turn in the hand-off, if one is under way. */
  predicate HandedOver(s: Sys, i: nat) {
    match s.handoff
    case Absent => true
    case Waiting => false
    case Ringing(next) => i < next
  }

  predicate Inv(s: Sys) {
    s.pm == M0 ==> forall i: nat :: i < |s.chans| && HandedOver(s, i) ==> UpToDate(s.chans[i])
  }

  lemma ApplyKeepsInv(s: Sys, step: Step)
    requires Inv(s)
    ensures Inv(Apply(s, step))
  {
    var s' := Apply(s, step);
    forall i: nat | s'.pm == M0 && i < |s'.chans| && HandedOver(s', i)
      ensures UpToDate(s'.chans[i])
    {
      if s.pm == M0 && HandedOver(s, i) {
        assert UpToDate(s.chans[i]);
      }
    }
  }

  /** Not in M0 and no hand-off under way; the rings may hold anything. */
  predicate Initial(s: Sys) { s.pm != M0 && s.handoff == Absent }

  lemma {:induction false} InvAlways(s: Sys, steps: seq<Step>)
    requires Initial(s)
    ensures Inv(Run(s, steps)) && |Run(s, steps).chans| == |s.chans|
    decreases |steps|
  {
    if steps != [] {
      InvAlways(s, steps[..|steps|-1]);
      ApplyKeepsInv(Run(s, steps[..|steps|-1]), steps[|steps|-1]);
    }
  }

  /**
   In every reachable state with the link in M0 and no hand-off under way, each
   started channel with work in its ring and no mhi_queue_buf half done has its
   write pointer in the shared context, and, unless it is a burst channel, in
   the doorbell register too. A burst channel has no armed doorbell: it has been
   rung since it was last armed.
   */
  lemma NothingLeftUnannounced(s: Sys, steps: seq<Step>)
    requires Initial(s)
    ensures var s' := Run(s, steps);
            s'.pm == M0 && s'.handoff == Absent ==>
              forall c :: c in s'.chans && c.started && !c.owed && c.w != c.r ==>
                && c.bell.ctxtWp == c.iommu + c.w * 16
                && (!c.bell.burst ==> c.bell.dbVal == c.iommu + c.w * 16 && c.bell.written != []
                                      && c.bell.written[|c.bell.written|-1] == c.iommu + c.w * 16)
                && (c.bell.burst ==> !c.bell.dbMode)
  {
    InvAlways(s, steps);
    var s' := Run(s, steps);
    if s'.pm == M0 && s'.handoff == Absent {
      forall c | c in s'.chans
        ensures UpToDate(c)
      {
        var i :| 0 <= i < |s'.chans| && s'.chans[i] == c;
        assert HandedOver(s', i);
      }
    }
  }

  // --- Rung with work in the ring ------------------------------------------------

  /** A burst channel is disarmed exactly if it has been rung for work in its ring since it was armed. */
  predicate Honest(c: Chan) { c.bell.burst ==> (!c.bell.dbMode <==> c.rung) }

  predicate AllHonest(s: Sys) { forall i :: 0 <= i < |s.chans| ==> Honest(s.chans[i]) }

  /**
   mhi_queue_buf rings for a buffer that the device has completed already: the
   channel was announced by someone else after the ring was filled, and armed
   again since.
   */
  predicate Late(s: Sys, step: Step) {
    && step.Publish? && DbAccessValid(s.pm) && step.c < |s.chans|
    && var c := s.chans[step.c]; c.owed && c.bell.burst && c.bell.dbMode && c.w == c.r
  }

  lemma LateIsDishonest(s: Sys, step: Step)
    requires AllHonest(s)
    ensures AllHonest(Apply(s, step)) <==> !Late(s, step)
  {
    var s' := Apply(s, step);
    if Late(s, step) {
      assert !Honest(s'.chans[step.c]);
    } else {
      forall i | 0 <= i < |s'.chans|
        ensures Honest(s'.chans[i])
      {
        assert Honest(s.chans[i]);
        assert ShapeOk(s.chans[i]);
      }
    }
  }

  ghost predicate AlwaysHonest(s: Sys, steps: seq<Step>) {
    forall k :: 0 <= k <= |steps| ==> AllHonest(Run(s, steps[..k]))
  }

  ghost predicate NeverLate(s: Sys, steps: seq<Step>) {
    forall k :: 0 <= k < |steps| ==> !Late(Run(s, steps[..k]), steps[k])
  }

  /**
   At every point of a run every disarmed burst doorbell has been rung for work
   in its ring since it was armed, exactly if no mhi_queue_buf of the run rang
   late. The other two queueing routines hold the power lock throughout and never do.
   */
  lemma RungForWorkIffNeverLate(s: Sys, steps: seq<Step>)
    requires AllHonest(s)
    ensures AlwaysHonest(s, steps) <==> NeverLate(s, steps)
  {
    if AlwaysHonest(s, steps) {
      forall k | 0 <= k < |steps|
        ensures !Late(Run(s, steps[..k]), steps[k])
      {
        RunPrefix(s, steps, k);
        assert AllHonest(Run(s, steps[..k])) && AllHonest(Run(s, steps[..k+1]));
        LateIsDishonest(Run(s, steps[..k]), steps[k]);
      }
    }
    if NeverLate(s, steps) {
      forall k | 0 <= k <= |steps|
        ensures AllHonest(Run(s, steps[..k]))
      {
        HonestUpTo(s, steps, k);
      }
    }
  }

  lemma RunPrefix(s: Sys, steps: seq<Step>, k: nat)
    requires k < |steps|
    ensures Run(s, steps[..k+1]) == Apply(Run(s, steps[..k]), steps[k])
  {
    assert steps[..k+1][..k] == steps[..k];
  }

  lemma {:induction false} HonestUpTo(s: Sys, steps: seq<Step>, k: nat)
    requires AllHonest(s) && NeverLate(s, steps) && k <= |steps|
    ensures AllHonest(Run(s, steps[..k]))
    decreases k
  {
    if k > 0 {
      HonestUpTo(s, steps, k - 1);
      RunPrefix(s, steps, k - 1);
      LateIsDishonest(Run(s, steps[..k-1]), steps[k-1]);
    }
  }

  /** With the link in M0, then, a started burst channel with work has been rung for it. */
  lemma BurstIsRung(s: Sys, steps: seq<Step>)
    requires Initial(s) && AllHonest(s) && NeverLate(s, steps)
    ensures var s' := Run(s, steps);
            s'.pm == M0 && s'.handoff == Absent ==>
              forall c :: c in s'.chans && c.started && !c.owed && c.w != c.r && c.bell.burst ==> !c.bell.dbMode && c.rung
  {
    NothingLeftUnannounced(s, steps);
    RungForWorkIffNeverLate(s, steps);
    assert steps[..|steps|] == steps;
    assert AllHonest(Run(s, steps));
  }

  /**
   A run with a late doorbell. A buffer is filled in; a doorbell event announces
   it, the device completes it and sends another doorbell event; only then does
   mhi_queue_buf ring, for an empty ring. The buffer queued next is announced in
   the context alone.
   */
  lemma LateDoorbell(s: Sys) returns (steps: seq<Step>)
    requires s.pm == Por && s.handoff == Absent && |s.chans| == 1
    requires var c := s.chans[0]; !c.started && !c.owed && c.n == 4 && c.bell.burst
    ensures var s' := Run(s, steps);
            && s'.pm == M0 && s'.handoff == Absent && |s'.chans| == 1
            && var c := s'.chans[0]; c.started && !c.owed && c.w != c.r && !c.bell.dbMode && !c.rung
  {
    assert Run(s, []) == s;
    hide Run;
    Entered(s);
    steps := Then(s, [], Prepare(0));
    steps := Then(s, steps, EnterM0);
    steps := Then(s, steps, TakeLock);
    steps := Then(s, steps, RingNext);
    steps := Then(s, steps, Leave);
    hide Apply;
    RingsLate(Run(s, steps));
    steps := Then(s, steps, Fill(0));
    steps := Then(s, steps, DoorbellEvent(0));
    steps := Then(s, steps, Complete(0));
    steps := Then(s, steps, DoorbellEvent(0));
    steps := Then(s, steps, Publish(0));
    steps := Then(s, steps, Queue(0));
  }

  /** The link is in M0 and its one channel has been started, its ring empty. */
  predicate Fresh(s: Sys) {
    && s.pm == M0 && s.handoff == Absent && |s.chans| == 1
    && var c := s.chans[0]; c.started && !c.owed && c.r == c.w == 0 && c.n == 4 && c.bell.burst
  }

  lemma Entered(s: Sys)
    requires s.pm == Por && s.handoff == Absent && |s.chans| == 1
    requires var c := s.chans[0]; !c.started && !c.owed && c.n == 4 && c.bell.burst
    ensures Fresh(Apply(Apply(Apply(Apply(Apply(s, Prepare(0)), EnterM0), TakeLock), RingNext), Leave))
  {
    var s1 := Apply(s, Prepare(0));
    var c := s1.chans[0];
    assert s1.chans == [c] && c.started && c.r == c.w == 0;
    var s3 := Apply(Apply(s1, EnterM0), TakeLock);
    assert s3.pm == M0 && s3.handoff == Ringing(0) && s3.chans == [c];
    var s4 := Apply(s3, RingNext);
    assert s4.chans == [HandOff(c)] && s4.handoff == Ringing(1);
  }

  lemma RingsLate(s: Sys)
    requires Fresh(s)
    ensures var s1 := Apply(Apply(Apply(Apply(s, Fill(0)), DoorbellEvent(0)), Complete(0)), DoorbellEvent(0));
            var s2 := Apply(Apply(s1, Publish(0)), Queue(0));
            && s2.pm == M0 && s2.handoff == Absent && |s2.chans| == 1
            && var c := s2.chans[0]; c.started && !c.owed && c.w != c.r && !c.bell.dbMode && !c.rung
  {
    var a := Apply(Apply(s, Fill(0)), DoorbellEvent(0));
    var ca := a.chans[0];
    assert a.chans == [ca] && ca.owed && ca.r == 0 && ca.w == 1 && !ca.bell.dbMode && ca.rung && ca.n == 4 && ca.started && ca.bell.burst;
    var s1 := Apply(Apply(a, Complete(0)), DoorbellEvent(0));
    var c1 := s1.chans[0];
    assert s1.chans == [c1] && c1 == ca.(r := 1, rung := false, bell := ca.bell.(dbMode := true));
    assert s1.pm == M0 && s1.handoff == Absent;
    var b := Apply(s1, Publish(0));
    var cb := b.chans[0];
    assert b.chans == [cb] && !cb.owed && cb.r == cb.w == 1 && !cb.bell.dbMode && !cb.rung && cb.n == 4 && cb.started && cb.bell.burst;
  }

  lemma Then(s: Sys, steps: seq<Step>, step: Step) returns (longer: seq<Step>)
    ensures longer == steps + [step] && Run(s, longer) == Apply(Run(s, steps), step)
  {
    longer := steps + [step];
    assert longer[..|longer|-1] == steps;
  }

  // --- What the steps do --------------------------------------------------------

  /** How many elements wait in the ring. */
  function Work(c: Chan): nat
    requires ShapeOk(c)
  {
    Used(c.r, c.w, c.n)
  }

  /**
   A buffer more in the ring for every queueing that is let in, one fewer for
   every completion of one that is there, none after a channel is prepared or
   taken down; nothing else moves work.
   */
  lemma WorkMoves(s: Sys, step: Step, i: nat)
    requires i < |s.chans|
    ensures |Apply(s, step).chans| == |s.chans|
    ensures ShapeOk(s.chans[i]) && ShapeOk(Apply(s, step).chans[i])
    ensures var c, c' := s.chans[i], Apply(s, step).chans[i];
            Work(c') ==
              if step == Queue(i) || step == Fill(i) then
                if c.started && !c.owed && !InErrorState(s.pm) && Work(c) + 1 < c.n then Work(c) + 1 else Work(c)
              else if step == Complete(i) && Work(c) > 0 then Work(c) - 1
              else if (step == Prepare(i) && !c.started) || (step == Unprepare(i) && c.started && !c.owed) then 0
              else Work(c)
  {
    var c := s.chans[i];
    assert ShapeOk(c);
    QueueMoves(c.r, c.w, c.n);
  }

  /** Channels are started and taken down by their own steps alone, and the power state moves as the table allows, never while the hand-off holds the lock. */
  lemma StateMoves(s: Sys, step: Step, i: nat)
    requires i < |s.chans|
    ensures Apply(s, step).chans[i].started <==>
              step == Prepare(i) || (s.chans[i].started && (step == Unprepare(i) ==> s.chans[i].owed))
    ensures Apply(s, step).pm ==
              if step.Change? && step.t != M0 && Allowed(s.pm, step.t) && !s.handoff.Ringing? then step.t
              else if step.EnterM0? && Allowed(s.pm, M0) && s.handoff == Absent then M0
              else s.pm
  {
  }

  /** A channel just prepared is empty and armed, with the base of its ring in the context; a doorbell event arms it too, and rings it if there is work. */
  lemma Arms(s: Sys, i: nat)
    requires i < |s.chans|
    ensures var c := Apply(s, Prepare(i)).chans[i];
            !s.chans[i].started ==> c.r == c.w == 0 && c.bell.dbMode && c.bell.ctxtWp == c.iommu
    ensures var c, d := s.chans[i], Apply(s, DoorbellEvent(i)).chans[i];
            c.started ==>
              if c.w != c.r && DbAccessValid(s.pm) then d.bell.written == c.bell.written + [Phys(c)] && d.rung
              else d.bell == c.bell.(dbMode := true) && !d.rung
  {
  }

  /** Outside M0 no doorbell register is written, but by a hand-off that the link has left M0 before. */
  lemma RungInM0(s: Sys, step: Step, i: nat)
    requires i < |s.chans| && s.pm != M0 && step != RingNext
    ensures Apply(s, step).chans[i].bell.written == s.chans[i].bell.written
  {
  }

  /** A mhi_queue_buf call that has filled the ring is done with its next step, and announced in M0. */
  lemma PublishSettles(s: Sys, i: nat)
    requires i < |s.chans| && s.chans[i].owed
    ensures var c := Apply(s, Publish(i)).chans[i];
            !c.owed && (DbAccessValid(s.pm) ==> Told(c.bell, Phys(c)) && (c.bell.burst ==> !c.bell.dbMode))
  {
  }

  /**
   The transition to M0 can always be completed, and every started channel with
   work has then been announced; one that asks for it was armed first, so that
   its register has been written in any case.
   */
  lemma M0CanBeEntered(s: Sys) returns (steps: seq<Step>)
    requires s.handoff == Absent && Allowed(s.pm, M0)
    ensures var s' := Run(s, steps);
            && s'.pm == M0 && s'.handoff == Absent && |s'.chans| == |s.chans|
            && forall i :: 0 <= i < |s.chans| && s.chans[i].started && s.chans[i].w != s.chans[i].r ==>
                 && Told(s'.chans[i].bell, Phys(s.chans[i]))
                 && (s.chans[i].resetReq ==> s'.chans[i].bell.written == s.chans[i].bell.written + [Phys(s.chans[i])])
  {
    var s1 := Apply(s, EnterM0);
    var loop := HandOffIsLoop(s1, |s.chans|);
    var s2 := Run(s1, loop);
    assert Run(s1, []) == s1;
    RunFirst(s, EnterM0, loop);
    steps := Then(s, [EnterM0] + loop, Leave);
  }

  lemma {:induction false} RunFirst(s: Sys, step: Step, steps: seq<Step>)
    ensures Run(s, [step] + steps) == Run(Apply(s, step), steps)
    decreases |steps|
  {
    hide Apply;
    if steps == [] {
      assert ([step] + steps)[..0] == [];
    } else {
      RunFirst(s, step, steps[..|steps|-1]);
      assert ([step] + steps)[..|steps|] == [step] + steps[..|steps|-1];
    }
  }

  /**
   The loop of mhi_pm_m0_transition over the channel table, entries updated in
   place.
   */
  method RingChannels(chans: array<Chan>)
    modifies chans
    ensures forall i :: 0 <= i < chans.Length ==> chans[i] == HandOff(old(chans[i]))
  {
    var i := 0;
    while i < chans.Length
      invariant 0 <= i <= chans.Length
      invariant forall j :: 0 <= j < i ==> chans[j] == HandOff(old(chans[j]))
      invariant forall j :: i <= j < chans.Length ==> chans[j] == old(chans[j])
    {
      if chans[i].resetReq {
        chans[i] := Arm(chans[i]);
      }
      if chans[i].started && chans[i].w != chans[i].r {
        chans[i] := Ring(chans[i]);
      }
      i := i + 1;
    }
  }

  /** Taken without interruption, the hand-off steps are that loop. */
  lemma {:induction false} HandOffIsLoop(s: Sys, k: nat) returns (steps: seq<Step>)
    requires s.handoff == Waiting && k <= |s.chans|
    ensures Run(s, steps).handoff == Ringing(k) && Run(s, steps).pm == s.pm
    ensures |Run(s, steps).chans| == |s.chans|
    ensures forall i :: 0 <= i < |s.chans| ==>
              Run(s, steps).chans[i] == if i < k then HandOff(s.chans[i]) else s.chans[i]
  {
    if k == 0 {
      steps := [TakeLock];
      assert steps[..0] == [];
      assert Run(s, []) == s;
    } else {
      var before := HandOffIsLoop(s, k - 1);
      steps := before + [RingNext];
      assert steps[..|before|] == before;
    }
  }
}
