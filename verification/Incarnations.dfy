/**
 No completion crosses from one life of a channel to the next.

 Stopping a channel disables it, asks the device to reset it, marks what is
 left of it in the event ring as stale and hands its buffers back; preparing it
 again gives it fresh rings. An event names only a channel and a ring address,
 so an old event met after the restart would complete a new buffer. Here every
 event carries the life of the transfer it reports, and every delivery records
 it beside the life the channel was in.
 */
module Incarnations {
  import opened EventLoop

  /** A transfer event is reported while its channel is Up; `Quiet` is after the reset command, `Down` after the clean-up. */
  datatype Phase = Up | Disabled | Quiet | Down

  /** `devLive` says whether the device still works for the channel, `devLife` in which life it was started. */
  datatype Chan = Chan(phase: Phase, life: nat, devLive: bool, devLife: nat)

  datatype Tagged = Tagged(ev: Event, life: nat)

  datatype Delivery = Delivery(chan: nat, eventLife: nat, chanLife: nat)

  datatype Sys = Sys(ring: seq<Tagged>, chans: seq<Chan>, delivered: seq<Delivery>)

  /**
   `ResetFails` is a stop without an acknowledgement: the answer does not come in
   time, or the command was not sent, in an error state or for want of room.
   */
  datatype Step =
    | DevReports(c: nat, ptr: int, dword0: nat)
    | DevOther(e: Event)
    | HostTakes
    | Disable(c: nat) | ResetAcked(c: nat) | ResetFails(c: nat) | CleanUp(c: nat) | Prepare(c: nat)

  function Start(chans: nat): Sys {
    Sys([], seq(chans, _ => Chan(Down, 0, false, 0)), [])
  }

  function TxEvent(c: nat, ptr: int, dword0: nat): (e: Event)
    requires c < 0x100
    ensures TypeOf(e) == TX_EVENT && ChanOf(e) == c
  {
    Event(ptr, dword0, EvDword1(c, TX_EVENT))
  }

  function Mark(ring: seq<Tagged>, c: nat): seq<Tagged> {
    seq(|ring|, i requires 0 <= i < |ring| => ring[i].(ev := Stale(ring[i].ev, c)))
  }

  /** A step whose turn it is not leaves the system alone; `lossy` lets stops go unacknowledged. */
  function Apply(lossy: bool, s: Sys, step: Step): Sys {
    match step
    case DevReports(c, ptr, dword0) =>
      if !(c < |s.chans| && c < 0x100 && s.chans[c].devLive) then s
      else s.(ring := s.ring + [Tagged(TxEvent(c, ptr, dword0), s.chans[c].devLife)])
    case DevOther(e) =>
      if IsXfer(e) then s else s.(ring := s.ring + [Tagged(e, 0)])
    case HostTakes =>
      if s.ring == [] then s
      else
        var e := s.ring[0];
        var c := ChanOf(e.ev);
        if IsXfer(e.ev) && c < |s.chans| && s.chans[c].phase == Up then
          s.(ring := s.ring[1..], delivered := s.delivered + [Delivery(c, e.life, s.chans[c].life)])
        else
          s.(ring := s.ring[1..])
    case Disable(c) =>
      if !(c < |s.chans| && s.chans[c].phase == Up) then s
      else s.(chans := s.chans[c := s.chans[c].(phase := Disabled)])
    case ResetAcked(c) =>
      if !(c < |s.chans| && s.chans[c].phase == Disabled) then s
      else s.(chans := s.chans[c := s.chans[c].(phase := Quiet, devLive := false)])
    case ResetFails(c) =>
      if !(lossy && c < |s.chans| && s.chans[c].phase == Disabled) then s
      else s.(chans := s.chans[c := s.chans[c].(phase := Quiet)])
    case CleanUp(c) =>
      if !(c < |s.chans| && s.chans[c].phase == Quiet) then s
      else s.(ring := Mark(s.ring, c), chans := s.chans[c := s.chans[c].(phase := Down)])
    case Prepare(c) =>
      if !(c < |s.chans| && s.chans[c].phase == Down) then s
      else s.(chans := s.chans[c := Chan(Up, s.chans[c].life + 1, true, s.chans[c].life + 1)])
  }

  function Run(lossy: bool, s: Sys, steps: seq<Step>): Sys
    decreases |steps|
  {
    if steps == [] then s else Apply(lossy, Run(lossy, s, steps[..|steps|-1]), steps[|steps|-1])
  }

  /** Every buffer completed belonged to the life of the channel it was completed in. */
  predicate NoCrossing(s: Sys) {
    forall d :: d in s.delivered ==> d.eventLife == d.chanLife
  }

  /** A transfer event of channel `c` that waits is of its present life, and none waits while it is down. */
  predicate Current(t: Tagged, c: nat, ch: Chan) {
    IsXfer(t.ev) && ChanOf(t.ev) == c ==> TypeOf(t.ev) == TX_EVENT && ch.phase != Down && ch.life == t.life
  }

  /** Neither the device nor the ring holds anything of an earlier life of channel `c`. */
  ghost predicate Clean(s: Sys, c: nat)
    requires c < |s.chans|
  {
    && (s.chans[c].devLive ==> s.chans[c].devLife == s.chans[c].life && s.chans[c].phase in {Up, Disabled})
    && forall i :: 0 <= i < |s.ring| ==> Current(s.ring[i], c, s.chans[c])
  }

  ghost predicate Inv(s: Sys) {
    && |s.chans| <= 0x100
    && (forall c :: 0 <= c < |s.chans| ==> Clean(s, c))
    && NoCrossing(s)
  }

  /** None of the deliveries on channel `c` from the `n`-th on crosses. */
  predicate NoneCrosses(s: Sys, n: nat, c: nat) {
    forall i :: n <= i < |s.delivered| && s.delivered[i].chan == c ==> s.delivered[i].eventLife == s.delivered[i].chanLife
  }

  lemma CleanUpKeeps(s: Sys, c: nat, d: nat)
    requires c < |s.chans| <= 0x100 && Clean(s, c)
    ensures |Apply(false, s, CleanUp(d)).chans| == |s.chans| && Clean(Apply(false, s, CleanUp(d)), c)
  {
    var s' := Apply(false, s, CleanUp(d));
    if s != s' {
      forall i | 0 <= i < |s'.ring|
        ensures Current(s'.ring[i], c, s'.chans[c])
      {
        StaleIsPassedOver(s.ring[i].ev, d);
        assert Current(s.ring[i], c, s.chans[c]);
      }
    }
  }

  /** A clean channel stays clean while its resets are acknowledged, whatever becomes of the others. */
  lemma CleanStays(s: Sys, step: Step, c: nat)
    requires c < |s.chans| <= 0x100 && Clean(s, c)
    ensures |Apply(false, s, step).chans| == |s.chans| && Clean(Apply(false, s, step), c)
    ensures NoneCrosses(Apply(false, s, step), |s.delivered|, c)
  {
    match step
    case CleanUp(d) => CleanUpKeeps(s, c, d);
    case Prepare(d) =>
    case Disable(d) =>
    case ResetAcked(d) =>
    case ResetFails(d) =>
    case HostTakes => if s.ring != [] { assert Current(s.ring[0], c, s.chans[c]); }
    case DevReports(d, ptr, dword0) =>
    case DevOther(e) =>
  }

  lemma ApplyKeeps(s: Sys, step: Step)
    requires Inv(s)
    ensures Inv(Apply(false, s, step))
  {
    var s' := Apply(false, s, step);
    forall c | 0 <= c < |s'.chans|
      ensures Clean(s', c)
    {
      assert c < |s.chans|;
      CleanStays(s, step, c);
    }
    if s'.delivered != s.delivered {
      CleanStays(s, step, ChanOf(s.ring[0].ev));
    }
  }

  lemma {:induction false} AlwaysInv(chans: nat, steps: seq<Step>)
    requires chans <= 0x100
    ensures Inv(Run(false, Start(chans), steps))
    decreases |steps|
  {
    if steps != [] {
      AlwaysInv(chans, steps[..|steps|-1]);
      ApplyKeeps(Run(false, Start(chans), steps[..|steps|-1]), steps[|steps|-1]);
    }
  }

  /** The life of a channel: a stop that is acknowledged, the clean-up and a new start, after which the device works for the new life. */
  lemma StopAndStart(lossy: bool, s: Sys, c: nat)
    requires c < |s.chans| && s.chans[c].phase == Up
    ensures var stopped := Apply(lossy, Apply(lossy, Apply(lossy, s, Disable(c)), ResetAcked(c)), CleanUp(c));
            && stopped.chans == s.chans[c := s.chans[c].(phase := Down, devLive := false)] && stopped.ring == Mark(s.ring, c)
            && var d := Apply(lossy, stopped, Prepare(c));
               && d.ring == stopped.ring && d.delivered == s.delivered
               && d.chans == s.chans[c := Chan(Up, s.chans[c].life + 1, true, s.chans[c].life + 1)]
  {
  }

  /** The host takes events in order, and delivers a transfer exactly if its channel is up. */
  lemma HostDelivers(lossy: bool, s: Sys, e: Event)
    requires s.ring != []
    ensures var d, t := Apply(lossy, s, HostTakes), s.ring[0];
            && d.ring == s.ring[1..] && d.chans == s.chans
            && d.delivered == s.delivered + if IsXfer(t.ev) && ChanOf(t.ev) < |s.chans| && s.chans[ChanOf(t.ev)].phase == Up
                                            then [Delivery(ChanOf(t.ev), t.life, s.chans[ChanOf(t.ev)].life)] else []
    ensures !IsXfer(e) ==> Apply(lossy, s, DevOther(e)).ring == s.ring + [Tagged(e, 0)]
  {
  }

  ghost predicate NeverCrosses(lossy: bool, chans: nat) {
    forall steps :: NoCrossing(Run(lossy, Start(chans), steps))
  }

  /**
   Completions never cross lives, over every run, exactly when reset commands
   are always acknowledged. The driver also restarts a channel whose reset
   timed out; the device may then still report an old transfer after the ring
   was marked.
   */
  lemma NeverCrossesIffAcked(lossy: bool, chans: nat)
    requires 1 <= chans <= 0x100
    ensures NeverCrosses(lossy, chans) <==> !lossy
  {
    if !lossy {
      forall steps
        ensures NoCrossing(Run(false, Start(chans), steps))
      {
        AlwaysInv(chans, steps);
      }
    } else {
      var steps := Crossing(chans);
      assert !NoCrossing(Run(true, Start(chans), steps));
    }
  }

  /** The run that crosses: a reset times out, the device reports once more, the channel is prepared again. */
  lemma Crossing(chans: nat) returns (steps: seq<Step>)
    requires 1 <= chans <= 0x100
    ensures Delivery(0, 1, 2) in Run(true, Start(chans), steps).delivered
  {
    var s := Start(chans);
    steps, s := Then(chans, [], s, Prepare(0));
    assert s.chans[0] == Chan(Up, 1, true, 1) && s.ring == [];
    steps, s := Then(chans, steps, s, Disable(0));
    steps, s := Then(chans, steps, s, ResetFails(0));
    assert s.chans[0] == Chan(Quiet, 1, true, 1) && s.ring == [];
    steps, s := Then(chans, steps, s, CleanUp(0));
    assert s.chans[0] == Chan(Down, 1, true, 1) && s.ring == [];
    steps := ReportedLate(chans, steps, s);
  }

  lemma ReportedLate(chans: nat, before: seq<Step>, s0: Sys) returns (steps: seq<Step>)
    requires 1 <= chans <= 0x100 && Run(true, Start(chans), before) == s0
    requires s0.chans != [] && s0.chans[0] == Chan(Down, 1, true, 1) && s0.ring == []
    ensures Delivery(0, 1, 2) in Run(true, Start(chans), steps).delivered
  {
    var s;
    steps, s := Then(chans, before, s0, DevReports(0, 0, 0));
    assert s.ring == [Tagged(TxEvent(0, 0, 0), 1)];
    steps, s := Then(chans, steps, s, Prepare(0));
    assert s.chans[0] == Chan(Up, 2, true, 2) && s.ring == [Tagged(TxEvent(0, 0, 0), 1)];
    steps, s := Then(chans, steps, s, HostTakes);
    assert s.delivered[|s.delivered|-1] == Delivery(0, 1, 2);
  }

  lemma Then(chans: nat, steps: seq<Step>, s: Sys, step: Step) returns (longer: seq<Step>, s': Sys)
    requires Run(true, Start(chans), steps) == s
    ensures s' == Apply(true, s, step) && Run(true, Start(chans), longer) == s'
  {
    longer, s' := steps + [step], Apply(true, s, step);
    assert longer[..|longer|-1] == steps;
  }

  // --- One channel that is down -------------------------------------------------------

  /** No completion delivered on channel `c` from now on crosses, however often it is restarted, while resets are acknowledged. */
  ghost predicate SafeFrom(s: Sys, c: nat) {
    forall steps :: NoneCrosses(Run(false, s, steps), |s.delivered|, c)
  }

  /** Nothing waits for a channel that is down and that the device has stopped. */
  ghost predicate Settled(s: Sys, c: nat)
    requires c < |s.chans|
  {
    && (forall i :: 0 <= i < |s.ring| && IsXfer(s.ring[i].ev) ==> TypeOf(s.ring[i].ev) == TX_EVENT)
    && (s.chans[c].phase == Down && !s.chans[c].devLive ==> Clean(s, c))
  }

  lemma SettledStays(s: Sys, step: Step, c: nat)
    requires c < |s.chans| <= 0x100 && Settled(s, c)
    ensures |Apply(true, s, step).chans| == |s.chans| && Settled(Apply(true, s, step), c)
  {
    var s' := Apply(true, s, step);
    if step.CleanUp? && s' != s {
      forall i | 0 <= i < |s'.ring|
        ensures IsXfer(s'.ring[i].ev) ==> TypeOf(s'.ring[i].ev) == TX_EVENT
        ensures s'.chans[c].phase == Down && !s'.chans[c].devLive ==> Current(s'.ring[i], c, s'.chans[c])
      {
        StaleIsPassedOver(s.ring[i].ev, step.c);
        assert c != step.c && s'.chans[c].phase == Down && !s'.chans[c].devLive ==> Current(s.ring[i], c, s.chans[c]);
      }
    }
  }

  lemma {:induction false} SettledAlways(chans: nat, steps: seq<Step>, c: nat)
    requires c < chans <= 0x100
    ensures |Run(true, Start(chans), steps).chans| == chans && Settled(Run(true, Start(chans), steps), c)
    decreases |steps|
  {
    if steps != [] {
      SettledAlways(chans, steps[..|steps|-1], c);
      SettledStays(Run(true, Start(chans), steps[..|steps|-1]), steps[|steps|-1], c);
    }
  }

  lemma {:induction false} CleanIsSafe(s: Sys, steps: seq<Step>, c: nat)
    requires c < |s.chans| <= 0x100 && Clean(s, c)
    ensures var d := Run(false, s, steps);
            && |d.chans| == |s.chans| && Clean(d, c)
            && |s.delivered| <= |d.delivered| && NoneCrosses(d, |s.delivered|, c)
    decreases |steps|
  {
    if steps != [] {
      CleanIsSafe(s, steps[..|steps|-1], c);
      var d, step := Run(false, s, steps[..|steps|-1]), steps[|steps|-1];
      CleanStays(d, step, c);
      assert d.delivered <= Apply(false, d, step).delivered;
    }
  }

  /** The host takes whatever waits in front of a transfer event of channel `c`, and then that event. */
  lemma {:induction false} TakesUpTo(s: Sys, before: seq<Step>, c: nat, i: nat) returns (steps: seq<Step>)
    requires var d := Run(false, s, before);
             && |s.delivered| <= |d.delivered| && i < |d.ring| && c < |d.chans| && d.chans[c].phase == Up
             && TypeOf(d.ring[i].ev) == TX_EVENT && ChanOf(d.ring[i].ev) == c && d.ring[i].life != d.chans[c].life
    ensures !NoneCrosses(Run(false, s, steps), |s.delivered|, c)
    decreases i
  {
    var d := Run(false, s, before);
    steps := before + [HostTakes];
    assert steps[..|before|] == before;
    var d' := Run(false, s, steps);
    assert d' == Apply(false, d, HostTakes);
    hide Run;
    if i == 0 {
      assert d'.delivered[|d.delivered|] == Delivery(c, d.ring[0].life, d.chans[c].life);
    } else {
      assert d'.ring[i - 1] == d.ring[i];
      steps := TakesUpTo(s, steps, c, i - 1);
    }
  }

  /** A device that was not stopped reports once more before the channel is prepared again. */
  lemma LateReport(s: Sys, c: nat) returns (steps: seq<Step>)
    requires c < |s.chans| <= 0x100 && s.chans[c].phase == Down && s.chans[c].devLive && s.chans[c].devLife <= s.chans[c].life
    ensures !NoneCrosses(Run(false, s, steps), |s.delivered|, c)
  {
    var report := DevReports(c, 0, 0);
    assert Run(false, s, []) == s;
    assert [report][..0] == [] && [report, Prepare(c)][..1] == [report];
    var s1 := Apply(false, s, report);
    var s2 := Apply(false, s1, Prepare(c));
    assert Run(false, s, [report]) == s1;
    assert Run(false, s, [report, Prepare(c)]) == s2;
    assert s2.ring[|s.ring|] == Tagged(TxEvent(c, 0, 0), s.chans[c].devLife) && s2.chans[c].life == s.chans[c].life + 1;
    hide Run;
    steps := TakesUpTo(s, [report, Prepare(c)], c, |s.ring|);
  }

  /** The device never works for a life that is still to come. */
  lemma {:induction false} LivesPast(chans: nat, steps: seq<Step>, c: nat)
    requires c < chans
    ensures var s := Run(true, Start(chans), steps);
            |s.chans| == chans && s.chans[c].devLife <= s.chans[c].life
    decreases |steps|
  {
    if steps != [] {
      LivesPast(chans, steps[..|steps|-1], c);
      LifeStays(Run(true, Start(chans), steps[..|steps|-1]), steps[|steps|-1], c);
      hide Apply;
    }
  }

  lemma LifeStays(s: Sys, step: Step, c: nat)
    requires c < |s.chans| && s.chans[c].devLife <= s.chans[c].life
    ensures var d := Apply(true, s, step); |d.chans| == |s.chans| && d.chans[c].devLife <= d.chans[c].life
  {
  }

  /**
   A channel that is down, whatever happened before, may be restarted safely
   exactly if the device has stopped working for it. The driver does not ask.
   */
  lemma RestartSafeIffStopped(chans: nat, before: seq<Step>, c: nat)
    requires c < chans <= 0x100
    requires var s := Run(true, Start(chans), before); c < |s.chans| && s.chans[c].phase == Down
    ensures SafeFrom(Run(true, Start(chans), before), c) <==> !Run(true, Start(chans), before).chans[c].devLive
  {
    var s := Run(true, Start(chans), before);
    LivesPast(chans, before, c);
    SettledAlways(chans, before, c);
    hide Run;
    if s.chans[c].devLive {
      var steps := LateReport(s, c);
    } else {
      forall steps
        ensures NoneCrosses(Run(false, s, steps), |s.delivered|, c)
      {
        CleanIsSafe(s, steps, c);
      }
    }
  }
}
