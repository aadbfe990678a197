/**
 The runtime-PM vote behind uplink traffic.

 One counter, `pending_pkts`, is shared by all uplink channels and all CPUs.
 Whoever raises it to 1 takes a vote that keeps the link up; whoever lowers it
 to 0 gives the vote back. The counter steps are atomic, but the vote follows
 later, and queueing routines disagree on whether they count a packet before or
 after the ring shows it. All of these are separate steps here.
 */
module Votes {

  datatype State = State(
    outstanding: seq<nat>,   // elements between rp and wp, per uplink channel
    pending: int,            // pending_pkts
    votes: int,              // runtime_get calls minus runtime_put calls
    uncounted: nat,          // in the ring, not yet counted (mhi_queue_buf)
    unqueued: nat,           // counted, not yet in the ring (mhi_queue_skb, mhi_queue_dma)
    unreleased: nat,         // completed, still counted
    doomed: nat,             // uncounted by a reset, still in the ring
    getsDue: nat,            // threads about to call runtime_get
    putsDue: nat)            // threads about to call runtime_put

  datatype Step =
    | Advance(chan: nat) | CountQueued
    | CountFirst | AdvanceCounted(chan: nat)
    | Retire(chan: nat) | ReleaseRetired
    | ResetUncount | ResetRetire(chan: nat)
    | Get | Put

  function Sum(s: seq<nat>): nat {
    if s == [] then 0 else s[0] + Sum(s[1..])
  }

  lemma {:induction false} SumUpdate(s: seq<nat>, i: nat, v: nat)
    requires i < |s|
    ensures Sum(s[i := v]) == Sum(s) - s[i] + v
  {
    if i > 0 {
      SumUpdate(s[1..], i - 1, v);
      assert s[i := v][1..] == s[1..][i - 1 := v];
    } else {
      assert s[0 := v][1..] == s[1..];
    }
  }

  /** atomic_inc_return, and the decision to take the vote. */
  function Count(s: State): State {
    s.(pending := s.pending + 1, getsDue := if s.pending + 1 == 1 then s.getsDue + 1 else s.getsDue)
  }

  /** atomic_dec_return, and the decision to give the vote back. */
  function Uncount(s: State): State {
    s.(pending := s.pending - 1, putsDue := if s.pending - 1 == 0 then s.putsDue + 1 else s.putsDue)
  }

  function WithChan(s: State, chan: nat, d: int): State
    requires chan < |s.outstanding| && 0 <= s.outstanding[chan] + d
  {
    s.(outstanding := s.outstanding[chan := s.outstanding[chan] + d])
  }

  /** A step whose turn it is not leaves the state alone. */
  function Apply(s: State, step: Step): State {
    match step
    case Advance(c) =>
      if c < |s.outstanding| then WithChan(s, c, 1).(uncounted := s.uncounted + 1) else s
    case CountQueued =>
      if s.uncounted > 0 then Count(s).(uncounted := s.uncounted - 1) else s
    case CountFirst =>
      Count(s).(unqueued := s.unqueued + 1)
    case AdvanceCounted(c) =>
      if c < |s.outstanding| && s.unqueued > 0 then WithChan(s, c, 1).(unqueued := s.unqueued - 1) else s
    case Retire(c) =>
      if c < |s.outstanding| && s.outstanding[c] > 0 then WithChan(s, c, -1).(unreleased := s.unreleased + 1) else s
    case ReleaseRetired =>
      if s.unreleased > 0 then Uncount(s).(unreleased := s.unreleased - 1) else s
    case ResetUncount =>
      Uncount(s).(doomed := s.doomed + 1)
    case ResetRetire(c) =>
      if c < |s.outstanding| && s.outstanding[c] > 0 && s.doomed > 0 then WithChan(s, c, -1).(doomed := s.doomed - 1) else s
    case Get =>
      if s.getsDue > 0 then s.(votes := s.votes + 1, getsDue := s.getsDue - 1) else s
    case Put =>
      if s.putsDue > 0 then s.(votes := s.votes - 1, putsDue := s.putsDue - 1) else s
  }

  function Run(s: State, steps: seq<Step>): State
    decreases |steps|
  {
    if steps == [] then s else Apply(Run(s, steps[..|steps|-1]), steps[|steps|-1])
  }

  function Start(chans: nat): State {
    State(seq(chans, _ => 0), 0, 0, 0, 0, 0, 0, 0, 0)
  }

  /** The counter is the number of outstanding elements, up to what is in flight; the votes due are one exactly while it is positive. */
  predicate Conserved(s: State) {
    && s.pending == Sum(s.outstanding) - s.uncounted + s.unqueued + s.unreleased - s.doomed
    && s.votes + s.getsDue - s.putsDue == if s.pending > 0 then 1 else 0
  }

  lemma ApplyConserves(s: State, step: Step)
    requires Conserved(s)
    ensures Conserved(Apply(s, step))
  {
    match step
    case Advance(c) => if c < |s.outstanding| { SumUpdate(s.outstanding, c, s.outstanding[c] + 1); }
    case AdvanceCounted(c) => if c < |s.outstanding| { SumUpdate(s.outstanding, c, s.outstanding[c] + 1); }
    case Retire(c) => if c < |s.outstanding| && s.outstanding[c] > 0 { SumUpdate(s.outstanding, c, s.outstanding[c] - 1); }
    case ResetRetire(c) => if c < |s.outstanding| && s.outstanding[c] > 0 { SumUpdate(s.outstanding, c, s.outstanding[c] - 1); }
    case _ =>
  }

  lemma {:induction false} ZeroSum(chans: nat)
    ensures Sum(seq(chans, _ => 0)) == 0
  {
    if chans > 0 {
      ZeroSum(chans - 1);
      assert seq(chans, _ => 0)[1..] == seq(chans - 1, _ => 0);
    }
  }

  lemma {:induction false} AlwaysConserved(chans: nat, steps: seq<Step>)
    ensures Conserved(Run(Start(chans), steps))
    decreases |steps|
  {
    if steps == [] {
      ZeroSum(chans);
    } else {
      AlwaysConserved(chans, steps[..|steps|-1]);
      ApplyConserves(Run(Start(chans), steps[..|steps|-1]), steps[|steps|-1]);
    }
  }

  predicate Quiet(s: State) {
    s.uncounted == s.unqueued == s.unreleased == s.doomed == s.getsDue == s.putsDue == 0
  }

  /**
   Whatever the interleaving, once no step is half done the counter is the total
   outstanding and the link is voted for exactly if something is outstanding.
   */
  lemma VotedIffOutstanding(chans: nat, steps: seq<Step>)
    requires Quiet(Run(Start(chans), steps))
    ensures var s := Run(Start(chans), steps);
            s.pending == Sum(s.outstanding) && s.votes == if Sum(s.outstanding) > 0 then 1 else 0
  {
    AlwaysConserved(chans, steps);
  }

  /** A packet more on channel `c`, or one fewer, with everything settled. */
  function Settled(s: State, c: nat, d: int): State
    requires c < |s.outstanding| && 0 <= s.outstanding[c] + d
  {
    WithChan(s, c, d).(pending := s.pending + d, votes := if s.pending + d > 0 then 1 else 0)
  }

  /** A packet queued on any channel, counted first or last, comes to the same once it is settled. */
  lemma PacketComes(s: State, c: nat)
    requires Conserved(s) && Quiet(s) && c < |s.outstanding|
    ensures Apply(Apply(Apply(s, CountFirst), AdvanceCounted(c)), Get) == Settled(s, c, 1)
    ensures Apply(Apply(Apply(s, Advance(c)), CountQueued), Get) == Settled(s, c, 1)
  {
  }

  /** So does one that completes and one that is handed back by a reset; the vote goes with the last. */
  lemma PacketGoes(s: State, c: nat)
    requires Conserved(s) && Quiet(s) && c < |s.outstanding| && s.outstanding[c] > 0
    ensures Apply(Apply(Apply(s, Retire(c)), ReleaseRetired), Put) == Settled(s, c, -1)
    ensures Apply(Apply(Apply(s, ResetUncount), ResetRetire(c)), Put) == Settled(s, c, -1)
  {
    SumUpdate(s.outstanding, c, 0);
  }

  /**
   The votes themselves, between steps, are not confined to 0 and 1: a vote
   given back late leaves two held for one packet.
   */
  lemma VotesMayReachTwo(s0: State) returns (steps: seq<Step>)
    requires s0 == State([0], 0, 0, 0, 0, 0, 0, 0, 0)
    ensures Run(s0, steps).votes == 2 && Run(s0, steps).pending == 1
  {
    var s1 := State([1], 1, 1, 0, 0, 0, 0, 0, 0);
    steps := QueueOne(s0, s1);
    steps := Then(s0, steps, s1, Retire(0), State([0], 1, 1, 0, 0, 1, 0, 0, 0));
    steps := Then(s0, steps, State([0], 1, 1, 0, 0, 1, 0, 0, 0), ReleaseRetired, State([0], 0, 1, 0, 0, 0, 0, 0, 1));
    steps := Then(s0, steps, State([0], 0, 1, 0, 0, 0, 0, 0, 1), CountFirst, State([0], 1, 1, 0, 1, 0, 0, 1, 1));
    steps := Then(s0, steps, State([0], 1, 1, 0, 1, 0, 0, 1, 1), Get, State([0], 1, 2, 0, 1, 0, 0, 0, 1));
  }

  lemma QueueOne(s0: State, s1: State) returns (steps: seq<Step>)
    requires s0 == State([0], 0, 0, 0, 0, 0, 0, 0, 0)
    requires s1 == State([1], 1, 1, 0, 0, 0, 0, 0, 0)
    ensures Run(s0, steps) == s1
  {
    var counted := State([0], 1, 0, 0, 1, 0, 0, 1, 0);
    assert Apply(s0, CountFirst) == counted;
    steps := Then(s0, [], s0, CountFirst, counted);
    assert [0][0 := 1] == [1];
    steps := Then(s0, steps, State([0], 1, 0, 0, 1, 0, 0, 1, 0), AdvanceCounted(0), State([1], 1, 0, 0, 0, 0, 0, 1, 0));
    steps := Then(s0, steps, State([1], 1, 0, 0, 0, 0, 0, 1, 0), Get, s1);
  }

  /** mhi_queue_buf counts a packet after the ring shows it, so the counter itself can go below zero. */
  lemma CounterMayGoNegative(s0: State) returns (steps: seq<Step>)
    requires s0 == State([0], 0, 0, 0, 0, 0, 0, 0, 0)
    ensures Run(s0, steps).pending == -1
  {
    steps := Then(s0, [], s0, Advance(0), State([1], 0, 0, 1, 0, 0, 0, 0, 0));
    steps := Then(s0, steps, State([1], 0, 0, 1, 0, 0, 0, 0, 0), Retire(0), State([0], 0, 0, 1, 0, 1, 0, 0, 0));
    steps := Then(s0, steps, State([0], 0, 0, 1, 0, 1, 0, 0, 0), ReleaseRetired, State([0], -1, 0, 1, 0, 0, 0, 0, 0));
  }

  lemma Then(s0: State, steps: seq<Step>, s: State, step: Step, next: State) returns (longer: seq<Step>)
    requires Run(s0, steps) == s && Apply(s, step) == next
    ensures Run(s0, longer) == next
  {
    longer := steps + [step];
    assert longer[..|longer|-1] == steps;
  }
}
