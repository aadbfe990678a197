/**
 The command ring: every channel reset and start goes through one ring, and the
 answer carries nothing but the ring address of the command it answers.

 Who sent a command is recovered by decoding the element at that address.
 `Cmds` is the meaning of the ring, a queue of commands and the threads waiting
 for them; class `CmdRing` is the driver's form.
 */
module CommandRing {
  import opened Rings
  import opened Power

  datatype Cmd = ResetChan | StartChan | TimesyncCfg

  /** `target` is the channel, or for time synchronisation the event ring. */
  datatype Command = Command(cmd: Cmd, target: nat)

  datatype CmdTre = CmdTre(ptr: int, dword0: nat, dword1: nat)

  /** Whoever waits for the answer. */
  datatype Issuer = OfChannel(chan: nat) | OfTimesync

  /** `ccs` is the completion code last received, `done` how often the completion has been signalled. */
  datatype Waiter = Waiter(ccs: nat, done: nat)

  datatype Notice = Notice(to: Issuer, code: nat)

  datatype Cmds = Cmds(
    n: nat, iommu: int, w: nat, queue: seq<Command>, sent: seq<Command>, notices: seq<Notice>,
    chans: seq<Waiter>, tsync: Waiter, ctxtWp: int, dbVal: int)

  const CMD_TYPE_TSYNC := 24
  const CMD_TRE_SIZE := 16

  function TypeOf(cmd: Cmd): nat {
    match cmd
    case ResetChan => 16
    case StartChan => 18
    case TimesyncCfg => CMD_TYPE_TSYNC
  }

  /** A 32-bit word: what does not fit is shifted out. */
  function Encode(c: Command): CmdTre {
    CmdTre(0, 0, (c.target * 0x100_0000) % 0x1_0000_0000 + TypeOf(c.cmd) * 0x1_0000)
  }

  function CmdChid(t: CmdTre): nat { (t.dword1 / 0x100_0000) % 0x100 }

  function CmdType(t: CmdTre): nat { (t.dword1 / 0x1_0000) % 0x100 }

  function Addressee(t: CmdTre): Issuer {
    if CmdType(t) == CMD_TYPE_TSYNC then OfTimesync else OfChannel(CmdChid(t))
  }

  function IssuerOf(c: Command): Issuer {
    if c.cmd == TimesyncCfg then OfTimesync else OfChannel(c.target)
  }

  /** The command type always survives the encoding, the target exactly when it fits a byte. */
  lemma DecodeEncode(c: Command)
    ensures CmdType(Encode(c)) == TypeOf(c.cmd)
    ensures CmdChid(Encode(c)) == c.target <==> c.target < 0x100
    ensures Addressee(Encode(c)) == IssuerOf(c) <==> c.cmd == TimesyncCfg || c.target < 0x100
  {
    ShiftedOut(c.target);
  }

  /** The types the device knows, MHI_CMD_TYPE_*, are in the second byte of the word from the top, the target in the top one. */
  lemma WireFormat(c: Command)
    ensures Encode(c).dword1 / 0x1_0000 % 0x100
            == (match c.cmd case ResetChan => 16 case StartChan => 18 case TimesyncCfg => 24)
    ensures c.target < 0x100 ==> Encode(c).dword1 / 0x100_0000 == c.target
    ensures Encode(c).ptr == Encode(c).dword0 == 0 && Encode(c).dword1 < 0x1_0000_0000
  {
    var w := Encode(c).dword1;
    ShiftedOut(c.target);
    assert w == (c.target % 0x100) * 0x100_0000 + TypeOf(c.cmd) * 0x1_0000;
    assert TypeOf(c.cmd) == match c.cmd case ResetChan => 16 case StartChan => 18 case TimesyncCfg => 24;
    assert Encode(c).ptr == Encode(c).dword0 == 0;
    hide *;
    Word(c.target % 0x100, TypeOf(c.cmd));
  }

  lemma ShiftedOut(t: nat)
    ensures (t * 0x100_0000) % 0x1_0000_0000 == (t % 0x100) * 0x100_0000
  {
    assert t * 0x100_0000 == (t / 0x100) * 0x1_0000_0000 + (t % 0x100) * 0x100_0000;
  }

  lemma Word(t: nat, k: nat)
    requires t < 0x100 && k < 0x100
    ensures var w := t * 0x100_0000 + k * 0x1_0000;
            w / 0x1_0000 % 0x100 == k && w / 0x100_0000 == t && w < 0x1_0000_0000
  {
  }

  // --- The meaning of the two operations --------------------------------------

  function Send(s: Cmds, c: Command, pm: Pm): (s': Cmds)
    requires s.w < s.n
    ensures s'.n == s.n && s'.w < s'.n
  {
    if |s.queue| + 1 == s.n then s
    else
      var s1 := s.(queue := s.queue + [c], sent := s.sent + [c], w := Next(s.w, s.n));
      var wp := s.iommu + s1.w * CMD_TRE_SIZE;
      if DbAccessValid(pm) then s1.(ctxtWp := wp, dbVal := wp) else s1
  }

  function Signal(w: Waiter, code: nat): Waiter { Waiter(code, w.done + 1) }

  function Notify(s: Cmds, to: Issuer, code: nat): Cmds
    requires to.OfChannel? ==> to.chan < |s.chans|
  {
    var s1 := s.(notices := s.notices + [Notice(to, code)]);
    match to
    case OfTimesync => s1.(tsync := Signal(s.tsync, code))
    case OfChannel(chan) => s1.(chans := s.chans[chan := Signal(s.chans[chan], code)])
  }

  /** Every outstanding command names a channel the controller has. */
  predicate Addressable(s: Cmds) {
    && |s.chans| <= 0x100
    && forall i :: 0 <= i < |s.queue| && s.queue[i].cmd != TimesyncCfg ==> s.queue[i].target < |s.chans|
  }

  /** An answer to the command at position `i`: that command's issuer is told, and the oldest command leaves the ring. */
  function Answer(s: Cmds, i: nat, code: nat): (s': Cmds)
    requires Addressable(s) && i < |s.queue|
    ensures s'.n == s.n && s'.w == s.w && |s'.chans| == |s.chans| && Addressable(s')
  {
    DecodeEncode(s.queue[i]);
    Notify(s, Addressee(Encode(s.queue[i])), code).(queue := s.queue[1..])
  }

  // --- The driver's form ------------------------------------------------------

  class CmdRing {
    const ring: Ring
    const slots: array<CmdTre>
    const chans: array<Waiter>
    var tsync: Waiter
    var ctxtWp: int
    var dbVal: int
    ghost var queue: seq<Command>
    ghost var sent: seq<Command>
    ghost var notices: seq<Notice>

    ghost predicate Valid()
      reads this, ring, slots, chans
    {
      && ring.Valid() && ring.elSize == CMD_TRE_SIZE
      && 2 <= ring.elements == slots.Length
      && |queue| == Used(ring.r, ring.w, ring.elements)
      && (forall i :: 0 <= i < |queue| ==> slots[Wrap(ring.r + i, ring.elements)] == Encode(queue[i]))
      && Addressable(View())
    }

    ghost function View(): Cmds
      reads this, ring, chans
    {
      Cmds(ring.elements, ring.iommuBase, ring.w, queue, sent, notices, chans[..], tsync, ctxtWp, dbVal)
    }

    constructor (base: int, iommu: int, elements: nat, maxChan: nat)
      requires 2 <= elements && maxChan <= 0x100
      ensures Valid() && fresh(ring) && fresh(slots) && fresh(chans)
      ensures View() == Cmds(elements, iommu, 0, [], [], [], seq(maxChan, _ => Waiter(0, 0)), Waiter(0, 0), iommu, 0)
    {
      var t := new Ring(base, iommu, CMD_TRE_SIZE, elements);
      ring := t;
      slots := new CmdTre[elements](_ => CmdTre(0, 0, 0));
      chans := new Waiter[maxChan](_ => Waiter(0, 0));
      tsync, ctxtWp, dbVal := Waiter(0, 0), iommu, 0;
      queue, sent, notices := [], [], [];
    }

    method RingCmdDb()
      requires ring.Valid() && ring.elSize == CMD_TRE_SIZE
      modifies this`ctxtWp, this`dbVal
      ensures ctxtWp == dbVal == ring.iommuBase + ring.w * CMD_TRE_SIZE
    {
      var db := ring.iommuBase + (ring.wp - ring.base);
      ctxtWp := db;
      dbVal := db;
    }

    /** The element under the write pointer is filled; the outstanding commands stay as they are. */
    method FillSlot(c: Command)
      requires Valid() && |queue| + 1 < ring.elements
      modifies slots
      ensures Valid() && slots[ring.w] == Encode(c)
    {
      var k := ring.WriteSlot();
      slots[k] := Encode(c);
    }

    method AdvanceWp(ghost c: Command)
      requires Valid() && |queue| + 1 < ring.elements && (c.cmd != TimesyncCfg ==> c.target < chans.Length)
      requires slots[ring.w] == Encode(c)
      modifies this`queue, this`sent, ring`wp, ring`w
      ensures Valid()
      ensures View() == old(View()).(queue := old(queue) + [c], sent := old(sent) + [c], w := Next(old(ring.w), ring.elements))
    {
      QueueMoves(ring.r, ring.w, ring.elements);
      ring.AddElement();
      queue := queue + [c];
      sent := sent + [c];
    }

    /** mhi_send_cmd */
    method SendCmd(c: Command, pm: Pm) returns (ok: bool)
      requires Valid() && (c.cmd != TimesyncCfg ==> c.target < chans.Length)
      modifies this, slots, ring
      ensures Valid()
      ensures View() == Send(old(View()), c, pm)
      ensures ok <==> |old(queue)| + 1 < ring.elements
      ensures ok ==>
                && queue == old(queue) + [c] && sent == old(sent) + [c] && ring.w == Next(old(ring.w), ring.elements)
                && CmdType(slots[old(ring.w)]) == TypeOf(c.cmd) && (c.target < 0x100 ==> CmdChid(slots[old(ring.w)]) == c.target)
      ensures ok && DbAccessValid(pm) ==> ctxtWp == dbVal == ring.iommuBase + ring.w * CMD_TRE_SIZE
      ensures !(ok && DbAccessValid(pm)) ==> ctxtWp == old(ctxtWp) && dbVal == old(dbVal)
    {
      DecodeEncode(c);
      hide Encode, CmdType, CmdChid;
      var avail := ring.NrAvail();
      if avail == 0 {
        return false;
      }
      FillSlot(c);
      AdvanceWp(c);
      if DbAccessValid(pm) {
        RingCmdDb();
      }
      ok := true;
    }

    /** Wake whoever the element at `k` names. */
    method Wake(k: nat, ghost i: nat, code: nat)
      requires Valid() && i < |queue| && k == Wrap(ring.r + i, ring.elements)
      modifies this`tsync, this`notices, chans
      ensures Valid()
      ensures queue == old(queue) && View().(queue := queue[1..]) == Answer(old(View()), i, code)
    {
      DecodeEncode(queue[i]);
      var t := slots[k];
      if CmdType(t) == CMD_TYPE_TSYNC {
        tsync := Signal(tsync, code);
      } else {
        var chan := CmdChid(t);
        chans[chan] := Signal(chans[chan], code);
      }
      notices := notices + [Notice(Addressee(t), code)];
    }

    /** The slot of the element an answer names, and whether it is the oldest. */
    method Locate(ptr: int, ghost slot: nat) returns (k: nat, oldest: bool)
      requires Valid() && slot < ring.elements && ptr == ring.Phys(slot)
      ensures k == slot && (oldest <==> slot == ring.r)
    {
      var cmdPkt := ring.ToVirtual(ptr);
      ring.SameSlot(slot, ring.r);
      oldest := cmdPkt == ring.rp;
      DivExact(slot, CMD_TRE_SIZE);
      k := (cmdPkt - ring.base) / CMD_TRE_SIZE;
    }

    method DropOldest()
      requires Valid() && queue != []
      modifies this`queue, ring`rp, ring`r
      ensures Valid()
      ensures View() == old(View()).(queue := old(queue)[1..])
    {
      QueueMoves(ring.r, ring.w, ring.elements);
      ring.DelElement();
      queue := queue[1..];
    }

    /**
     mhi_process_cmd_completion, for an answer that names an outstanding
     command. An answer out of order is noticed but handled all the same.
     */
    method ProcessCompletion(ptr: int, ghost i: nat, code: nat) returns (outOfOrder: bool)
      requires Valid() && i < |queue| && ptr == ring.Phys(Wrap(ring.r + i, ring.elements))
      modifies this, chans, ring
      ensures Valid()
      ensures View() == Answer(old(View()), i, code)
      ensures outOfOrder <==> i != 0
    {
      var k, oldest := Locate(ptr, Wrap(ring.r + i, ring.elements));
      Wake(k, i, code);
      DropOldest();
      outOfOrder := !oldest;
    }
  }

  // --- What holds over every run ----------------------------------------------

  datatype Op = OpSend(c: Command, pm: Pm) | OpAnswer(i: nat, code: nat)

  predicate Addresses(ops: seq<Op>, maxChan: nat) {
    forall k :: 0 <= k < |ops| && ops[k].OpSend? && ops[k].c.cmd != TimesyncCfg ==> ops[k].c.target < maxChan
  }

  /** The device answers commands in the order they were sent. */
  predicate InOrder(ops: seq<Op>) {
    forall k :: 0 <= k < |ops| && ops[k].OpAnswer? ==> ops[k].i == 0
  }

  /** An answer to a command that is not outstanding is not one a device sends. */
  function Apply(s: Cmds, op: Op): (s': Cmds)
    requires s.w < s.n && Addressable(s)
    requires op.OpSend? && op.c.cmd != TimesyncCfg ==> op.c.target < |s.chans|
    ensures s'.w < s'.n == s.n && |s'.chans| == |s.chans| && Addressable(s')
  {
    match op
    case OpSend(c, pm) => Send(s, c, pm)
    case OpAnswer(i, code) => if i < |s.queue| then Answer(s, i, code) else s
  }

  function Run(s: Cmds, ops: seq<Op>): (s': Cmds)
    requires s.w < s.n && Addressable(s) && Addresses(ops, |s.chans|)
    ensures s'.w < s'.n == s.n && |s'.chans| == |s.chans| && Addressable(s')
    decreases |ops|
  {
    if ops == [] then s else Apply(Run(s, ops[..|ops|-1]), ops[|ops|-1])
  }

  function Issuers(cs: seq<Command>): seq<Issuer> { seq(|cs|, i requires 0 <= i < |cs| => IssuerOf(cs[i])) }

  function Told(ns: seq<Notice>): seq<Issuer> { seq(|ns|, i requires 0 <= i < |ns| => ns[i].to) }

  /** The state a waiter is in after the notices meant for it. */
  function Heard(ns: seq<Notice>, to: Issuer): Waiter {
    if ns == [] then Waiter(0, 0)
    else
      var before := Heard(ns[..|ns|-1], to);
      var last := ns[|ns|-1];
      if last.to == to then Waiter(last.code, before.done + 1) else before
  }

  /** Every waiter has heard exactly the notices meant for it. */
  ghost predicate HeardAll(s: Cmds) {
    && s.tsync == Heard(s.notices, OfTimesync)
    && forall c :: 0 <= c < |s.chans| ==> s.chans[c] == Heard(s.notices, OfChannel(c))
  }

  lemma AnswerHeard(s: Cmds, i: nat, code: nat)
    requires Addressable(s) && i < |s.queue| && HeardAll(s)
    ensures HeardAll(Answer(s, i, code))
  {
    DecodeEncode(s.queue[i]);
    var ns := Answer(s, i, code).notices;
    assert ns[..|ns|-1] == s.notices;
  }

  lemma SendHeard(s: Cmds, c: Command, pm: Pm)
    requires s.w < s.n && |s.queue| < s.n && HeardAll(s)
    ensures HeardAll(Send(s, c, pm)) && |Send(s, c, pm).queue| < s.n
  {
    var d := Send(s, c, pm);
    assert d.notices == s.notices && d.chans == s.chans && d.tsync == s.tsync;
    hide Heard;
  }

  ghost predicate FreshRing(s: Cmds) {
    && s.w < s.n && s.queue == [] && s.sent == [] && s.notices == []
    && s.tsync == Waiter(0, 0) && |s.chans| <= 0x100
    && forall c :: 0 <= c < |s.chans| ==> s.chans[c] == Waiter(0, 0)
  }

  /** Whatever the order of the answers, every waiter is told exactly what was meant for it, and no command is overwritten. */
  lemma {:induction false} WaitersHear(s: Cmds, ops: seq<Op>)
    requires FreshRing(s) && Addresses(ops, |s.chans|)
    ensures HeardAll(Run(s, ops)) && |Run(s, ops).queue| < s.n
    decreases |ops|
  {
    if ops != [] {
      WaitersHear(s, ops[..|ops|-1]);
      var before, op := Run(s, ops[..|ops|-1]), ops[|ops|-1];
      hide HeardAll, Send, Answer, FreshRing;
      match op
      case OpSend(c, pm) => SendHeard(before, c, pm);
      case OpAnswer(i, code) => if i < |before.queue| { AnswerHeard(before, i, code); AnswerLeaves(before, i, code); }
    }
  }

  /** The commands of a run whose sending found room, in order. */
  function SentBy(s: Cmds, ops: seq<Op>): seq<Command>
    requires s.w < s.n && Addressable(s) && Addresses(ops, |s.chans|)
    decreases |ops|
  {
    if ops == [] then []
    else
      var before, op := Run(s, ops[..|ops|-1]), ops[|ops|-1];
      SentBy(s, ops[..|ops|-1]) + if op.OpSend? && |before.queue| + 1 < before.n then [op.c] else []
  }

  /** The answers of a run that name an outstanding command, each with whoever issued that command. */
  function AnswersBy(s: Cmds, ops: seq<Op>): seq<Notice>
    requires s.w < s.n && Addressable(s) && Addresses(ops, |s.chans|)
    decreases |ops|
  {
    if ops == [] then []
    else
      var before, op := Run(s, ops[..|ops|-1]), ops[|ops|-1];
      AnswersBy(s, ops[..|ops|-1])
      + if op.OpAnswer? && op.i < |before.queue| then [Notice(IssuerOf(before.queue[op.i]), op.code)] else []
  }

  /**
   Over any run the commands sent are exactly those whose sending found room; the
   notices given are exactly those of the answers, with their codes; and what is
   in the ring is what was sent but for as many as have been answered.
   */
  lemma {:induction false} SentIsAsked(s: Cmds, ops: seq<Op>)
    requires FreshRing(s) && Addresses(ops, |s.chans|)
    ensures var d := Run(s, ops);
            && d.sent == SentBy(s, ops) && d.notices == AnswersBy(s, ops)
            && |d.notices| <= |d.sent| && d.queue == d.sent[|d.notices|..] && |d.queue| < d.n
    decreases |ops|
  {
    WaitersHear(s, ops);
    if ops != [] {
      SentIsAsked(s, ops[..|ops|-1]);
      WaitersHear(s, ops[..|ops|-1]);
      var before, op := Run(s, ops[..|ops|-1]), ops[|ops|-1];
      hide HeardAll, Send, Answer, FreshRing;
      match op
      case OpSend(c, pm) => SendEnters(before, c, pm);
      case OpAnswer(i, code) => if i < |before.queue| { AnswerLeaves(before, i, code); }
    }
  }

  lemma SendEnters(s: Cmds, c: Command, pm: Pm)
    requires s.w < s.n && |s.queue| < s.n
    ensures var d, more := Send(s, c, pm), if |s.queue| + 1 < s.n then [c] else [];
            d.queue == s.queue + more && d.sent == s.sent + more && d.notices == s.notices
  {
  }

  lemma AnswerLeaves(s: Cmds, i: nat, code: nat)
    requires Addressable(s) && i < |s.queue|
    ensures var d := Answer(s, i, code);
            && d.queue == s.queue[1..] && d.sent == s.sent
            && d.notices == s.notices + [Notice(IssuerOf(s.queue[i]), code)]
  {
    DecodeEncode(s.queue[i]);
  }

  /** The answers given so far, then the commands unanswered, are the commands sent. */
  ghost predicate Matched(s: Cmds) {
    Issuers(s.sent) == Told(s.notices) + Issuers(s.queue)
  }

  lemma SendMatched(s: Cmds, c: Command, pm: Pm)
    requires s.w < s.n && Matched(s)
    ensures Matched(Send(s, c, pm))
  {
    assert Issuers(s.queue + [c]) == Issuers(s.queue) + [IssuerOf(c)];
    assert Issuers(s.sent + [c]) == Issuers(s.sent) + [IssuerOf(c)];
  }

  /**
   One answer keeps commands and answers matched exactly when it goes to the
   issuer of the command that leaves the ring.
   */
  lemma AnswerMatched(s: Cmds, i: nat, code: nat)
    requires Addressable(s) && i < |s.queue| && Matched(s)
    ensures Matched(Answer(s, i, code)) <==> IssuerOf(s.queue[i]) == IssuerOf(s.queue[0])
  {
    DecodeEncode(s.queue[i]);
    var d := Answer(s, i, code);
    assert Told(d.notices) == Told(s.notices) + [IssuerOf(s.queue[i])];
    assert Issuers(s.queue) == [IssuerOf(s.queue[0])] + Issuers(d.queue);
    var k := |s.notices|;
    assert (Told(d.notices) + Issuers(d.queue))[k] == IssuerOf(s.queue[i]);
    assert Issuers(s.sent)[k] == IssuerOf(s.queue[0]);
    if IssuerOf(s.queue[i]) == IssuerOf(s.queue[0]) {
      assert Told(d.notices) + Issuers(d.queue) == Told(s.notices) + Issuers(s.queue);
    }
  }

  /**
   With a device that answers in order, the `k`-th answer reaches the issuer of
   the `k`-th command, and what is still in the ring is what is unanswered.
   */
  lemma {:induction false} AnswersReachIssuers(s: Cmds, ops: seq<Op>)
    requires FreshRing(s) && Addresses(ops, |s.chans|) && InOrder(ops)
    ensures Matched(Run(s, ops))
    decreases |ops|
  {
    if ops != [] {
      AnswersReachIssuers(s, ops[..|ops|-1]);
      var before, op := Run(s, ops[..|ops|-1]), ops[|ops|-1];
      match op
      case OpSend(c, pm) => SendMatched(before, c, pm);
      case OpAnswer(i, code) =>
        if before.queue != [] {
          AnswerMatched(before, 0, code);
        }
    }
  }
}
