/**
 MBIM framing: one datagram in one 16-bit NTB, and a receiver for NTBs of any shape.

 An NTB has a transfer header (NTH16), and a chain of datagram tables (NDP16),
 each an array of offset and length pairs (USB CDC NCM 1.0, sections 3.2.1 and
 3.3.1). The last byte of an NDP16 signature names the IP session (MBIM 1.0,
 section 7). The sender puts one datagram behind a fixed 28-byte header; the
 receiver follows whatever chain it is given.
 */
module Mbim {
  import opened Basics
  import opened Skbs

  const HEADER_SIZE := 28
  const NTB_IN_MAX_SIZE := 0x8000

  /** What sender and receiver know: the module's mode, the first mux and the devices that exist. */
  datatype Config = Config(qmapMode: nat, muxId: nat, devs: seq<bool>)

  predicate Configured(c: Config) {
    1 <= c.qmapMode <= |c.devs| == 8 && c.muxId in {0, 112}
  }

  datatype Slice = Slice(dev: nat, from: nat, data: seq<byte>)

  /**
   `NoDevice` is a datagram for a session without a device, which the source
   hands to a null device; `BadIndex` a session for which it looks up its device
   table at an index far outside.
   */
  datatype End = Done | GaveUp | Hung | NoDevice | BadIndex

  datatype Parsed = Parsed(slices: seq<Slice>, end: End)

  // --- Sending -----------------------------------------------------------------

  /** The session of a mux: shifted by one when there are several. */
  function Tci(c: Config, mux: byte): byte { (if c.qmapMode > 1 then mux + 1 else mux) % 0x100 }

  /** The header in front of `len` bytes; the sequence number is filled in later. */
  function Header(tci: byte, len: nat, seqLo: byte, seqHi: byte): (h: seq<byte>)
    ensures |h| == HEADER_SIZE
  {
    var block, dgram := Le16(HEADER_SIZE + len), Le16(len);
    [0x4e, 0x43, 0x4d, 0x48, 12, 0, seqLo, seqHi, block[0], block[1], 12, 0,
     0x49, 0x50, 0x53, tci, 16, 0, 0, 0, HEADER_SIZE, 0, dgram[0], dgram[1], 0, 0, 0, 0]
  }

  /** The NTB for one datagram. */
  function Block(tci: byte, payload: seq<byte>, seqNo: nat): seq<byte> {
    Header(tci, |payload|, Le16(seqNo)[0], Le16(seqNo)[1]) + payload
  }

  /** add_mbim_hdr: the sequence field keeps what the headroom held. */
  method AddMbimHdr(c: Config, skb: Skb, mux: byte) returns (ok: bool)
    requires skb.Valid()
    modifies skb, skb.buf
    ensures skb.Valid() && (ok <==> HEADER_SIZE <= old(skb.data))
    ensures ok ==> skb.len >= HEADER_SIZE
                   && skb.Contents() == Header(Tci(c, mux), |old(skb.Contents())|, skb.Contents()[6], skb.Contents()[7]) + old(skb.Contents())
    ensures !ok ==> skb.Contents() == old(skb.Contents())
  {
    if skb.data < HEADER_SIZE {
      return false;
    }
    var at := skb.data - HEADER_SIZE;
    var header := Header(Tci(c, mux), skb.len, skb.buf[at + 6], skb.buf[at + 7]);
    skb.PushHeader(header);
    ok := true;
  }

  // --- Receiving ---------------------------------------------------------------

  /** The byte at `i`; behind the transfer lies whatever `slack` says. */
  function At(data: seq<byte>, slack: nat -> byte, i: nat): byte {
    if i < |data| then data[i] else slack(i)
  }

  function U16(data: seq<byte>, slack: nat -> byte, i: nat): (n: nat)
    ensures n < 0x1_0000
  {
    FromLe16(At(data, slack, i), At(data, slack, i + 1))
  }

  /** What one entry of a datagram table comes to: the end of the table, the end of it all, or a packet. */
  datatype Entry = Last | Bad(end: End, memory: nat) | Datagram(slice: Slice)

  /** The source allocates the packet before it looks at what is in it. */
  function EntryAt(data: seq<byte>, slack: nat -> byte, dev: Option<nat>, at: nat, memory: nat): (e: Entry)
    ensures e.Bad? ==> e.memory <= memory
    ensures e.Datagram? ==>
              && memory > 0 && dev == Some(e.slice.dev)
              && e.slice.data != [] && e.slice.from + |e.slice.data| <= |data| && IpNibble(e.slice.data[0])
              && e.slice.data == data[e.slice.from..e.slice.from + |e.slice.data|]
  {
    var from, len := U16(data, slack, at), U16(data, slack, at + 2);
    if from == 0 || len == 0 then Last
    else if from + len > |data| || len > NTB_IN_MAX_SIZE || memory == 0 then Bad(GaveUp, memory)
    else if !IpNibble(data[from]) then Bad(GaveUp, memory - 1)
    else if dev.None? then Bad(NoDevice, memory - 1)
    else Datagram(Slice(dev.value, from, data[from..from + len]))
  }

  /** What is left after a table: its slices, the packets that can still be allocated, and why the loop ends if it does. */
  datatype Table = Table(slices: seq<Slice>, memory: nat, end: Option<End>)

  function Before(slices: seq<Slice>, rest: Table): Table { rest.(slices := slices + rest.slices) }

  /** The `n` entries of a datagram table from offset `at` on, for device `dev`. */
  function Entries(data: seq<byte>, slack: nat -> byte, dev: Option<nat>, at: nat, n: nat, memory: nat): (t: Table)
    ensures t.memory <= memory && |t.slices| <= memory
    ensures t.memory == memory ==> t.slices == []
    decreases n
  {
    if n == 0 then Table([], memory, None)
    else
      match EntryAt(data, slack, dev, at, memory)
      case Last => Table([], memory, None)
      case Bad(end, left) => Table([], left, Some(end))
      case Datagram(x) => Before([x], Entries(data, slack, dev, at + 4, n - 1, memory - 1))
  }

  /** The session in the last byte of a signature; DSS sessions come after the IPS ones. */
  function Session(b0: byte, b1: byte, b2: byte, b3: byte): Option<nat> {
    if b0 == 0x49 && b1 == 0x50 && b2 == 0x53 then Some(b3)
    else if b0 == 0x44 && b1 == 0x53 && b2 == 0x53 then Some(b3 + 0x100)
    else None
  }

  /** What a session is to the receiver: not its own, an index outside the table, or a device if there is one. */
  datatype Lookup = NotTaken | Outside | Found(dev: Option<nat>)

  /**
   The device of a session. With several muxes the session just below the first
   passes the test, and the unsigned index computed for it is the largest there is.
   */
  function Device(c: Config, tci: nat): (d: Lookup)
    requires Configured(c)
    ensures d.Found? && d.dev.Some? ==> d.dev.value < c.qmapMode && c.devs[d.dev.value]
  {
    if c.qmapMode == 1 then
      if tci != c.muxId then NotTaken else Found(if c.devs[0] then Some(0) else None)
    else if tci < c.muxId || tci - c.muxId > c.qmapMode then NotTaken
    else if tci == c.muxId then Outside
    else Found(if c.devs[tci - c.muxId - 1] then Some(tci - c.muxId - 1) else None)
  }

  /** How many entries a table of `wLength` bytes has. */
  function EntryCount(wLength: nat): nat { if wLength < 8 then 0 else (wLength - 8) / 4 }

  predicate TableFits(data: seq<byte>, slack: nat -> byte, ndp: nat) {
    var wLength := U16(data, slack, ndp + 4);
    ndp + 8 <= |data| && 0x10 <= wLength && 8 + EntryCount(wLength) * 4 <= |data|
  }

  function SessionAt(data: seq<byte>, slack: nat -> byte, ndp: nat): Option<nat> {
    Session(At(data, slack, ndp), At(data, slack, ndp + 1), At(data, slack, ndp + 2), At(data, slack, ndp + 3))
  }

  /** The datagram table at `ndp`. Its entries are not checked against the end of the transfer, only its length is. */
  function TableAt(c: Config, data: seq<byte>, slack: nat -> byte, ndp: nat, memory: nat): (t: Table)
    requires Configured(c)
    ensures t.memory <= memory && |t.slices| <= memory
    ensures t.memory == memory ==> t.slices == []
  {
    var wLength := U16(data, slack, ndp + 4);
    if !TableFits(data, slack, ndp) then Table([], memory, Some(GaveUp))
    else
      match SessionAt(data, slack, ndp)
      case None => Table([], memory, Some(GaveUp))
      case Some(tci) =>
        match Device(c, tci)
        case NotTaken => Table([], memory, Some(GaveUp))
        case Outside => Table([], memory, Some(BadIndex))
        case Found(dev) => Entries(data, slack, dev, ndp + 8, EntryCount(wLength), memory)
  }

  predicate IsOffset(i: int) { 0 <= i < 0x1_0000 }

  /** wNextNdpIndex of the table at `ndp`. */
  function NextTable(data: seq<byte>, slack: nat -> byte, ndp: nat): (next: nat)
    ensures next < 0x1_0000
  {
    U16(data, slack, ndp + 6)
  }

  function Offsets(): set<int> { set i | 0 <= i < 0x1_0000 && IsOffset(i) }

  function Prepend(slices: seq<Slice>, rest: Parsed): Parsed { rest.(slices := slices + rest.slices) }

  /**
   The chain of tables from `ndp` on. `seen` holds the tables met since the last
   packet was allocated: meeting one again, the loop is where it was and goes on
   for ever.
   */
  function Walk(c: Config, data: seq<byte>, slack: nat -> byte, ndp: nat, memory: nat, seen: set<int>): Parsed
    requires Configured(c) && ndp < 0x1_0000
    decreases memory, Offsets() - seen
  {
    if ndp == 0 then Parsed([], Done)
    else if ndp in seen then Parsed([], Hung)
    else
      var t := TableAt(c, data, slack, ndp, memory);
      if t.end.Some? then Parsed(t.slices, t.end.value)
      else
        assert IsOffset(ndp);
        Prepend(t.slices, Walk(c, data, slack, NextTable(data, slack, ndp), t.memory, if t.memory < memory then {} else seen + {ndp}))
  }

  datatype Reception = Reception(parsed: Parsed, rxSeq: nat, glitch: bool)

  /** Whether the receiver looks inside the block: it is long enough, carries the NTH16 signature and is not too long. */
  predicate Accepted(data: seq<byte>, slack: nat -> byte) {
    && |data| >= 20
    && data[0] == 0x4e && data[1] == 0x43 && data[2] == 0x4d && data[3] == 0x48
    && U16(data, slack, 8) <= NTB_IN_MAX_SIZE
  }

  /** A sequence number out of turn is noticed, taken over and otherwise ignored. */
  function Rx(c: Config, rxSeq: nat, data: seq<byte>, slack: nat -> byte, memory: nat): Reception
    requires Configured(c)
  {
    if !Accepted(data, slack) then Reception(Parsed([], GaveUp), rxSeq, false)
    else
      var wSequence := U16(data, slack, 6);
      Reception(Walk(c, data, slack, U16(data, slack, 10), memory, {}), (wSequence + 1) % 0x1_0000, wSequence != rxSeq)
  }

  /** One end of the link: the two 16-bit sequence counters. */
  class Link {
    const cfg: Config
    var txSeq: nat
    var rxSeq: nat

    constructor (cfg: Config)
      ensures this.cfg == cfg && txSeq == rxSeq == 0
    {
      this.cfg := cfg;
      txSeq, rxSeq := 0, 0;
    }

    /** The part of mhi_netdev_xmit that numbers an NTB. */
    method Number(skb: Skb)
      requires skb.Valid() && HEADER_SIZE <= skb.len
      modifies this`txSeq, skb.buf
      ensures skb.Contents() == old(skb.Contents())[6 := Le16(old(txSeq))[0]][7 := Le16(old(txSeq))[1]]
      ensures txSeq == (old(txSeq) + 1) % 0x1_0000
    {
      skb.Store(6, Le16(txSeq)[0]);
      skb.Store(7, Le16(txSeq)[1]);
      txSeq := (txSeq + 1) % 0x1_0000;
    }

    /** One turn of the inner loop. */
    method ReadEntry(data: seq<byte>, slack: nat -> byte, dev: Option<nat>, at: nat, memory: nat) returns (e: Entry)
      ensures e == EntryAt(data, slack, dev, at, memory)
    {
      var from, len := U16(data, slack, at), U16(data, slack, at + 2);
      if from == 0 || len == 0 {
        return Last;
      }
      if from + len > |data| || len > NTB_IN_MAX_SIZE {
        return Bad(GaveUp, memory);
      }
      if memory == 0 {
        return Bad(GaveUp, memory);
      }
      if !IpNibble(data[from]) {
        return Bad(GaveUp, memory - 1);
      }
      if dev.None? {
        return Bad(NoDevice, memory - 1);
      }
      e := Datagram(Slice(dev.value, from, data[from..from + len]));
    }

    /** The inner loop, over the entries of one table. */
    method ReadEntries(data: seq<byte>, slack: nat -> byte, dev: Option<nat>, at: nat, n: nat, memory: nat) returns (t: Table)
      ensures t == Entries(data, slack, dev, at, n, memory)
    {
      hide EntryAt;
      var slices: seq<Slice>, x: nat, dpe: nat, left: nat := [], 0, at, memory;
      while x < n
        invariant x <= n
        invariant Entries(data, slack, dev, at, n, memory) == Before(slices, Entries(data, slack, dev, dpe, n - x, left))
      {
        var e := ReadEntry(data, slack, dev, dpe, left);
        match e {
          case Last =>
            break;
          case Bad(end, memory') =>
            return Table(slices, memory', Some(end));
          case Datagram(packet) =>
            left := left - 1;
            BeforeMore(slices, packet, Entries(data, slack, dev, dpe + 4, n - x - 1, left));
            slices := slices + [packet];
            x, dpe := x + 1, dpe + 4;
        }
      }
      t := Table(slices, left, None);
    }

    /** The checks on one table, and its entries. */
    method ReadTable(data: seq<byte>, slack: nat -> byte, ndp: nat, memory: nat) returns (t: Table)
      requires Configured(cfg)
      ensures t == TableAt(cfg, data, slack, ndp, memory)
    {
      if |data| < ndp + 8 {
        return Table([], memory, Some(GaveUp));
      }
      var wLength := U16(data, slack, ndp + 4);
      if wLength < 0x10 {
        return Table([], memory, Some(GaveUp));
      }
      var nframes := (wLength - 8) / 4;
      if |data| < 8 + nframes * 4 {
        return Table([], memory, Some(GaveUp));
      }
      var tci := Session(data[ndp], data[ndp + 1], data[ndp + 2], data[ndp + 3]);
      if tci.None? {
        return Table([], memory, Some(GaveUp));
      }
      var d := Device(cfg, tci.value);
      match d {
        case NotTaken =>
          return Table([], memory, Some(GaveUp));
        case Outside =>
          return Table([], memory, Some(BadIndex));
        case Found(dev) =>
          t := ReadEntries(data, slack, dev, ndp + 8, nframes, memory);
      }
    }

    /** The outer loop, along the chain of tables. */
    method WalkTables(data: seq<byte>, slack: nat -> byte, first: nat, memory: nat) returns (p: Parsed)
      requires Configured(cfg) && first < 0x1_0000
      ensures p == Walk(cfg, data, slack, first, memory, {})
    {
      hide TableAt;
      var slices: seq<Slice>, ndp: nat, left: nat, seen: set<int> := [], first, memory, {};
      while ndp > 0
        invariant ndp < 0x1_0000
        invariant Walk(cfg, data, slack, first, memory, {}) == Prepend(slices, Walk(cfg, data, slack, ndp, left, seen))
        decreases left, Offsets() - seen
      {
        if ndp in seen {
          return Parsed(slices, Hung);
        }
        var t := ReadTable(data, slack, ndp, left);
        if t.end.Some? {
          return Parsed(slices + t.slices, t.end.value);
        }
        assert IsOffset(ndp);
        ghost var rest := Walk(cfg, data, slack, NextTable(data, slack, ndp), t.memory, if t.memory < left then {} else seen + {ndp});
        assert slices + (t.slices + rest.slices) == (slices + t.slices) + rest.slices;
        slices := slices + t.slices;
        seen := if t.memory < left then {} else seen + {ndp};
        ndp, left := NextTable(data, slack, ndp), t.memory;
      }
      p := Parsed(slices, Done);
    }

    /** rmnet_mbim_rx_handler. Where the source would loop for ever the result says so. */
    method Receive(data: seq<byte>, slack: nat -> byte, memory: nat) returns (p: Parsed, glitch: bool)
      requires Configured(cfg)
      modifies this`rxSeq
      ensures Reception(p, rxSeq, glitch) == Rx(cfg, old(rxSeq), data, slack, memory)
    {
      if |data| < 20 {
        return Parsed([], GaveUp), false;
      }
      if data[0] != 0x4e || data[1] != 0x43 || data[2] != 0x4d || data[3] != 0x48 {
        return Parsed([], GaveUp), false;
      }
      if U16(data, slack, 8) > NTB_IN_MAX_SIZE {
        return Parsed([], GaveUp), false;
      }
      var wSequence := U16(data, slack, 6);
      glitch := rxSeq != wSequence;
      rxSeq := (wSequence + 1) % 0x1_0000;
      p := WalkTables(data, slack, U16(data, slack, 10), memory);
    }
  }

  lemma BeforeMore(slices: seq<Slice>, packet: Slice, rest: Table)
    ensures Before(slices, Before([packet], rest)) == Before(slices + [packet], rest)
  {
    assert slices + ([packet] + rest.slices) == (slices + [packet]) + rest.slices;
  }

  // --- What holds for any bytes --------------------------------------------------

  /** A non-empty IP packet inside the transfer, for a device that exists. */
  predicate Part(c: Config, x: Slice, data: seq<byte>)
    requires Configured(c)
  {
    && x.dev < c.qmapMode && c.devs[x.dev]
    && x.data != [] && IpNibble(x.data[0])
    && x.from + |x.data| <= |data| && x.data == data[x.from..x.from + |x.data|]
  }

  lemma {:induction false} EntriesDeliver(c: Config, data: seq<byte>, slack: nat -> byte, dev: Option<nat>, at: nat, n: nat, memory: nat)
    requires Configured(c) && (dev.Some? ==> dev.value < c.qmapMode && c.devs[dev.value])
    ensures forall x :: x in Entries(data, slack, dev, at, n, memory).slices ==> Part(c, x, data)
    decreases n
  {
    hide EntryAt;
    if n > 0 && EntryAt(data, slack, dev, at, memory).Datagram? {
      EntriesDeliver(c, data, slack, dev, at + 4, n - 1, memory - 1);
    }
  }

  lemma TableDelivers(c: Config, data: seq<byte>, slack: nat -> byte, ndp: nat, memory: nat)
    requires Configured(c)
    ensures forall x :: x in TableAt(c, data, slack, ndp, memory).slices ==> Part(c, x, data)
  {
    var tci := SessionAt(data, slack, ndp);
    if tci.Some? && Device(c, tci.value).Found? {
      EntriesDeliver(c, data, slack, Device(c, tci.value).dev, ndp + 8, EntryCount(U16(data, slack, ndp + 4)), memory);
    }
  }

  /** Whatever the modem sends, only parts of it are delivered, to devices that exist, and no more than could be allocated. */
  lemma {:induction false} WalkDelivers(c: Config, data: seq<byte>, slack: nat -> byte, ndp: nat, memory: nat, seen: set<int>)
    requires Configured(c) && ndp < 0x1_0000
    ensures forall x :: x in Walk(c, data, slack, ndp, memory, seen).slices ==> Part(c, x, data)
    decreases memory, Offsets() - seen
  {
    hide TableAt;
    if ndp > 0 && ndp !in seen {
      var t := TableAt(c, data, slack, ndp, memory);
      TableDelivers(c, data, slack, ndp, memory);
      if t.end.None? {
        assert IsOffset(ndp);
        WalkDelivers(c, data, slack, NextTable(data, slack, ndp), t.memory, if t.memory < memory then {} else seen + {ndp});
      }
    }
  }

  // --- Whether the loop ends -----------------------------------------------------

  /** The loop between turns: the table to be looked at and how many packets can still be allocated; or that it is over. */
  datatype Loop = Running(ndp: nat, memory: nat) | Over

  function Turn(c: Config, data: seq<byte>, slack: nat -> byte, l: Loop): (l': Loop)
    requires Configured(c)
    ensures l'.Running? ==> l'.ndp < 0x1_0000
  {
    if l.Over? || l.ndp == 0 then Over
    else
      var t := TableAt(c, data, slack, l.ndp, l.memory);
      if t.end.Some? then Over else Running(NextTable(data, slack, l.ndp), t.memory)
  }

  function Turns(c: Config, data: seq<byte>, slack: nat -> byte, l: Loop, k: nat): (l': Loop)
    requires Configured(c)
    decreases k
  {
    if k == 0 then l else Turns(c, data, slack, Turn(c, data, slack, l), k - 1)
  }

  ghost predicate NeverEnds(c: Config, data: seq<byte>, slack: nat -> byte, l: Loop)
    requires Configured(c)
  {
    forall k: nat :: Turns(c, data, slack, l, k).Running?
  }

  /** At turn `j` the loop is at the table it was at before turn `i`, and no packet has been allocated in between. */
  predicate BackAt(c: Config, data: seq<byte>, slack: nat -> byte, l: Loop, i: nat, j: nat)
    requires Configured(c)
  {
    var x, y := Turns(c, data, slack, l, i), Turns(c, data, slack, l, j);
    i < j && x.Running? && y.Running? && x.ndp == y.ndp > 0 && x.memory == y.memory
  }

  lemma {:induction false} TurnsAdd(c: Config, data: seq<byte>, slack: nat -> byte, l: Loop, i: nat, j: nat)
    requires Configured(c)
    ensures Turns(c, data, slack, Turns(c, data, slack, l, i), j) == Turns(c, data, slack, l, i + j)
    decreases i
  {
    hide Turn;
    if i > 0 {
      TurnsAdd(c, data, slack, Turn(c, data, slack, l), i - 1, j);
    }
  }

  lemma {:induction false} OverStays(c: Config, data: seq<byte>, slack: nat -> byte, k: nat)
    requires Configured(c)
    ensures Turns(c, data, slack, Over, k) == Over
    decreases k
  {
    if k > 0 {
      OverStays(c, data, slack, k - 1);
    }
  }

  /** What is over at one turn is over at every later one. */
  lemma OverAfter(c: Config, data: seq<byte>, slack: nat -> byte, l: Loop, i: nat, j: nat)
    requires Configured(c) && i <= j && Turns(c, data, slack, l, i).Over?
    ensures Turns(c, data, slack, l, j).Over?
  {
    TurnsAdd(c, data, slack, l, i, j - i);
    OverStays(c, data, slack, j - i);
  }

  /** A loop that comes round to itself after `d` turns goes on for ever. */
  lemma {:induction false} Cycles(c: Config, data: seq<byte>, slack: nat -> byte, l: Loop, d: nat, k: nat)
    requires Configured(c) && l.Running? && 0 < d && Turns(c, data, slack, l, d) == l
    ensures Turns(c, data, slack, l, k).Running?
    decreases k
  {
    if k >= d {
      TurnsAdd(c, data, slack, l, d, k - d);
      Cycles(c, data, slack, l, d, k - d);
    } else if Turns(c, data, slack, l, k).Over? {
      OverAfter(c, data, slack, l, k, d);
    }
  }

  lemma BackNeverEnds(c: Config, data: seq<byte>, slack: nat -> byte, l: Loop, i: nat, j: nat)
    requires Configured(c) && BackAt(c, data, slack, l, i, j)
    ensures NeverEnds(c, data, slack, l)
  {
    hide Turn, Turns;
    var x := Turns(c, data, slack, l, i);
    TurnsAdd(c, data, slack, l, i, j - i);
    forall k: nat
      ensures Turns(c, data, slack, l, k).Running?
    {
      if k >= i {
        Cycles(c, data, slack, x, j - i, k - i);
        TurnsAdd(c, data, slack, l, i, k - i);
      } else if Turns(c, data, slack, l, k).Over? {
        OverAfter(c, data, slack, l, k, i);
      }
    }
  }

  lemma {:induction false} EntriesEnd(data: seq<byte>, slack: nat -> byte, dev: Option<nat>, at: nat, n: nat, memory: nat)
    ensures Entries(data, slack, dev, at, n, memory).end !in {Some(Hung), Some(BadIndex)}
    decreases n
  {
    if n > 0 && EntryAt(data, slack, dev, at, memory).Datagram? {
      EntriesEnd(data, slack, dev, at + 4, n - 1, memory - 1);
    }
  }

  /** A table by itself never hangs, and is looked up outside exactly for the session just below the first. */
  lemma TableEnd(c: Config, data: seq<byte>, slack: nat -> byte, ndp: nat, memory: nat)
    requires Configured(c)
    ensures TableAt(c, data, slack, ndp, memory).end != Some(Hung)
    ensures TableAt(c, data, slack, ndp, memory).end == Some(BadIndex) <==>
            c.qmapMode > 1 && TableFits(data, slack, ndp) && SessionAt(data, slack, ndp) == Some(c.muxId)
  {
    var tci := SessionAt(data, slack, ndp);
    if tci.Some? && Device(c, tci.value).Found? {
      EntriesEnd(data, slack, Device(c, tci.value).dev, ndp + 8, EntryCount(U16(data, slack, ndp + 4)), memory);
    }
  }

  /** A walk that is not hung comes to its end in some number of turns. */
  lemma {:induction false} WalkEnds(c: Config, data: seq<byte>, slack: nat -> byte, ndp: nat, memory: nat, seen: set<int>) returns (k: nat)
    requires Configured(c) && ndp < 0x1_0000 && Walk(c, data, slack, ndp, memory, seen).end != Hung
    ensures Turns(c, data, slack, Running(ndp, memory), k) == Over
    decreases memory, Offsets() - seen
  {
    hide TableAt;
    var next := Turn(c, data, slack, Running(ndp, memory));
    if next.Over? {
      assert Turns(c, data, slack, next, 0) == Over;
      k := 1;
    } else {
      assert IsOffset(ndp);
      k := WalkEnds(c, data, slack, next.ndp, next.memory, if next.memory < memory then {} else seen + {ndp});
      k := k + 1;
    }
  }

  /** Every table in `seen` was met before turn `k` of the loop that began as `l`, with as many packets to be had as now. */
  ghost predicate Met(c: Config, data: seq<byte>, slack: nat -> byte, l: Loop, k: nat, memory: nat, seen: set<int>)
    requires Configured(c)
  {
    forall o :: o in seen ==> 0 < o && exists i: nat :: i < k && Turns(c, data, slack, l, i) == Running(o, memory)
  }

  lemma MetNext(c: Config, data: seq<byte>, slack: nat -> byte, l: Loop, k: nat, ndp: nat, memory: nat, left: nat, seen: set<int>)
    requires Configured(c) && Met(c, data, slack, l, k, memory, seen) && 0 < ndp
    requires Turns(c, data, slack, l, k) == Running(ndp, memory) && left <= memory
    ensures Met(c, data, slack, l, k + 1, left, if left < memory then {} else seen + {ndp})
  {
    hide Turns;
    if left == memory {
      forall o | o in seen + {ndp}
        ensures 0 < o && exists i: nat :: i < k + 1 && Turns(c, data, slack, l, i) == Running(o, memory)
      {
        if o in seen {
          var i: nat :| i < k && Turns(c, data, slack, l, i) == Running(o, memory);
          assert i < k + 1;
        } else {
          assert k < k + 1;
        }
      }
    }
  }

  /** One that is hung has come back to a table. */
  lemma {:induction false} WalkComesBack(c: Config, data: seq<byte>, slack: nat -> byte, l: Loop, k: nat, ndp: nat, memory: nat, seen: set<int>)
    returns (i: nat, j: nat)
    requires Configured(c) && ndp < 0x1_0000 && Walk(c, data, slack, ndp, memory, seen).end == Hung
    requires Turns(c, data, slack, l, k) == Running(ndp, memory) && Met(c, data, slack, l, k, memory, seen)
    ensures BackAt(c, data, slack, l, i, j)
    decreases memory, Offsets() - seen
  {
    hide TableAt, Turns;
    if ndp in seen {
      i :| i < k && Turns(c, data, slack, l, i) == Running(ndp, memory);
      j := k;
    } else {
      TableEnd(c, data, slack, ndp, memory);
      var t := TableAt(c, data, slack, ndp, memory);
      assert IsOffset(ndp);
      OneTurn(c, data, slack, l, k);
      MetNext(c, data, slack, l, k, ndp, memory, t.memory, seen);
      i, j := WalkComesBack(c, data, slack, l, k + 1, NextTable(data, slack, ndp), t.memory,
                            if t.memory < memory then {} else seen + {ndp});
    }
  }

  lemma OneTurn(c: Config, data: seq<byte>, slack: nat -> byte, l: Loop, k: nat)
    requires Configured(c)
    ensures Turns(c, data, slack, l, k + 1) == Turn(c, data, slack, Turns(c, data, slack, l, k))
  {
    hide Turn;
    TurnsAdd(c, data, slack, l, k, 1);
    var x := Turns(c, data, slack, l, k);
    assert Turns(c, data, slack, x, 1) == Turns(c, data, slack, Turn(c, data, slack, x), 0);
  }

  /**
   The loop over the tables never ends exactly if the chain comes back to a
   table without a packet having been allocated in between; and that is what
   `Hung` says.
   */
  lemma NeverEndsIffComesBack(c: Config, data: seq<byte>, slack: nat -> byte, ndp: nat, memory: nat)
    requires Configured(c) && ndp < 0x1_0000
    ensures NeverEnds(c, data, slack, Running(ndp, memory)) <==> exists i: nat, j: nat :: BackAt(c, data, slack, Running(ndp, memory), i, j)
    ensures NeverEnds(c, data, slack, Running(ndp, memory)) <==> Walk(c, data, slack, ndp, memory, {}).end == Hung
  {
    hide Turn, Walk;
    var l := Running(ndp, memory);
    if Walk(c, data, slack, ndp, memory, {}).end == Hung {
      var i, j := WalkComesBack(c, data, slack, l, 0, ndp, memory, {});
      BackNeverEnds(c, data, slack, l, i, j);
    } else {
      var k := WalkEnds(c, data, slack, ndp, memory, {});
      forall i: nat, j: nat
        ensures !BackAt(c, data, slack, l, i, j)
      {
        if BackAt(c, data, slack, l, i, j) {
          BackNeverEnds(c, data, slack, l, i, j);
        }
      }
    }
  }

  /** Each table the loop meets names a later one, or none. */
  ghost predicate Forward(c: Config, data: seq<byte>, slack: nat -> byte, l: Loop)
    requires Configured(c)
  {
    forall k: nat :: var x := Turns(c, data, slack, l, k);
      x.Running? && x.ndp > 0 ==> NextTable(data, slack, x.ndp) == 0 || NextTable(data, slack, x.ndp) > x.ndp
  }

  lemma {:induction false} ForwardGrows(c: Config, data: seq<byte>, slack: nat -> byte, l: Loop, i: nat, j: nat)
    requires Configured(c) && Forward(c, data, slack, l) && i < j
    requires Turns(c, data, slack, l, j).Running? && Turns(c, data, slack, l, j).ndp > 0
    ensures Turns(c, data, slack, l, i).Running? && Turns(c, data, slack, l, i).ndp < Turns(c, data, slack, l, j).ndp
    decreases j
  {
    hide Turns, TableAt;
    OneTurn(c, data, slack, l, j - 1);
    if i < j - 1 {
      ForwardGrows(c, data, slack, l, i, j - 1);
    }
  }

  /** A chain whose tables each name a later one or none comes to its end. */
  lemma ForwardEnds(c: Config, data: seq<byte>, slack: nat -> byte, ndp: nat, memory: nat)
    requires Configured(c) && ndp < 0x1_0000 && Forward(c, data, slack, Running(ndp, memory))
    ensures !NeverEnds(c, data, slack, Running(ndp, memory))
  {
    hide Turns, Turn;
    NeverEndsIffComesBack(c, data, slack, ndp, memory);
    forall i: nat, j: nat
      ensures !BackAt(c, data, slack, Running(ndp, memory), i, j)
    {
      if BackAt(c, data, slack, Running(ndp, memory), i, j) {
        ForwardGrows(c, data, slack, Running(ndp, memory), i, j);
      }
    }
  }

  /** Twenty-eight bytes: a header, and one table of session `tci` that names `next`, with no entries. */
  function BareBlock(tci: byte, next: byte): seq<byte> {
    [0x4e, 0x43, 0x4d, 0x48, 12, 0, 0, 0, HEADER_SIZE, 0, 12, 0,
     0x49, 0x50, 0x53, tci, 16, 0, next, 0, 0, 0, 0, 0, 0, 0, 0, 0]
  }

  lemma BareFields(tci: byte, next: byte, slack: nat -> byte)
    ensures var data := BareBlock(tci, next);
            && Accepted(data, slack) && U16(data, slack, 10) == 12 && NextTable(data, slack, 12) == next
            && U16(data, slack, 16) == 16 && U16(data, slack, 20) == 0 && SessionAt(data, slack, 12) == Some(tci)
  {
    var data := BareBlock(tci, next);
    assert |data| == HEADER_SIZE;
    assert At(data, slack, 12) == 0x49 && At(data, slack, 13) == 0x50 && At(data, slack, 14) == 0x53 && At(data, slack, 15) == tci;
  }

  lemma BareTable(c: Config, tci: byte, next: byte, slack: nat -> byte, memory: nat)
    requires Configured(c)
    ensures var data := BareBlock(tci, next);
            && TableFits(data, slack, 12)
            && (Device(c, tci).Found? ==> TableAt(c, data, slack, 12, memory) == Table([], memory, None))
  {
    var data := BareBlock(tci, next);
    assert |data| == HEADER_SIZE;
    hide BareBlock, U16, SessionAt, Accepted, NextTable;
    BareFields(tci, next, slack);
    if Device(c, tci).Found? {
      EmptyTable(data, slack, Device(c, tci).dev, memory);
    }
  }

  lemma EmptyTable(data: seq<byte>, slack: nat -> byte, dev: Option<nat>, memory: nat)
    requires U16(data, slack, 20) == 0
    ensures Entries(data, slack, dev, 20, 2, memory) == Table([], memory, None)
  {
  }

  /** Whatever the configuration, such a block whose table names itself keeps the receiver busy for ever. */
  lemma EndlessBlock(c: Config, rxSeq: nat, slack: nat -> byte, memory: nat)
    requires Configured(c)
    ensures var data := BareBlock(Tci(c, MuxOf(c, 0)), 12);
            && Rx(c, rxSeq, data, slack, memory).parsed == Parsed([], Hung)
            && NeverEnds(c, data, slack, Running(12, memory))
  {
    hide TableAt, Accepted, U16, NextTable;
    var tci := Tci(c, MuxOf(c, 0));
    var data := BareBlock(tci, 12);
    SessionIsDevice(c, 0);
    BareFields(tci, 12, slack);
    BareTable(c, tci, 12, slack, memory);
    assert IsOffset(12);
    assert {} + {12} == {12};
    assert Walk(c, data, slack, 12, memory, {12}) == Parsed([], Hung);
    NeverEndsIffComesBack(c, data, slack, 12, memory);
  }

  lemma {:induction false} OneMuxIndexesInside(c: Config, data: seq<byte>, slack: nat -> byte, ndp: nat, memory: nat, seen: set<int>)
    requires Configured(c) && c.qmapMode == 1 && ndp < 0x1_0000
    ensures Walk(c, data, slack, ndp, memory, seen).end != BadIndex
    decreases memory, Offsets() - seen
  {
    hide TableAt;
    if ndp > 0 && ndp !in seen {
      TableEnd(c, data, slack, ndp, memory);
      var t := TableAt(c, data, slack, ndp, memory);
      if t.end.None? {
        assert IsOffset(ndp);
        OneMuxIndexesInside(c, data, slack, NextTable(data, slack, ndp), t.memory, if t.memory < memory then {} else seen + {ndp});
      }
    }
  }

  /** Some block makes the receiver look outside its device table. */
  ghost predicate CanIndexOutside(c: Config)
    requires Configured(c)
  {
    exists data: seq<byte>, rxSeq: nat, slack: nat -> byte, memory: nat :: Rx(c, rxSeq, data, slack, memory).parsed.end == BadIndex
  }

  lemma IndexingBlock(c: Config, rxSeq: nat, slack: nat -> byte, memory: nat)
    requires Configured(c) && c.qmapMode > 1
    ensures Rx(c, rxSeq, BareBlock(c.muxId, 0), slack, memory).parsed.end == BadIndex
  {
    hide TableAt, BareBlock, U16, NextTable, Accepted, SessionAt, TableFits;
    BareFields(c.muxId, 0, slack);
    BareTable(c, c.muxId, 0, slack, memory);
    TableEnd(c, BareBlock(c.muxId, 0), slack, 12, memory);
  }

  /** It can be made to exactly if there are several muxes: by a block for the session just below the first. */
  lemma IndexesOutsideIffSeveralMuxes(c: Config)
    requires Configured(c)
    ensures CanIndexOutside(c) <==> c.qmapMode > 1
  {
    hide Walk;
    if c.qmapMode > 1 {
      IndexingBlock(c, 0, _ => 0, 0);
    } else {
      forall data: seq<byte>, rxSeq: nat, slack: nat -> byte, memory: nat
        ensures Rx(c, rxSeq, data, slack, memory).parsed.end != BadIndex
      {
        OneMuxIndexesInside(c, data, slack, U16(data, slack, 10), memory, {});
      }
    }
  }

  // --- Round trips and runs ------------------------------------------------------

  /** The mux of device `dev`: with one device all traffic uses the first mux. */
  function MuxOf(c: Config, dev: nat): (mux: byte)
    requires Configured(c) && dev < c.qmapMode
  {
    c.muxId + dev
  }

  predicate Receivable(c: Config, dev: nat, payload: seq<byte>)
    requires Configured(c) && dev < c.qmapMode
  {
    c.devs[dev] && 1 <= |payload| && HEADER_SIZE + |payload| <= NTB_IN_MAX_SIZE && IpNibble(payload[0])
  }

  /** The bytes of a block's header. */
  lemma BlockBytes(tci: byte, payload: seq<byte>, seqNo: nat)
    ensures var data := Block(tci, payload, seqNo);
            && |data| == HEADER_SIZE + |payload| && data[HEADER_SIZE..] == payload
            && data[..HEADER_SIZE] == Header(tci, |payload|, Le16(seqNo)[0], Le16(seqNo)[1])
  {
  }

  lemma BlockAt(tci: byte, payload: seq<byte>, seqNo: nat, slack: nat -> byte)
    ensures forall i: nat :: i < HEADER_SIZE ==>
              At(Block(tci, payload, seqNo), slack, i) == Header(tci, |payload|, Le16(seqNo)[0], Le16(seqNo)[1])[i]
  {
    hide Block, Header, Le16;
    BlockBytes(tci, payload, seqNo);
    var data := Block(tci, payload, seqNo);
    forall i: nat | i < HEADER_SIZE
      ensures At(data, slack, i) == data[..HEADER_SIZE][i]
    {
    }
  }

  /** The transfer header, as the receiver reads it. */
  lemma BlockHead(tci: byte, payload: seq<byte>, seqNo: nat, slack: nat -> byte)
    requires seqNo < 0x1_0000
    ensures var data := Block(tci, payload, seqNo);
            && (Accepted(data, slack) <==> (HEADER_SIZE + |payload|) % 0x1_0000 <= NTB_IN_MAX_SIZE)
            && U16(data, slack, 6) == seqNo && U16(data, slack, 10) == 12
  {
    hide Block, Le16;
    var data := Block(tci, payload, seqNo);
    BlockBytes(tci, payload, seqNo);
    BlockAt(tci, payload, seqNo, slack);
    Fields(seqNo);
    Fields(HEADER_SIZE + |payload|);
    assert data[0] == At(data, slack, 0) && data[1] == At(data, slack, 1) && data[2] == At(data, slack, 2) && data[3] == At(data, slack, 3);
  }

  /** The table header and the two entries. */
  lemma BlockTables(tci: byte, payload: seq<byte>, seqNo: nat, slack: nat -> byte)
    ensures var data := Block(tci, payload, seqNo);
            && SessionAt(data, slack, 12) == Some(tci)
            && U16(data, slack, 16) == 16 && NextTable(data, slack, 12) == 0
            && U16(data, slack, 20) == HEADER_SIZE && U16(data, slack, 22) == |payload| % 0x1_0000 && U16(data, slack, 24) == 0
  {
    hide Block, At;
    BlockAt(tci, payload, seqNo, slack);
    Fields(|payload|);
    var data := Block(tci, payload, seqNo);
    assert At(data, slack, 12) == 0x49 && At(data, slack, 13) == 0x50 && At(data, slack, 14) == 0x53 && At(data, slack, 15) == tci;
    assert At(data, slack, 22) == Le16(|payload|)[0] && At(data, slack, 23) == Le16(|payload|)[1];
    hide Header, Le16;
  }

  /** The session of a device's mux leads back to the device. */
  lemma SessionIsDevice(c: Config, dev: nat)
    requires Configured(c) && dev < c.qmapMode
    ensures Device(c, Tci(c, MuxOf(c, dev))) == Found(if c.devs[dev] then Some(dev) else None)
  {
  }

  /** A datagram that fits the length field and the receiver. */
  predicate Fits(payload: seq<byte>) {
    1 <= |payload| <= NTB_IN_MAX_SIZE && IpNibble(payload[0])
  }

  /** The datagram entry is the whole payload exactly if it fits. */
  lemma BlockEntry(dev: Option<nat>, tci: byte, payload: seq<byte>, seqNo: nat, slack: nat -> byte, memory: nat)
    requires 1 <= memory
    ensures var e := EntryAt(Block(tci, payload, seqNo), slack, dev, 20, memory);
            && (dev.Some? && Fits(payload) ==> e == Datagram(Slice(dev.value, HEADER_SIZE, payload)))
            && (e.Datagram? && e.slice.data == payload ==> dev.Some? && Fits(payload))
  {
    hide Block, U16, At;
    var data := Block(tci, payload, seqNo);
    BlockBytes(tci, payload, seqNo);
    BlockTables(tci, payload, seqNo, slack);
    if 1 <= |payload| <= NTB_IN_MAX_SIZE {
      assert data[HEADER_SIZE..][0] == payload[0];
      assert data[HEADER_SIZE..HEADER_SIZE + |payload|] == data[HEADER_SIZE..];
    }
  }

  /** The one table of a block. */
  lemma BlockTable(c: Config, dev: nat, payload: seq<byte>, seqNo: nat, slack: nat -> byte, memory: nat)
    requires Configured(c) && dev < c.qmapMode && 1 <= memory
    ensures var t := TableAt(c, Block(Tci(c, MuxOf(c, dev)), payload, seqNo), slack, 12, memory);
            && (c.devs[dev] && Fits(payload) ==> t == Table([Slice(dev, HEADER_SIZE, payload)], memory - 1, None))
            && (t.slices == [Slice(dev, HEADER_SIZE, payload)] ==> c.devs[dev] && Fits(payload))
  {
    hide Block, EntryAt, Session, Device, Tci, U16, At, Fits, Entries;
    var tci := Tci(c, MuxOf(c, dev));
    var data := Block(tci, payload, seqNo);
    var d := if c.devs[dev] then Some(dev) else None;
    SessionIsDevice(c, dev);
    BlockBytes(tci, payload, seqNo);
    BlockTables(tci, payload, seqNo, slack);
    assert TableAt(c, data, slack, 12, memory) == Entries(data, slack, d, 20, 2, memory);
    BlockEntries(d, tci, payload, seqNo, slack, memory);
  }

  lemma BlockEntries(dev: Option<nat>, tci: byte, payload: seq<byte>, seqNo: nat, slack: nat -> byte, memory: nat)
    requires 1 <= memory
    ensures var t := Entries(Block(tci, payload, seqNo), slack, dev, 20, 2, memory);
            && (dev.Some? && Fits(payload) ==> t == Table([Slice(dev.value, HEADER_SIZE, payload)], memory - 1, None))
            && (forall k :: t.slices == [Slice(k, HEADER_SIZE, payload)] ==> dev.Some? && Fits(payload))
  {
    hide Block, EntryAt, U16, Fits;
    var data := Block(tci, payload, seqNo);
    BlockEntry(dev, tci, payload, seqNo, slack, memory);
    BlockTables(tci, payload, seqNo, slack);
    SecondEntry(data, slack, dev, memory - 1);
    var e, t := EntryAt(data, slack, dev, 20, memory), Entries(data, slack, dev, 20, 2, memory);
    if e.Datagram? {
      assert t.slices[0] == e.slice;
    }
  }

  lemma SecondEntry(data: seq<byte>, slack: nat -> byte, dev: Option<nat>, memory: nat)
    requires U16(data, slack, 24) == 0
    ensures Entries(data, slack, dev, 24, 1, memory) == Table([], memory, None)
  {
  }

  /**
   A block the sender built comes back as the datagram it was built from, on the
   device whose mux sent it, exactly if that device exists, the datagram is an
   IP packet and the block is no longer than the receiver takes.
   */
  lemma RoundTripIffReceivable(c: Config, dev: nat, payload: seq<byte>, seqNo: nat, rxSeq: nat, slack: nat -> byte, memory: nat)
    requires Configured(c) && dev < c.qmapMode && seqNo < 0x1_0000 && 1 <= memory
    ensures var r := Rx(c, rxSeq, Block(Tci(c, MuxOf(c, dev)), payload, seqNo), slack, memory);
            && (r.parsed == Parsed([Slice(dev, HEADER_SIZE, payload)], Done) <==> Receivable(c, dev, payload))
            && (Receivable(c, dev, payload) ==> r.rxSeq == (seqNo + 1) % 0x1_0000 && (r.glitch <==> rxSeq != seqNo))
  {
    hide TableAt, Block, Accepted, U16, NextTable, Tci;
    var tci := Tci(c, MuxOf(c, dev));
    var data := Block(tci, payload, seqNo);
    BlockHead(tci, payload, seqNo, slack);
    BlockTables(tci, payload, seqNo, slack);
    BlockTable(c, dev, payload, seqNo, slack, memory);
    OneTable(c, data, slack, memory);
  }

  /** A chain of one table. */
  lemma OneTable(c: Config, data: seq<byte>, slack: nat -> byte, memory: nat)
    requires Configured(c) && NextTable(data, slack, 12) == 0
    ensures var t := TableAt(c, data, slack, 12, memory);
            Walk(c, data, slack, 12, memory, {}) == Parsed(t.slices, if t.end.Some? then t.end.value else Done)
  {
    hide TableAt, NextTable;
    var t := TableAt(c, data, slack, 12, memory);
    assert t.slices + [] == t.slices;
  }

  /** A datagram sent, and whether its block is lost on the way. */
  datatype Shipment = Shipment(dev: nat, payload: seq<byte>, lost: bool)

  datatype Arrived = Arrived(parsed: Parsed, glitch: bool)

  /** The two sequence counters, and what has arrived. */
  datatype Wire = Wire(txSeq: nat, rxSeq: nat, arrived: seq<Arrived>)

  ghost predicate Shippable(c: Config, ships: seq<Shipment>) {
    Configured(c) && forall i :: 0 <= i < |ships| ==> ships[i].dev < c.qmapMode && Receivable(c, ships[i].dev, ships[i].payload)
  }

  function Ship(c: Config, w: Wire, x: Shipment, slack: nat -> byte, memory: nat): Wire
    requires Configured(c) && x.dev < c.qmapMode
  {
    var sent := w.(txSeq := (w.txSeq + 1) % 0x1_0000);
    if x.lost then sent
    else
      var r := Rx(c, w.rxSeq, Block(Tci(c, MuxOf(c, x.dev)), x.payload, w.txSeq), slack, memory);
      sent.(rxSeq := r.rxSeq, arrived := w.arrived + [Arrived(r.parsed, r.glitch)])
  }

  ghost function ShipAll(c: Config, w: Wire, ships: seq<Shipment>, slack: nat -> byte, memory: nat): Wire
    requires Shippable(c, ships)
    decreases |ships|
  {
    if ships == [] then w else Ship(c, ShipAll(c, w, ships[..|ships|-1], slack, memory), ships[|ships|-1], slack, memory)
  }

  /** How many blocks at the end of the run have been lost since the last arrival. */
  function LostSince(ships: seq<Shipment>): nat {
    if ships == [] || !ships[|ships|-1].lost then 0 else LostSince(ships[..|ships|-1]) + 1
  }

  function Arrivals(ships: seq<Shipment>): seq<Shipment> {
    if ships == [] then []
    else Arrivals(ships[..|ships|-1]) + if ships[|ships|-1].lost then [] else [ships[|ships|-1]]
  }

  /** What one shipment gives back if it is not lost. */
  function Given(x: Shipment): Parsed { Parsed([Slice(x.dev, HEADER_SIZE, x.payload)], Done) }

  /** The arrivals are the given datagrams, in order. */
  ghost predicate InOrder(w: Wire, arrivals: seq<Shipment>) {
    && |w.arrived| == |arrivals|
    && forall i :: 0 <= i < |arrivals| ==> w.arrived[i].parsed == Given(arrivals[i])
  }

  /** The receiver is behind the sender by `lost` blocks, counted in 16 bits. */
  predicate Behind(w: Wire, lost: nat) {
    w.txSeq < 0x1_0000 && w.rxSeq < 0x1_0000 && w.txSeq == (w.rxSeq + lost) % 0x1_0000
  }

  lemma ShipOne(c: Config, w: Wire, x: Shipment, slack: nat -> byte, memory: nat, arrivals: seq<Shipment>, lost: nat)
    requires Configured(c) && x.dev < c.qmapMode && Receivable(c, x.dev, x.payload) && 1 <= memory
    requires InOrder(w, arrivals) && Behind(w, lost)
    ensures var w' := Ship(c, w, x, slack, memory);
            && w'.txSeq == (w.txSeq + 1) % 0x1_0000
            && InOrder(w', arrivals + if x.lost then [] else [x]) && Behind(w', if x.lost then lost + 1 else 0)
            && (!x.lost ==> (w'.arrived[|arrivals|].glitch <==> lost % 0x1_0000 != 0))
  {
    hide Rx, Block, Tci;
    if x.lost {
      assert arrivals + [] == arrivals;
    } else {
      RoundTripIffReceivable(c, x.dev, x.payload, w.txSeq, w.rxSeq, slack, memory);
    }
  }

  /**
   Over any run, with any losses: every block that arrives gives back its
   datagram on its device, in order, and the receiver is behind the sender by
   the blocks lost since the last arrival.
   */
  lemma {:induction false} RunDelivers(c: Config, ships: seq<Shipment>, slack: nat -> byte, memory: nat)
    requires Shippable(c, ships) && 1 <= memory
    ensures var w := ShipAll(c, Wire(0, 0, []), ships, slack, memory);
            w.txSeq == |ships| % 0x1_0000 && InOrder(w, Arrivals(ships)) && Behind(w, LostSince(ships))
    decreases |ships|
  {
    hide Ship, Receivable, InOrder, Behind;
    if ships == [] {
      NothingShipped();
    } else {
      var init, x := ships[..|ships|-1], ships[|ships|-1];
      RunDelivers(c, init, slack, memory);
      ShipOne(c, ShipAll(c, Wire(0, 0, []), init, slack, memory), x, slack, memory, Arrivals(init), LostSince(init));
    }
  }

  lemma NothingShipped()
    ensures InOrder(Wire(0, 0, []), []) && Behind(Wire(0, 0, []), 0)
  {
  }

  /**
   An arrival is taken for out of turn exactly if the blocks lost just before it
   are not a multiple of 65536: never without losses, however long the run.
   */
  lemma GlitchIffLost(c: Config, ships: seq<Shipment>, x: Shipment, slack: nat -> byte, memory: nat)
    requires Shippable(c, ships + [x]) && Shippable(c, ships) && 1 <= memory && !x.lost
    ensures var w := ShipAll(c, Wire(0, 0, []), ships + [x], slack, memory);
            w.arrived != [] && (w.arrived[|w.arrived|-1].glitch <==> LostSince(ships) % 0x1_0000 != 0)
  {
    hide Ship, Receivable;
    RunDelivers(c, ships, slack, memory);
    var all := ships + [x];
    assert all[..|ships|] == ships && all[|ships|] == x;
    ShipOne(c, ShipAll(c, Wire(0, 0, []), ships, slack, memory), x, slack, memory, Arrivals(ships), LostSince(ships));
  }
}
