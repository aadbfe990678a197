/**
 What the MBIM receiver delivers from a block of any shape.

 A table is read entry by entry, and the tables of a block one after the other.
 Both are described here by what the bytes say at each place, not by the loops
 that read them: which entries a table delivers, which tables and blocks are
 turned down, and that a block which holds a list of datagrams, in one table or
 several, delivers that list.
 */
module MbimTables {
  import opened Basics
  import opened Skbs
  import opened Mbim

  /** The offset and the length that entry `i` of the table whose entries start at `at` gives. */
  function OffsetOf(data: seq<byte>, slack: nat -> byte, at: nat, i: nat): (n: nat) { U16(data, slack, at + 4 * i) }

  function LengthOf(data: seq<byte>, slack: nat -> byte, at: nat, i: nat): (n: nat) { U16(data, slack, at + 4 * i + 2) }

  /** The entry ends the table. */
  predicate Zero(data: seq<byte>, slack: nat -> byte, at: nat, i: nat) {
    OffsetOf(data, slack, at, i) == 0 || LengthOf(data, slack, at, i) == 0
  }

  /** The entry is a datagram for the device: inside the transfer, not too long, IP, and allocated. */
  predicate Good(data: seq<byte>, slack: nat -> byte, dev: Option<nat>, at: nat, i: nat, memory: nat) {
    var from, len := OffsetOf(data, slack, at, i), LengthOf(data, slack, at, i);
    && !Zero(data, slack, at, i) && from + len <= |data| && len <= NTB_IN_MAX_SIZE
    && i < memory && IpNibble(data[from]) && dev.Some?
  }

  /** The datagram it gives. */
  function Named(data: seq<byte>, slack: nat -> byte, dev: Option<nat>, at: nat, i: nat, memory: nat): Slice
    requires Good(data, slack, dev, at, i, memory)
  {
    var from := OffsetOf(data, slack, at, i);
    Slice(dev.value, from, data[from..from + LengthOf(data, slack, at, i)])
  }

  /**
   What a table of `n` entries delivers are its entries from the first on, each
   the bytes that the entry gives, up to the first that is zero or no datagram or
   to the end; and the loop goes on behind the table exactly unless that one is
   no datagram.
   */
  predicate ByIndex(data: seq<byte>, slack: nat -> byte, dev: Option<nat>, at: nat, n: nat, memory: nat, t: Table) {
    var k := |t.slices|;
    && k <= n
    && (forall i :: 0 <= i < k ==> Good(data, slack, dev, at, i, memory) && t.slices[i] == Named(data, slack, dev, at, i, memory))
    && (k < n ==> !Good(data, slack, dev, at, k, memory))
    && (t.end.None? <==> k == n || Zero(data, slack, at, k))
    && (t.end.None? ==> t.memory == memory - k)
  }

  /** The entries behind the first are the entries of a table four bytes further on. */
  lemma Shifted(data: seq<byte>, slack: nat -> byte, dev: Option<nat>, at: nat, i: nat, memory: nat)
    requires memory > 0
    ensures Zero(data, slack, at, i + 1) <==> Zero(data, slack, at + 4, i)
    ensures Good(data, slack, dev, at, i + 1, memory) <==> Good(data, slack, dev, at + 4, i, memory - 1)
    ensures Good(data, slack, dev, at, i + 1, memory) ==>
              Named(data, slack, dev, at, i + 1, memory) == Named(data, slack, dev, at + 4, i, memory - 1)
  {
    hide U16;
  }

  lemma FirstEntry(data: seq<byte>, slack: nat -> byte, dev: Option<nat>, at: nat, memory: nat)
    ensures var e := EntryAt(data, slack, dev, at, memory);
            && (e.Last? <==> Zero(data, slack, at, 0))
            && (e.Datagram? <==> Good(data, slack, dev, at, 0, memory))
            && (e.Datagram? ==> e.slice == Named(data, slack, dev, at, 0, memory))
  {
    hide U16;
  }

  lemma ByIndexGrows(data: seq<byte>, slack: nat -> byte, dev: Option<nat>, at: nat, n: nat, memory: nat, x: Slice, rest: Table)
    requires n > 0 && memory > 0 && ByIndex(data, slack, dev, at + 4, n - 1, memory - 1, rest)
    requires Good(data, slack, dev, at, 0, memory) && x == Named(data, slack, dev, at, 0, memory)
    ensures ByIndex(data, slack, dev, at, n, memory, Before([x], rest))
  {
    hide Good, Zero, Named;
    var t, k := Before([x], rest), |rest.slices|;
    assert t.slices == [x] + rest.slices;
    forall i | 0 <= i < |t.slices|
      ensures Good(data, slack, dev, at, i, memory) && t.slices[i] == Named(data, slack, dev, at, i, memory)
    {
      if i > 0 {
        Shifted(data, slack, dev, at, i - 1, memory);
        assert t.slices[i] == rest.slices[i - 1];
      }
    }
    Shifted(data, slack, dev, at, k, memory);
  }

  /** For any bytes. */
  lemma {:induction false} EntriesByIndex(data: seq<byte>, slack: nat -> byte, dev: Option<nat>, at: nat, n: nat, memory: nat)
    ensures ByIndex(data, slack, dev, at, n, memory, Entries(data, slack, dev, at, n, memory))
    decreases n
  {
    hide Good, Zero, Named, EntryAt;
    if n > 0 {
      FirstEntry(data, slack, dev, at, memory);
      var e := EntryAt(data, slack, dev, at, memory);
      if e.Datagram? {
        EntriesByIndex(data, slack, dev, at + 4, n - 1, memory - 1);
        hide ByIndex;
        ByIndexGrows(data, slack, dev, at, n, memory, e.slice, Entries(data, slack, dev, at + 4, n - 1, memory - 1));
      }
    }
  }

  /** The signature of a table of session number `tci`: of the first kind, or of the second, numbered from 256. */
  predicate Signed(data: seq<byte>, slack: nat -> byte, ndp: nat, tci: nat) {
    var b := (i: nat) => At(data, slack, ndp + i);
    || (b(0) == 0x49 && b(1) == 0x50 && b(2) == 0x53 && b(3) == tci)
    || (b(0) == 0x44 && b(1) == 0x53 && b(2) == 0x53 && b(3) + 256 == tci)
  }

  /** The receiver has a mux for the session, or is just below the first of several. */
  predicate OfARange(c: Config, tci: nat) {
    if c.qmapMode == 1 then tci == c.muxId else c.muxId <= tci <= c.muxId + c.qmapMode
  }

  /** A table the receiver turns down, with all that follows: cut off, too short, of unknown form or for no session of its range. */
  lemma TableRefused(c: Config, data: seq<byte>, slack: nat -> byte, ndp: nat, memory: nat)
    requires Configured(c)
    requires || |data| < ndp + 8 || U16(data, slack, ndp + 4) < 16 || 8 + (U16(data, slack, ndp + 4) - 8) / 4 * 4 > |data|
             || (forall tci: nat :: Signed(data, slack, ndp, tci) ==> !OfARange(c, tci))
    ensures TableAt(c, data, slack, ndp, memory) == Table([], memory, Some(GaveUp))
  {
    var tci := SessionAt(data, slack, ndp);
    if tci.Some? {
      assert Signed(data, slack, ndp, tci.value);
    }
  }

  /** A datagram table at `ndp` that lists `payloads` for device `dev`. */
  datatype Listing = Listing(ndp: nat, dev: nat, payloads: seq<seq<byte>>)

  predicate Lists(c: Config, data: seq<byte>, slack: nat -> byte, l: Listing)
    requires Configured(c)
  {
    var wLength := U16(data, slack, l.ndp + 4);
    var count := (wLength - 8) / 4;
    && l.dev < c.qmapMode && c.devs[l.dev]
    && 0 < l.ndp && l.ndp + 8 <= |data| && 16 <= wLength && 8 + count * 4 <= |data|
    && At(data, slack, l.ndp) == 0x49 && At(data, slack, l.ndp + 1) == 0x50 && At(data, slack, l.ndp + 2) == 0x53
    && At(data, slack, l.ndp + 3) == Tci(c, MuxOf(c, l.dev))
    && |l.payloads| <= count
    && (forall i :: 0 <= i < |l.payloads| ==> Holds(data, slack, l.ndp + 8, i, l.payloads[i]))
    && (|l.payloads| < count ==> Zero(data, slack, l.ndp + 8, |l.payloads|))
  }

  /** Entry `i` gives an IP datagram's place and length. */
  predicate Holds(data: seq<byte>, slack: nat -> byte, at: nat, i: nat, payload: seq<byte>) {
    var from := OffsetOf(data, slack, at, i);
    && 1 <= |payload| <= NTB_IN_MAX_SIZE && IpNibble(payload[0])
    && 0 < from && LengthOf(data, slack, at, i) == |payload|
    && from + |payload| <= |data| && data[from..from + |payload|] == payload
  }

  /** The tables follow one another from `first` on, the last naming none. */
  predicate Chain(c: Config, data: seq<byte>, slack: nat -> byte, ls: seq<Listing>, first: nat)
    requires Configured(c)
  {
    if ls == [] then first == 0
    else first == ls[0].ndp && Lists(c, data, slack, ls[0]) && Chain(c, data, slack, ls[1..], NextTable(data, slack, first))
  }

  predicate Different(ls: seq<Listing>) { forall i, j :: 0 <= i < j < |ls| ==> ls[i].ndp != ls[j].ndp }

  /** The datagrams of all tables, each with its device. */
  function Listed(ls: seq<Listing>): seq<(nat, seq<byte>)> {
    if ls == [] then []
    else seq(|ls[0].payloads|, i requires 0 <= i < |ls[0].payloads| => (ls[0].dev, ls[0].payloads[i])) + Listed(ls[1..])
  }

  function Got(slices: seq<Slice>): seq<(nat, seq<byte>)> {
    seq(|slices|, i requires 0 <= i < |slices| => (slices[i].dev, slices[i].data))
  }

  lemma HoldsGood(data: seq<byte>, slack: nat -> byte, dev: nat, at: nat, i: nat, payload: seq<byte>, memory: nat)
    requires Holds(data, slack, at, i, payload) && i < memory
    ensures Good(data, slack, Some(dev), at, i, memory)
    ensures !Zero(data, slack, at, i)
    ensures Named(data, slack, Some(dev), at, i, memory).dev == dev && Named(data, slack, Some(dev), at, i, memory).data == payload
  {
    hide U16;
    var from := OffsetOf(data, slack, at, i);
    assert data[from..from + |payload|][0] == data[from];
  }

  /** A table that lists datagrams delivers all of them, in order, and the loop goes on. */
  lemma ListsDelivered(data: seq<byte>, slack: nat -> byte, dev: nat, at: nat, n: nat, payloads: seq<seq<byte>>, memory: nat)
    requires |payloads| <= n && |payloads| <= memory
    requires forall i :: 0 <= i < |payloads| ==> Holds(data, slack, at, i, payloads[i])
    requires |payloads| < n ==> Zero(data, slack, at, |payloads|)
    ensures var t := Entries(data, slack, Some(dev), at, n, memory);
            && t.end == None && t.memory == memory - |payloads| && |t.slices| == |payloads|
            && forall i :: 0 <= i < |payloads| ==> t.slices[i].dev == dev && t.slices[i].data == payloads[i]
  {
    EntriesByIndex(data, slack, Some(dev), at, n, memory);
    ListedByIndex(data, slack, dev, at, n, payloads, memory, Entries(data, slack, Some(dev), at, n, memory));
  }

  lemma ListedByIndex(data: seq<byte>, slack: nat -> byte, dev: nat, at: nat, n: nat, payloads: seq<seq<byte>>, memory: nat, t: Table)
    requires |payloads| <= n && |payloads| <= memory && ByIndex(data, slack, Some(dev), at, n, memory, t)
    requires forall i :: 0 <= i < |payloads| ==> Holds(data, slack, at, i, payloads[i])
    requires |payloads| < n ==> Zero(data, slack, at, |payloads|)
    ensures t.end == None && t.memory == memory - |payloads| && |t.slices| == |payloads|
    ensures forall i :: 0 <= i < |payloads| ==> t.slices[i].dev == dev && t.slices[i].data == payloads[i]
  {
    hide Good, Zero, Named, Holds;
    var k := |t.slices|;
    if k < |payloads| {
      HoldsGood(data, slack, dev, at, k, payloads[k], memory);
    } else if k > |payloads| {
      GoodIsNotZero(data, slack, dev, at, |payloads|, memory);
    }
    forall i | 0 <= i < |payloads|
      ensures t.slices[i].dev == dev && t.slices[i].data == payloads[i]
    {
      HoldsGood(data, slack, dev, at, i, payloads[i], memory);
    }
  }

  lemma GoodIsNotZero(data: seq<byte>, slack: nat -> byte, dev: nat, at: nat, i: nat, memory: nat)
    requires Good(data, slack, Some(dev), at, i, memory)
    ensures !Zero(data, slack, at, i)
  {
  }

  lemma TableDelivered(c: Config, data: seq<byte>, slack: nat -> byte, l: Listing, memory: nat)
    requires Configured(c) && Lists(c, data, slack, l) && |l.payloads| <= memory
    ensures var t := TableAt(c, data, slack, l.ndp, memory);
            t.end == None && t.memory == memory - |l.payloads| && Got(t.slices) == Listed([l])
  {
    hide Entries, Holds, Zero, U16, At;
    SessionIsDevice(c, l.dev);
    ListsDelivered(data, slack, l.dev, l.ndp + 8, (U16(data, slack, l.ndp + 4) - 8) / 4, l.payloads, memory);
  }

  lemma {:induction false} ChainDelivers(c: Config, data: seq<byte>, slack: nat -> byte, ls: seq<Listing>, first: nat, memory: nat, seen: set<int>)
    requires Configured(c) && first < 0x1_0000 && Chain(c, data, slack, ls, first) && Different(ls)
    requires |Listed(ls)| <= memory && forall i :: 0 <= i < |ls| ==> ls[i].ndp !in seen
    ensures var p := Walk(c, data, slack, first, memory, seen); Got(p.slices) == Listed(ls) && p.end == Done
    decreases |ls|
  {
    hide TableAt, Lists, U16;
    if ls != [] {
      assert Lists(c, data, slack, ls[0]) && first > 0 by {
        ListsStarts(c, data, slack, ls[0]);
      }
      GivenOne(ls);
      TableDelivered(c, data, slack, ls[0], memory);
      var t := TableAt(c, data, slack, first, memory);
      assert |t.slices| == |Got(t.slices)|;
      var next, now := NextTable(data, slack, first), if t.memory < memory then {} else seen + {first};
      assert forall i :: 0 <= i < |ls[1..]| ==> ls[1..][i] == ls[i + 1];
      assert IsOffset(first);
      ChainDelivers(c, data, slack, ls[1..], next, t.memory, now);
      GotBoth(t.slices, Walk(c, data, slack, next, t.memory, now).slices);
    }
  }

  lemma ListsStarts(c: Config, data: seq<byte>, slack: nat -> byte, l: Listing)
    requires Configured(c) && Lists(c, data, slack, l)
    ensures 0 < l.ndp
  {
  }

  lemma GivenOne(ls: seq<Listing>)
    requires ls != []
    ensures Listed(ls) == Listed([ls[0]]) + Listed(ls[1..]) && |Listed([ls[0]])| == |ls[0].payloads|
  {
    assert [ls[0]][1..] == [];
  }

  lemma GotBoth(a: seq<Slice>, b: seq<Slice>)
    ensures Got(a + b) == Got(a) + Got(b)
  {
  }

  /**
   A block that holds any list of datagrams, for any of the devices, in one table
   or a chain of tables, is delivered whole and in order.
   */
  lemma BlockDelivers(c: Config, rxSeq: nat, data: seq<byte>, slack: nat -> byte, ls: seq<Listing>, memory: nat)
    requires Configured(c) && 20 <= |data| && data[..4] == [0x4e, 0x43, 0x4d, 0x48] && U16(data, slack, 8) <= 0x8000
    requires Chain(c, data, slack, ls, U16(data, slack, 10)) && Different(ls) && |Listed(ls)| <= memory
    ensures var r := Rx(c, rxSeq, data, slack, memory);
            && Got(r.parsed.slices) == Listed(ls) && r.parsed.end == Done
            && r.rxSeq == (U16(data, slack, 6) + 1) % 0x1_0000 && (r.glitch <==> U16(data, slack, 6) != rxSeq)
  {
    assert forall i :: 0 <= i < 4 ==> data[..4][i] == data[i];
    ChainDelivers(c, data, slack, ls, U16(data, slack, 10), memory, {});
    hide Walk, Chain, U16;
  }

  /** A transfer that is too short, of another form or too long is turned down whole, and leaves the sequence number alone. */
  lemma BlockRefused(c: Config, rxSeq: nat, data: seq<byte>, slack: nat -> byte, memory: nat)
    requires Configured(c)
    requires |data| < 20 || data[..4] != [0x4e, 0x43, 0x4d, 0x48] || U16(data, slack, 8) > 0x8000
    ensures Rx(c, rxSeq, data, slack, memory) == Reception(Parsed([], GaveUp), rxSeq, false)
  {
    hide U16, Walk;
  }

  /** Thirty-eight bytes with two datagrams of one byte each in one table: the block's header, the table, and the rest. */
  function TwoDatagrams(tci: byte): seq<byte> { HeadOfTwo() + (TableOfBoth(tci) + BodyOfTwo()) }

  function HeadOfTwo(): seq<byte> { [0x4e, 0x43, 0x4d, 0x48, 12, 0, 0, 0, 38, 0, 12, 0] }

  function TableOfBoth(tci: byte): seq<byte> { [0x49, 0x50, 0x53, tci, 16, 0, 0, 0, 36, 0, 1, 0, 37, 0, 1, 0] }

  function BodyOfTwo(): seq<byte> { [0, 0, 0, 0, 0, 0, 0, 0, 0x45, 0x46] }

  /** Both are delivered. */
  lemma BothDelivered(c: Config, rxSeq: nat, slack: nat -> byte, memory: nat)
    requires Configured(c) && c.devs[0] && 2 <= memory
    ensures var r := Rx(c, rxSeq, TwoDatagrams(Tci(c, MuxOf(c, 0))), slack, memory);
            r.parsed == Parsed([Slice(0, 36, [0x45]), Slice(0, 37, [0x46])], Done)
  {
    var data := TwoDatagrams(Tci(c, MuxOf(c, 0)));
    TwoFields(Tci(c, MuxOf(c, 0)), slack);
    TableOfTwo(c, data, slack, memory);
    OnlyTable(c, data, slack, 12, memory);
    hide TwoDatagrams, U16, NextTable, TableAt, Walk, Accepted;
  }

  lemma TableOfTwo(c: Config, data: seq<byte>, slack: nat -> byte, memory: nat)
    requires Configured(c) && c.devs[0] && 2 <= memory && data == TwoDatagrams(Tci(c, MuxOf(c, 0)))
    ensures TableAt(c, data, slack, 12, memory) == Table([Slice(0, 36, [0x45]), Slice(0, 37, [0x46])], memory - 2, None)
  {
    TwoFields(Tci(c, MuxOf(c, 0)), slack);
    SessionIsDevice(c, 0);
    hide TwoDatagrams, U16, SessionAt, Entries;
    TwoEntries(data, slack, memory);
  }

  lemma OnlyTable(c: Config, data: seq<byte>, slack: nat -> byte, ndp: nat, memory: nat)
    requires Configured(c) && 0 < ndp < 0x1_0000 && NextTable(data, slack, ndp) == 0
    requires TableAt(c, data, slack, ndp, memory).end == None
    ensures Walk(c, data, slack, ndp, memory, {}) == Parsed(TableAt(c, data, slack, ndp, memory).slices, Done)
  {
    hide TableAt, NextTable;
    assert IsOffset(ndp);
    var t := TableAt(c, data, slack, ndp, memory);
    assert t.slices + [] == t.slices;
  }

  lemma TwoFields(tci: byte, slack: nat -> byte)
    ensures var data := TwoDatagrams(tci);
            && |data| == 38 && data[36] == 0x45 && data[37] == 0x46
            && Accepted(data, slack) && U16(data, slack, 10) == 12 && U16(data, slack, 16) == 16 && NextTable(data, slack, 12) == 0
            && U16(data, slack, 20) == 36 && U16(data, slack, 22) == 1 && U16(data, slack, 24) == 37 && U16(data, slack, 26) == 1
            && SessionAt(data, slack, 12) == Some(tci)
  {
    TwoBytes(tci);
    hide TwoDatagrams;
    AtIs(TwoDatagrams(tci), slack, 12);
  }

  lemma TwoBytes(tci: byte)
    ensures var d := TwoDatagrams(tci);
            && |d| == 38 && d[0] == 0x4e && d[1] == 0x43 && d[2] == 0x4d && d[3] == 0x48 && d[8] == 38 && d[9] == 0 && d[10] == 12 && d[11] == 0
            && d[12] == 0x49 && d[13] == 0x50 && d[14] == 0x53 && d[15] == tci && d[16] == 16 && d[17] == d[18] == d[19] == 0
            && d[20] == 36 && d[21] == 0 && d[22] == 1 && d[23] == 0 && d[24] == 37 && d[25] == 0 && d[26] == 1 && d[27] == 0
            && d[36] == 0x45 && d[37] == 0x46
  {
    var a, b, c, d := HeadOfTwo(), TableOfBoth(tci), BodyOfTwo(), TwoDatagrams(tci);
    assert |a| == 12 && a[0] == 0x4e && a[1] == 0x43 && a[2] == 0x4d && a[3] == 0x48 && a[8] == 38 && a[9] == 0 && a[10] == 12 && a[11] == 0;
    assert |b| == 16 && b[0] == 0x49 && b[1] == 0x50 && b[2] == 0x53 && b[3] == tci && b[4] == 16 && b[5] == b[6] == b[7] == 0;
    assert b[8] == 36 && b[9] == 0 && b[10] == 1 && b[11] == 0 && b[12] == 37 && b[13] == 0 && b[14] == 1 && b[15] == 0;
    assert |c| == 10 && c[8] == 0x45 && c[9] == 0x46;
    hide HeadOfTwo, TableOfBoth, BodyOfTwo;
    assert forall i :: 0 <= i < 12 ==> d[i] == a[i];
    assert forall i :: 12 <= i < 28 ==> d[i] == b[i - 12];
    assert forall i :: 28 <= i < 38 ==> d[i] == c[i - 28];
  }

  lemma AtIs(data: seq<byte>, slack: nat -> byte, ndp: nat)
    requires ndp + 4 <= |data|
    ensures SessionAt(data, slack, ndp) == Session(data[ndp], data[ndp + 1], data[ndp + 2], data[ndp + 3])
  {
  }

  lemma TwoEntries(data: seq<byte>, slack: nat -> byte, memory: nat)
    requires 2 <= memory && |data| == 38 && data[36] == 0x45 && data[37] == 0x46
    requires U16(data, slack, 20) == 36 && U16(data, slack, 22) == 1 && U16(data, slack, 24) == 37 && U16(data, slack, 26) == 1
    ensures Entries(data, slack, Some(0), 20, 2, memory) == Table([Slice(0, 36, [0x45]), Slice(0, 37, [0x46])], memory - 2, None)
  {
    hide U16;
    var x, y := Slice(0, 36, [0x45]), Slice(0, 37, [0x46]);
    assert data[36..37] == [0x45] && data[37..38] == [0x46];
    assert EntryAt(data, slack, Some(0), 20, memory) == Datagram(x);
    assert EntryAt(data, slack, Some(0), 24, memory - 1) == Datagram(y);
    assert Entries(data, slack, Some(0), 28, 0, memory - 2) == Table([], memory - 2, None);
    assert Entries(data, slack, Some(0), 24, 1, memory - 1) == Table([y], memory - 2, None);
    assert [x] + [y] == [x, y];
  }
}
