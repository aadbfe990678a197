/**
 QMAP framing: packets of several network devices in one transfer.

 Each packet is sent behind a header with its length, its padding and the number
 of its device; version 5 adds a checksum header. The receiver takes a transfer
 apart again. `Parse` says what that means for any bytes at all; the driver's
 two framing routines and its receive loop, which work in place on socket
 buffers, are proved against it.
 */
module Qmap {
  import opened Basics
  import opened Skbs

  const MUX_ID := 0x81

  /**
   What the receiver knows: how many muxes there are, the MTU of each mux's
   device if it has one, and the padding the modem always adds (version 9 only).
   */
  datatype Config = Config(qmapMode: nat, devs: seq<Option<nat>>, minPad: nat)

  predicate Configured(c: Config) { c.qmapMode <= |c.devs| == 8 }

  /** A packet for device `dev`, the `|data|` bytes of the transfer from offset `from`. */
  datatype Slice = Slice(dev: nat, from: nat, data: seq<byte>)

  /** How the loop ends: at the end of the transfer, at a frame it gives up on, or never; `stop` is where it stands then. */
  datatype End = Done | GaveUp | Hung

  datatype Parsed = Parsed(slices: seq<Slice>, stop: nat, end: End)

  // --- Sending -----------------------------------------------------------------

  /** How many bytes take a length to a multiple of four, if the buffer has room for them. */
  function Padding(len: nat, tailroom: nat): (pad: nat)
    ensures pad <= 3 && (pad > 0 ==> (len + pad) % 4 == 0)
  {
    var pad := (4 - len % 4) % 4;
    if pad <= tailroom then pad else 0
  }

  predicate FillsUp(len: nat, pad: nat) { (len + pad) % 4 == 0 }

  /** The packet is padded to a multiple of four exactly if some padding that fits the buffer does that; otherwise not at all. */
  lemma PaddedIfRoom(len: nat, tailroom: nat)
    ensures FillsUp(len, Padding(len, tailroom)) <==> exists p: nat :: p <= tailroom && FillsUp(len, p)
    ensures Padding(len, tailroom) <= tailroom
    ensures !FillsUp(len, Padding(len, tailroom)) ==> Padding(len, tailroom) == 0
  {
    var pad := (4 - len % 4) % 4;
    if pad > tailroom {
      forall p: nat | FillsUp(len, p)
        ensures p >= pad
      {
      }
    }
  }

  function HdrSize(v5: bool): nat { if v5 then 8 else 4 }

  /** The header in front of `len` bytes, `pad` of them padding. */
  function Header(v5: bool, mux: byte, len: nat, pad: nat): (h: seq<byte>)
    requires pad < 0x40
    ensures |h| == HdrSize(v5)
  {
    [if v5 then 0x40 + pad else pad, mux] + Be16(len) + if v5 then [4, 0, 0, 0] else []
  }

  function Frame(v5: bool, mux: byte, payload: seq<byte>, junk: seq<byte>): seq<byte>
    requires |junk| <= 3
  {
    Header(v5, mux, |payload| + |junk|, |junk|) + payload + junk
  }

  /** The padding both framing routines put behind the packet. */
  method PadBehind(skb: Skb) returns (pad: nat, ghost junk: seq<byte>)
    requires skb.Valid()
    modifies skb`len
    ensures skb.Valid() && skb.data == old(skb.data)
    ensures pad == |junk| == Padding(|old(skb.Contents())|, skb.buf.Length - old(skb.data + skb.len))
    ensures skb.Contents() == old(skb.Contents()) + junk
  {
    pad := skb.len % 4;
    if pad != 0 {
      pad := 4 - pad;
      if skb.buf.Length - (skb.data + skb.len) < pad {
        pad := 0;
      }
    }
    junk := skb.Put(pad);
  }

  /** add_qhdr (version 1) and add_qhdr_v5: pad behind, header in front. */
  method AddQhdr(skb: Skb, v5: bool, mux: byte) returns (ghost junk: seq<byte>)
    requires skb.Valid() && (if v5 then 8 else 4) <= skb.data
    modifies skb, skb.buf
    ensures skb.Valid() && |junk| == Padding(|old(skb.Contents())|, skb.buf.Length - old(skb.data + skb.len))
    ensures skb.Contents() == Frame(v5, mux, old(skb.Contents()), junk)
  {
    var mapDatalen := skb.len;
    var pad;
    pad, junk := PadBehind(skb);
    var header := Header(v5, mux, mapDatalen + pad, pad);
    skb.PushHeader(header);
    assert skb.Contents() == header + (old(skb.Contents()) + junk);
  }

  // --- Receiving ---------------------------------------------------------------

  datatype Head = Head(cd: bool, hdrSize: nat, pad: nat, mux: int, pktLen: nat)

  /** The bit fields of the first byte are the command flag, the next-header flag and six bits of padding. */
  function HeadOf(b0: byte, b1: byte, b2: byte, b3: byte): Head {
    var low := if b0 >= 0x80 then b0 - 0x80 else b0;
    var next := low >= 0x40;
    Head(b0 >= 0x80, if next then 8 else 4, if next then low - 0x40 else low, b1 - MUX_ID, FromBe16(b2, b3))
  }

  /** What the loop does with one frame: give up, pull `n` bytes, or deliver `len` of them from `hdr` on and pull. */
  datatype Move = Stop | Pass(n: nat) | Deliver(n: nat, dev: nat, hdr: nat, len: nat)

  /** Whether the device of mux `h.mux` takes the frame's packet; below zero counts as above the limit. */
  predicate Fits(c: Config, h: Head)
    requires Configured(c) && 0 <= h.mux < c.qmapMode && c.devs[h.mux].Some?
  {
    0 <= h.pktLen - h.pad - c.minPad <= c.devs[h.mux].value
  }

  /**
   The verdict on a frame with header `h` and `room` bytes left in the transfer;
   `first` is the byte after the header. A mux below the first is refused like
   one above the last. A frame for a mux without a device is passed over before
   its length has been checked.
   */
  function Judge(c: Config, h: Head, room: nat, first: byte, memory: bool): (m: Move)
    requires Configured(c) && h.hdrSize >= 4
    ensures m.Pass? ==> 4 <= m.n
    ensures m.Pass? && m.n > room ==> 0 <= h.mux < c.qmapMode && c.devs[h.mux].None?
    ensures m.Deliver? ==>
              && memory && 4 <= m.hdr && m.hdr + m.len <= m.n <= room
              && m.dev < c.qmapMode && c.devs[m.dev].Some? && m.len <= c.devs[m.dev].value
  {
    var n := h.pktLen + h.hdrSize;
    if h.mux < 0 || h.mux >= c.qmapMode then Stop
    else if c.devs[h.mux].None? then Pass(n)
    else if !Fits(c, h) || room < n then Stop
    else if h.cd then Pass(n)
    else if !IpNibble(first) || !memory then Stop
    else Deliver(n, h.mux, h.hdrSize, h.pktLen - h.pad - c.minPad)
  }

  function HeadAt(data: seq<byte>, pos: nat): (h: Head)
    requires pos + 4 < |data|
    ensures h.hdrSize >= 4
  {
    HeadOf(data[pos], data[pos + 1], data[pos + 2], data[pos + 3])
  }

  /** The byte at `i`, or what lies just behind the transfer. */
  function ByteAt(data: seq<byte>, i: nat, slack: byte): byte {
    if i < |data| then data[i] else slack
  }

  function Step(c: Config, data: seq<byte>, pos: nat, slack: byte, memory: nat): (m: Move)
    requires Configured(c) && pos + 4 < |data|
    ensures m.Pass? ==> 4 <= m.n
    ensures m.Pass? && m.n > |data| - pos ==> exists i :: 0 <= i < c.qmapMode && c.devs[i].None?
    ensures m.Deliver? ==>
              && memory > 0 && 4 <= m.hdr && m.hdr + m.len <= m.n <= |data| - pos
              && m.dev < c.qmapMode && c.devs[m.dev].Some? && m.len <= c.devs[m.dev].value
  {
    var h := HeadAt(data, pos);
    Judge(c, h, |data| - pos, ByteAt(data, pos + h.hdrSize, slack), memory > 0)
  }

  /** The packet delivered from `data` by a move at `pos`. */
  function SliceOf(m: Move, data: seq<byte>, pos: nat): Slice
    requires m.Deliver? && pos + m.hdr + m.len <= |data|
  {
    Slice(m.dev, pos + m.hdr, data[pos + m.hdr..pos + m.hdr + m.len])
  }

  function Prepend(slices: seq<Slice>, rest: Parsed): Parsed { rest.(slices := slices + rest.slices) }

  /** Where the data starts after `n` bytes are pulled off: pulling more than there is does nothing. */
  function Pulled(pos: nat, n: nat, len: nat): (next: nat)
    requires pos <= len
    ensures next <= len
  {
    if n <= len - pos then pos + n else pos
  }

  /**
   What the receive loop makes of the transfer `data` from `pos` on, if `memory`
   more packets can be allocated. `Hung` is a frame that is passed over by
   pulling nothing, so that the loop meets it again; `HungIffNeverEnds` shows
   what that comes to.
   */
  function Parse(c: Config, data: seq<byte>, pos: nat, slack: byte, memory: nat): Parsed
    requires Configured(c) && pos <= |data|
    decreases |data| - pos
  {
    if |data| - pos <= 4 then Parsed([], pos, Done)
    else
      var m := Step(c, data, pos, slack, memory);
      match m
      case Stop => Parsed([], pos, GaveUp)
      case Pass(n) =>
        var next := Pulled(pos, n, |data|);
        if next == pos then Parsed([], pos, Hung) else Parse(c, data, next, slack, memory)
      case Deliver(n, _, _, _) => Prepend([SliceOf(m, data, pos)], Parse(c, data, pos + n, slack, memory - 1))
  }

  /** The header of the frame at the front, and the byte behind it. */
  method ReadHead(skb: Skb, slack: byte, ghost data: seq<byte>, ghost pos: nat) returns (h: Head, first: byte)
    requires skb.Valid() && skb.len > 4 && pos <= |data| && skb.Contents() == data[pos..]
    ensures h == HeadAt(data, pos) && first == ByteAt(data, pos + h.hdrSize, slack)
  {
    var b0 := skb.At(0);
    var b1 := skb.At(1);
    var b2 := skb.At(2);
    var b3 := skb.At(3);
    h := HeadOf(b0, b1, b2, b3);
    if h.hdrSize < skb.len {
      first := skb.At(h.hdrSize);
    } else {
      first := slack;
    }
  }

  lemma SliceOfRest(data: seq<byte>, pos: nat, a: nat, b: nat)
    requires a <= b <= |data| - pos && pos <= |data|
    ensures data[pos..][a..b] == data[pos + a..pos + b]
    ensures data[pos..][a..] == data[pos + a..]
  {
    var x, y := data[pos..][a..b], data[pos + a..pos + b];
    forall i | 0 <= i < b - a
      ensures x[i] == y[i]
    {
    }
  }

  method CopyAt(skb: Skb, ghost data: seq<byte>, ghost pos: nat, from: nat, n: nat) returns (s: seq<byte>)
    requires skb.Valid() && pos <= |data| && skb.Contents() == data[pos..] && from + n <= skb.len
    ensures s == data[pos + from..pos + from + n]
  {
    s := skb.Copy(from, n);
    SliceOfRest(data, pos, from, from + n);
  }

  method PullAt(skb: Skb, ghost data: seq<byte>, ghost pos: nat, n: nat)
    requires skb.Valid() && pos <= |data| && skb.Contents() == data[pos..]
    modifies skb
    ensures skb.Valid() && skb.Contents() == data[Pulled(pos, n, |data|)..]
  {
    skb.Pull(n);
    if n <= |data| - pos {
      SliceOfRest(data, pos, n, |data| - pos);
    }
  }

  /** One turn of the loop, at `pos` in the transfer `data`: the move, made on the buffer. */
  method ReceiveOne(c: Config, skb: Skb, ghost data: seq<byte>, pos: nat, slack: byte, memory: nat) returns (m: Move, slices: seq<Slice>)
    requires Configured(c) && skb.Valid() && skb.len > 4 && pos <= |data| && skb.Contents() == data[pos..]
    modifies skb
    ensures skb.Valid() && m == Step(c, data, pos, slack, memory)
    ensures slices == if m.Deliver? then [SliceOf(m, data, pos)] else []
    ensures !m.Stop? ==>
              skb.Contents() == data[Pulled(pos, m.n, |data|)..] && skb.len == |data| - Pulled(pos, m.n, |data|)
  {
    hide Judge, HeadAt, ByteAt;
    var h, first := ReadHead(skb, slack, data, pos);
    m := Judge(c, h, skb.len, first, memory > 0);
    slices := [];
    if m.Stop? {
      return;
    }
    if m.Deliver? {
      var packet := CopyAt(skb, data, pos, m.hdr, m.len);
      slices := [Slice(m.dev, pos + m.hdr, packet)];
    }
    PullAt(skb, data, pos, m.n);
  }

  /** A turn of the loop that has already delivered `before`: what it has delivered then, and whether it goes on. */
  method ReceiveTurn(c: Config, skb: Skb, ghost data: seq<byte>, pos: nat, slack: byte, memory: nat, before: seq<Slice>)
    returns (end: Option<End>, slices: seq<Slice>, next: nat, left: nat)
    requires Configured(c) && skb.Valid() && skb.len > 4 && pos <= |data| && skb.Contents() == data[pos..]
    modifies skb
    ensures skb.Valid()
    ensures end.Some? ==> Parsed(slices, pos, end.value) == Prepend(before, Parse(c, data, pos, slack, memory))
    ensures end.None? ==>
              && pos < next <= |data| && skb.Contents() == data[next..]
              && Prepend(before, Parse(c, data, pos, slack, memory)) == Prepend(slices, Parse(c, data, next, slack, left))
  {
    hide Step, Parse, Prepend;
    var len := skb.len;
    ParseEnds(c, data, pos, slack, memory);
    var m, more := ReceiveOne(c, skb, data, pos, slack, memory);
    slices, next, left := before, pos, memory;
    if m.Stop? {
      NothingMore(before, pos, GaveUp);
      return Some(GaveUp), slices, next, left;
    }
    if skb.len == len {
      NothingMore(before, pos, Hung);
      return Some(Hung), slices, next, left;
    }
    left := if m.Deliver? then memory - 1 else memory;
    next := pos + m.n;
    ParseMoves(c, data, pos, slack, memory, left, more);
    Gather(before, more, Parse(c, data, next, slack, left));
    slices := before + more;
    end := None;
  }

  /**
   rmnet_qmi_rx_handler. A turn that has left the buffer as it was will be
   followed by the same turn for ever; where the source goes on, this says so.
   */
  method Receive(c: Config, skb: Skb, slack: byte, memory: nat) returns (slices: seq<Slice>, end: End, ghost stop: nat)
    requires Configured(c) && skb.Valid()
    modifies skb
    ensures Parsed(slices, stop, end) == Parse(c, old(skb.Contents()), 0, slack, memory)
  {
    hide Step, Parse, Prepend;
    ghost var data := skb.Contents();
    NothingYet(Parse(c, data, 0, slack, memory));
    var pos: nat, left: nat := 0, memory;
    slices := [];
    while skb.len > 4
      invariant skb.Valid()
      invariant pos <= |data| && skb.Contents() == data[pos..]
      invariant Parse(c, data, 0, slack, memory) == Prepend(slices, Parse(c, data, pos, slack, left))
      decreases |data| - pos
    {
      var over, next;
      over, slices, next, left := ReceiveTurn(c, skb, data, pos, slack, left, slices);
      if over.Some? {
        return slices, over.value, pos;
      }
      pos := next;
    }
    ParseEnds(c, data, pos, slack, left);
    NothingMore(slices, pos, Done);
    end, stop := Done, pos;
  }

  lemma NothingMore(slices: seq<Slice>, stop: nat, end: End)
    ensures Prepend(slices, Parsed([], stop, end)) == Parsed(slices, stop, end)
  {
    assert slices + [] == slices;
  }

  lemma NothingYet(p: Parsed)
    ensures Prepend([], p) == p
  {
    assert [] + p.slices == p.slices;
  }

  /** Where the parse comes to its end, and how. */
  lemma ParseEnds(c: Config, data: seq<byte>, pos: nat, slack: byte, memory: nat)
    requires Configured(c) && pos <= |data|
    ensures |data| - pos <= 4 ==> Parse(c, data, pos, slack, memory) == Parsed([], pos, Done)
    ensures |data| - pos > 4 ==>
              var m := Step(c, data, pos, slack, memory);
              && (m.Stop? ==> Parse(c, data, pos, slack, memory) == Parsed([], pos, GaveUp))
              && (m.Pass? && m.n > |data| - pos ==> Parse(c, data, pos, slack, memory) == Parsed([], pos, Hung))
  {
    hide Step;
  }

  /** One move of the loop, delivering one packet or none. */
  lemma ParseMoves(c: Config, data: seq<byte>, pos: nat, slack: byte, memory: nat, left: nat, more: seq<Slice>)
    requires Configured(c) && pos + 4 < |data|
    requires var m := Step(c, data, pos, slack, memory);
             && !m.Stop? && m.n <= |data| - pos && left == (if m.Deliver? then memory - 1 else memory)
             && more == if m.Deliver? then [SliceOf(m, data, pos)] else []
    ensures Parse(c, data, pos, slack, memory)
            == Prepend(more, Parse(c, data, pos + Step(c, data, pos, slack, memory).n, slack, left))
  {
    hide Step;
    var m := Step(c, data, pos, slack, memory);
    var rest := Parse(c, data, pos + m.n, slack, left);
    assert [] + rest.slices == rest.slices;
  }

  lemma Gather(a: seq<Slice>, b: seq<Slice>, rest: Parsed)
    ensures Prepend(a, Prepend(b, rest)) == Prepend(a + b, rest)
  {
    assert a + (b + rest.slices) == (a + b) + rest.slices;
  }

  // --- What holds for any bytes --------------------------------------------------

  /** A part of `data` between `lo` and `hi`, fit for its device. */
  predicate Part(c: Config, x: Slice, data: seq<byte>, lo: nat, hi: nat)
    requires Configured(c) && hi <= |data|
  {
    && lo <= x.from && x.from + |x.data| <= hi
    && x.data == data[x.from..x.from + |x.data|]
    && x.dev < c.qmapMode && c.devs[x.dev].Some? && |x.data| <= c.devs[x.dev].value
  }

  /** Slices that are parts of `data`, one after the other between `lo` and `hi`. */
  predicate Laid(c: Config, slices: seq<Slice>, data: seq<byte>, lo: nat, hi: nat)
    requires Configured(c) && hi <= |data|
  {
    slices == []
    || (Part(c, slices[0], data, lo, hi) && Laid(c, slices[1..], data, slices[0].from + |slices[0].data|, hi))
  }

  /** So they are disjoint, in order, and each lies within the bounds. */
  lemma {:induction false} LaidMeans(c: Config, slices: seq<Slice>, data: seq<byte>, lo: nat, hi: nat, i: nat, j: nat)
    requires Configured(c) && hi <= |data| && Laid(c, slices, data, lo, hi) && i < j < |slices|
    ensures Part(c, slices[i], data, lo, hi) && Part(c, slices[j], data, lo, hi)
    ensures slices[i].from + |slices[i].data| <= slices[j].from
  {
    var next := slices[0].from + |slices[0].data|;
    if i > 0 {
      LaidMeans(c, slices[1..], data, next, hi, i - 1, j - 1);
    } else if j > 1 {
      LaidMeans(c, slices[1..], data, next, hi, 0, j - 1);
    }
  }

  lemma LaidLower(c: Config, slices: seq<Slice>, data: seq<byte>, lo: nat, mid: nat, hi: nat)
    requires Configured(c) && lo <= mid <= hi <= |data| && Laid(c, slices, data, mid, hi)
    ensures Laid(c, slices, data, lo, hi)
  {
  }

  lemma DeliverLaid(c: Config, m: Move, data: seq<byte>, pos: nat, slices: seq<Slice>, hi: nat)
    requires Configured(c) && m.Deliver? && m.hdr + m.len <= m.n && pos + m.n <= hi <= |data|
    requires m.dev < c.qmapMode && c.devs[m.dev].Some? && m.len <= c.devs[m.dev].value
    requires Laid(c, slices, data, pos + m.n, hi)
    ensures Laid(c, [SliceOf(m, data, pos)] + slices, data, pos, hi)
  {
    var x := SliceOf(m, data, pos);
    LaidLower(c, slices, data, x.from + |x.data|, pos + m.n, hi);
    assert ([x] + slices)[1..] == slices;
  }

  /** Whatever the modem sends, what is delivered are disjoint parts of it in order, and no frame reaches past its end. */
  lemma {:induction false} DeliversSlices(c: Config, data: seq<byte>, pos: nat, slack: byte, memory: nat)
    requires Configured(c) && pos <= |data|
    ensures var p := Parse(c, data, pos, slack, memory);
            pos <= p.stop <= |data| && |p.slices| <= memory && Laid(c, p.slices, data, pos, p.stop)
    decreases |data| - pos
  {
    hide Step, SliceOf, Laid;
    LaidNone(c, data, pos, pos);
    if |data| - pos > 4 {
      var m := Step(c, data, pos, slack, memory);
      match m
      case Stop =>
      case Pass(n) =>
        if n <= |data| - pos {
          DeliversSlices(c, data, pos + n, slack, memory);
          var rest := Parse(c, data, pos + n, slack, memory);
          LaidLower(c, rest.slices, data, pos, pos + n, rest.stop);
        }
      case Deliver(n, _, _, _) =>
        DeliversSlices(c, data, pos + n, slack, memory - 1);
        var rest := Parse(c, data, pos + n, slack, memory - 1);
        DeliverLaid(c, m, data, pos, rest.slices, rest.stop);
    }
  }

  lemma LaidNone(c: Config, data: seq<byte>, lo: nat, hi: nat)
    requires Configured(c) && hi <= |data|
    ensures Laid(c, [], data, lo, hi)
  {
  }

  /** What the receiver finds wrong with a frame: its mux, its length against its device or the transfer, or its packet. */
  predicate Wrong(c: Config, h: Head, room: nat, first: byte, memory: nat)
    requires Configured(c)
  {
    || !(0 <= h.mux < c.qmapMode)
    || (c.devs[h.mux].Some? && (h.pktLen < h.pad + c.minPad || h.pktLen > c.devs[h.mux].value + h.pad + c.minPad || h.pktLen + h.hdrSize > room))
    || (c.devs[h.mux].Some? && !h.cd && (!IpNibble(first) || memory == 0))
  }

  /** Such a frame ends the reception and delivers nothing; no other does. One for a mux without a device is passed over, if it is all there. */
  lemma GivesUpIffWrong(c: Config, data: seq<byte>, pos: nat, slack: byte, memory: nat)
    requires Configured(c) && pos + 4 < |data|
    ensures var h := HeadAt(data, pos);
            var room, first := |data| - pos, ByteAt(data, pos + h.hdrSize, slack);
            && (Wrong(c, h, room, first, memory) ==> Parse(c, data, pos, slack, memory) == Parsed([], pos, GaveUp))
            && (!Wrong(c, h, room, first, memory) && h.pktLen + h.hdrSize <= room && (h.cd || c.devs[h.mux].None?) ==>
                  Parse(c, data, pos, slack, memory) == Parse(c, data, pos + h.pktLen + h.hdrSize, slack, memory))
            && (!Wrong(c, h, room, first, memory) && !h.cd && c.devs[h.mux].Some? ==>
                  Parse(c, data, pos, slack, memory)
                  == Prepend([Slice(h.mux, pos + h.hdrSize, data[pos + h.hdrSize..pos + h.hdrSize + (h.pktLen - h.pad - c.minPad)])],
                             Parse(c, data, pos + h.pktLen + h.hdrSize, slack, memory - 1)))
  {
    hide HeadAt, ByteAt;
  }

  // --- Whether the loop ends -----------------------------------------------------

  /** The loop between turns: where the data starts and how many packets can still be allocated; or that it is over. */
  datatype Loop = Running(pos: nat, memory: nat) | Over

  /** One turn, with its pull. */
  function Turn(c: Config, data: seq<byte>, slack: byte, l: Loop): (l': Loop)
    requires Configured(c) && (l.Running? ==> l.pos <= |data|)
    ensures l'.Running? ==> l'.pos <= |data|
  {
    if l.Over? || |data| - l.pos <= 4 then Over
    else
      match Step(c, data, l.pos, slack, l.memory)
      case Stop => Over
      case Pass(n) => Running(Pulled(l.pos, n, |data|), l.memory)
      case Deliver(n, _, _, _) => Running(Pulled(l.pos, n, |data|), l.memory - 1)
  }

  function Turns(c: Config, data: seq<byte>, slack: byte, l: Loop, k: nat): (l': Loop)
    requires Configured(c) && (l.Running? ==> l.pos <= |data|)
    ensures l'.Running? ==> l'.pos <= |data|
    decreases k
  {
    if k == 0 then l else Turns(c, data, slack, Turn(c, data, slack, l), k - 1)
  }

  ghost predicate NeverEnds(c: Config, data: seq<byte>, slack: byte, l: Loop)
    requires Configured(c) && (l.Running? ==> l.pos <= |data|)
  {
    forall k: nat :: Turns(c, data, slack, l, k).Running?
  }

  /** A turn that changes nothing is the last one to be different. */
  lemma {:induction false} StuckStays(c: Config, data: seq<byte>, slack: byte, l: Loop, k: nat)
    requires Configured(c) && l.Running? && l.pos <= |data| && Turn(c, data, slack, l) == l
    ensures Turns(c, data, slack, l, k) == l
    decreases k
  {
    if k > 0 {
      StuckStays(c, data, slack, l, k - 1);
    }
  }

  /** A parse that is not hung comes to its end in some number of turns. */
  lemma {:induction false} Ends(c: Config, data: seq<byte>, pos: nat, slack: byte, memory: nat) returns (k: nat)
    requires Configured(c) && pos <= |data| && Parse(c, data, pos, slack, memory).end != Hung
    ensures Turns(c, data, slack, Running(pos, memory), k) == Over
    decreases |data| - pos
  {
    hide Step;
    var next := Turn(c, data, slack, Running(pos, memory));
    if next.Over? {
      assert Turns(c, data, slack, next, 0) == Over;
      k := 1;
    } else {
      k := Ends(c, data, next.pos, slack, next.memory);
      k := k + 1;
    }
  }

  /** One that is hung comes to a turn that leaves the buffer as it is. */
  lemma {:induction false} GetsStuck(c: Config, data: seq<byte>, pos: nat, slack: byte, memory: nat) returns (k: nat)
    requires Configured(c) && pos <= |data| && Parse(c, data, pos, slack, memory).end == Hung
    ensures var l := Turns(c, data, slack, Running(pos, memory), k); l.Running? && Turn(c, data, slack, l) == l
    ensures NeverEnds(c, data, slack, Running(pos, memory))
    decreases |data| - pos
  {
    hide Step;
    var l := Running(pos, memory);
    var next := Turn(c, data, slack, l);
    if next == l {
      k := 0;
      forall i: nat
        ensures Turns(c, data, slack, l, i).Running?
      {
        StuckStays(c, data, slack, l, i);
      }
    } else {
      k := GetsStuck(c, data, next.pos, slack, next.memory);
      k := k + 1;
      forall i: nat
        ensures Turns(c, data, slack, l, i).Running?
      {
        assert i > 0 ==> Turns(c, data, slack, l, i) == Turns(c, data, slack, next, i - 1);
      }
    }
  }

  /** `Hung` means what it says: the loop never ends, and it does so by coming to a turn that changes nothing. */
  lemma HungIffNeverEnds(c: Config, data: seq<byte>, pos: nat, slack: byte, memory: nat)
    requires Configured(c) && pos <= |data|
    ensures Parse(c, data, pos, slack, memory).end == Hung <==> NeverEnds(c, data, slack, Running(pos, memory))
    ensures Parse(c, data, pos, slack, memory).end == Hung <==>
            exists k: nat :: var l := Turns(c, data, slack, Running(pos, memory), k); l.Running? && Turn(c, data, slack, l) == l
  {
    if Parse(c, data, pos, slack, memory).end == Hung {
      var k := GetsStuck(c, data, pos, slack, memory);
    } else {
      var k := Ends(c, data, pos, slack, memory);
      forall i: nat | Turns(c, data, slack, Running(pos, memory), i).Running?
        ensures Turn(c, data, slack, Turns(c, data, slack, Running(pos, memory), i)) != Turns(c, data, slack, Running(pos, memory), i)
      {
        var l := Turns(c, data, slack, Running(pos, memory), i);
        if Turn(c, data, slack, l) == l {
          StuckStays(c, data, slack, l, k);
          TurnsAdd(c, data, slack, Running(pos, memory), i, k);
          TurnsAdd(c, data, slack, Running(pos, memory), k, i);
          OverStays(c, data, slack, i);
        }
      }
    }
  }

  lemma {:induction false} TurnsAdd(c: Config, data: seq<byte>, slack: byte, l: Loop, i: nat, j: nat)
    requires Configured(c) && (l.Running? ==> l.pos <= |data|)
    ensures Turns(c, data, slack, Turns(c, data, slack, l, i), j) == Turns(c, data, slack, l, i + j)
    decreases i
  {
    if i > 0 {
      TurnsAdd(c, data, slack, Turn(c, data, slack, l), i - 1, j);
    }
  }

  lemma {:induction false} OverStays(c: Config, data: seq<byte>, slack: byte, k: nat)
    requires Configured(c)
    ensures Turns(c, data, slack, Over, k) == Over
    decreases k
  {
    if k > 0 {
      OverStays(c, data, slack, k - 1);
    }
  }

  lemma {:induction false} NotHung(c: Config, data: seq<byte>, pos: nat, slack: byte, memory: nat)
    requires Configured(c) && pos <= |data| && forall i :: 0 <= i < c.qmapMode ==> c.devs[i].Some?
    ensures Parse(c, data, pos, slack, memory).end != Hung
    decreases |data| - pos
  {
    hide Step;
    if |data| - pos > 4 {
      match Step(c, data, pos, slack, memory)
      case Stop =>
      case Pass(n) => NotHung(c, data, pos + n, slack, memory);
      case Deliver(n, _, _, _) => NotHung(c, data, pos + n, slack, memory - 1);
    }
  }

  /** Some input keeps the loop going for ever. */
  ghost predicate CanRunForEver(c: Config)
    requires Configured(c)
  {
    exists data: seq<byte>, slack: byte, memory: nat :: NeverEnds(c, data, slack, Running(0, memory))
  }

  /**
   The loop ends, whatever the bytes, exactly when every mux has its device.
   Five bytes for a mux without one are enough to keep it going for ever.
   */
  lemma EndsIffDevices(c: Config)
    requires Configured(c)
    ensures !CanRunForEver(c) <==> forall i :: 0 <= i < c.qmapMode ==> c.devs[i].Some?
  {
    if i :| 0 <= i < c.qmapMode && c.devs[i].None? {
      var data: seq<byte> := [0, MUX_ID + i, 0xff, 0xff, 0];
      assert HeadAt(data, 0) == Head(false, 4, 0, i, 0xffff);
      assert Parse(c, data, 0, 0, 0).end == Hung;
      HungIffNeverEnds(c, data, 0, 0, 0);
    } else {
      forall data: seq<byte>, slack: byte, memory: nat
        ensures !NeverEnds(c, data, slack, Running(0, memory))
      {
        NotHung(c, data, 0, slack, memory);
        HungIffNeverEnds(c, data, 0, slack, memory);
      }
    }
  }

  // --- Round trips ---------------------------------------------------------------

  /**
   A frame of a transfer: a packet, or a command of the modem's; `junk` is the
   padding its header counts, `fill` what the modem always adds.
   */
  datatype Packet = Packet(command: bool, v5: bool, dev: nat, payload: seq<byte>, junk: seq<byte>, fill: seq<byte>)

  predicate Sendable(p: Packet) {
    p.dev < 8 && p.payload != [] && |p.junk| < 0x40
  }

  /** The command flag is the first bit of the header. */
  function HeaderOf(p: Packet): (h: seq<byte>)
    requires Sendable(p)
    ensures |h| == HdrSize(p.v5)
  {
    var h := Header(p.v5, MUX_ID + p.dev, |p.payload| + |p.junk| + |p.fill|, |p.junk|);
    if p.command then [h[0] + 0x80] + h[1..] else h
  }

  function FrameOf(p: Packet): seq<byte>
    requires Sendable(p)
  {
    HeaderOf(p) + p.payload + (p.junk + p.fill)
  }

  /** What the driver's own framing routines send are such frames. */
  lemma SentFrame(v5: bool, dev: nat, payload: seq<byte>, junk: seq<byte>)
    requires dev < 8 && payload != [] && |junk| <= 3
    ensures FrameOf(Packet(false, v5, dev, payload, junk, [])) == Frame(v5, 0x81 + dev, payload, junk)
  {
    assert junk + [] == junk;
  }

  /** A frame the receiver takes: its device is there and takes the length, which fits the header; a packet is IP. */
  predicate Receivable(c: Config, p: Packet)
    requires Configured(c) && Sendable(p)
  {
    && p.dev < c.qmapMode && c.devs[p.dev].Some? && |p.payload| <= c.devs[p.dev].value
    && |p.payload| + |p.junk| + |p.fill| < 0x1_0000 && |p.fill| == c.minPad
    && (p.command || IpNibble(p.payload[0]))
  }

  function Aggregate(ps: seq<Packet>): seq<byte>
    requires forall i :: 0 <= i < |ps| ==> Sendable(ps[i])
  {
    if ps == [] then [] else FrameOf(ps[0]) + Aggregate(ps[1..])
  }

  /** What a frame delivers: a packet itself, a command nothing. */
  function Delivered(p: Packet, at: nat): seq<Slice> {
    if p.command then [] else [Slice(p.dev, at + HdrSize(p.v5), p.payload)]
  }

  /** Where the packets come to lie. */
  function Expected(ps: seq<Packet>, at: nat): seq<Slice>
    requires forall i :: 0 <= i < |ps| ==> Sendable(ps[i])
  {
    if ps == [] then [] else Delivered(ps[0], at) + Expected(ps[1..], at + |FrameOf(ps[0])|)
  }

  /** At `pos` in the transfer `data` stands a frame, and behind it is `more`. */
  predicate FrameAt(p: Packet, data: seq<byte>, pos: nat, more: seq<byte>)
    requires Sendable(p) && pos <= |data|
  {
    data[pos..] == FrameOf(p) + more
  }

  function Total(p: Packet): nat { |p.payload| + |p.junk| + |p.fill| }

  /** What the receiver reads there. */
  lemma FrameHead(p: Packet, data: seq<byte>, pos: nat, more: seq<byte>)
    requires Sendable(p) && pos <= |data| && FrameAt(p, data, pos, more)
    ensures |FrameOf(p)| == HdrSize(p.v5) + Total(p)
    ensures pos + |FrameOf(p)| + |more| == |data|
    ensures HeadAt(data, pos) == Head(p.command, HdrSize(p.v5), |p.junk|, p.dev, Total(p) % 0x1_0000)
  {
    var header := HeaderOf(p);
    assert forall i :: 0 <= i < 4 ==> data[pos + i] == data[pos..][i] == header[i];
    Fields(Total(p));
  }

  lemma FrameBody(p: Packet, data: seq<byte>, pos: nat, more: seq<byte>)
    requires Sendable(p) && pos <= |data| && FrameAt(p, data, pos, more)
    ensures var from := pos + HdrSize(p.v5);
            && from + Total(p) + |more| == |data|
            && data[from] == p.payload[0] && data[from..from + |p.payload|] == p.payload
            && data[pos + |FrameOf(p)|..] == more
  {
    hide Header, HeaderOf, FrameOf, FrameAt;
    var header := HeaderOf(p);
    FrameParts(p, data, pos, more);
    Middle(header, p.payload, (p.junk + p.fill) + more);
    SliceOfRest(data, pos, |header|, |header| + |p.payload|);
    SliceOfRest(data, pos, |FrameOf(p)|, |data| - pos);
    assert data[pos + |header|] == data[pos + |header|..pos + |header| + |p.payload|][0];
  }

  lemma FrameParts(p: Packet, data: seq<byte>, pos: nat, more: seq<byte>)
    requires Sendable(p) && pos <= |data| && FrameAt(p, data, pos, more)
    ensures var header := HeaderOf(p);
            && data[pos..] == header + (p.payload + ((p.junk + p.fill) + more))
            && |FrameOf(p)| == |header| + Total(p) && data[pos..][|FrameOf(p)|..] == more
  {
    hide Header, HeaderOf;
    Regroup(HeaderOf(p), p.payload, p.junk + p.fill, more);
  }

  lemma Regroup(a: seq<byte>, b: seq<byte>, c: seq<byte>, d: seq<byte>)
    ensures (a + b + c) + d == a + (b + (c + d))
  {
  }

  lemma Middle(a: seq<byte>, b: seq<byte>, c: seq<byte>)
    ensures (a + (b + c))[|a|..|a| + |b|] == b
  {
    var x := (a + (b + c))[|a|..|a| + |b|];
    forall i | 0 <= i < |b|
      ensures x[i] == b[i]
    {
    }
  }

  /** The verdict on a frame, if its first byte is the packet's. */
  lemma FrameJudged(c: Config, p: Packet, room: nat)
    requires Configured(c) && c.minPad == |p.fill| && Sendable(p) && HdrSize(p.v5) + Total(p) <= room
    ensures var h := Head(p.command, HdrSize(p.v5), |p.junk|, p.dev, Total(p) % 0x1_0000);
            var m := Judge(c, h, room, p.payload[0], true);
            && (Receivable(c, p) ==>
                  m == if p.command then Pass(h.hdrSize + Total(p)) else Deliver(h.hdrSize + Total(p), p.dev, h.hdrSize, |p.payload|))
            && (!Receivable(c, p) && m.Deliver? ==> m.hdr == h.hdrSize && m.len < |p.payload|)
  {
  }

  /** The loop delivers a receivable packet whole and passes over a command; any other packet it does not deliver, and if at all with fewer bytes. */
  lemma FrameStep(c: Config, p: Packet, data: seq<byte>, pos: nat, more: seq<byte>, slack: byte, memory: nat)
    requires Configured(c) && c.minPad == |p.fill| && 1 <= memory && Sendable(p) && pos <= |data| && FrameAt(p, data, pos, more)
    ensures pos + 4 < |data|
    ensures var m := Step(c, data, pos, slack, memory);
            && (Receivable(c, p) ==>
                  m == if p.command then Pass(|FrameOf(p)|) else Deliver(|FrameOf(p)|, p.dev, HdrSize(p.v5), |p.payload|))
            && (!Receivable(c, p) && m.Deliver? ==> m.hdr == HdrSize(p.v5) && m.len < |p.payload|)
  {
    hide Judge, HeadAt, FrameOf, FrameAt, Receivable;
    FrameHead(p, data, pos, more);
    FrameBody(p, data, pos, more);
    FrameJudged(c, p, |data| - pos);
  }

  /** The move made on a receivable frame. */
  lemma FrameMove(c: Config, p: Packet, data: seq<byte>, pos: nat, more: seq<byte>, slack: byte, memory: nat)
    requires Configured(c) && 1 <= memory && Sendable(p) && Receivable(c, p)
    requires pos <= |data| && FrameAt(p, data, pos, more)
    ensures pos + 4 < |data| && pos + |FrameOf(p)| <= |data| && data[pos + |FrameOf(p)|..] == more
    ensures var m := Step(c, data, pos, slack, memory);
            && !m.Stop? && m.n == |FrameOf(p)| && (m.Deliver? <==> !p.command)
            && Delivered(p, pos) == if m.Deliver? then [SliceOf(m, data, pos)] else []
  {
    FillIsMin(c, p);
    hide Step, FrameOf, FrameAt, Receivable;
    FrameStep(c, p, data, pos, more, slack, memory);
    FrameHead(p, data, pos, more);
    FrameBody(p, data, pos, more);
  }

  lemma FrameDelivered(c: Config, p: Packet, data: seq<byte>, pos: nat, more: seq<byte>, slack: byte, memory: nat)
    requires Configured(c) && 1 <= memory && Sendable(p) && Receivable(c, p)
    requires pos <= |data| && FrameAt(p, data, pos, more)
    ensures var next := pos + |FrameOf(p)|;
            && next <= |data| && data[next..] == more
            && Parse(c, data, pos, slack, memory)
               == Prepend(Delivered(p, pos), Parse(c, data, next, slack, if p.command then memory else memory - 1))
  {
    hide Step, FrameOf, FrameAt, Receivable, Parse, Delivered, Prepend;
    FrameMove(c, p, data, pos, more, slack, memory);
    ParseMoves(c, data, pos, slack, memory, if p.command then memory else memory - 1, Delivered(p, pos));
  }

  lemma FillIsMin(c: Config, p: Packet)
    requires Configured(c) && Sendable(p) && Receivable(c, p)
    ensures c.minPad == |p.fill|
  {
  }

  /**
   Any number of packets, framed by either routine with or without padding and
   put into one transfer, with or without commands among them, come out as they
   went in: the same bytes, in order, each for the device that sent it.
   */
  lemma {:induction false} RoundTrip(c: Config, ps: seq<Packet>, data: seq<byte>, pos: nat, slack: byte, memory: nat)
    requires Configured(c) && |ps| <= memory
    requires forall i :: 0 <= i < |ps| ==> Sendable(ps[i]) && Receivable(c, ps[i])
    requires pos <= |data| && data[pos..] == Aggregate(ps)
    ensures Parse(c, data, pos, slack, memory) == Parsed(Expected(ps, pos), |data|, Done)
    decreases |ps|
  {
    hide Step, Parse, FrameOf, Receivable, Delivered;
    ParseEnds(c, data, pos, slack, memory);
    if ps != [] {
      var p, more := ps[0], Aggregate(ps[1..]);
      var next := pos + |FrameOf(p)|;
      FrameDelivered(c, p, data, pos, more, slack, memory);
      RoundTrip(c, ps[1..], data, next, slack, if p.command then memory else memory - 1);
    }
  }

  /** A packet on its own comes back exactly if the receiver can give it back. */
  lemma RoundTripIffReceivable(c: Config, p: Packet, slack: byte, memory: nat)
    requires Configured(c) && |p.fill| == c.minPad && !p.command && 1 <= memory && Sendable(p)
    ensures Parse(c, FrameOf(p), 0, slack, memory).slices == [Slice(p.dev, HdrSize(p.v5), p.payload)] <==> Receivable(c, p)
  {
    var data := FrameOf(p);
    assert data[0..] == data + [];
    if Receivable(c, p) {
      assert Aggregate([p][1..]) == [] && Aggregate([p]) == data + [];
      assert Expected([p][1..], |data|) == [];
      RoundTrip(c, [p], data, 0, slack, memory);
    } else {
      FrameStep(c, p, data, 0, [], slack, memory);
      FrameHead(p, data, 0, []);
      DeliversSlices(c, data, 0, slack, memory);
    }
  }
}
