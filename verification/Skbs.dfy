/**
 Socket buffers: a stretch of bytes inside a larger allocation, to which headers
 are pushed in front and padding is put behind, and from which headers are
 pulled, all in place.
 */
module Skbs {

  type byte = b: int | 0 <= b < 0x100

  /** The first byte of an IPv4 or IPv6 packet. */
  predicate IpNibble(b: byte) { 0x40 <= b < 0x50 || 0x60 <= b < 0x70 }

  /** The version is the upper half of the byte. */
  lemma IpVersion(b: byte)
    ensures IpNibble(b) <==> b / 16 == 4 || b / 16 == 6
  {
  }

  /** A 16-bit field in network order and in little-endian order. */
  function Be16(n: nat): seq<byte> { [n / 0x100 % 0x100, n % 0x100] }

  function Le16(n: nat): seq<byte> { [n % 0x100, n / 0x100 % 0x100] }

  function FromBe16(hi: byte, lo: byte): (n: nat)
    ensures n < 0x1_0000
  {
    hi * 0x100 + lo
  }

  function FromLe16(lo: byte, hi: byte): (n: nat)
    ensures n < 0x1_0000
  {
    hi * 0x100 + lo
  }

  /** What a 16-bit field gives back is the number's low 16 bits. */
  lemma Fields(n: nat)
    ensures FromBe16(Be16(n)[0], Be16(n)[1]) == n % 0x1_0000
    ensures FromLe16(Le16(n)[0], Le16(n)[1]) == n % 0x1_0000
  {
    assert n % 0x1_0000 == (n / 0x100 % 0x100) * 0x100 + n % 0x100;
  }

  class Skb {
    const buf: array<byte>
    var data: nat
    var len: nat

    ghost predicate Valid()
      reads this
    {
      data + len <= buf.Length
    }

    ghost function Contents(): (s: seq<byte>)
      requires Valid()
      reads this, buf
      ensures |s| == len
    {
      buf[data..data + len]
    }

    constructor (buf: array<byte>, data: nat, len: nat)
      requires data + len <= buf.Length
      ensures Valid() && this.buf == buf && this.data == data && this.len == len
    {
      this.buf, this.data, this.len := buf, data, len;
    }

    /** __skb_put: `n` bytes behind, as the allocation has them. */
    method Put(n: nat) returns (ghost junk: seq<byte>)
      requires Valid() && data + len + n <= buf.Length
      modifies this`len
      ensures Valid() && data == old(data)
      ensures |junk| == n && Contents() == old(Contents()) + junk
    {
      junk := buf[data + len..data + len + n];
      len := len + n;
    }

    /** skb_push and the filling of the header: the bytes of `header` are written in front. */
    method PushHeader(header: seq<byte>)
      requires Valid() && |header| <= data
      modifies this`data, this`len, buf
      ensures Valid() && data == old(data) - |header|
      ensures Contents() == header + old(Contents())
    {
      ghost var body := Contents();
      data := data - |header|;
      len := len + |header|;
      forall i | 0 <= i < |header| {
        buf[data + i] := header[i];
      }
      ghost var now, wanted := Contents(), header + body;
      forall i | 0 <= i < len
        ensures now[i] == wanted[i]
      {
        assert now[i] == buf[data + i];
        if i < |header| {
          assert buf[data + i] == header[i];
        } else {
          assert body[i - |header|] == old(buf[data + (i - |header|)]);
        }
      }
    }

    method Store(i: nat, b: byte)
      requires Valid() && i < len
      modifies buf
      ensures Contents() == old(Contents())[i := b]
    {
      buf[data + i] := b;
    }

    /** skb_pull: takes `n` bytes off the front, or nothing if there are not that many. */
    method Pull(n: nat)
      requires Valid()
      modifies this`data, this`len
      ensures Valid()
      ensures Contents() == if n <= |old(Contents())| then old(Contents())[n..] else old(Contents())
    {
      if n <= len {
        data := data + n;
        len := len - n;
      }
    }

    method At(i: nat) returns (b: byte)
      requires Valid() && i < len
      ensures b == Contents()[i]
    {
      b := buf[data + i];
    }

    /** A copy of `n` bytes from offset `from`. */
    method Copy(from: nat, n: nat) returns (s: seq<byte>)
      requires Valid() && from + n <= len
      ensures s == Contents()[from..from + n]
    {
      s := buf[data + from..data + from + n];
      ghost var all := Contents();
      forall i | 0 <= i < n
        ensures s[i] == all[from..from + n][i]
      {
        assert all[from..from + n][i] == all[from + i];
      }
    }
  }
}
