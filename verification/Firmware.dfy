/**
 The scatter table an image is handed to the device in.

 A table of coherent segments is allocated for an image, with one more entry at
 the end for the vector the device reads: the address and length of each
 segment. Copying fills the segments in turn and notes them in the vector.
 */
module Firmware {
  import opened Pieces
  import opened Skbs

  const VEC_ENTRY_SIZE := 16

  /** One entry of `mhi_buf`: a coherent buffer by length and device address. */
  datatype MhiBuf = MhiBuf(len: nat, addr: int)

  datatype VecEntry = VecEntry(addr: int, size: nat)

  /** DIV_ROUND_UP(allocSize, segLen), and one for the vector. */
  function Segments(allocSize: nat, segLen: nat): (n: nat)
    requires 0 < segLen
    ensures n >= 1
  {
    (allocSize + segLen - 1) / segLen + 1
  }

  function VecSize(i: nat, segments: nat, segLen: nat): nat {
    if i + 1 == segments then VEC_ENTRY_SIZE * i else segLen
  }

  /** The buffers of a table for `allocSize` bytes, apart from where they lie. */
  predicate TableFor(bs: seq<MhiBuf>, allocSize: nat, segLen: nat)
    requires 0 < segLen
  {
    && |bs| == Segments(allocSize, segLen)
    && forall i :: 0 <= i < |bs| ==> bs[i].len == VecSize(i, |bs|, segLen)
  }

  predicate Apart(bs: seq<MhiBuf>) {
    forall i, j :: 0 <= i < j < |bs| ==> bs[i].addr != bs[j].addr
  }

  /** What is allocated once the buffers are, on top of what was. */
  function With(live: map<int, nat>, bs: seq<MhiBuf>): map<int, nat> {
    if bs == [] then live else With(live, bs[..|bs|-1])[bs[|bs|-1].addr := bs[|bs|-1].len]
  }

  function Total(bs: seq<MhiBuf>): nat {
    if bs == [] then 0 else Total(bs[..|bs|-1]) + bs[|bs|-1].len
  }

  function Addrs(bs: seq<MhiBuf>): set<int> { set b | b in bs :: b.addr }

  predicate Unused(live: map<int, nat>, bs: seq<MhiBuf>) {
    forall i :: 0 <= i < |bs| ==> bs[i].addr !in live
  }

  lemma {:induction false} WithKeys(live: map<int, nat>, bs: seq<MhiBuf>)
    ensures With(live, bs).Keys == live.Keys + Addrs(bs)
  {
    if bs != [] {
      WithKeys(live, bs[..|bs|-1]);
      assert bs == bs[..|bs|-1] + [bs[|bs|-1]];
      assert Addrs(bs) == Addrs(bs[..|bs|-1]) + {bs[|bs|-1].addr};
    }
  }

  /** Each buffer of the table is allocated at its own length. */
  lemma {:induction false} WithSizes(live: map<int, nat>, bs: seq<MhiBuf>, i: nat)
    requires Apart(bs) && i < |bs|
    ensures bs[i].addr in With(live, bs) && With(live, bs)[bs[i].addr] == bs[i].len
  {
    if i + 1 < |bs| {
      WithSizes(live, bs[..|bs|-1], i);
    }
  }

  /** Taking the newest buffer away again leaves what was there before it. */
  lemma WithoutLast(live: map<int, nat>, bs: seq<MhiBuf>)
    requires bs != [] && Apart(bs) && Unused(live, bs)
    ensures With(live, bs) - {bs[|bs|-1].addr} == With(live, bs[..|bs|-1])
  {
    var init, last := bs[..|bs|-1], bs[|bs|-1];
    WithKeys(live, init);
    assert last.addr !in With(live, init);
  }

  /** Freeing the whole table undoes its allocation. */
  lemma {:induction false} WithoutAll(live: map<int, nat>, bs: seq<MhiBuf>)
    requires Apart(bs) && Unused(live, bs)
    ensures With(live, bs) - Addrs(bs) == live
  {
    if bs == [] {
      assert Addrs(bs) == {};
    } else {
      var init, last := bs[..|bs|-1], bs[|bs|-1];
      WithoutAll(live, init);
      WithoutLast(live, bs);
      assert bs == init + [last];
      assert Addrs(bs) == Addrs(init) + {last.addr};
      assert With(live, bs) - Addrs(bs) == With(live, bs) - {last.addr} - Addrs(init);
    }
  }

  lemma Shorter(bs: seq<MhiBuf>, live: map<int, nat>)
    requires bs != [] && Apart(bs) && Unused(live, bs)
    ensures Apart(bs[..|bs|-1]) && Unused(live, bs[..|bs|-1])
  {
  }

  lemma NothingAdded(live: map<int, nat>)
    ensures With(live, []) == live
  {
  }

  class ImageInfo {
    const mhiBuf: array<MhiBuf>
    const bhiVec: array<VecEntry>
    const entries: nat

    constructor (mhiBuf: array<MhiBuf>, bhiVec: array<VecEntry>, entries: nat)
      ensures this.mhiBuf == mhiBuf && this.bhiVec == bhiVec && this.entries == entries
    {
      this.mhiBuf, this.bhiVec, this.entries := mhiBuf, bhiVec, entries;
    }
  }

  class Controller {
    const segLen: nat
    var allocSize: int                // coherent bytes accounted for
    var live: map<int, nat>           // coherent buffers held, by address
    var mem: map<int, seq<byte>>      // what lies in them
    var kobjects: int                 // objects held from kmalloc
    var nextAddr: int

    ghost predicate Valid()
      reads this
    {
      && 0 < segLen
      && forall a :: a in live ==> a < nextAddr && a in mem && |mem[a]| == live[a]
    }

    constructor (segLen: nat)
      requires 0 < segLen
      ensures Valid() && this.segLen == segLen && allocSize == 0 && live == map[] && kobjects == 0
    {
      this.segLen := segLen;
      allocSize, live, mem, kobjects, nextAddr := 0, map[], map[], 0, 0;
    }

    /** mhi_alloc_coherent, for a buffer that is granted: it lies apart from all others and is zeroed. */
    method AllocCoherent(size: nat) returns (addr: int)
      requires Valid()
      modifies this`allocSize, this`live, this`mem, this`nextAddr
      ensures Valid() && nextAddr == addr + 1 == old(nextAddr) + 1
      ensures addr !in old(live) && live == old(live)[addr := size] && allocSize == old(allocSize) + size
    {
      addr := nextAddr;
      nextAddr := nextAddr + 1;
      live := live[addr := size];
      mem := mem[addr := seq(size, _ => 0)];
      allocSize := allocSize + size;
    }

    /** mhi_free_coherent */
    method FreeCoherent(size: nat, addr: int)
      requires Valid() && addr in live
      modifies this`allocSize, this`live
      ensures Valid() && live == old(live) - {addr} && allocSize == old(allocSize) - size
    {
      allocSize := allocSize - size;
      live := live - {addr};
    }

    /** The allocation loop; `granted` coherent buffers are to be had. */
    method AllocSegments(bufs: array<MhiBuf>, granted: nat) returns (i: nat)
      requires Valid() && 1 <= bufs.Length
      modifies this`allocSize, this`live, this`mem, this`nextAddr, bufs
      ensures Valid() && i == if granted < bufs.Length then granted else bufs.Length
      ensures live == With(old(live), bufs[..i]) && allocSize == old(allocSize) + Total(bufs[..i])
      ensures Apart(bufs[..i]) && Unused(old(live), bufs[..i])
      ensures forall j :: 0 <= j < i ==> bufs[j].len == VecSize(j, bufs.Length, segLen)
    {
      ghost var first := nextAddr;
      i := 0;
      while i < bufs.Length
        invariant i <= bufs.Length && i <= granted && Valid() && nextAddr == first + i
        invariant live == With(old(live), bufs[..i]) && allocSize == old(allocSize) + Total(bufs[..i])
        invariant forall j :: 0 <= j < i ==> bufs[j] == MhiBuf(VecSize(j, bufs.Length, segLen), first + j)
      {
        if i >= granted {
          break;
        }
        var vecSize := if i == bufs.Length - 1 then VEC_ENTRY_SIZE * i else segLen;
        var addr := AllocCoherent(vecSize);
        ghost var before := bufs[..i];
        bufs[i] := MhiBuf(vecSize, addr);
        assert bufs[..i+1] == before + [MhiBuf(vecSize, addr)];
        assert bufs[..i+1][..i] == before;
        i := i + 1;
      }
    }

    method ReleaseNewest(bufs: array<MhiBuf>, i: nat, ghost base: map<int, nat>)
      requires Valid() && 0 < i <= bufs.Length
      requires live == With(base, bufs[..i]) && Apart(bufs[..i]) && Unused(base, bufs[..i])
      modifies this`allocSize, this`live
      ensures Valid() && live == With(base, bufs[..i-1]) && allocSize == old(allocSize) - bufs[i-1].len
    {
      ghost var bs := bufs[..i];
      assert bs[..i-1] == bufs[..i-1] && bs[i-1] == bufs[i-1];
      WithoutLast(base, bs);
      WithKeys(base, bs);
      FreeCoherent(bufs[i-1].len, bufs[i-1].addr);
    }

    /** What is done when a segment cannot be had: those that were are given back, newest first. */
    method ReleaseSegments(bufs: array<MhiBuf>, n: nat, ghost base: map<int, nat>)
      requires Valid() && n <= bufs.Length
      requires live == With(base, bufs[..n]) && Apart(bufs[..n]) && Unused(base, bufs[..n])
      modifies this`allocSize, this`live
      ensures Valid() && live == base && allocSize == old(allocSize) - Total(bufs[..n])
    {
      hide With, Apart, Unused;
      var i := n;
      while i > 0
        invariant 0 <= i <= n && Valid()
        invariant live == With(base, bufs[..i]) && Apart(bufs[..i]) && Unused(base, bufs[..i])
        invariant allocSize == old(allocSize) - Total(bufs[..n]) + Total(bufs[..i])
      {
        Shorter(bufs[..i], base);
        assert bufs[..i][..i-1] == bufs[..i-1];
        ReleaseNewest(bufs, i, base);
        i := i - 1;
      }
      NothingAdded(base);
      assert bufs[..0] == [];
    }

    /**
     mhi_alloc_bhie_table; `kgranted` objects and `granted` coherent buffers are
     to be had. A failure gives back every coherent buffer. It gives back the
     table itself as well, but not the array of its entries.
     */
    method AllocBhieTable(size: nat, kgranted: nat, granted: nat) returns (img: ImageInfo?)
      requires Valid()
      modifies this
      ensures Valid()
      ensures img != null <==> kgranted >= 2 && granted >= Segments(size, segLen)
      ensures img == null ==> live == old(live) && allocSize == old(allocSize)
      ensures img == null ==> kobjects == old(kobjects) + if kgranted >= 2 then 1 else 0
      ensures img != null ==>
                && fresh(img) && fresh(img.mhiBuf) && fresh(img.bhiVec)
                && img.entries == img.mhiBuf.Length && img.bhiVec.Length == img.entries - 1
                && TableFor(img.mhiBuf[..], size, segLen) && Apart(img.mhiBuf[..]) && Unused(old(live), img.mhiBuf[..])
                && live == With(old(live), img.mhiBuf[..]) && allocSize == old(allocSize) + Total(img.mhiBuf[..])
                && kobjects == old(kobjects) + 2
    {
      var segments := (size + segLen - 1) / segLen + 1;
      if kgranted == 0 {
        return null;
      }
      kobjects := kobjects + 1;
      if kgranted == 1 {
        kobjects := kobjects - 1;
        return null;
      }
      kobjects := kobjects + 1;
      var bufs := new MhiBuf[segments](_ => MhiBuf(0, 0));
      var i := AllocSegments(bufs, granted);
      if i < segments {
        ReleaseSegments(bufs, i, old(live));
        kobjects := kobjects - 1;
        return null;
      }
      assert bufs[..] == bufs[..i];
      var vec := new VecEntry[segments - 1](_ => VecEntry(0, 0));
      img := new ImageInfo(bufs, vec, segments);
    }

    /** mhi_free_bhie_table, oldest first. */
    method FreeBhieTable(img: ImageInfo)
      requires Valid() && img.entries == img.mhiBuf.Length && Apart(img.mhiBuf[..])
      requires forall i :: 0 <= i < img.entries ==> img.mhiBuf[i].addr in live
      modifies this`allocSize, this`live, this`kobjects
      ensures Valid()
      ensures live == old(live) - Addrs(img.mhiBuf[..]) && allocSize == old(allocSize) - Total(img.mhiBuf[..])
      ensures kobjects == old(kobjects) - 2
    {
      var i := 0;
      ghost var bs := img.mhiBuf[..];
      assert Addrs(bs[..0]) == {};
      while i < img.entries
        invariant i <= img.entries && Valid() && kobjects == old(kobjects)
        invariant live == old(live) - Addrs(bs[..i]) && allocSize == old(allocSize) - Total(bs[..i])
      {
        assert bs[..i+1] == bs[..i] + [bs[i]] && bs[..i+1][..i] == bs[..i];
        assert Addrs(bs[..i+1]) == Addrs(bs[..i]) + {bs[i].addr};
        assert bs[i].addr !in Addrs(bs[..i]);
        FreeCoherent(img.mhiBuf[i].len, img.mhiBuf[i].addr);
        i := i + 1;
      }
      assert bs[..i] == bs;
      kobjects := kobjects - 2;
    }

    /** A table as it is allocated: all its buffers held, apart, full segments but for the vector's. */
    ghost predicate TableHeld(img: ImageInfo)
      reads this, img.mhiBuf
    {
      && 1 <= img.entries == img.mhiBuf.Length && img.bhiVec.Length == img.entries - 1
      && Apart(img.mhiBuf[..])
      && forall i :: 0 <= i < img.entries ==>
           && img.mhiBuf[i].addr in live && live[img.mhiBuf[i].addr] == img.mhiBuf[i].len
           && (i + 1 < img.entries ==> img.mhiBuf[i].len == segLen)
    }

    /** Piece `i` lies in segment `i`, and the vector says so. */
    ghost predicate Holds(img: ImageInfo, i: nat, piece: seq<byte>)
      reads this, img.mhiBuf, img.bhiVec
      requires i < img.mhiBuf.Length && i < img.bhiVec.Length
    {
      && img.bhiVec[i] == VecEntry(img.mhiBuf[i].addr, |piece|)
      && img.mhiBuf[i].addr in mem && |piece| <= |mem[img.mhiBuf[i].addr]|
      && mem[img.mhiBuf[i].addr][..|piece|] == piece
    }

    method CopyPiece(img: ImageInfo, i: nat, piece: seq<byte>)
      requires Valid() && TableHeld(img) && i + 1 < img.entries && |piece| <= segLen
      modifies this`mem, img.bhiVec
      ensures Valid() && TableHeld(img) && Holds(img, i, piece)
      ensures mem.Keys == old(mem).Keys && forall a :: a in mem && a != img.mhiBuf[i].addr ==> mem[a] == old(mem)[a]
      ensures forall k :: 0 <= k < img.bhiVec.Length && k != i ==> img.bhiVec[k] == old(img.bhiVec[k])
    {
      var a := img.mhiBuf[i].addr;
      mem := mem[a := piece + mem[a][|piece|..]];
      img.bhiVec[i] := VecEntry(a, |piece|);
    }

    /** The first `n` pieces are in place, and nothing but their segments and vector entries differs from `mem0` and `vec0`. */
    ghost predicate Copied(img: ImageInfo, ps: seq<seq<byte>>, n: nat, mem0: map<int, seq<byte>>, vec0: seq<VecEntry>)
      reads this, img.mhiBuf, img.bhiVec
    {
      && n <= |ps| && n < img.entries == img.mhiBuf.Length && |vec0| == img.bhiVec.Length == img.entries - 1
      && (forall k :: 0 <= k < n ==> Holds(img, k, ps[k]))
      && mem.Keys == mem0.Keys
      && (forall a :: a in mem && a !in Addrs(img.mhiBuf[..n]) ==> mem[a] == mem0[a])
      && (forall k :: n <= k < |vec0| ==> img.bhiVec[k] == vec0[k])
    }

    method CopyNext(img: ImageInfo, i: nat, piece: seq<byte>, ghost ps: seq<seq<byte>>,
                    ghost mem0: map<int, seq<byte>>, ghost vec0: seq<VecEntry>)
      requires Valid() && TableHeld(img) && Copied(img, ps, i, mem0, vec0)
      requires i + 1 < img.entries && i < |ps| && piece == ps[i] && |piece| <= segLen
      modifies this`mem, img.bhiVec
      ensures Valid() && TableHeld(img) && Copied(img, ps, i + 1, mem0, vec0)
    {
      ghost var bs := img.mhiBuf[..];
      assert bs[..i+1] == bs[..i] + [bs[i]] && img.mhiBuf[..i+1] == bs[..i+1] && img.mhiBuf[..i] == bs[..i];
      assert Addrs(bs[..i+1]) == Addrs(bs[..i]) + {bs[i].addr};
      CopyPiece(img, i, piece);
    }

    /**
     mhi_firmware_copy. Segment `i` gets piece `i` of the image; nothing else is
     written. An image for which the table is too short would go on into the
     vector's own buffer; this stops in front of it and says so.
     */
    method FirmwareCopy(image: seq<byte>, img: ImageInfo) returns (reachedVector: bool)
      requires Valid() && TableHeld(img)
      modifies this`mem, img.bhiVec
      ensures Valid() && TableHeld(img)
      ensures reachedVector <==> |image| > segLen * (img.entries - 1)
      ensures Copied(img, Cut(image, segLen), if reachedVector then img.entries - 1 else |Cut(image, segLen)|,
                     old(mem), old(img.bhiVec[..]))
    {
      hide Copied;
      ghost var ps, mem0, vec0 := Cut(image, segLen), mem, img.bhiVec[..];
      CutCount(image, segLen, img.entries - 1);
      NothingCopied(img, ps, mem0, vec0);
      var done, i := 0, 0;
      while done < |image|
        invariant done <= |image| && i <= |ps| && i < img.entries && ps[i..] == Cut(image[done..], segLen)
        invariant Valid() && TableHeld(img) && Copied(img, ps, i, mem0, vec0)
        decreases |image| - done
      {
        CutSizes(image[done..], segLen);
        if i + 1 == img.entries {
          return true;
        }
        var remainder := |image| - done;
        var toCpy := if remainder < img.mhiBuf[i].len then remainder else img.mhiBuf[i].len;
        NextPiece(image, segLen, done, toCpy);
        assert ps[i] == ps[i..][0];
        CopyNext(img, i, image[done..done + toCpy], ps, mem0, vec0);
        done := done + toCpy;
        i := i + 1;
      }
      reachedVector := false;
    }

    lemma NothingCopied(img: ImageInfo, ps: seq<seq<byte>>, mem0: map<int, seq<byte>>, vec0: seq<VecEntry>)
      requires TableHeld(img) && mem0 == mem && vec0 == img.bhiVec[..]
      ensures Copied(img, ps, 0, mem0, vec0)
    {
    }

    /**
     What mhi_fw_load_worker does with a full image: a table for its size is
     allocated and the image copied in. The copy never reaches the vector, and
     what the device fetches by it is the image.
     */
    method LoadImage(image: seq<byte>, kgranted: nat, granted: nat) returns (img: ImageInfo?)
      requires Valid()
      modifies this
      ensures Valid()
      ensures img != null <==> kgranted >= 2 && granted >= Segments(|image|, segLen)
      ensures img == null ==> live == old(live) && allocSize == old(allocSize)
      ensures img != null ==> img.bhiVec.Length == Segments(|image|, segLen) - 1 && Flatten(Fetched(img.bhiVec[..], mem)) == image
    {
      img := AllocBhieTable(|image|, kgranted, granted);
      if img == null {
        return;
      }
      forall i | 0 <= i < img.entries
        ensures img.mhiBuf[i].addr in live && live[img.mhiBuf[i].addr] == img.mhiBuf[i].len
      {
        WithSizes(old(live), img.mhiBuf[..], i);
      }
      ClearOfVectorIffFits(image, segLen, img.entries);
      var reachedVector := FirmwareCopy(image, img);
      FetchedIsImage(img.bhiVec[..], mem, image, segLen);
    }
  }

  lemma NextPiece(image: seq<byte>, segLen: nat, done: nat, n: nat)
    requires 0 < segLen && done < |image| && n == if |image| - done < segLen then |image| - done else segLen
    ensures Cut(image[done..], segLen) == [image[done..done + n]] + Cut(image[done + n..], segLen)
  {
    var rest := image[done..];
    assert rest[..n] == image[done..done + n] && rest[n..] == image[done + n..];
    if n == |rest| {
      assert rest[..n] == rest;
    }
  }

  // --- What the table is good for ------------------------------------------------

  /** What the device finds by following the vector. */
  function Fetched(vec: seq<VecEntry>, mem: map<int, seq<byte>>): seq<seq<byte>> {
    seq(|vec|, i requires 0 <= i < |vec| =>
      if vec[i].addr in mem && vec[i].size <= |mem[vec[i].addr]| then mem[vec[i].addr][..vec[i].size] else [])
  }

  /** Entries that hold the pieces of an image put together the image. */
  lemma FetchedIsImage(vec: seq<VecEntry>, mem: map<int, seq<byte>>, image: seq<byte>, segLen: nat)
    requires 0 < segLen && |vec| == |Cut(image, segLen)|
    requires forall i :: 0 <= i < |vec| ==>
               var piece := Cut(image, segLen)[i];
               vec[i].size == |piece| && vec[i].addr in mem && |piece| <= |mem[vec[i].addr]| && mem[vec[i].addr][..|piece|] == piece
    ensures Flatten(Fetched(vec, mem)) == image
  {
    assert Fetched(vec, mem) == Cut(image, segLen);
    CutJoins(image, segLen);
  }

  /**
   An image stays clear of the vector's entry exactly if the entries before it
   hold that many full segments; in a table allocated for its own size it fills
   all of them and no more.
   */
  lemma ClearOfVectorIffFits(image: seq<byte>, segLen: nat, entries: nat)
    requires 0 < segLen && 1 <= entries
    ensures |Cut(image, segLen)| <= entries - 1 <==> |image| <= segLen * (entries - 1)
    ensures |Cut(image, segLen)| == Segments(|image|, segLen) - 1
  {
    CutCount(image, segLen, entries - 1);
    var k := (|image| + segLen - 1) / segLen;
    CutCount(image, segLen, k);
    RoundUp(|image|, segLen);
    if k > 0 {
      CutCount(image, segLen, k - 1);
    }
  }

  /** The vector's own buffer, at the end of the table, takes exactly one entry for every piece of the image. */
  lemma VectorHoldsPieces(image: seq<byte>, segLen: nat, bs: seq<MhiBuf>)
    requires 0 < segLen && TableFor(bs, |image|, segLen)
    ensures bs[|bs|-1].len == 16 * |Cut(image, segLen)|
    ensures forall i :: 0 <= i < |bs| - 1 ==> bs[i].len == segLen && |Cut(image, segLen)[i]| <= bs[i].len
  {
    ClearOfVectorIffFits(image, segLen, |bs|);
    CutSizes(image, segLen);
  }

  lemma RoundUp(n: nat, d: nat)
    requires 0 < d
    ensures var k := (n + d - 1) / d;
            n <= d * k && (k > 0 ==> n > d * (k - 1))
  {
    var k := (n + d - 1) / d;
    assert n + d - 1 == d * k + (n + d - 1) % d;
    assert k > 0 ==> d * (k - 1) == d * k - d;
  }
}
