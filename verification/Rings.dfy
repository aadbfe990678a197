/**
 Circular rings of fixed-size elements, as the driver keeps them.

 The driver stores a ring as a base address, an element size and two byte
 pointers, `rp` and `wp`. Everything it promises about a ring is about slots:
 which are in use and how many are free. The functions below give the slot
 arithmetic; class `Ring` is the byte-pointer form, each of whose methods is
 proved to be one of those functions.
 */
module Rings {

  /** The slot after `k` in a ring of `n` slots. */
  function Next(k: nat, n: nat): (r: nat)
    requires k < n
    ensures r < n
  {
    if k + 1 == n then 0 else k + 1
  }

  /** Slot `k`, brought back into a ring of `n` slots after at most one turn. */
  function Wrap(k: nat, n: nat): (r: nat)
    requires k < 2 * n
    ensures r < n
  {
    if k < n then k else k - n
  }

  /** How many slots lie between the read slot `r` and the write slot `w`. */
  function Used(r: nat, w: nat, n: nat): (u: nat)
    requires r < n && w < n
    ensures u < n
    ensures Wrap(r + u, n) == w
  {
    if r <= w then w - r else w + n - r
  }

  /** How many elements can still be added: one slot always stays empty. */
  function Free(r: nat, w: nat, n: nat): (f: nat)
    requires r < n && w < n
  {
    n - 1 - Used(r, w, n)
  }

  lemma MulOrder(a: int, b: int, el: nat)
    requires a < b
    ensures a * el + el <= b * el
  {
    assert b * el - a * el == (b - a) * el;
    assert (b - a) * el == (b - a - 1) * el + el;
  }

  lemma DivExact(k: int, el: nat)
    requires el > 0
    ensures (k * el) / el == k
  {
    var q := (k * el) / el;
    assert k * el == q * el + (k * el) % el;
    if q < k {
      MulOrder(q, k, el);
    } else if k < q {
      MulOrder(k, q, el);
    }
  }

  /**
   The driver's ring: byte pointers over `elements` slots of `elSize` bytes. The
   ghost fields `r` and `w` are the slots that `rp` and `wp` point to.
   */
  class Ring {
    const base: int
    const iommuBase: int
    const elSize: nat
    const elements: nat
    var rp: int
    var wp: int
    ghost var r: nat
    ghost var w: nat

    ghost predicate Valid()
      reads this
    {
      && 0 < elSize
      && r < elements
      && w < elements
      && rp == base + r * elSize
      && wp == base + w * elSize
    }

    /** Where slot `k` starts, in the host's address space and in the device's. */
    function Addr(k: nat): int { base + k * elSize }

    function Phys(k: nat): int { iommuBase + k * elSize }

    constructor (base: int, iommuBase: int, elSize: nat, elements: nat)
      requires 0 < elSize && 0 < elements
      ensures Valid() && r == w == 0
      ensures this.base == base && this.iommuBase == iommuBase
      ensures this.elSize == elSize && this.elements == elements
    {
      this.base, this.iommuBase, this.elSize, this.elements := base, iommuBase, elSize, elements;
      rp, wp := base, base;
      r, w := 0, 0;
    }

    /** Advancing a pointer that sits on a slot reaches the next slot, whatever the element size. */
    lemma AdvanceIsNext(p: int, k: nat)
      requires 0 < elSize && k < elements
      requires p == Addr(k)
      ensures (if p + elSize >= base + elSize * elements then base else p + elSize) == Addr(Next(k, elements))
    {
      assert (k + 1) * elSize == k * elSize + elSize;
      if k + 1 < elements {
        MulOrder(k + 1, elements, elSize);
      }
    }

    method AddElement()
      requires Valid()
      modifies this`wp, this`w
      ensures Valid()
      ensures w == Next(old(w), elements)
    {
      AdvanceIsNext(wp, w);
      var p := wp + elSize;
      if p >= base + elSize * elements {
        p := base;
      }
      wp := p;
      w := Next(w, elements);
    }

    method DelElement()
      requires Valid()
      modifies this`rp, this`r
      ensures Valid()
      ensures r == Next(old(r), elements)
    {
      AdvanceIsNext(rp, r);
      var p := rp + elSize;
      if p >= base + elSize * elements {
        p := base;
      }
      rp := p;
      r := Next(r, elements);
    }

    /** The two-case byte arithmetic counts exactly the free slots. */
    method NrAvail() returns (nrEl: int)
      requires Valid()
      ensures nrEl == Free(r, w, elements)
    {
      PointerOrder();
      if wp < rp {
        assert rp - wp == (r - w) * elSize;
        DivExact(r - w, elSize);
        nrEl := (rp - wp) / elSize - 1;
      } else {
        assert rp - base == r * elSize;
        assert base + elSize * elements - wp == (elements - w) * elSize;
        DivExact(r, elSize);
        DivExact(elements - w, elSize);
        nrEl := (rp - base) / elSize;
        nrEl := nrEl + ((base + elSize * elements - wp) / elSize - 1);
      }
    }

    /** The slots under the two pointers, as the source finds them by dereferencing. */
    method WriteSlot() returns (k: nat)
      requires Valid()
      ensures k == w
    {
      DivExact(w, elSize);
      k := (wp - base) / elSize;
    }

    method ReadSlot() returns (k: nat)
      requires Valid()
      ensures k == r
    {
      DivExact(r, elSize);
      k := (rp - base) / elSize;
    }

    method IsFull() returns (full: bool)
      requires Valid()
      ensures full <==> Free(r, w, elements) == 0
    {
      AdvanceIsNext(wp, w);
      SameSlot(Next(w, elements), r);
      var tmp := wp + elSize;
      if tmp >= base + elSize * elements {
        tmp := base;
      }
      full := tmp == rp;
    }

    /** Two addresses of slots are equal exactly when the slots are, and ordered as the slots are. */
    lemma SameSlot(a: nat, b: nat)
      requires 0 < elSize
      ensures Addr(a) == Addr(b) <==> a == b
      ensures a < b ==> Addr(a) < Addr(b)
    {
      if a < b {
        MulOrder(a, b, elSize);
      } else if b < a {
        MulOrder(b, a, elSize);
      }
    }

    lemma PointerOrder()
      requires Valid()
      ensures wp < rp <==> w < r
      ensures wp == rp <==> w == r
    {
      SameSlot(w, r);
      SameSlot(r, w);
    }

    function ToVirtual(addr: int): int { (addr - iommuBase) + base }
  }

  /**
   The slot arithmetic seen from a queue of `u` elements: adding at the write
   slot and removing at the read slot change the count by one, and the element
   at queue position `i` keeps its slot when others come and go.
   */
  lemma QueueMoves(r: nat, w: nat, n: nat)
    requires r < n && w < n
    ensures Free(r, w, n) > 0 ==> Used(r, Next(w, n), n) == Used(r, w, n) + 1
    ensures Used(r, w, n) > 0 ==> Used(Next(r, n), w, n) == Used(r, w, n) - 1
    ensures Used(r, w, n) == 0 <==> r == w
  {
  }

  // --- Slots as counts of advances ---------------------------------------------

  /** The slot of a pointer that has been advanced `k` times since the ring was set up. */
  function SlotOf(k: nat, n: nat): (s: nat)
    requires 0 < n
    ensures s < n
  {
    if k == 0 then 0 else Next(SlotOf(k - 1, n), n)
  }

  /** Counting advances agrees with the slot arithmetic, while the counts are less than a turn apart. */
  lemma {:induction false} CountersAreSlots(a: nat, b: nat, n: nat)
    requires a <= b < a + n
    ensures Used(SlotOf(a, n), SlotOf(b, n), n) == b - a
    decreases b
  {
    if a < b {
      CountersAreSlots(a, b - 1, n);
      QueueMoves(SlotOf(a, n), SlotOf(b - 1, n), n);
    }
  }

  /** A full turn comes back to the same slot. */
  lemma FullTurn(k: nat, n: nat)
    requires 0 < n
    ensures SlotOf(k + n, n) == SlotOf(k, n)
  {
    CountersAreSlots(k, k + n - 1, n);
  }
}
