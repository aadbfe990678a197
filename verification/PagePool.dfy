/**
 The recycled receive pages of a network device.

 The device keeps a pool of pages, about twice as many as its ring takes, and
 posts the same ones again and again. Whether a page may be posted is read off
 its reference count: one for the pool, and one for each holder, that is the
 ring it is posted to or a packet the network stack has not freed yet. Only the
 next four pages of the pool are looked at; if none is free, pages from outside
 the pool are posted instead, which are freed after use.
 */
module PagePool {
  import opened Basics
  import opened Rings

  /** A posted or delivered page: number `k` of the pool, or one from outside it. */
  datatype Entry = Pooled(k: nat) | Temporary

  /** Ring entries are oldest first; `stack` has one entry for every reference the network stack holds. */
  datatype Pool = Pool(cap: nat, count: seq<nat>, index: nat, ring: seq<Entry>, stack: seq<Entry>)

  const MAX_PEAK := 4

  // --- Sizes and masks -----------------------------------------------------------

  function Pow2(k: nat): (p: nat)
    ensures p >= 1
  {
    if k == 0 then 1 else 2 * Pow2(k - 1)
  }

  /** The position of the highest bit of `n`. */
  function Ilog2(n: nat): nat
    requires 1 <= n
  {
    if n == 1 then 0 else 1 + Ilog2(n / 2)
  }

  lemma {:induction false} Ilog2Bounds(n: nat)
    requires 1 <= n
    ensures Pow2(Ilog2(n)) <= n < 2 * Pow2(Ilog2(n))
  {
    if n > 1 {
      Ilog2Bounds(n / 2);
    }
  }

  /** The pool size for a ring that takes `nrTre` elements. */
  method PoolSize(nrTre: nat) returns (poolSize: nat)
    requires 1 <= nrTre
    ensures exists k :: poolSize == Pow2(k)
    ensures 2 * nrTre <= poolSize < 4 * nrTre
  {
    Ilog2Bounds(nrTre);
    poolSize := Pow2(Ilog2(nrTre));
    ghost var k := Ilog2(nrTre);
    if nrTre > poolSize {
      poolSize := 2 * poolSize;
      k := k + 1;
    }
    assert poolSize == Pow2(k);
    poolSize := 2 * poolSize;
    assert poolSize == Pow2(k + 1);
  }

  /** Bitwise and. */
  function And(a: nat, b: nat): nat {
    if a == 0 || b == 0 then 0 else (a % 2) * (b % 2) + 2 * And(a / 2, b / 2)
  }

  /** For a power of two, masking with one less is the remainder. */
  lemma {:induction false} MaskIsModulo(a: nat, k: nat)
    ensures And(a, Pow2(k) - 1) == a % Pow2(k)
  {
    if a == 0 {
      ModuloIs(0, Pow2(k), 0, 0);
    } else if k > 0 {
      hide And;
      MaskIsModulo(a / 2, k - 1);
      MaskDoubles(a, Pow2(k - 1));
    } else {
      ModuloIs(a, 1, a, 0);
    }
  }

  lemma MaskDoubles(a: nat, p: nat)
    requires 1 <= p && 1 <= a && And(a / 2, p - 1) == a / 2 % p
    ensures And(a, 2 * p - 1) == a % (2 * p)
  {
    hide And;
    HalfMask(a, p);
    DoubleModulo(a, p);
  }

  lemma HalfMask(a: nat, p: nat)
    requires 1 <= p && 1 <= a
    ensures And(a, 2 * p - 1) == a % 2 + 2 * And(a / 2, p - 1)
  {
    assert (2 * p - 1) / 2 == p - 1 && (2 * p - 1) % 2 == 1;
  }

  lemma DoubleModulo(a: nat, p: nat)
    requires 1 <= p
    ensures a % 2 + 2 * (a / 2 % p) == a % (2 * p)
  {
    var h := a / 2;
    var q, r := h / p, h % p;
    assert h == q * p + r;
    assert a == 2 * h + a % 2;
    assert 2 * (q * p) == q * (2 * p);
    ModuloIs(a, 2 * p, q, 2 * r + a % 2);
  }

  lemma ModuloIs(a: nat, d: nat, q: nat, r: nat)
    requires a == q * d + r && r < d
    ensures a % d == r
  {
    var q', r' := a / d, a % d;
    assert a == q' * d + r';
    if q < q' {
      MulOrder(q, q', d);
    } else if q' < q {
      MulOrder(q', q, d);
    }
  }

  lemma MaskedNext(i: nat, k: nat)
    requires i < Pow2(k)
    ensures And(i + 1, Pow2(k) - 1) == Next(i, Pow2(k))
  {
    MaskIsModulo(i + 1, k);
    if i + 1 == Pow2(k) {
      ModuloIs(i + 1, Pow2(k), 1, 0);
    } else {
      ModuloIs(i + 1, Pow2(k), 0, i + 1);
    }
  }

  // --- What the operations do ------------------------------------------------------

  predicate Shaped(s: Pool) {
    && s.index < |s.count|
    && (forall i :: 0 <= i < |s.ring| && s.ring[i].Pooled? ==> s.ring[i].k < |s.count|)
    && (forall i :: 0 <= i < |s.stack| && s.stack[i].Pooled? ==> s.stack[i].k < |s.count|)
  }

  /** The first of the next `peak` pages that nobody but the pool holds. */
  function FindIdle(count: seq<nat>, cur: nat, peak: nat): (found: Option<nat>)
    requires cur < |count|
    ensures found.Some? ==> found.value < |count| && count[found.value] == 1
    decreases peak
  {
    if peak == 0 then None
    else if count[cur] == 1 then Some(cur)
    else FindIdle(count, Next(cur, |count|), peak - 1)
  }

  function Post(s: Pool, k: nat): (s': Pool)
    requires Shaped(s) && k < |s.count|
    ensures Shaped(s') && |s'.count| == |s.count|
  {
    s.(count := s.count[k := s.count[k] + 1], index := Next(k, |s.count|), ring := s.ring + [Pooled(k)])
  }

  /** How posting from the pool ends: `left` not posted, `accept` more that the channel would take, or refused. */
  datatype Posted = Posted(pool: Pool, left: nat, accept: nat, refused: bool)

  function PostPooled(s: Pool, todo: nat, accept: nat): (p: Posted)
    requires Shaped(s)
    ensures Shaped(p.pool) && |p.pool.count| == |s.count|
    decreases todo
  {
    if todo == 0 then Posted(s, 0, accept, false)
    else
      match FindIdle(s.count, s.index, MAX_PEAK)
      case None => Posted(s, todo, accept, false)
      case Some(k) =>
        if accept == 0 then Posted(s, todo, 0, true) else PostPooled(Post(s, k), todo - 1, accept - 1)
  }

  function PostTemporary(s: Pool, todo: nat, accept: nat, memory: nat): (s': Pool)
    requires Shaped(s)
    ensures Shaped(s') && |s'.count| == |s.count|
    decreases todo
  {
    if todo == 0 || accept == 0 || memory == 0 then s
    else PostTemporary(s.(ring := s.ring + [Temporary]), todo - 1, accept - 1, memory - 1)
  }

  /** mhi_netdev_queue: the channel takes `accept` buffers, and `memory` temporary pages are to be had. */
  function Refill(s: Pool, accept: nat, memory: nat): (s': Pool)
    requires Shaped(s) && |s.ring| <= s.cap
    ensures Shaped(s') && |s'.count| == |s.count|
  {
    var p := PostPooled(s, s.cap - |s.ring|, accept);
    if p.refused then p.pool else PostTemporary(p.pool, p.left, p.accept, memory)
  }

  /** One reference to a page is given up. */
  function Drop(s: Pool, e: Entry): (s': Pool)
    requires Shaped(s) && (e.Pooled? ==> e.k < |s.count| && s.count[e.k] >= 1)
    ensures Shaped(s') && |s'.count| == |s.count|
  {
    if e.Pooled? then s.(count := s.count[e.k := s.count[e.k] - 1]) else s
  }

  /** mhi_netdev_xfer_dl_cb: the page goes to the stack, or is dropped on a disconnect or for want of memory. */
  function Complete(s: Pool, delivered: bool): (s': Pool)
    requires Shaped(s) && s.ring != [] && (s.ring[0].Pooled? ==> s.count[s.ring[0].k] >= 1)
    ensures Shaped(s') && |s'.count| == |s.count|
  {
    var s1 := s.(ring := s.ring[1..]);
    if delivered then s1.(stack := s.stack + [s.ring[0]]) else Drop(s1, s.ring[0])
  }

  /** The stack takes another reference to a page it has, as for a clone of a packet. */
  function Retain(s: Pool, j: nat): (s': Pool)
    requires Shaped(s) && j < |s.stack|
    ensures Shaped(s') && |s'.count| == |s.count|
  {
    var e := s.stack[j];
    var s1 := s.(stack := s.stack + [e]);
    if e.Pooled? then s1.(count := s.count[e.k := s.count[e.k] + 1]) else s1
  }

  /** The stack gives one reference up. */
  function Release(s: Pool, j: nat): (s': Pool)
    requires Shaped(s) && j < |s.stack| && (s.stack[j].Pooled? ==> s.count[s.stack[j].k] >= 1)
    ensures Shaped(s') && |s'.count| == |s.count|
  {
    Drop(s.(stack := s.stack[..j] + s.stack[j+1..]), s.stack[j])
  }

  // --- The driver's form -----------------------------------------------------------

  class Netdev {
    const cap: nat
    const pageCount: array<nat>
    const sizeLog: nat
    var currentIndex: nat
    var ring: seq<Entry>
    var stack: seq<Entry>

    ghost predicate Valid()
      reads this, pageCount
    {
      pageCount.Length == Pow2(sizeLog) && Shaped(View()) && |ring| <= cap
    }

    ghost function View(): Pool
      reads this, pageCount
    {
      Pool(cap, pageCount[..], currentIndex, ring, stack)
    }

    constructor (cap: nat, sizeLog: nat)
      ensures Valid() && View() == Pool(cap, seq(Pow2(sizeLog), _ => 1), 0, [], []) && fresh(pageCount)
      ensures this.sizeLog == sizeLog
    {
      this.cap, this.sizeLog := cap, sizeLog;
      pageCount := new nat[Pow2(sizeLog)](_ => 1);
      currentIndex, ring, stack := 0, [], [];
    }

    /** The inner loop: up to four pages are looked at. */
    method Peek() returns (found: Option<nat>)
      requires Valid()
      ensures found == FindIdle(pageCount[..], currentIndex, MAX_PEAK)
    {
      var curIndex: nat, peak := currentIndex, 0;
      while peak < MAX_PEAK
        invariant peak <= MAX_PEAK && curIndex < pageCount.Length
        invariant FindIdle(pageCount[..], curIndex, MAX_PEAK - peak) == FindIdle(pageCount[..], currentIndex, MAX_PEAK)
      {
        if pageCount[curIndex] == 1 {
          return Some(curIndex);
        }
        MaskedNext(curIndex, sizeLog);
        curIndex := And(curIndex + 1, pageCount.Length - 1);
        peak := peak + 1;
      }
      found := None;
    }

    method PostPage(k: nat)
      requires Valid() && k < pageCount.Length && |ring| < cap
      modifies this, pageCount
      ensures Valid() && View() == Post(old(View()), k) && |ring| == |old(ring)| + 1
    {
      pageCount[k] := pageCount[k] + 1;
      ring := ring + [Pooled(k)];
      MaskedNext(k, sizeLog);
      currentIndex := And(k + 1, pageCount.Length - 1);
    }

    /** mhi_netdev_tmp_alloc */
    method TmpAlloc(n: nat, accept: nat, memory: nat)
      requires Valid() && |ring| + n <= cap
      modifies this`ring
      ensures Valid() && View() == PostTemporary(old(View()), n, accept, memory)
    {
      var i := 0;
      while i < n
        invariant i <= n && i <= accept && i <= memory && Valid() && |ring| + (n - i) <= cap
        invariant PostTemporary(View(), n - i, accept - i, memory - i) == PostTemporary(old(View()), n, accept, memory)
      {
        if i >= memory || i >= accept {
          return;
        }
        ring := ring + [Temporary];
        i := i + 1;
      }
    }

    /** The outer loop of mhi_netdev_queue. */
    method PostFromPool(nrTre: nat, accept: nat) returns (i: nat, refused: bool)
      requires Valid() && |ring| + nrTre <= cap
      modifies this, pageCount
      ensures Valid() && i <= nrTre && i <= accept && |ring| == |old(ring)| + i
      ensures Posted(View(), nrTre - i, accept - i, refused) == PostPooled(old(View()), nrTre, accept)
    {
      hide FindIdle, Post;
      i := 0;
      while i < nrTre
        invariant i <= nrTre && i <= accept && Valid() && |ring| == |old(ring)| + i
        invariant PostPooled(View(), nrTre - i, accept - i) == PostPooled(old(View()), nrTre, accept)
      {
        var netbuf := Peek();
        if netbuf.None? {
          return i, false;
        }
        if i >= accept {
          return i, true;
        }
        PostPage(netbuf.value);
        i := i + 1;
      }
      refused := false;
    }

    /** mhi_netdev_queue */
    method Queue(accept: nat, memory: nat)
      requires Valid()
      modifies this, pageCount
      ensures Valid() && View() == Refill(old(View()), accept, memory)
    {
      hide FindIdle, Pow2, And;
      var nrTre := cap - |ring|;
      if nrTre == 0 {
        return;
      }
      var i, refused := PostFromPool(nrTre, accept);
      if !refused && i < nrTre {
        TmpAlloc(nrTre - i, accept - i, memory);
      }
    }
  }

  // --- What holds over every run -----------------------------------------------------

  /** The references to page `k` that are not the pool's own. */
  function InRing(s: Pool, k: nat): nat { multiset(s.ring)[Pooled(k)] }

  function InStack(s: Pool, k: nat): nat { multiset(s.stack)[Pooled(k)] }

  /** The count of page `k` is one for the pool and one for each holder; in the ring it has no other holder. */
  predicate PageSound(s: Pool, k: nat)
    requires k < |s.count|
  {
    && s.count[k] == 1 + InRing(s, k) + InStack(s, k)
    && InRing(s, k) <= 1
    && (InRing(s, k) == 1 ==> InStack(s, k) == 0)
  }

  ghost predicate Sound(s: Pool) {
    && Shaped(s) && |s.ring| <= s.cap
    && forall k :: 0 <= k < |s.count| ==> PageSound(s, k)
  }

  /** A page about to be posted is held by neither the ring nor the stack. */
  lemma IdleIsUnheld(s: Pool, peak: nat)
    requires Sound(s) && FindIdle(s.count, s.index, peak).Some?
    ensures var k := FindIdle(s.count, s.index, peak).value;
            Pooled(k) !in s.ring && Pooled(k) !in s.stack
  {
    var k := FindIdle(s.count, s.index, peak).value;
    assert PageSound(s, k);
    assert Pooled(k) !in multiset(s.ring) && Pooled(k) !in multiset(s.stack);
  }

  lemma PostSound(s: Pool, k: nat)
    requires Sound(s) && |s.ring| < s.cap && k < |s.count| && s.count[k] == 1
    ensures Sound(Post(s, k))
  {
    var d := Post(s, k);
    forall p | 0 <= p < |d.count|
      ensures PageSound(d, p)
    {
      assert PageSound(s, p);
      assert multiset(d.ring) == multiset(s.ring) + multiset{Pooled(k)};
    }
  }

  lemma {:induction false} PostPooledSound(s: Pool, todo: nat, accept: nat)
    requires Sound(s) && |s.ring| + todo <= s.cap
    ensures var p := PostPooled(s, todo, accept);
            && Sound(p.pool) && p.pool.cap == s.cap && p.left <= todo && p.pool.stack == s.stack
            && |p.pool.ring| == |s.ring| + (todo - p.left) && p.accept + (todo - p.left) == accept
    decreases todo
  {
    var found := FindIdle(s.count, s.index, MAX_PEAK);
    if todo > 0 && found.Some? && accept > 0 {
      PostSound(s, found.value);
      PostPooledSound(Post(s, found.value), todo - 1, accept - 1);
    }
  }

  lemma {:induction false} PostTemporarySound(s: Pool, todo: nat, accept: nat, memory: nat)
    requires Sound(s) && |s.ring| + todo <= s.cap
    ensures var d := PostTemporary(s, todo, accept, memory);
            && Sound(d) && d.cap == s.cap && d.stack == s.stack
            && (accept >= todo && memory >= todo ==> |d.ring| == |s.ring| + todo)
    decreases todo
  {
    if todo > 0 && accept > 0 && memory > 0 {
      var d := s.(ring := s.ring + [Temporary]);
      forall p | 0 <= p < |d.count|
        ensures PageSound(d, p)
      {
        assert PageSound(s, p);
        assert multiset(d.ring) == multiset(s.ring) + multiset{Temporary};
      }
      PostTemporarySound(d, todo - 1, accept - 1, memory - 1);
    }
  }

  /** Refilling keeps the counts right, and fills the ring unless the channel or the allocator says no. */
  lemma RefillSound(s: Pool, accept: nat, memory: nat)
    requires Sound(s)
    ensures Sound(Refill(s, accept, memory)) && Refill(s, accept, memory).cap == s.cap
    ensures accept >= s.cap - |s.ring| && memory >= s.cap - |s.ring| ==> |Refill(s, accept, memory).ring| == s.cap
  {
    var todo := s.cap - |s.ring|;
    PostPooledSound(s, todo, accept);
    var p := PostPooled(s, todo, accept);
    RefusedMeansFull(s, todo, accept);
    if !p.refused {
      PostTemporarySound(p.pool, p.left, p.accept, memory);
    }
  }

  lemma {:induction false} RefusedMeansFull(s: Pool, todo: nat, accept: nat)
    requires Shaped(s)
    ensures PostPooled(s, todo, accept).refused ==> accept < todo
    decreases todo
  {
    var found := FindIdle(s.count, s.index, MAX_PEAK);
    if todo > 0 && found.Some? && accept > 0 {
      RefusedMeansFull(Post(s, found.value), todo - 1, accept - 1);
    }
  }

  lemma CompleteSound(s: Pool, delivered: bool)
    requires Sound(s) && s.ring != []
    ensures s.ring[0].Pooled? ==> s.count[s.ring[0].k] >= 1
    ensures Sound(Complete(s, delivered))
  {
    var e := s.ring[0];
    assert s.ring == [e] + s.ring[1..];
    assert multiset(s.ring) == multiset{e} + multiset(s.ring[1..]);
    if e.Pooled? {
      assert PageSound(s, e.k);
    }
    var d := Complete(s, delivered);
    forall p | 0 <= p < |d.count|
      ensures PageSound(d, p)
    {
      assert PageSound(s, p);
    }
  }

  lemma RetainSound(s: Pool, j: nat)
    requires Sound(s) && j < |s.stack|
    ensures Sound(Retain(s, j))
  {
    var e, d := s.stack[j], Retain(s, j);
    assert e in multiset(s.stack);
    forall p | 0 <= p < |d.count|
      ensures PageSound(d, p)
    {
      assert PageSound(s, p);
      assert multiset(d.stack) == multiset(s.stack) + multiset{e};
    }
  }

  lemma ReleaseSound(s: Pool, j: nat)
    requires Sound(s) && j < |s.stack|
    ensures s.stack[j].Pooled? ==> s.count[s.stack[j].k] >= 1
    ensures Sound(Release(s, j))
  {
    var e := s.stack[j];
    if e.Pooled? {
      assert PageSound(s, e.k);
    }
    var d := Release(s, j);
    assert s.stack == s.stack[..j] + [e] + s.stack[j+1..];
    assert multiset(s.stack) == multiset(d.stack) + multiset{e};
    forall p | 0 <= p < |d.count|
      ensures PageSound(d, p)
    {
      assert PageSound(s, p);
    }
  }

  // --- What a refill posts -------------------------------------------------------------

  /** The page `j` places after `cur` in the pool. */
  function Ahead(cur: nat, j: nat, n: nat): (k: nat)
    requires cur < n
    ensures k < n
    decreases j
  {
    if j == 0 then cur else Ahead(Next(cur, n), j - 1, n)
  }

  /** None of the next `peak` pages is idle. */
  predicate NoneIdle(count: seq<nat>, cur: nat, peak: nat)
    requires cur < |count|
  {
    forall j :: 0 <= j < peak ==> count[Ahead(cur, j, |count|)] != 1
  }

  /** The page found is the first idle one of the next `peak`, and one is found if there is any. */
  lemma {:induction false} FindIdleIsFirst(count: seq<nat>, cur: nat, peak: nat)
    requires cur < |count|
    ensures FindIdle(count, cur, peak) == None <==> NoneIdle(count, cur, peak)
    ensures FindIdle(count, cur, peak).Some? ==>
              exists j :: 0 <= j < peak && NoneIdle(count, cur, j)
                && FindIdle(count, cur, peak).value == Ahead(cur, j, |count|) && count[Ahead(cur, j, |count|)] == 1
    decreases peak
  {
    if peak > 0 {
      if count[cur] == 1 {
        assert Ahead(cur, 0, |count|) == cur && NoneIdle(count, cur, 0);
      } else {
        var next := Next(cur, |count|);
        FindIdleIsFirst(count, next, peak - 1);
        forall j | 0 <= j < peak
          ensures j > 0 ==> Ahead(cur, j, |count|) == Ahead(next, j - 1, |count|)
        {
        }
        if FindIdle(count, next, peak - 1).Some? {
          var j :| 0 <= j < peak - 1 && NoneIdle(count, next, j)
                   && FindIdle(count, next, peak - 1).value == Ahead(next, j, |count|) && count[Ahead(next, j, |count|)] == 1;
          assert NoneIdle(count, cur, j + 1);
          assert Ahead(cur, j + 1, |count|) == Ahead(next, j, |count|);
        } else {
          assert NoneIdle(count, cur, peak);
        }
        if NoneIdle(count, cur, peak) {
          assert NoneIdle(count, next, peak - 1) by {
            forall j | 0 <= j < peak - 1
              ensures count[Ahead(next, j, |count|)] != 1
            {
              assert Ahead(cur, j + 1, |count|) == Ahead(next, j, |count|);
            }
          }
        }
      }
    }
  }

  /** `d` is `s` with some idle pool pages added to the ring, each once. */
  ghost predicate IdleAdded(s: Pool, d: Pool) {
    && s.ring <= d.ring && |d.count| == |s.count|
    && (forall i :: |s.ring| <= i < |d.ring| ==> d.ring[i].Pooled? && d.ring[i].k < |s.count| && s.count[d.ring[i].k] == 1)
    && (forall i, j :: |s.ring| <= i < j < |d.ring| ==> d.ring[i] != d.ring[j])
    && (forall k :: 0 <= k < |s.count| && s.count[k] != 1 ==> d.count[k] == s.count[k])
    && (forall k :: 0 <= k < |s.count| && Pooled(k) !in d.ring[|s.ring|..] ==> d.count[k] == s.count[k])
  }

  /** The search goes on behind the page posted last. */
  predicate LooksOn(s: Pool, d: Pool) {
    && s.ring <= d.ring
    && if |d.ring| == |s.ring| then d.index == s.index
       else
         var e := d.ring[|d.ring|-1];
         e.Pooled? && e.k < |d.count| && d.index == Next(e.k, |d.count|)
  }

  lemma AddedBefore(s: Pool, k: nat, d: Pool)
    requires Shaped(s) && k < |s.count| && s.count[k] == 1 && IdleAdded(Post(s, k), d)
    ensures IdleAdded(s, d)
  {
    var s1 := Post(s, k);
    assert s1.ring[|s.ring|] == Pooled(k) && d.ring[|s.ring|] == Pooled(k);
    assert forall i :: |s1.ring| <= i < |d.ring| ==> d.ring[i] != Pooled(k);
    forall p | 0 <= p < |s.count| && Pooled(p) !in d.ring[|s.ring|..]
      ensures d.count[p] == s.count[p]
    {
      assert d.ring[|s.ring|..][0] == Pooled(k);
      assert d.ring[|s1.ring|..] == d.ring[|s.ring|..][1..];
    }
  }

  /**
   Pages of the pool are posted until the ring is full, the channel refuses, or
   none of the next four is idle.
   */
  lemma {:induction false} PostsFromPool(s: Pool, todo: nat, accept: nat)
    requires Shaped(s)
    ensures var p := PostPooled(s, todo, accept);
            && IdleAdded(s, p.pool) && |p.pool.ring| == |s.ring| + (todo - p.left) && p.accept == accept - (todo - p.left)
            && (p.left > 0 && !p.refused ==> NoneIdle(p.pool.count, p.pool.index, MAX_PEAK))
            && (p.refused <==> p.left > 0 && p.accept == 0 && !NoneIdle(p.pool.count, p.pool.index, MAX_PEAK))
    decreases todo
  {
    hide Ahead, NoneIdle, FindIdle;
    FindIdleIsFirst(s.count, s.index, MAX_PEAK);
    var found := FindIdle(s.count, s.index, MAX_PEAK);
    if todo > 0 && found.Some? && accept > 0 {
      PostsFromPool(Post(s, found.value), todo - 1, accept - 1);
      hide Post;
      AddedBefore(s, found.value, PostPooled(s, todo, accept).pool);
    }
  }

  lemma {:induction false} PostsLookOn(s: Pool, todo: nat, accept: nat)
    requires Shaped(s)
    ensures LooksOn(s, PostPooled(s, todo, accept).pool)
    decreases todo
  {
    hide FindIdle;
    var found := FindIdle(s.count, s.index, MAX_PEAK);
    if todo > 0 && found.Some? && accept > 0 {
      var s1 := Post(s, found.value);
      assert s1.ring == s.ring + [Pooled(found.value)] && s1.index == Next(found.value, |s.count|) && |s1.count| == |s.count|;
      PostsLookOn(s1, todo - 1, accept - 1);
    }
  }

  lemma {:induction false} PostsTemporary(s: Pool, todo: nat, accept: nat, memory: nat)
    requires Shaped(s)
    ensures var d := PostTemporary(s, todo, accept, memory);
            && d == s.(ring := d.ring) && s.ring <= d.ring && |d.ring| == |s.ring| + Min(todo, Min(accept, memory))
            && forall i :: |s.ring| <= i < |d.ring| ==> d.ring[i] == Temporary
    decreases todo
  {
    if todo > 0 && accept > 0 && memory > 0 {
      PostsTemporary(s.(ring := s.ring + [Temporary]), todo - 1, accept - 1, memory - 1);
    }
  }

  /**
   A refill posts idle pages of the pool first, each once, and goes on to
   temporary ones only where none of the next four is idle, as many as the ring,
   the channel and the allocator allow.
   */
  lemma PoolFirst(s: Pool, accept: nat, memory: nat) returns (p: Pool)
    requires Sound(s)
    ensures IdleAdded(s, p) && LooksOn(s, p) && Shaped(p) && |s.ring| <= |p.ring| <= s.cap && |p.ring| - |s.ring| <= accept
    ensures var d, busy := Refill(s, accept, memory), NoneIdle(p.count, p.index, 4);
            && d == p.(ring := d.ring) && p.ring <= d.ring && (forall i :: |p.ring| <= i < |d.ring| ==> d.ring[i] == Temporary)
            && (|p.ring| < s.cap && |p.ring| - |s.ring| < accept ==> busy)
            && |d.ring| - |p.ring| == if busy then Min(s.cap - |p.ring|, Min(accept - (|p.ring| - |s.ring|), memory)) else 0
  {
    var todo := s.cap - |s.ring|;
    PostsFromPool(s, todo, accept);
    PostsLookOn(s, todo, accept);
    PostPooledSound(s, todo, accept);
    var r := PostPooled(s, todo, accept);
    p := r.pool;
    if !r.refused {
      PostsTemporary(p, r.left, r.accept, memory);
    }
    hide NoneIdle, IdleAdded, LooksOn, Ahead, PageSound, PostPooled, PostTemporary;
  }

  /**
   A page delivered and given back by the stack is idle again: the oldest of the
   ring, with nobody else holding it, can be posted anew.
   */
  lemma ComesBack(s: Pool, k: nat)
    requires Sound(s) && s.ring != [] && s.ring[0] == Pooled(k)
    ensures s.count[k] >= 1 && s.count[k] == 2
    ensures var d := Complete(s, true);
            && d.ring == s.ring[1..] && d.stack == s.stack + [Pooled(k)] && d.count == s.count
            && Release(d, |s.stack|).count == s.count[k := 1] && Release(d, |s.stack|).stack == s.stack
            && Complete(s, false).count == s.count[k := 1] && Complete(s, false).stack == s.stack
    ensures forall j :: 0 <= j < |s.stack| && s.stack[j].Pooled? ==>
              Retain(s, j).count == s.count[s.stack[j].k := s.count[s.stack[j].k] + 1] && Retain(s, j).stack == s.stack + [s.stack[j]]
  {
    assert s.ring[0] in multiset(s.ring);
    assert PageSound(s, k);
  }

  datatype Op = OpRefill(accept: nat, memory: nat) | OpComplete(delivered: bool) | OpRetain(j: nat) | OpRelease(j: nat)

  ghost function Apply(s: Pool, op: Op): (s': Pool)
    requires Sound(s)
    ensures Sound(s') && |s'.count| == |s.count|
  {
    match op
    case OpRefill(accept, memory) => RefillSound(s, accept, memory); Refill(s, accept, memory)
    case OpComplete(delivered) => if s.ring == [] then s else CompleteSound(s, delivered); Complete(s, delivered)
    case OpRetain(j) => if j >= |s.stack| then s else RetainSound(s, j); Retain(s, j)
    case OpRelease(j) => if j >= |s.stack| then s else ReleaseSound(s, j); Release(s, j)
  }

  ghost function Run(s: Pool, ops: seq<Op>): (s': Pool)
    requires Sound(s)
    ensures Sound(s') && |s'.count| == |s.count|
    decreases |ops|
  {
    if ops == [] then s else Apply(Run(s, ops[..|ops|-1]), ops[|ops|-1])
  }

  function Start(cap: nat, size: nat): Pool { Pool(cap, seq(size, _ => 1), 0, [], []) }

  /**
   Over any run of refills, completions and the stack's own taking and giving of
   references, a page in the ring is there once and nobody else holds it, and a
   page is taken for free exactly when nobody holds it.
   */
  lemma NeverPostedWhileHeld(cap: nat, size: nat, ops: seq<Op>, k: nat)
    requires 1 <= size && k < size
    ensures Sound(Start(cap, size))
    ensures var s := Run(Start(cap, size), ops);
            && (Pooled(k) in s.ring ==> multiset(s.ring)[Pooled(k)] == 1 && Pooled(k) !in s.stack)
            && (s.count[k] == 1 <==> Pooled(k) !in s.ring && Pooled(k) !in s.stack)
  {
    var s0 := Start(cap, size);
    assert forall p :: 0 <= p < size ==> PageSound(s0, p);
    var s := Run(s0, ops);
    assert PageSound(s, k);
    assert Pooled(k) in s.ring <==> Pooled(k) in multiset(s.ring);
    assert Pooled(k) in s.stack <==> Pooled(k) in multiset(s.stack);
  }
}
