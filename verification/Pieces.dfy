/**
 Cutting a sequence into pieces of equal length, the last perhaps shorter, and
 putting pieces together again.
 */
module Pieces {

  /** The pieces of `s`, in order. */
  function Cut<T>(s: seq<T>, n: nat): seq<seq<T>>
    requires 0 < n
    decreases |s|
  {
    if s == [] then []
    else if |s| <= n then [s]
    else [s[..n]] + Cut(s[n..], n)
  }

  function Flatten<T>(ps: seq<seq<T>>): seq<T> {
    if ps == [] then [] else Flatten(ps[..|ps|-1]) + ps[|ps|-1]
  }

  lemma {:induction false} FlattenAppend<T>(a: seq<seq<T>>, b: seq<seq<T>>)
    ensures Flatten(a + b) == Flatten(a) + Flatten(b)
    decreases |b|
  {
    if b == [] {
      assert a + b == a;
    } else {
      var init, last := b[..|b|-1], b[|b|-1];
      FlattenAppend(a, init);
      var all := a + b;
      assert all[..|all|-1] == a + init && all[|all|-1] == last;
      calc {
        Flatten(all);
        Flatten(a + init) + last;
        (Flatten(a) + Flatten(init)) + last;
        Flatten(a) + (Flatten(init) + last);
      }
    }
  }

  lemma FlattenOne<T>(s: seq<T>)
    ensures Flatten([s]) == s
  {
    assert [s][..0] == [];
  }

  /** The pieces put together are the whole. */
  lemma {:induction false} CutJoins<T>(s: seq<T>, n: nat)
    requires 0 < n
    ensures Flatten(Cut(s, n)) == s
    decreases |s|
  {
    if s == [] {
    } else if |s| <= n {
      FlattenOne(s);
    } else {
      CutJoins(s[n..], n);
      FlattenAppend([s[..n]], Cut(s[n..], n));
      FlattenOne(s[..n]);
      assert s == s[..n] + s[n..];
    }
  }

  /** Each piece is full but the last, which is not empty. */
  lemma {:induction false} CutSizes<T>(s: seq<T>, n: nat)
    requires 0 < n
    ensures Cut(s, n) == [] <==> s == []
    ensures forall i :: 0 <= i < |Cut(s, n)| ==>
              1 <= |Cut(s, n)[i]| <= n && (i + 1 < |Cut(s, n)| ==> |Cut(s, n)[i]| == n)
    decreases |s|
  {
    if |s| > n {
      CutSizes(s[n..], n);
    }
  }

  /** How many pieces there are: no more than `k` exactly if `k` full ones hold everything. */
  lemma {:induction false} CutCount<T>(s: seq<T>, n: nat, k: nat)
    requires 0 < n
    ensures |Cut(s, n)| <= k <==> |s| <= n * k
    decreases |s|
  {
    if s == [] {
    } else if |s| <= n {
      if k > 0 {
        assert n * k == n * (k - 1) + n;
      }
    } else {
      if k > 0 {
        CutCount(s[n..], n, k - 1);
        assert n * k == n * (k - 1) + n;
      }
    }
  }
}
