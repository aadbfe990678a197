/**
 The driver's power-management states.

 `mhi_pm.c` keeps the state as a 32-bit mask and guards every change with a
 table of rows indexed by the highest set bit. A mask is written here as the
 set of its bit numbers. `Controller.TrySetPmState` is that code; `Allowed` is
 the relation it implements on the twelve named states, and the lemmas after
 it are about whole runs of changes.
 */
module Power {

  datatype Pm =
    | Disable | Por | M0 | M2 | M3Enter | M3 | M3Exit
    | FwDlErr | SysErrDetect | SysErrProcess | ShutdownProcess | LdErrFatal

  type Mask = m: set<nat> | forall i :: i in m ==> i < 32

  /** The bit number of a state, MHI_PM_BIT_*. */
  function Index(s: Pm): (i: nat)
    ensures i < 12
  {
    match s
    case Disable => 0 case Por => 1 case M0 => 2 case M2 => 3
    case M3Enter => 4 case M3 => 5 case M3Exit => 6 case FwDlErr => 7
    case SysErrDetect => 8 case SysErrProcess => 9
    case ShutdownProcess => 10 case LdErrFatal => 11
  }

  function StateAt(i: nat): (s: Pm)
    requires i < 12
    ensures Index(s) == i
  {
    [Disable, Por, M0, M2, M3Enter, M3, M3Exit, FwDlErr,
     SysErrDetect, SysErrProcess, ShutdownProcess, LdErrFatal][i]
  }

  function Bit(s: Pm): Mask { {Index(s)} }

  function Or(ss: set<Pm>): Mask { set s | s in ss :: Index(s) }

  /** MHI_PM_IN_ERROR_STATE */
  predicate InErrorState(s: Pm) { Index(s) >= 7 }

  /** MHI_DB_ACCESS_VALID */
  predicate DbAccessValid(s: Pm) { s == M0 }

  /** MHI_PM_IN_SUSPEND_STATE */
  predicate InSuspendState(s: Pm) { s == M3Enter || s == M3 }

  /** One row of the table: a state and the states OR-ed together as its successors. */
  datatype Row = Row(from: Pm, to: set<Pm>)

  /** mhi_state_transitions, row by row. */
  const TRANSITIONS: seq<Row> := [
    Row(Disable, {Por}),
    Row(Por, {Por, Disable, M0, SysErrDetect, ShutdownProcess, LdErrFatal, FwDlErr}),
    Row(M0, {M2, M3Enter, SysErrDetect, ShutdownProcess, LdErrFatal, FwDlErr}),
    Row(M2, {M0, SysErrDetect, ShutdownProcess, LdErrFatal}),
    Row(M3Enter, {M3, SysErrDetect, ShutdownProcess, LdErrFatal}),
    Row(M3, {M3Exit, SysErrDetect, ShutdownProcess, LdErrFatal}),
    Row(M3Exit, {M0, SysErrDetect, ShutdownProcess, LdErrFatal}),
    Row(FwDlErr, {FwDlErr, SysErrDetect, ShutdownProcess, LdErrFatal}),
    Row(SysErrDetect, {SysErrProcess, ShutdownProcess, LdErrFatal}),
    Row(SysErrProcess, {Por, ShutdownProcess, LdErrFatal}),
    Row(ShutdownProcess, {Disable, LdErrFatal}),
    Row(LdErrFatal, {LdErrFatal, ShutdownProcess})
  ]

  /**
   The documented transitions, as a relation on named states: L0 states move
   among themselves as listed, and any of them but DISABLE may be interrupted
   by an error of a higher level.
   */
  predicate Allowed(s: Pm, t: Pm) {
    match s
    case Disable => t == Por
    case Por => t in {Por, Disable, M0, FwDlErr} || Interrupts(t)
    case M0 => t in {M2, M3Enter, FwDlErr} || Interrupts(t)
    case M2 => t == M0 || Interrupts(t)
    case M3Enter => t == M3 || Interrupts(t)
    case M3 => t == M3Exit || Interrupts(t)
    case M3Exit => t == M0 || Interrupts(t)
    case FwDlErr => t == FwDlErr || Interrupts(t)
    case SysErrDetect => t in {SysErrProcess, ShutdownProcess, LdErrFatal}
    case SysErrProcess => t in {Por, ShutdownProcess, LdErrFatal}
    case ShutdownProcess => t in {Disable, LdErrFatal}
    case LdErrFatal => t in {LdErrFatal, ShutdownProcess}
  }

  predicate Interrupts(t: Pm) { t in {SysErrDetect, ShutdownProcess, LdErrFatal} }

  /** The row of `s` holds `s` itself and exactly its allowed successors. */
  lemma RowMeaning(s: Pm, t: Pm)
    ensures TRANSITIONS[Index(s)].from == s
    ensures t in TRANSITIONS[Index(s)].to <==> Allowed(s, t)
  {
    match s
    case Disable => case Por => case M0 => case M2 =>
    case M3Enter => case M3 => case M3Exit => case FwDlErr =>
    case SysErrDetect => case SysErrProcess =>
    case ShutdownProcess => case LdErrFatal =>
  }

  /** find_last_bit(&x, 32): the highest set bit, or 32 when there is none. */
  method FindLastBit(x: Mask) returns (index: nat)
    ensures x == {} <==> index == 32
    ensures index != 32 ==> index in x && forall i :: i in x ==> i <= index
  {
    index := 32;
    var i := 32;
    while i > 0
      invariant 0 <= i <= 32
      invariant index == 32
      invariant forall j :: j in x ==> j < i
    {
      i := i - 1;
      if i in x {
        return i;
      }
    }
  }

  /** Some bit of `word` stands for a state that `s` may change to. */
  predicate Offers(word: Mask, s: Pm) {
    exists t :: Allowed(s, t) && Index(t) in word
  }

  /** The word stands for one state. */
  predicate Named(word: Mask) { exists s :: word == Bit(s) }

  /** The word after a request: the request itself if the word is a state that it offers a successor. */
  ghost function TrySet(word: Mask, request: Mask): Mask {
    if exists s :: word == Bit(s) && Offers(request, s) then request else word
  }

  class Controller {
    var pmState: Mask

    /**
     mhi_tryset_pm_state. From a named state the argument is stored when it
     offers an allowed successor; a mask that is no named state is never left.
     The result is the state afterwards.
     */
    method TrySetPmState(state: Mask) returns (cur: Mask)
      modifies this
      ensures cur == pmState == TrySet(old(pmState), state)
    {
      ghost var was := pmState;
      var index := FindLastBit(pmState);
      if index >= |TRANSITIONS| {
        return pmState;
      }
      ghost var s := StateAt(index);
      RowMeaning(s, s);
      if Bit(TRANSITIONS[index].from) != pmState {
        return pmState;
      }
      RowOffers(s, state);
      TrySetBit(s, state);
      if Or(TRANSITIONS[index].to) * state == {} {
        return pmState;
      }
      pmState := state;
      cur := pmState;
    }
  }

  lemma RowOffers(s: Pm, word: Mask)
    ensures Or(TRANSITIONS[Index(s)].to) * word != {} <==> Offers(word, s)
  {
    var to := TRANSITIONS[Index(s)].to;
    forall t: Pm
      ensures t in to <==> Allowed(s, t)
    {
      RowMeaning(s, t);
    }
    if Offers(word, s) {
      var t :| Allowed(s, t) && Index(t) in word;
      assert Index(t) in Or(to) * word;
    }
  }

  // --- Whole runs -----------------------------------------------------------

  /** A request for one named state: the state word stays one-hot. */
  lemma NamedRequest(s: Pm, t: Pm)
    ensures Offers(Bit(t), s) <==> Allowed(s, t)
  {
    if Allowed(s, t) {
      assert Index(t) in Bit(t);
    }
  }

  /** The word after `requests` are made in turn, whatever bits they have. */
  ghost function Words(word: Mask, requests: seq<Mask>): Mask
    decreases |requests|
  {
    if requests == [] then word else Words(TrySet(word, requests[0]), requests[1..])
  }

  function Bits(requests: seq<Pm>): seq<Mask> { seq(|requests|, i requires 0 <= i < |requests| => Bit(requests[i])) }

  /** The states passed through when `requests` are made in turn, starting at `s`; refused ones leave no trace. */
  function History(s: Pm, requests: seq<Pm>): (h: seq<Pm>)
    ensures |h| > 0 && h[0] == s
    ensures IsRun(h)
    decreases |requests|
  {
    if requests == [] then
      [s]
    else if Allowed(s, requests[0]) then
      [s] + History(requests[0], requests[1..])
    else
      History(s, requests[1..])
  }

  predicate IsRun(h: seq<Pm>) {
    forall i :: 0 < i < |h| ==> Allowed(h[i-1], h[i])
  }

  /** Every run is the history of some requests, namely its own states. */
  lemma {:induction false} RunIsHistory(h: seq<Pm>)
    requires |h| > 0 && IsRun(h)
    ensures History(h[0], h[1..]) == h
  {
    if |h| > 1 {
      assert Allowed(h[0], h[1]);
      RunIsHistory(h[1..]);
      assert h[1..][1..] == h[2..] && h[1..][0] == h[1];
      assert h == [h[0]] + h[1..];
    }
  }

  /** `i` is the highest bit of the word. */
  predicate Highest(word: Mask, i: nat) {
    i in word && forall j :: j in word ==> j <= i
  }

  /**
   Over any sequence of requests for single states the word stays the one bit of
   the state last entered, and that bit, its highest, selects the state's own row.
   */
  lemma {:induction false} OneHotAlways(s: Pm, requests: seq<Pm>)
    ensures var h := History(s, requests);
            var t := h[|h|-1];
            && Words(Bit(s), Bits(requests)) == Bit(t)
            && Highest(Bit(t), Index(t)) && TRANSITIONS[Index(t)].from == t
    decreases |requests|
  {
    if requests == [] {
      RowMeaning(s, s);
    } else {
      var next := if Allowed(s, requests[0]) then requests[0] else s;
      NamedRequest(s, requests[0]);
      TrySetBit(s, Bit(requests[0]));
      assert Bits(requests)[1..] == Bits(requests[1..]) && Bits(requests)[0] == Bit(requests[0]);
      OneHotAlways(next, requests[1..]);
    }
  }

  lemma TrySetBit(s: Pm, request: Mask)
    ensures TrySet(Bit(s), request) == if Offers(request, s) then request else Bit(s)
  {
    forall t | Bit(s) == Bit(t)
      ensures s == t
    {
      assert Index(s) in Bit(t);
    }
  }

  /** A word that stands for no state is never left. */
  lemma {:induction false} StrandedForGood(word: Mask, requests: seq<Mask>)
    requires !Named(word)
    ensures Words(word, requests) == word
    decreases |requests|
  {
    if requests != [] {
      StrandedForGood(word, requests[1..]);
    }
  }

  /** Some requests lead from this word back to M0. */
  ghost predicate Recoverable(word: Mask) {
    exists requests :: Words(word, requests) == Bit(M0)
  }

  lemma RecoverableIffNamed(word: Mask)
    ensures Recoverable(word) <==> Named(word)
  {
    if s :| word == Bit(s) {
      var h := RecoveryExists(s);
      RunIsHistory(h);
      OneHotAlways(s, h[1..]);
    } else {
      forall requests
        ensures Words(word, requests) != Bit(M0)
      {
        StrandedForGood(word, requests);
      }
    }
  }

  /**
   A request made in state `s` leaves a word from which nothing leads back
   exactly if it offers an allowed successor without being a single state: the
   table is asked whether some bit is allowed, and then the whole word is stored.
   */
  lemma RequestStrandsIffManyBits(s: Pm, request: Mask)
    ensures !Recoverable(TrySet(Bit(s), request)) <==> Offers(request, s) && !Named(request)
  {
    TrySetBit(s, request);
    RecoverableIffNamed(TrySet(Bit(s), request));
  }

  /** Not able to carry traffic until powered up again. */
  predicate Down(s: Pm) { s == Disable || InErrorState(s) }

  /** The first state after an error that is not itself an error is POR or DISABLE. */
  lemma ErrorExit(h: seq<Pm>, i: nat, j: nat)
    requires IsRun(h) && i < j < |h|
    requires forall k :: i <= k < j ==> InErrorState(h[k])
    requires !InErrorState(h[j])
    ensures (h[j-1], h[j]) in {(SysErrProcess, Por), (ShutdownProcess, Disable)}
  {
    assert Allowed(h[j-1], h[j]);
  }

  /** Between a down state and a later M0 the driver went through POR. */
  lemma {:induction false} PorBeforeM0(h: seq<Pm>, i: nat, j: nat) returns (k: nat)
    requires IsRun(h) && i < j < |h|
    requires Down(h[i]) && h[j] == M0
    ensures i < k < j && h[k] == Por
    decreases j - i
  {
    assert Allowed(h[i], h[i+1]);
    if h[i+1] == Por {
      k := i + 1;
    } else {
      k := PorBeforeM0(h, i + 1, j);
    }
  }

  /** M3 is entered only from M0 by way of M3_ENTER, and left only to M3_EXIT and then M0, errors aside. */
  lemma M3Bracketed(h: seq<Pm>, i: nat)
    requires IsRun(h) && h != [] && h[0] == Disable && i < |h| && h[i] == M3
    ensures i >= 3 && h[i-1] == M3Enter && h[i-2] == M0
    ensures i + 1 < |h| ==> h[i+1] == M3Exit || InErrorState(h[i+1])
    ensures i + 2 < |h| && h[i+1] == M3Exit ==> h[i+2] == M0 || InErrorState(h[i+2])
  {
    assert Allowed(h[i-1], h[i]);
    assert Allowed(h[i-2], h[i-1]);
    if i + 1 < |h| {
      assert Allowed(h[i], h[i+1]);
    }
    if i + 2 < |h| {
      assert Allowed(h[i+1], h[i+2]);
    }
  }

  /** The link goes to M2 and back, to M3 and back by its entry and exit states, and any link state can be interrupted by an error or a shutdown, from which there are two ways back. */
  lemma LinkStates(s: Pm, t: Pm)
    ensures IsRun([M0, M2, M0]) && IsRun([M0, M3Enter, M3, M3Exit, M0]) && IsRun([Por, M0])
    ensures !Down(s) && t in {SysErrDetect, ShutdownProcess, LdErrFatal} ==> Allowed(s, t)
    ensures t == FwDlErr ==> (Allowed(s, t) <==> s in {Por, M0, FwDlErr})
    ensures IsRun([M0, SysErrDetect, SysErrProcess, Por, M0]) && IsRun([M0, LdErrFatal, ShutdownProcess, Disable, Por, M0])
    ensures IsRun([Por, Disable]) && (Allowed(s, s) <==> s in {Por, FwDlErr, LdErrFatal})
    ensures s in {FwDlErr, SysErrDetect, SysErrProcess} ==> Allowed(s, ShutdownProcess) && Allowed(s, LdErrFatal)
    ensures Allowed(ShutdownProcess, LdErrFatal) && Allowed(FwDlErr, SysErrDetect)
  {
  }

  /** The states in which doorbells may be rung, in which the link is suspended or about to be, and of error or shutdown. */
  lemma Groups(s: Pm)
    ensures DbAccessValid(s) <==> s == M0
    ensures InSuspendState(s) <==> Allowed(s, M3) || Allowed(s, M3Exit)
    ensures InErrorState(s) <==> s in {FwDlErr, SysErrDetect, SysErrProcess, ShutdownProcess, LdErrFatal}
  {
  }

  /** The level a state is listed under in the source, L0 to L3. */
  function Level(s: Pm): nat {
    match s
    case SysErrDetect => 1 case SysErrProcess => 1
    case ShutdownProcess => 2 case LdErrFatal => 3
    case _ => 0
  }

  /** A change lowers the level in exactly three ways. */
  lemma LevelDescends(s: Pm, t: Pm)
    ensures Allowed(s, t) && Level(t) < Level(s) <==>
            (s, t) in {(SysErrProcess, Por), (ShutdownProcess, Disable), (LdErrFatal, ShutdownProcess)}
  {
  }

  /** No state is a dead end: from each of them some run leads back to M0. */
  lemma RecoveryExists(s: Pm) returns (h: seq<Pm>)
    ensures IsRun(h) && |h| > 1 && h[0] == s && h[|h|-1] == M0
  {
    h := if s == Disable then [s, Por, M0]
         else if s == ShutdownProcess then [s, Disable, Por, M0]
         else [s, ShutdownProcess, Disable, Por, M0];
  }
}
