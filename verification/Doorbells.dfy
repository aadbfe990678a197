/**
 Telling the device how far a transfer ring has been filled: the write pointer
 in the shared channel context, and the doorbell register. In burst mode the
 register is written only while `dbMode` is set, and writing clears it.
 */
module Doorbells {

  /** `dbVal` is the driver's own note of what it wrote last; `written` is everything ever written to the register. */
  datatype Bell = Bell(burst: bool, dbMode: bool, dbVal: int, ctxtWp: int, written: seq<int>)

  /** The register counts: the channel does not burst, or is armed. */
  predicate Counts(b: Bell) { !b.burst || b.dbMode }

  /**
   mhi_ring_chan_db followed by the channel's process_db: the context always
   gets the pointer, the register exactly when it counts; a burst channel is
   disarmed by that, and only by that.
   */
  function Announce(b: Bell, wp: int): (b': Bell)
    ensures Told(b', wp) && b'.burst == b.burst
    ensures b'.written == if Counts(b) then b.written + [wp] else b.written
    ensures b'.dbVal == if Counts(b) then wp else b.dbVal
    ensures b'.dbMode <==> b.dbMode && !b.burst
  {
    if b.burst then
      if b.dbMode then b.(ctxtWp := wp, dbVal := wp, dbMode := false, written := b.written + [wp]) else b.(ctxtWp := wp)
    else
      b.(ctxtWp := wp, dbVal := wp, written := b.written + [wp])
  }

  /** The device can see that the ring is filled up to `wp`; the last value in the register says so unless the channel bursts. */
  predicate Told(b: Bell, wp: int) {
    b.ctxtWp == wp && (!b.burst ==> b.dbVal == wp && b.written != [] && b.written[|b.written|-1] == wp)
  }
}
