/** Time stamps of 32 bits (src/app/utils/eas_time.c) and what they say about
    unbounded real time in milliseconds. */
module EasTime {
  import opened Domain

  /** What the clock shows at real time `now`. */
  function Reading(now: nat): uint32 {
    now % TWO_TO_THE_32
  }

  function OffsetIntoFuture(time: uint32, offsetMs: nat): uint32 {
    (time + offsetMs) % TWO_TO_THE_32
  }

  predicate IsEqualOrAfter(time1: uint32, time2: uint32) {
    (time1 - time2) % TWO_TO_THE_32 <= (TWO_TO_THE_32 - 1) / 2
  }

  /** The filter applied to an expiry handled at `now`, when the timer was last
      started at `start`. */
  predicate Accepted(start: nat, now: nat, ignoreMs: nat) {
    IsEqualOrAfter(Reading(now), OffsetIntoFuture(Reading(start), ignoreMs))
  }

  /** Wrapping is invisible to the filter: only the residue of the real
      elapsed time counts, at any absolute time. */
  lemma AcceptedIsResidue(start: nat, now: nat, ignoreMs: nat)
    ensures Accepted(start, now, ignoreMs) <==> (now - start - ignoreMs) % TWO_TO_THE_32 < TWO_TO_THE_31
  {
    var threshold := Reading(start) + ignoreMs;
    var turns := start / TWO_TO_THE_32 + threshold / TWO_TO_THE_32 - now / TWO_TO_THE_32;
    ModShift(now - start - ignoreMs, turns);
  }

  lemma ModShift(x: int, k: int)
    ensures (x + TWO_TO_THE_32 * k) % TWO_TO_THE_32 == x % TWO_TO_THE_32
  {
  }

  /** The filter tells "the period has elapsed" correctly if and only if the
      expiry is early, or its age past the period lies in the lower half of a
      turn of the clock. */
  lemma FilterCorrectExactly(start: nat, now: nat, ignoreMs: nat)
    requires start <= now
    requires ignoreMs <= TWO_TO_THE_31
    ensures (Accepted(start, now, ignoreMs) <==> now - start >= ignoreMs)
       <==> (now - start < ignoreMs || (now - start - ignoreMs) % TWO_TO_THE_32 < TWO_TO_THE_31)
  {
    AcceptedIsResidue(start, now, ignoreMs);
    var age := now - start - ignoreMs;
    if age < 0 {
      ModShift(age, 1);
      assert age % TWO_TO_THE_32 == age + TWO_TO_THE_32;
    }
  }

  /** Within half a turn after the period the filter is right. */
  lemma FilterCorrectInWindow(start: nat, now: nat, ignoreMs: nat)
    requires start <= now < start + ignoreMs + TWO_TO_THE_31
    requires ignoreMs <= TWO_TO_THE_31
    ensures Accepted(start, now, ignoreMs) <==> now - start >= ignoreMs
  {
    FilterCorrectExactly(start, now, ignoreMs);
  }

  /** A periodic timer that is not restarted outlives the window: from half a
      turn after the period on, genuine expiries are dropped for half a turn. */
  lemma FilterDropsGenuineExpiries(start: nat, now: nat, ignoreMs: nat)
    requires ignoreMs <= TWO_TO_THE_31
    requires start + ignoreMs + TWO_TO_THE_31 <= now < start + ignoreMs + TWO_TO_THE_32
    ensures !Accepted(start, now, ignoreMs)
  {
    AcceptedIsResidue(start, now, ignoreMs);
  }
}
