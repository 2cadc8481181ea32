/**
 * `FMessageBody::GetNextSequenceID`: a process-wide signed 64-bit counter
 * bumped with `InterlockedAdd`, which returns the value held before the
 * addition. Calls are taken one at a time; concurrent callers are not modelled.
 */
module SequenceIds {

  const TwoTo64: int := 0x1_0000_0000_0000_0000
  const Int64Min: int := -0x8000_0000_0000_0000
  const Int64Max: int := 0x7FFF_FFFF_FFFF_FFFF

  predicate IsInt64(x: int) { Int64Min <= x <= Int64Max }

  /** Two's-complement wrap-around of an unbounded integer into the int64 range. */
  function Wrap64(x: int): (r: int)
    ensures IsInt64(r)
    ensures IsInt64(x) ==> r == x
    ensures (r - x) % TwoTo64 == 0
  {
    var m := (x - Int64Min) % TwoTo64;
    m + Int64Min
  }

  /** The counter after a call and the id the call returned. */
  datatype Allocation = Allocation(id: int, counter: int)

  /**
   * `GetNextSequenceID`: the first add returns the prior value; when that is
   * non-zero the counter is re-read, otherwise a second add is made and its
   * prior value is returned.
   */
  function NextSequenceId(counter: int): (a: Allocation)
    requires IsInt64(counter)
    ensures IsInt64(a.counter)
    // while the counter has not wrapped, the id is positive, fresh and the next call starts above it
    ensures 0 <= counter < Int64Max - 1 ==> a.id > 0 && a.id > counter && a.counter >= a.id
    ensures 0 < counter < Int64Max ==> a.id == a.counter == counter + 1
  {
    var prior := counter;
    var bumped := Wrap64(counter + 1);
    if prior != 0 then Allocation(bumped, bumped)
    else
      var prior2 := bumped;
      Allocation(prior2, Wrap64(bumped + 1))
  }

  /** Two successive calls return strictly increasing ids while the counter has not wrapped. */
  lemma SuccessiveIdsIncrease(counter: int)
    requires 0 <= counter < Int64Max - 2
    ensures var a1 := NextSequenceId(counter);
      var a2 := NextSequenceId(a1.counter);
      0 < a1.id < a2.id
  {
  }

  /** The very first call returns 1 and leaves 2 in the counter, so 2 is never handed out. */
  lemma FirstIdIsOne()
    ensures NextSequenceId(0) == Allocation(1, 2)
  {
  }

  /** Once the counter has wrapped all the way round to -1, the reserved id 0 is returned. */
  lemma WrappedCounterYieldsZero()
    ensures NextSequenceId(-1).id == 0
  {
  }
}
