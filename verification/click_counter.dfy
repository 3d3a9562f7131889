/** `ClickCount` is a C# `int` and is bumped with `url.ClickCount++` in an
    unchecked context, so as written it wraps at 2^31. The rest of the model
    uses the unbounded counter of `Models.WithOneMoreClick`. */
module ClickCounter {

  const Int32Max: int := 0x7FFF_FFFF
  const Int32Min: int := -0x8000_0000

  newtype Int32 = x: int | Int32Min <= x <= Int32Max

  /** `ClickCount++` as compiled: two's-complement wrap-around. */
  function IncrementAsWritten(c: Int32): (r: Int32)
    ensures c as int < Int32Max ==> r as int == c as int + 1
    ensures c as int == Int32Max ==> r as int == Int32Min
  {
    if c == Int32Max as Int32 then Int32Min as Int32 else c + 1
  }

  /** After 2^31 - 1 clicks the next click makes the stored count negative,
      so the counter is neither non-negative nor non-decreasing. */
  lemma IncrementAsWrittenWraps()
    ensures IncrementAsWritten(Int32Max as Int32) < 0
    ensures IncrementAsWritten(Int32Max as Int32) < Int32Max as Int32
  {
  }

  /** The counter as intended: unbounded, each click adds exactly one. */
  function IncrementIntended(c: nat): (r: nat)
    ensures r > c && r - c == 1
  {
    c + 1
  }

  /** Below the wrap point the two agree. */
  lemma IncrementAgreesBelowMax(c: Int32)
    requires 0 <= c as int < Int32Max
    ensures IncrementAsWritten(c) as int == IncrementIntended(c as int)
  {
  }
}
