/** The 32-bit tick counter and the wrap-around comparison the timer code relies on. */
module Ticks {

  const TICK_MODULUS: int := 0x1_0000_0000
  const TICK_MAX: int := 0xFFFF_FFFF
  const HALF_TICKS: int := TICK_MAX / 2

  type Tick = x: int | 0 <= x < TICK_MODULUS

  /** The tick counter's view of an unbounded point in time. */
  function Wrap(x: int): Tick {
    x % TICK_MODULUS
  }

  /** Unsigned 32-bit subtraction. */
  function Minus(a: Tick, b: Tick): Tick {
    Wrap(a - b)
  }

  lemma WrapShift(x: int, k: int)
    ensures Wrap(x + k * TICK_MODULUS) == Wrap(x)
  {
    assert (x + k * TICK_MODULUS) % TICK_MODULUS == x % TICK_MODULUS;
  }

  /** Adding to a wrapped tick and wrapping again is wrapping the sum. */
  lemma WrapPlus(x: int, d: int)
    ensures Wrap(Wrap(x) + d) == Wrap(x + d)
  {
    WrapShift(Wrap(x) + d, x / TICK_MODULUS);
    assert Wrap(x) + d + (x / TICK_MODULUS) * TICK_MODULUS == x + d;
  }

  lemma MinusIsWrappedDifference(x: int, y: int)
    ensures Minus(Wrap(x), Wrap(y)) == Wrap(x - y)
  {
    var k := x / TICK_MODULUS - y / TICK_MODULUS;
    WrapShift(Wrap(x) - Wrap(y), k);
    assert Wrap(x) - Wrap(y) + k * TICK_MODULUS == x - y;
  }

  /** For two times whose distance lies in a window of exactly 2^32 values, the unsigned
      half-range test decides which one is later, across any overflow of the counter. */
  lemma HalfRangeTest(x: int, y: int)
    requires HALF_TICKS - TICK_MODULUS <= x - y < HALF_TICKS
    ensures Minus(Wrap(x), Wrap(y)) < HALF_TICKS <==> y <= x
    ensures Minus(Wrap(x), Wrap(y)) == 0 <==> x == y
  {
    MinusIsWrappedDifference(x, y);
    if x < y {
      WrapShift(x - y, 1);
    }
  }

  /** One step outside that window, at either end, the test gives the wrong answer. */
  lemma HalfRangeWindowIsTight(y: int)
    ensures !(Minus(Wrap(y + HALF_TICKS), Wrap(y)) < HALF_TICKS)
    ensures Minus(Wrap(y + HALF_TICKS - TICK_MODULUS - 1), Wrap(y)) < HALF_TICKS
  {
    MinusIsWrappedDifference(y + HALF_TICKS, y);
    MinusIsWrappedDifference(y + HALF_TICKS - TICK_MODULUS - 1, y);
    WrapShift(HALF_TICKS - TICK_MODULUS - 1, 1);
  }

  /** The test by which the search of a start stops in front of a later time x sees that x is later than y if and only
      if x is less than half the range ahead: a start that links too late, at y, is put behind x. */
  lemma LaterIsSeenIff(x: int, y: int)
    requires y < x < y + TICK_MODULUS
    ensures Minus(Wrap(x), Wrap(y)) != 0 && Minus(Wrap(x), Wrap(y)) < HALF_TICKS <==> x - y < HALF_TICKS
  {
    MinusIsWrappedDifference(x, y);
  }
}
