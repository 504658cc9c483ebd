/** Rounding to a whole number, ties to even, as Python's `round` does on exact values. */
module Rounding {

  function RoundHalfEven(x: real): int {
    var down := x.Floor;
    var rest := x - down as real;
    if rest < 0.5 || (rest == 0.5 && down % 2 == 0) then down else down + 1
  }

  lemma RoundingIsMonotone(x: real, y: real)
    requires x <= y
    ensures RoundHalfEven(x) <= RoundHalfEven(y)
  {
    assert x.Floor <= y.Floor;
  }

  /** The result is no further than one half away, and even where it is that far. */
  lemma RoundingIsNearest(x: real)
    ensures var r := RoundHalfEven(x);
            && -0.5 <= r as real - x <= 0.5
            && (r as real - x == 0.5 || x - r as real == 0.5 ==> r % 2 == 0)
  {
  }
}
