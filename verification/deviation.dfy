/** How a candidate's deviation is shown: its size, and whether the cut is
    over, under, or exactly at the desired length. */
module Deviation {

  /** `Math.abs`. */
  function Abs(x: int): (r: nat)
    ensures r == x || r == -x
  {
    if x < 0 then -x else x
  }

  function Min(a: int, b: int): (r: int)
    ensures r <= a && r <= b
    ensures r == a || r == b
  {
    if a < b then a else b
  }

  datatype Direction = Over | Under | ExactMatch

  /** The label chosen from the sign of `deviationValue`. */
  function Classify(deviation: int): (d: Direction)
    ensures d == Over <==> deviation > 0
    ensures d == Under <==> deviation < 0
    ensures d == ExactMatch <==> deviation == 0
  {
    if deviation > 0 then Over
    else if deviation < 0 then Under
    else ExactMatch
  }
}
