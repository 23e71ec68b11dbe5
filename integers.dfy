/** Integer helpers shared by the game and the chess pieces. */
module Integers {

  /** Python's abs on ints. */
  function Abs(x: int): (r: nat)
    ensures r == x || r == -x
  {
    if x < 0 then -x else x
  }
}
