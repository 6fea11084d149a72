/** Integer division as Go defines it. */
module Integers {
  // Division that rounds towards zero.
  function Quotient(a: int, b: int): int
    requires b >= 1
  {
    if a >= 0 then a / b else -(-a / b)
  }
}
