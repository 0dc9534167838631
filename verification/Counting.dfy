/** The number 1 for a condition that holds, for sums that count. */
module Counting {

  function B(b: bool): nat { if b then 1 else 0 }
}
