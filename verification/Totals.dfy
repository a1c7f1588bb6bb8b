/** Sums of lists of numbers, to say what the source adds up. */
module Totals {

  /** The sum of a list of numbers. */
  function Total(numbers: seq<nat>): nat { if numbers == [] then 0 else numbers[0] + Total(numbers[1..]) }

  lemma {:induction false} TotalOneMore(numbers: seq<nat>, last: nat)
    ensures Total(numbers + [last]) == Total(numbers) + last
  {
    if numbers != [] {
      assert (numbers + [last])[1..] == numbers[1..] + [last];
      TotalOneMore(numbers[1..], last);
    }
  }
}
