/** The larger and the smaller of two numbers. */
module Extremes {
  function Max(a: nat, b: nat): nat { if a < b then b else a }

  function Min(a: nat, b: nat): nat { if a < b then a else b }
}
