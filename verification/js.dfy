/** The JavaScript `||` operator on the two kinds of values the program
    applies it to. A string is falsy exactly when it is empty, a number
    exactly when it is zero (NaN is not modelled: numbers are reals here). */
module Js {

  /** `s || fallback` for a string `s`. */
  function OrString(s: string, fallback: string): (r: string)
    ensures s != "" ==> r == s
    ensures s == "" ==> r == fallback
  {
    if s != "" then s else fallback
  }

  /** `x || fallback` for a number `x`. */
  function OrNumber(x: real, fallback: real): (r: real)
    ensures x != 0.0 ==> r == x
    ensures x == 0.0 ==> r == fallback
  {
    if x != 0.0 then x else fallback
  }
}
