/** Three-valued truth, crates/airpulse_dsl-types/src/t3.rs. */
module Kleene {
  /** `Bool | Unknown`. */
  datatype T3 = True | False | Unknown {
    function And(rhs: T3): T3
    {
      if False? || rhs.False? then False else if True? && rhs.True? then True else Unknown
    }

    function Or(rhs: T3): T3
    {
      if True? || rhs.True? then True else if False? && rhs.False? then False else Unknown
    }

    function Not(): T3
    {
      match this case True => False case False => True case Unknown => Unknown
    }
  }

  function Lift(b: bool): T3 { if b then True else False }
}
