/** The three-valued logic of Kconfig: no < mod < yes, with conjunction as
    minimum, disjunction as maximum and negation as reflection at mod. */
module Tristate {

  /** no = 0, mod = 1, yes = 2, in the numbering of the C enumeration. */
  type Tri = t: int | 0 <= t <= 2

  const NO: Tri := 0
  const MOD: Tri := 1
  const YES: Tri := 2

  /** The two binary connectives, so that dual code is written once. */
  datatype Op = AndOp | OrOp

  function Dual(op: Op): Op {
    if op.AndOp? then OrOp else AndOp
  }

  function Apply(op: Op, a: Tri, b: Tri): Tri {
    match op
    case AndOp => if a < b then a else b
    case OrOp => if a > b then a else b
  }

  function Negate(a: Tri): Tri {
    2 - a
  }

  function FromBool(b: bool): Tri {
    if b then YES else NO
  }

  /** The value that leaves every operand of `op` alone. */
  function NeutralValue(op: Op): Tri {
    if op.AndOp? then YES else NO
  }

  /** Kleene's information order: mod may become anything, yes and no stay. */
  predicate Refines(a: Tri, b: Tri) {
    a == MOD || a == b
  }

  function TriName(t: Tri): string {
    if t == NO then "n" else if t == MOD then "m" else "y"
  }
}
