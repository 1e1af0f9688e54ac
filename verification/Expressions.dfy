/** Kconfig symbols, dependency expressions and their meaning. */
module Expressions {
  import opened Options
  import opened Tristate

  datatype SymbolType = UnknownType | BooleanType | TristateType | IntType | HexType | StringType

  /** Symbols are compared by identity.  The three predefined constants are
      shared; every quoted constant is interned under its text. */
  datatype RawSymbol =
    | SymYes
    | SymMod
    | SymNo
    | Quoted(text: string)
    | Config(id: nat, typ: SymbolType)

  /** Looking up "y", "m" or "n" never makes a new constant. */
  type Symbol = s: RawSymbol | s.Quoted? ==> s.text !in {"y", "m", "n"} witness SymYes

  function TypeOf(s: Symbol): SymbolType {
    if s.Config? then s.typ else UnknownType
  }

  predicate IsTriType(s: Symbol) {
    TypeOf(s) == BooleanType || TypeOf(s) == TristateType
  }

  /** Any of the flags in SYMBOL_CONST is set. */
  predicate IsConst(s: Symbol) {
    !s.Config?
  }

  /** SYMBOL_YES or SYMBOL_NO is set; quoted constants carry all three bits. */
  predicate HasYesNoFlag(s: Symbol) {
    s.SymYes? || s.SymNo? || s.Quoted?
  }

  datatype Rel = Equal | Unequal

  function Flip(rel: Rel): Rel {
    if rel.Equal? then Unequal else Equal
  }

  datatype Expr =
    | Sym(sym: Symbol)
    | Cmp(rel: Rel, lhs: Symbol, rhs: Symbol)
    | Not(arg: Expr)
    | Bin(op: Op, left: Expr, right: Expr)

  predicate IsBin(e: Expr, op: Op) {
    e.Bin? && e.op == op
  }

  function Neutral(op: Op): Expr {
    if op.AndOp? then Sym(SymYes) else Sym(SymNo)
  }

  function Absorbing(op: Op): Expr {
    if op.AndOp? then Sym(SymNo) else Sym(SymYes)
  }

  function Size(e: Expr): (n: nat)
    ensures n >= 1
    ensures e.Bin? ==> n >= 3
  {
    match e
    case Sym(_) => 1
    case Cmp(_, _, _) => 1
    case Not(a) => 1 + Size(a)
    case Bin(_, l, r) => 1 + Size(l) + Size(r)
  }

  // ----- meaning -----

  /** What the configuration currently says about its symbols. */
  datatype Env = Env(tri: Symbol -> Tri, str: Symbol -> string)

  /** The tristate value: boolean symbols never hold mod, symbols that are
      neither boolean nor tristate count as no. */
  function TriOf(s: Symbol, env: Env): (t: Tri)
    ensures TypeOf(s) == BooleanType ==> t != MOD
  {
    match s
    case SymYes => YES
    case SymMod => MOD
    case SymNo => NO
    case Quoted(_) => NO
    case Config(_, typ) =>
      if typ == TristateType then env.tri(s)
      else if typ == BooleanType then (if env.tri(s) == NO then NO else YES)
      else NO
  }

  /** The string value that comparisons look at. */
  function StrOf(s: Symbol, env: Env): string {
    match s
    case SymYes => "y"
    case SymMod => "m"
    case SymNo => "n"
    case Quoted(text) => text
    case Config(_, typ) => if IsTriType(s) then TriName(TriOf(s, env)) else env.str(s)
  }

  function Eval(e: Expr, env: Env): Tri {
    match e
    case Sym(s) => TriOf(s, env)
    case Cmp(rel, a, b) => FromBool((StrOf(a, env) == StrOf(b, env)) == rel.Equal?)
    case Not(a) => Negate(Eval(a, env))
    case Bin(op, l, r) => Apply(op, Eval(l, env), Eval(r, env))
  }

  /** A missing expression stands for yes. */
  function EvalOption(e: Option<Expr>, env: Env): Tri {
    if e.None? then YES else Eval(e.value, env)
  }
}
