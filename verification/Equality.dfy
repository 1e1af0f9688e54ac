/** Equality of expressions and removal of common operands: the mutually
    recursive heart of the expression optimiser. */
module Equality {
  import opened Tristate
  import opened Expressions

  // ----- constant elimination -----

  /** Combines two operands, dropping a y or n among them. */
  function FoldConst(op: Op, l: Expr, r: Expr): (e: Expr)
    ensures Size(e) <= 1 + Size(l) + Size(r)
  {
    if l == Absorbing(op) then Absorbing(op)
    else if l == Neutral(op) then r
    else if r == Absorbing(op) then Absorbing(op)
    else if r == Neutral(op) then l
    else Bin(op, l, r)
  }

  /** Drops y and n operands of conjunctions and disjunctions. */
  function EliminateYn(e: Expr): (r: Expr)
    ensures Size(r) <= Size(e)
  {
    if e.Bin? then FoldConst(e.op, EliminateYn(e.left), EliminateYn(e.right)) else e
  }

  /** What the constants do as operands. */
  lemma ConstantOperands(op: Op, t: Tri, env: Env)
    ensures var n, a := Eval(Neutral(op), env), Eval(Absorbing(op), env);
      Apply(op, n, t) == t == Apply(op, t, n) && Apply(op, a, t) == a == Apply(op, t, a)
  {
  }

  lemma {:induction false} FoldConstValue(op: Op, l: Expr, r: Expr, env: Env)
    ensures Eval(FoldConst(op, l, r), env) == Apply(op, Eval(l, env), Eval(r, env))
  {
    ConstantOperands(op, Eval(l, env), env);
    ConstantOperands(op, Eval(r, env), env);
    hide Apply, TriOf, StrOf, Neutral, Absorbing;
  }

  lemma {:induction false} EliminateYnKeepsValue(e: Expr, env: Env)
    ensures Eval(EliminateYn(e), env) == Eval(e, env)
  {
    hide FoldConst, Apply;
    if e.Bin? {
      EliminateYnKeepsValue(e.left, env);
      EliminateYnKeepsValue(e.right, env);
      FoldConstValue(e.op, EliminateYn(e.left), EliminateYn(e.right), env);
    }
  }

  // ----- equality and elimination of equal operands -----

  predicate ExprEq(e1: Expr, e2: Expr)
    decreases Size(e1) + Size(e2), 2
  {
    match e1
    case Cmp(_, _, _) => e1 == e2
    case Sym(_) => e1 == e2
    case Not(a) => e2.Not? && ExprEq(a, e2.arg)
    case Bin(op, _, _) =>
      && IsBin(e2, op)
      && var p := EliminateEq(e1, e2);
         p.0.Sym? && p.1.Sym? && p.0.sym == p.1.sym
  }

  /** Replaces every operand of e1 that also is an operand of e2 by the neutral
      constant, in both. */
  function EliminateOperands(op: Op, e1: Expr, e2: Expr): (r: (Expr, Expr))
    ensures Size(r.0) <= Size(e1) && Size(r.1) <= Size(e2)
    ensures IsBin(r.0, op) == IsBin(e1, op) && IsBin(r.1, op) == IsBin(e2, op)
    decreases Size(e1) + Size(e2), if IsBin(e1, op) || IsBin(e2, op) then 0 else 3
  {
    if IsBin(e1, op) then
      var p := EliminateOperands(op, e1.left, e2);
      var q := EliminateOperands(op, e1.right, p.1);
      (Bin(op, p.0, q.0), q.1)
    else if IsBin(e2, op) then
      var p := EliminateOperands(op, e1, e2.left);
      var q := EliminateOperands(op, p.0, e2.right);
      (q.0, Bin(op, p.1, q.1))
    else if e1.Sym? && e1 == e2 && HasYesNoFlag(e1.sym) then (e1, e2)
    else if !ExprEq(e1, e2) then (e1, e2)
    else (Neutral(op), Neutral(op))
  }

  function EliminateEq(e1: Expr, e2: Expr): (r: (Expr, Expr))
    ensures Size(r.0) <= Size(e1) && Size(r.1) <= Size(e2)
    decreases Size(e1) + Size(e2), 1
  {
    var p := if e1.Bin? then EliminateOperands(e1.op, e1, e2) else (e1, e2);
    var q :=
      if p.1.Bin? && !IsBin(p.0, p.1.op) then EliminateOperands(p.1.op, p.0, p.1) else p;
    (EliminateYn(q.0), EliminateYn(q.1))
  }

  // ----- what was taken out -----

  /** The operands EliminateOperands removes, joined by `op`. */
  ghost function CommonOperands(op: Op, e1: Expr, e2: Expr): Expr
    decreases Size(e1) + Size(e2)
  {
    if IsBin(e1, op) then
      var p := EliminateOperands(op, e1.left, e2);
      Bin(op, CommonOperands(op, e1.left, e2), CommonOperands(op, e1.right, p.1))
    else if IsBin(e2, op) then
      var p := EliminateOperands(op, e1, e2.left);
      Bin(op, CommonOperands(op, e1, e2.left), CommonOperands(op, p.0, e2.right))
    else if e1.Sym? && e1 == e2 && HasYesNoFlag(e1.sym) then Neutral(op)
    else if !ExprEq(e1, e2) then Neutral(op)
    else e1
  }

  /** c is a common factor of (e1, e2) and (r1, r2) are the cofactors. */
  predicate Factors(op: Op, c: Tri, e1: Tri, e2: Tri, r1: Tri, r2: Tri) {
    e1 == Apply(op, c, r1) && e2 == Apply(op, c, r2)
  }

  /** Removing from two operands in turn removes from their combination. */
  lemma FactorsChain(op: Op, c: Tri, d: Tri, a: Tri, b: Tri, a': Tri, b': Tri, e: Tri, e': Tri, e'': Tri)
    requires Factors(op, c, a, e, a', e') && Factors(op, d, b, e', b', e'')
    ensures Factors(op, Apply(op, c, d), Apply(op, a, b), e, Apply(op, a', b'), e'')
  {}

  lemma {:induction false} EliminateOperandsFactors(op: Op, e1: Expr, e2: Expr, env: Env)
    ensures var r := EliminateOperands(op, e1, e2);
            Factors(op, Eval(CommonOperands(op, e1, e2), env),
                    Eval(e1, env), Eval(e2, env), Eval(r.0, env), Eval(r.1, env))
    decreases Size(e1) + Size(e2), if IsBin(e1, op) || IsBin(e2, op) then 0 else 3
  {
    if IsBin(e1, op) {
      var p := EliminateOperands(op, e1.left, e2);
      var q := EliminateOperands(op, e1.right, p.1);
      EliminateOperandsFactors(op, e1.left, e2, env);
      EliminateOperandsFactors(op, e1.right, p.1, env);
      FactorsChain(op, Eval(CommonOperands(op, e1.left, e2), env), Eval(CommonOperands(op, e1.right, p.1), env),
                   Eval(e1.left, env), Eval(e1.right, env), Eval(p.0, env), Eval(q.0, env),
                   Eval(e2, env), Eval(p.1, env), Eval(q.1, env));
    } else if IsBin(e2, op) {
      var p := EliminateOperands(op, e1, e2.left);
      var q := EliminateOperands(op, p.0, e2.right);
      EliminateOperandsFactors(op, e1, e2.left, env);
      EliminateOperandsFactors(op, p.0, e2.right, env);
      FactorsChain(op, Eval(CommonOperands(op, e1, e2.left), env), Eval(CommonOperands(op, p.0, e2.right), env),
                   Eval(e2.left, env), Eval(e2.right, env), Eval(p.1, env), Eval(q.1, env),
                   Eval(e1, env), Eval(p.0, env), Eval(q.0, env));
    } else if e1.Sym? && e1 == e2 && HasYesNoFlag(e1.sym) {
    } else if ExprEq(e1, e2) {
      ExprEqSound(e1, e2, env);
    }
  }

  /** A phase of EliminateEq that removes an operand leaves the other side, which
      is a single operand of that phase, as the neutral constant. */
  lemma {:induction false} SingleOperandSettled(op: Op, e1: Expr, e2: Expr)
    requires !IsBin(e2, op)
    ensures var r := EliminateOperands(op, e1, e2);
            r == (e1, e2) || r.1 == Neutral(op)
    decreases e1
  {
    if IsBin(e1, op) {
      SingleOperandSettled(op, e1.left, e2);
      SingleOperandSettled(op, e1.right, EliminateOperands(op, e1.left, e2).1);
    }
  }

  ghost function CommonPart(e1: Expr, e2: Expr): (Op, Expr) {
    if e1.Bin? && (IsBin(e2, e1.op) || EliminateOperands(e1.op, e1, e2) != (e1, e2)) then
      (e1.op, CommonOperands(e1.op, e1, e2))
    else if e2.Bin? then (e2.op, CommonOperands(e2.op, e1, e2))
    else (AndOp, Neutral(AndOp))
  }

  /** Elimination factors: for one connective and one common expression, both
      inputs are that expression combined with what is left of them, whatever
      values the symbols have. */
  lemma {:induction false} EliminateEqFactors(e1: Expr, e2: Expr, env: Env)
    ensures var r := EliminateEq(e1, e2);
            var c := CommonPart(e1, e2);
            Factors(c.0, Eval(c.1, env), Eval(e1, env), Eval(e2, env), Eval(r.0, env), Eval(r.1, env))
    decreases Size(e1) + Size(e2), 1
  {
    var p := if e1.Bin? then EliminateOperands(e1.op, e1, e2) else (e1, e2);
    var q :=
      if p.1.Bin? && !IsBin(p.0, p.1.op) then EliminateOperands(p.1.op, p.0, p.1) else p;
    EliminateYnKeepsValue(q.0, env);
    EliminateYnKeepsValue(q.1, env);
    if e1.Bin? {
      EliminateOperandsFactors(e1.op, e1, e2, env);
      if !IsBin(e2, e1.op) {
        SingleOperandSettled(e1.op, e1, e2);
      }
    }
    if p == (e1, e2) && e2.Bin? {
      EliminateOperandsFactors(e2.op, e1, e2, env);
    }
  }

  /** Expressions that compare equal have equal values. */
  lemma {:induction false} ExprEqSound(e1: Expr, e2: Expr, env: Env)
    requires ExprEq(e1, e2)
    ensures Eval(e1, env) == Eval(e2, env)
    decreases Size(e1) + Size(e2), 2
  {
    match e1
    case Cmp(_, _, _) =>
    case Sym(_) =>
    case Not(a) => ExprEqSound(a, e2.arg, env);
    case Bin(_, _, _) => EliminateEqFactors(e1, e2, env);
  }
}
