/** The pairwise simplifications used by duplicate elimination: joining two
    operands into one, and extracting the operands two expressions share. */
module Joins {
  import opened Options
  import opened Tristate
  import opened Expressions
  import opened Equality

  /** The symbol a literal talks about; a comparison may only be negated in the
      first operand. */
  function LiteralSymbol(e: Expr, negatedCmp: bool): Option<Symbol> {
    match e
    case Sym(s) => Some(s)
    case Cmp(_, a, _) => Some(a)
    case Not(a) =>
      if a.Sym? then Some(a.sym)
      else if a.Cmp? && negatedCmp then Some(a.lhs)
      else None
    case Bin(_, _, _) => None
  }

  predicate IsCmp(e: Expr, rel: Rel, rhs: Symbol) {
    e.Cmp? && e.rel == rel && e.rhs == rhs
  }

  /** {e1, e2} compare with a and b, in either order. */
  predicate CmpPair(e1: Expr, e2: Expr, rel: Rel, a: Symbol, b: Symbol) {
    (IsCmp(e1, rel, a) && IsCmp(e2, rel, b)) || (IsCmp(e1, rel, b) && IsCmp(e2, rel, a))
  }

  /** One operand is a plain symbol, the other compares with `rhs`. */
  predicate SymAndCmp(e1: Expr, e2: Expr, rel: Rel, rhs: Symbol) {
    (e1.Sym? && IsCmp(e2, rel, rhs)) || (e2.Sym? && IsCmp(e1, rel, rhs))
  }

  function JoinOr(e1: Expr, e2: Expr): Option<Expr> {
    if ExprEq(e1, e2) then Some(e1) else
    var s1 := LiteralSymbol(e1, true);
    var s2 := LiteralSymbol(e2, false);
    if s1.None? || s1 != s2 || !IsTriType(s1.value) then None
    else if TypeOf(s1.value) == TristateType && CmpPair(e1, e2, Equal, SymYes, SymMod) then
      Some(Cmp(Unequal, s1.value, SymNo))
    else if TypeOf(s1.value) == TristateType && CmpPair(e1, e2, Equal, SymYes, SymNo) then
      Some(Cmp(Unequal, s1.value, SymMod))
    else if TypeOf(s1.value) == TristateType && CmpPair(e1, e2, Equal, SymMod, SymNo) then
      Some(Cmp(Unequal, s1.value, SymYes))
    else if TypeOf(s1.value) == BooleanType &&
            ((e1.Not? && e1.arg.Sym? && e2.Sym?) || (e2.Not? && e2.arg.Sym? && e1.Sym?)) then
      Some(Sym(SymYes))
    else None
  }

  /** (a = b) && (a != c) for constants b and c. */
  function JoinEqualUnequal(s: Symbol, eq: Expr, neq: Expr): Option<Expr>
    requires eq.Cmp? && neq.Cmp?
  {
    if IsConst(eq.rhs) && IsConst(neq.rhs) then
      if eq.rhs != neq.rhs then Some(Cmp(Equal, s, eq.rhs)) else Some(Sym(SymNo))
    else None
  }

  function JoinAnd(e1: Expr, e2: Expr): Option<Expr> {
    if ExprEq(e1, e2) then Some(e1) else
    var s1 := LiteralSymbol(e1, true);
    var s2 := LiteralSymbol(e2, false);
    if s1.None? || s1 != s2 || !IsTriType(s1.value) then None
    else if SymAndCmp(e1, e2, Equal, SymYes) then Some(Cmp(Equal, s1.value, SymYes))
    else if SymAndCmp(e1, e2, Unequal, SymNo) then Some(Sym(s1.value))
    else if SymAndCmp(e1, e2, Unequal, SymMod) then Some(Cmp(Equal, s1.value, SymYes))
    else if TypeOf(s1.value) == TristateType then JoinTristateAnd(s1.value, e1, e2)
    else None
  }

  function JoinTristateAnd(s: Symbol, e1: Expr, e2: Expr): Option<Expr> {
    if e1.Cmp? && e2.Cmp? && e1.rel.Equal? && e2.rel.Unequal? && JoinEqualUnequal(s, e1, e2).Some? then
      JoinEqualUnequal(s, e1, e2)
    else if e1.Cmp? && e2.Cmp? && e1.rel.Unequal? && e2.rel.Equal? && JoinEqualUnequal(s, e2, e1).Some? then
      JoinEqualUnequal(s, e2, e1)
    else if CmpPair(e1, e2, Unequal, SymYes, SymNo) then Some(Cmp(Equal, s, SymMod))
    else if CmpPair(e1, e2, Unequal, SymYes, SymMod) then Some(Cmp(Equal, s, SymNo))
    else if CmpPair(e1, e2, Unequal, SymMod, SymNo) then Some(Cmp(Equal, s, SymYes))
    else None
  }

  function Join(op: Op, e1: Expr, e2: Expr): Option<Expr> {
    if op.OrOp? then JoinOr(e1, e2) else JoinAnd(e1, e2)
  }

  /** a, b and c are y, m and n in some order. */
  predicate AllThree(a: Symbol, b: Symbol, c: Symbol) {
    {a, b, c} == {SymYes, SymMod, SymNo}
  }

  /** A tristate symbol is one of y, m and n. */
  lemma OneOfThree(s: Symbol, a: Symbol, b: Symbol, c: Symbol, env: Env)
    requires TypeOf(s) == TristateType && AllThree(a, b, c)
    ensures Apply(OrOp, Eval(Cmp(Equal, s, a), env), Eval(Cmp(Equal, s, b), env)) == Eval(Cmp(Unequal, s, c), env)
    ensures Apply(AndOp, Eval(Cmp(Unequal, s, a), env), Eval(Cmp(Unequal, s, b), env)) == Eval(Cmp(Equal, s, c), env)
  {
    assert a != b && a != c && b != c by {
      assert |{SymYes, SymMod, SymNo}| == 3;
    }
    assert forall x :: x in {a, b, c} ==>
      StrOf(x, env) == (if x == SymYes then "y" else if x == SymMod then "m" else "n");
  }

  lemma ThreeConstants()
    ensures AllThree(SymYes, SymMod, SymNo) && AllThree(SymYes, SymNo, SymMod) && AllThree(SymMod, SymNo, SymYes)
    ensures AllThree(SymMod, SymYes, SymNo) && AllThree(SymNo, SymYes, SymMod) && AllThree(SymNo, SymMod, SymYes)
  {
  }

  /** Distinct constants have distinct texts. */
  lemma EqualUnequalSound(s: Symbol, eq: Expr, neq: Expr, env: Env)
    requires eq.Cmp? && neq.Cmp? && eq == Cmp(Equal, s, eq.rhs) && neq == Cmp(Unequal, s, neq.rhs)
    requires JoinEqualUnequal(s, eq, neq).Some?
    ensures Eval(JoinEqualUnequal(s, eq, neq).value, env) == Apply(AndOp, Eval(eq, env), Eval(neq, env))
  {
    assert eq.rhs != neq.rhs ==> StrOf(eq.rhs, env) != StrOf(neq.rhs, env);
  }

  /** A pair of comparisons of one symbol. */
  lemma PairOf(s: Symbol, e1: Expr, e2: Expr, rel: Rel, a: Symbol, b: Symbol)
    requires LiteralSymbol(e1, true) == Some(s) == LiteralSymbol(e2, false) && CmpPair(e1, e2, rel, a, b)
    ensures (e1 == Cmp(rel, s, a) && e2 == Cmp(rel, s, b)) || (e1 == Cmp(rel, s, b) && e2 == Cmp(rel, s, a))
  {
  }

  /** A tristate symbol compares equal to a constant only by its own name. */
  lemma JoinTristateAndSound(s: Symbol, e1: Expr, e2: Expr, env: Env)
    requires TypeOf(s) == TristateType
    requires LiteralSymbol(e1, true) == Some(s) == LiteralSymbol(e2, false)
    requires JoinTristateAnd(s, e1, e2).Some?
    ensures Eval(JoinTristateAnd(s, e1, e2).value, env) == Apply(AndOp, Eval(e1, env), Eval(e2, env))
  {
    ThreeConstants();
    hide Eval, AllThree, JoinEqualUnequal;
    if e1.Cmp? && e2.Cmp? && e1.rel.Equal? && e2.rel.Unequal? && JoinEqualUnequal(s, e1, e2).Some? {
      EqualUnequalSound(s, e1, e2, env);
    } else if e1.Cmp? && e2.Cmp? && e1.rel.Unequal? && e2.rel.Equal? && JoinEqualUnequal(s, e2, e1).Some? {
      EqualUnequalSound(s, e2, e1, env);
    } else if CmpPair(e1, e2, Unequal, SymYes, SymNo) {
      PairOf(s, e1, e2, Unequal, SymYes, SymNo);
      OneOfThree(s, SymYes, SymNo, SymMod, env);
    } else if CmpPair(e1, e2, Unequal, SymYes, SymMod) {
      PairOf(s, e1, e2, Unequal, SymYes, SymMod);
      OneOfThree(s, SymYes, SymMod, SymNo, env);
    } else {
      PairOf(s, e1, e2, Unequal, SymMod, SymNo);
      OneOfThree(s, SymMod, SymNo, SymYes, env);
    }
  }

  /** A symbol next to a comparison of the same symbol. */
  lemma SymAndCmpSound(s: Symbol, e1: Expr, e2: Expr, env: Env)
    requires IsTriType(s) && LiteralSymbol(e1, true) == Some(s) == LiteralSymbol(e2, false)
    ensures SymAndCmp(e1, e2, Equal, SymYes) || SymAndCmp(e1, e2, Unequal, SymMod) ==>
      Eval(Cmp(Equal, s, SymYes), env) == Apply(AndOp, Eval(e1, env), Eval(e2, env))
    ensures SymAndCmp(e1, e2, Unequal, SymNo) ==> Eval(Sym(s), env) == Apply(AndOp, Eval(e1, env), Eval(e2, env))
  {
    var t := TriOf(s, env);
    assert StrOf(s, env) == TriName(t);
  }

  lemma JoinAndSound(e1: Expr, e2: Expr, env: Env)
    requires !ExprEq(e1, e2) && JoinAnd(e1, e2).Some?
    ensures Eval(JoinAnd(e1, e2).value, env) == Apply(AndOp, Eval(e1, env), Eval(e2, env))
  {
    var s := LiteralSymbol(e1, true).value;
    hide Eval, ExprEq, JoinTristateAnd, LiteralSymbol;
    SymAndCmpSound(s, e1, e2, env);
    if !SymAndCmp(e1, e2, Equal, SymYes) && !SymAndCmp(e1, e2, Unequal, SymNo) && !SymAndCmp(e1, e2, Unequal, SymMod) {
      JoinTristateAndSound(s, e1, e2, env);
    }
  }

  /** A boolean symbol or its negation. */
  lemma ExcludedMiddle(s: Symbol, e1: Expr, e2: Expr, env: Env)
    requires TypeOf(s) == BooleanType && {e1, e2} == {Sym(s), Not(Sym(s))}
    ensures Apply(OrOp, Eval(e1, env), Eval(e2, env)) == YES
  {
    assert Eval(Sym(s), env) != MOD;
    assert e1 == Sym(s) || e1 == Not(Sym(s));
    assert e1 == Sym(s) ==> e2 == Not(Sym(s)) by {
      assert Not(Sym(s)) in {e1, e2};
    }
    assert e1 == Not(Sym(s)) ==> e2 == Sym(s) by {
      assert Sym(s) in {e1, e2};
    }
  }

  lemma JoinOrSound(e1: Expr, e2: Expr, env: Env)
    requires !ExprEq(e1, e2) && JoinOr(e1, e2).Some?
    ensures Eval(JoinOr(e1, e2).value, env) == Apply(OrOp, Eval(e1, env), Eval(e2, env))
  {
    var s := LiteralSymbol(e1, true).value;
    ThreeConstants();
    hide Eval, ExprEq, AllThree;
    if TypeOf(s) == TristateType {
      if CmpPair(e1, e2, Equal, SymYes, SymMod) {
        PairOf(s, e1, e2, Equal, SymYes, SymMod);
        OneOfThree(s, SymYes, SymMod, SymNo, env);
      } else if CmpPair(e1, e2, Equal, SymYes, SymNo) {
        PairOf(s, e1, e2, Equal, SymYes, SymNo);
        OneOfThree(s, SymYes, SymNo, SymMod, env);
      } else {
        PairOf(s, e1, e2, Equal, SymMod, SymNo);
        OneOfThree(s, SymMod, SymNo, SymYes, env);
      }
    } else {
      ExcludedMiddle(s, e1, e2, env);
      YesValue(env);
    }
  }

  lemma YesValue(env: Env)
    ensures Eval(Sym(SymYes), env) == YES
  {
  }

  /** Joining is exact on all three values. */
  lemma JoinSound(op: Op, e1: Expr, e2: Expr, env: Env)
    requires Join(op, e1, e2).Some?
    ensures Eval(Join(op, e1, e2).value, env) == Apply(op, Eval(e1, env), Eval(e2, env))
  {
    if ExprEq(e1, e2) {
      ExprEqSound(e1, e2, env);
      hide Eval, ExprEq;
    } else if op.AndOp? {
      JoinAndSound(e1, e2, env);
      hide JoinAnd, Eval;
    } else {
      JoinOrSound(e1, e2, env);
      hide JoinOr, Eval;
    }
  }

  /** Joining never makes a new connective, and never grows. */
  lemma JoinShape(op: Op, e1: Expr, e2: Expr)
    requires Join(op, e1, e2).Some?
    ensures var j := Join(op, e1, e2).value;
            j == e1 || (!j.Bin? && Size(j) == 1)
  {}

  // ----- which literals join -----

  predicate IsThree(s: Symbol) {
    s == SymYes || s == SymMod || s == SymNo
  }

  /** Two comparisons of a tristate symbol with y, m and n make one, except two
      different values that it would have to have at once, and except a disjunction
      that says "is not". */
  lemma ComparisonsJoinIff(s: Symbol, r1: Rel, a: Symbol, r2: Rel, b: Symbol)
    requires TypeOf(s) == TristateType && IsThree(a) && IsThree(b)
    ensures var x, y := Cmp(r1, s, a), Cmp(r2, s, b);
      && (Join(AndOp, x, y).Some? <==> x == y || r1.Unequal? || r2.Unequal?)
      && (Join(OrOp, x, y).Some? <==> x == y || (r1.Equal? && r2.Equal?))
  {
    hide AllThree;
  }

  /** A symbol next to a comparison of it makes one with those that leave it no
      choice but one, or say that it is on; in a disjunction never. */
  lemma SymbolJoinIff(s: Symbol, rel: Rel, a: Symbol)
    requires IsTriType(s) && IsThree(a)
    ensures var x, y := Sym(s), Cmp(rel, s, a);
      var joins := y == Cmp(Equal, s, SymYes) || (rel.Unequal? && a != SymYes);
      && (Join(AndOp, x, y).Some? <==> joins) && (Join(AndOp, y, x).Some? <==> joins)
      && Join(OrOp, x, y).None? && Join(OrOp, y, x).None?
  {
  }

  /** A symbol next to its negation is decided in a disjunction of booleans only. */
  lemma NegationJoinIff(s: Symbol, op: Op)
    requires IsTriType(s)
    ensures Join(op, Sym(s), Not(Sym(s))).Some? <==> op.OrOp? && TypeOf(s) == BooleanType
    ensures Join(op, Not(Sym(s)), Sym(s)).Some? <==> op.OrOp? && TypeOf(s) == BooleanType
  {
  }

  // ----- extracting common operands -----

  /** Moves the operands e1 and e2 share into an accumulator. */
  function ExtractEq(op: Op, acc: Option<Expr>, e1: Expr, e2: Expr): (r: (Option<Expr>, Expr, Expr))
    ensures Size(r.1) <= Size(e1) && Size(r.2) <= Size(e2)
    decreases Size(e1) + Size(e2)
  {
    if IsBin(e1, op) then
      var p := ExtractEq(op, acc, e1.left, e2);
      var q := ExtractEq(op, p.0, e1.right, p.2);
      (q.0, Bin(op, p.1, q.1), q.2)
    else if IsBin(e2, op) then
      var p := ExtractEq(op, acc, e1, e2.left);
      var q := ExtractEq(op, p.0, p.1, e2.right);
      (q.0, q.1, Bin(op, p.2, q.2))
    else if ExprEq(e1, e2) then
      (Some(if acc.Some? then Bin(op, acc.value, e1) else e1), Neutral(op), Neutral(op))
    else (acc, e1, e2)
  }

  /** expr_extract_eq_and and expr_extract_eq_or. */
  function Extract(op: Op, e1: Expr, e2: Expr): (Option<Expr>, Expr, Expr) {
    var r := ExtractEq(op, None, e1, e2);
    if r.0.Some? then (r.0, EliminateYn(r.1), EliminateYn(r.2)) else r
  }

  function AccValue(op: Op, acc: Option<Expr>, env: Env): Tri {
    if acc.None? then NeutralValue(op) else Eval(acc.value, env)
  }

  /** Moving operands out of l and then out of r moves them out of both. */
  lemma MoveChain(op: Op, before: Tri, mid: Tri, after: Tri, l: Tri, l': Tri, r: Tri, r': Tri)
    requires Apply(op, before, l) == Apply(op, mid, l') && Apply(op, mid, r) == Apply(op, after, r')
    ensures Apply(op, before, Apply(op, l, r)) == Apply(op, after, Apply(op, l', r'))
  {}

  lemma {:induction false} ExtractEqFactors(op: Op, acc: Option<Expr>, e1: Expr, e2: Expr, env: Env)
    ensures var r := ExtractEq(op, acc, e1, e2);
            var before, after := AccValue(op, acc, env), AccValue(op, r.0, env);
            && Apply(op, before, Eval(e1, env)) == Apply(op, after, Eval(r.1, env))
            && Apply(op, before, Eval(e2, env)) == Apply(op, after, Eval(r.2, env))
    decreases Size(e1) + Size(e2)
  {
    hide ExprEq, Apply;
    if IsBin(e1, op) {
      var p := ExtractEq(op, acc, e1.left, e2);
      ExtractEqFactors(op, acc, e1.left, e2, env);
      ExtractEqFactors(op, p.0, e1.right, p.2, env);
      var q := ExtractEq(op, p.0, e1.right, p.2);
      MoveChain(op, AccValue(op, acc, env), AccValue(op, p.0, env), AccValue(op, q.0, env),
                Eval(e1.left, env), Eval(p.1, env), Eval(e1.right, env), Eval(q.1, env));
    } else if IsBin(e2, op) {
      var p := ExtractEq(op, acc, e1, e2.left);
      ExtractEqFactors(op, acc, e1, e2.left, env);
      ExtractEqFactors(op, p.0, p.1, e2.right, env);
      var q := ExtractEq(op, p.0, p.1, e2.right);
      MoveChain(op, AccValue(op, acc, env), AccValue(op, p.0, env), AccValue(op, q.0, env),
                Eval(e2.left, env), Eval(p.2, env), Eval(e2.right, env), Eval(q.2, env));
    } else if ExprEq(e1, e2) {
      ExprEqSound(e1, e2, env);
      MovedWhole(op, AccValue(op, acc, env), Eval(e1, env));
    }
  }

  /** A whole operand moved into the accumulator leaves the neutral value. */
  lemma MovedWhole(op: Op, before: Tri, v: Tri)
    ensures Apply(op, before, v) == Apply(op, Apply(op, before, v), NeutralValue(op))
    ensures Apply(op, NeutralValue(op), v) == v
  {
  }


  /** The extracted part is a common factor of both expressions. */
  lemma ExtractFactors(op: Op, e1: Expr, e2: Expr, env: Env)
    ensures var r := Extract(op, e1, e2);
            Factors(op, AccValue(op, r.0, env), Eval(e1, env), Eval(e2, env), Eval(r.1, env), Eval(r.2, env))
  {
    var r := ExtractEq(op, None, e1, e2);
    ExtractEqFactors(op, None, e1, e2, env);
    EliminateYnKeepsValue(r.1, env);
    EliminateYnKeepsValue(r.2, env);
  }
}
