/** Normalisation of expressions: negations are pushed down to symbols and
    comparisons of boolean symbols disappear. */
module Normalize {
  import opened Options
  import opened Tristate
  import opened Expressions

  /** Under this weight De Morgan's laws strictly shrink an expression, which is
      what lets the normaliser run again on its own output. */
  function Weight(e: Expr): (w: nat)
    ensures w >= 1
  {
    match e
    case Sym(_) => 1
    case Cmp(_, _, _) => 2
    case Not(a) => 2 * Weight(a)
    case Bin(_, l, r) => Weight(l) + Weight(r) + 1
  }

  /** Rewrites a comparison of a boolean symbol with y, m or n. */
  function TransformCmp(e: Expr): (r: Expr)
    requires e.Cmp?
  {
    if TypeOf(e.lhs) != BooleanType then e
    else if e.rhs == SymNo then (if e.rel.Equal? then Not(Sym(e.lhs)) else Sym(e.lhs))
    else if e.rhs == SymMod then (if e.rel.Equal? then Sym(SymNo) else Sym(SymYes))
    else if e.rhs == SymYes then (if e.rel.Equal? then Sym(e.lhs) else Not(Sym(e.lhs)))
    else e
  }

  lemma DeMorganWeight(op: Op, l: Expr, r: Expr)
    ensures Weight(Bin(Dual(op), Not(l), Not(r))) < Weight(Not(Bin(op, l, r)))
  {
    assert Weight(Not(l)) == 2 * Weight(l) && Weight(Not(r)) == 2 * Weight(r);
    assert Weight(Bin(op, l, r)) == Weight(l) + Weight(r) + 1;
  }

  function Transform(e: Expr): (r: Expr)
    ensures Weight(r) <= Weight(e)
    decreases Weight(e)
  {
    match e
    case Sym(_) => e
    case Cmp(_, _, _) => TransformCmp(e)
    case Bin(op, l, r) => Bin(op, Transform(l), Transform(r))
    case Not(a) =>
      var t := Transform(a);
      match t
      case Not(x) => Transform(x)
      case Cmp(rel, x, y) => Cmp(Flip(rel), x, y)
      case Bin(op, l, r) =>
        DeMorganWeight(op, l, r);
        Transform(Bin(Dual(op), Not(l), Not(r)))
      case Sym(s) =>
        if s == SymYes then Sym(SymNo)
        else if s == SymMod then Sym(SymMod)
        else if s == SymNo then Sym(SymYes)
        else Not(t)
  }

  /** Negation only over a symbol other than y, m and n; no boolean symbol on the
      left of a comparison with y, m or n. */
  predicate IsNormal(e: Expr) {
    match e
    case Sym(_) => true
    case Cmp(_, a, b) => TypeOf(a) == BooleanType ==> !(b.SymYes? || b.SymMod? || b.SymNo?)
    case Not(a) => a.Sym? && !a.sym.SymYes? && !a.sym.SymMod? && !a.sym.SymNo?
    case Bin(_, l, r) => IsNormal(l) && IsNormal(r)
  }

  lemma {:induction false} TransformKeepsValue(e: Expr, env: Env)
    ensures Eval(Transform(e), env) == Eval(e, env)
    decreases Weight(e)
  {
    match e
    case Sym(_) =>
    case Cmp(_, _, _) =>
    case Bin(op, l, r) =>
      TransformKeepsValue(l, env);
      TransformKeepsValue(r, env);
    case Not(a) =>
      var t := Transform(a);
      TransformKeepsValue(a, env);
      match t
      case Not(x) => TransformKeepsValue(x, env);
      case Cmp(rel, x, y) =>
      case Bin(op, l, r) =>
        DeMorganWeight(op, l, r);
        TransformKeepsValue(Bin(Dual(op), Not(l), Not(r)), env);
      case Sym(s) =>
  }

  lemma {:induction false} TransformIsNormal(e: Expr)
    ensures IsNormal(Transform(e))
    decreases Weight(e)
  {
    match e
    case Sym(_) =>
    case Cmp(_, _, _) =>
    case Bin(op, l, r) =>
      TransformIsNormal(l);
      TransformIsNormal(r);
    case Not(a) =>
      var t := Transform(a);
      TransformIsNormal(a);
      match t
      case Not(x) => TransformIsNormal(x);
      case Cmp(rel, x, y) =>
      case Bin(op, l, r) =>
        DeMorganWeight(op, l, r);
        TransformIsNormal(Bin(Dual(op), Not(l), Not(r)));
      case Sym(s) =>
  }

  /** Normal expressions are exactly the fixed points of the normaliser. */
  lemma {:induction false} NormalIffFixed(e: Expr)
    ensures IsNormal(e) <==> Transform(e) == e
  {
    TransformIsNormal(e);
    if IsNormal(e) {
      NormalIsFixed(e);
    }
  }

  lemma {:induction false} NormalIsFixed(e: Expr)
    requires IsNormal(e)
    ensures Transform(e) == e
  {
    if e.Bin? {
      NormalIsFixed(e.left);
      NormalIsFixed(e.right);
    }
  }

  lemma TransformIdempotent(e: Expr)
    ensures Transform(Transform(e)) == Transform(e)
  {
    TransformIsNormal(e);
    NormalIsFixed(Transform(e));
  }

  // ----- FOO!=n -> FOO -----

  function TransBool(e: Expr): Expr {
    match e
    case Bin(op, l, r) => Bin(op, TransBool(l), TransBool(r))
    case Not(a) => Not(TransBool(a))
    case Cmp(rel, a, b) =>
      if rel.Unequal? && TypeOf(a) == TristateType && b == SymNo then Sym(a) else e
    case Sym(_) => e
  }

  /** On normal expressions the rewrite keeps "is n", and its result is normal. */
  lemma {:induction false} TransBoolKeepsNo(e: Expr, env: Env)
    requires IsNormal(e)
    ensures Eval(TransBool(e), env) == NO <==> Eval(e, env) == NO
    ensures IsNormal(TransBool(e))
  {
    match e
    case Sym(_) =>
    case Cmp(_, _, _) =>
    case Not(_) =>
    case Bin(_, l, r) =>
      TransBoolKeepsNo(l, env);
      TransBoolKeepsNo(r, env);
  }

  /** No FOO!=n is left for a tristate FOO, and nothing else is touched. */
  predicate IsRewritten(e: Expr) {
    match e
    case Sym(_) => true
    case Cmp(rel, a, b) => !(rel.Unequal? && TypeOf(a) == TristateType && b == SymNo)
    case Not(a) => IsRewritten(a)
    case Bin(_, l, r) => IsRewritten(l) && IsRewritten(r)
  }

  lemma {:induction false} TransBoolDone(e: Expr)
    ensures IsRewritten(TransBool(e)) && (IsRewritten(e) ==> TransBool(e) == e)
  {
    match e
    case Sym(_) =>
    case Cmp(_, _, _) =>
    case Not(a) => TransBoolDone(a);
    case Bin(_, l, r) =>
      TransBoolDone(l);
      TransBoolDone(r);
  }

  /** Below a negation the rewrite is unsound, which is why it needs normal input. */
  lemma TransBoolUnsoundUnderNegation(id: nat, env: Env)
    requires env.tri(Config(id, TristateType)) == MOD
    ensures var e := Not(Cmp(Unequal, Config(id, TristateType), SymNo));
            Eval(e, env) == NO && Eval(TransBool(e), env) != NO
  {}

  // ----- comparing an expression with y or n -----

  /** An expression for "e rel target". */
  function TransCompare(e: Option<Expr>, rel: Rel, target: Symbol): Expr
    requires target == SymYes || target == SymNo
  {
    if e.None? then (if rel.Equal? then Sym(target) else Not(Sym(target)))
    else CompareExpr(e.value, rel, target)
  }

  function CompareExpr(e: Expr, rel: Rel, target: Symbol): Expr
    requires target == SymYes || target == SymNo
    decreases e
  {
    match e
    case Bin(op, l, r) =>
      var c := Bin(if target == SymYes then op else Dual(op),
                   CompareExpr(l, Equal, target), CompareExpr(r, Equal, target));
      if rel.Equal? then c else Not(c)
    case Not(a) => CompareExpr(a, Flip(rel), target)
    case Cmp(_, _, _) => if rel.Equal? == (target == SymYes) then e else Not(e)
    case Sym(s) => Cmp(rel, s, target)
  }

  /** The string value of a leaf says the same as its tristate value. */
  predicate LeavesAreTri(e: Expr) {
    match e
    case Sym(s) => IsTriType(s) || s.SymYes? || s.SymMod? || s.SymNo?
    case Cmp(_, _, _) => true
    case Not(a) => LeavesAreTri(a)
    case Bin(_, l, r) => LeavesAreTri(l) && LeavesAreTri(r)
  }

  /** No plain symbol in e can hold mod. */
  predicate NeverMod(e: Expr) {
    match e
    case Sym(s) => TypeOf(s) != TristateType && !s.SymMod?
    case Cmp(_, _, _) => true
    case Not(a) => NeverMod(a)
    case Bin(_, l, r) => NeverMod(l) && NeverMod(r)
  }

  predicate NegationsNeverMod(e: Expr) {
    match e
    case Sym(_) => true
    case Cmp(_, _, _) => true
    case Not(a) => NeverMod(a)
    case Bin(_, l, r) => NegationsNeverMod(l) && NegationsNeverMod(r)
  }

  lemma {:induction false} NeverModDefinite(e: Expr, env: Env)
    requires NeverMod(e)
    ensures Eval(e, env) != MOD
    ensures NegationsNeverMod(e)
  {
    match e
    case Sym(_) =>
    case Cmp(_, _, _) =>
    case Not(a) => NeverModDefinite(a, env);
    case Bin(_, l, r) =>
      NeverModDefinite(l, env);
      NeverModDefinite(r, env);
  }

  function TargetValue(target: Symbol): Tri
    requires target == SymYes || target == SymNo
  {
    if target == SymYes then YES else NO
  }

  /** The comparison is right, and never m, when nothing that is negated can be m. */
  lemma {:induction false} CompareExprSound(e: Expr, rel: Rel, target: Symbol, env: Env)
    requires target == SymYes || target == SymNo
    requires LeavesAreTri(e) && NegationsNeverMod(e)
    ensures Eval(CompareExpr(e, rel, target), env)
            == FromBool((Eval(e, env) == TargetValue(target)) == rel.Equal?)
    decreases e
  {
    match e
    case Sym(_) =>
    case Cmp(_, _, _) =>
    case Not(a) =>
      NeverModDefinite(a, env);
      CompareExprSound(a, Flip(rel), target, env);
    case Bin(_, l, r) =>
      CompareExprSound(l, Equal, target, env);
      CompareExprSound(r, Equal, target, env);
  }

  /** Whatever is negated, "e is not n" is never claimed of an e that is n, nor
      "e is n" of an e that is y, and neither claim is ever m. */
  lemma {:induction false} CompareNeverOverclaims(e: Expr, env: Env)
    requires LeavesAreTri(e)
    ensures var u, q := Eval(CompareExpr(e, Unequal, SymNo), env), Eval(CompareExpr(e, Equal, SymNo), env);
      && u == Negate(q) && q != MOD
      && (u == YES ==> Eval(e, env) != NO)
      && (q == YES ==> Eval(e, env) != YES)
  {
    match e
    case Sym(_) =>
    case Cmp(_, _, _) =>
    case Not(a) => CompareNeverOverclaims(a, env);
    case Bin(_, l, r) =>
      CompareNeverOverclaims(l, env);
      CompareNeverOverclaims(r, env);
  }

  /** The value of an expression with every symbol at m taken for y. */
  function Raised(e: Expr, env: Env): (t: Tri)
    ensures t != MOD
  {
    match e
    case Sym(s) => FromBool(TriOf(s, env) != NO)
    case Cmp(_, _, _) => Eval(e, env)
    case Not(a) => Negate(Raised(a, env))
    case Bin(op, l, r) => Apply(op, Raised(l, env), Raised(r, env))
  }

  /** What the comparison with n computes is exactly that value. */
  lemma {:induction false} CompareIsRaised(e: Expr, env: Env)
    requires LeavesAreTri(e)
    ensures Eval(CompareExpr(e, Unequal, SymNo), env) == Raised(e, env)
    ensures Eval(CompareExpr(e, Equal, SymNo), env) == Negate(Raised(e, env))
  {
    match e
    case Sym(_) =>
    case Cmp(_, _, _) =>
    case Not(a) => CompareIsRaised(a, env);
    case Bin(_, l, r) =>
      CompareIsRaised(l, env);
      CompareIsRaised(r, env);
  }

  /** So it is right under a valuation if and only if raising m to y does not make
      an expression n that is not n. */
  lemma CompareRightIff(e: Expr, env: Env)
    requires LeavesAreTri(e)
    ensures Eval(CompareExpr(e, Unequal, SymNo), env) == FromBool(Eval(e, env) != NO)
       <==> (Eval(e, env) == NO || Raised(e, env) == YES)
  {
    CompareIsRaised(e, env);
    CompareNeverOverclaims(e, env);
  }

  lemma TransCompareSound(e: Option<Expr>, rel: Rel, target: Symbol, env: Env)
    requires target == SymYes || target == SymNo
    requires e.Some? ==> LeavesAreTri(e.value) && NegationsNeverMod(e.value)
    ensures Eval(TransCompare(e, rel, target), env)
            == if e.None? then FromBool((target == SymYes) == rel.Equal?)
               else FromBool((Eval(e.value, env) == TargetValue(target)) == rel.Equal?)
  {
    if e.Some? {
      CompareExprSound(e.value, rel, target, env);
    }
  }

  /** !FOO with FOO a tristate at m is m, hence not n, but compares as n. */
  lemma CompareUnsoundUnderNegation(id: nat, env: Env)
    requires env.tri(Config(id, TristateType)) == MOD
    ensures var e := Not(Sym(Config(id, TristateType)));
            Eval(e, env) != NO && Eval(CompareExpr(e, Unequal, SymNo), env) == NO
  {}

  ghost predicate ComparesRight(e: Expr) {
    forall env: Env :: Eval(CompareExpr(e, Unequal, SymNo), env) == FromBool(Eval(e, env) != NO)
  }

  /** A negated symbol compares right exactly if it is not a tristate. */
  lemma CompareNegatedIff(s: Symbol)
    requires IsTriType(s)
    ensures ComparesRight(Not(Sym(s))) <==> TypeOf(s) != TristateType
  {
    if TypeOf(s) == TristateType {
      var env := Env(_ => MOD, _ => "");
      CompareUnsoundUnderNegation(s.id, env);
      assert Eval(CompareExpr(Not(Sym(s)), Unequal, SymNo), env) != FromBool(Eval(Not(Sym(s)), env) != NO);
    } else {
      forall env: Env
        ensures Eval(CompareExpr(Not(Sym(s)), Unequal, SymNo), env) == FromBool(Eval(Not(Sym(s)), env) != NO)
      {
        CompareExprSound(Not(Sym(s)), Unequal, SymNo, env);
      }
    }
  }

  /** What is negated need not matter: n && !FOO compares right for every FOO. */
  lemma NegationMayNotMatter(s: Symbol)
    ensures ComparesRight(Bin(AndOp, Sym(SymNo), Not(Sym(s))))
  {
    var e := Bin(AndOp, Sym(SymNo), Not(Sym(s)));
    forall env: Env ensures Eval(CompareExpr(e, Unequal, SymNo), env) == FromBool(Eval(e, env) != NO) {
      assert Eval(CompareExpr(Sym(SymNo), Equal, SymNo), env) == YES;
    }
  }
}
