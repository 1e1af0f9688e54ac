/** When a menu entry moves below the symbol in front of it. */
module Adoption {
  import opened Options
  import opened Tristate
  import opened Expressions
  import opened Equality
  import opened Normalize
  import opened Dups

  predicate ContainsSymbol(e: Expr, sym: Symbol) {
    match e
    case Bin(_, l, r) => ContainsSymbol(l, sym) || ContainsSymbol(r, sym)
    case Sym(s) => s == sym
    case Cmp(_, a, b) => a == sym || b == sym
    case Not(a) => ContainsSymbol(a, sym)
  }

  /** A syntactic test for "e is n whenever sym is n". */
  predicate DependsSymbol(e: Expr, sym: Symbol) {
    match e
    case Bin(op, l, r) => op.AndOp? && (DependsSymbol(l, sym) || DependsSymbol(r, sym))
    case Sym(s) => s == sym
    case Cmp(rel, a, b) =>
      a == sym && (if rel.Equal? then b == SymYes || b == SymMod else b == SymNo)
    case Not(_) => false
  }

  /** x is an operand of the conjunction e. */
  predicate IsOperand(e: Expr, x: Expr) {
    if IsBin(e, AndOp) then IsOperand(e.left, x) || IsOperand(e.right, x) else e == x
  }

  /** A literal that says that the symbol is on. */
  predicate SaysOn(x: Expr, sym: Symbol) {
    || x == Sym(sym) || x == Cmp(Unequal, sym, SymNo)
    || x == Cmp(Equal, sym, SymYes) || x == Cmp(Equal, sym, SymMod)
  }

  /** The test looks for such a literal among the operands of a conjunction. */
  lemma {:induction false} DependsSymbolIff(e: Expr, sym: Symbol)
    ensures DependsSymbol(e, sym) <==> exists x :: IsOperand(e, x) && SaysOn(x, sym)
  {
    if IsBin(e, AndOp) {
      DependsSymbolIff(e.left, sym);
      DependsSymbolIff(e.right, sym);
    } else {
      assert IsOperand(e, e);
      assert DependsSymbol(e, sym) <==> SaysOn(e, sym);
    }
  }

  ghost predicate MeansOn(x: Expr, sym: Symbol) {
    forall env: Env :: Eval(x, env) != NO ==> TriOf(sym, env) != NO
  }

  /** Of the literals about a boolean or tristate symbol and y, m or n, those are
      exactly the ones that hold only while the symbol is on. */
  lemma SaysOnIff(x: Expr, sym: Symbol)
    requires IsTriType(sym)
    requires x == Sym(sym) || x == Not(Sym(sym))
      || (x.Cmp? && x.lhs == sym && x.rhs in {SymYes, SymMod, SymNo})
    ensures SaysOn(x, sym) <==> MeansOn(x, sym)
  {
    if SaysOn(x, sym) {
      forall env: Env | Eval(x, env) != NO ensures TriOf(sym, env) != NO {
        DependsSymbolSound(x, sym, env);
      }
    } else {
      var off := Env(_ => NO, _ => "");
      assert TriOf(sym, off) == NO && StrOf(sym, off) == "n";
      assert Eval(x, off) != NO;
    }
  }

  lemma {:induction false} DependsSymbolSound(e: Expr, sym: Symbol, env: Env)
    requires IsTriType(sym) && DependsSymbol(e, sym) && Eval(e, env) != NO
    ensures TriOf(sym, env) != NO
  {
    if e.Bin? {
      if DependsSymbol(e.left, sym) {
        DependsSymbolSound(e.left, sym, env);
      } else {
        DependsSymbolSound(e.right, sym, env);
      }
    }
  }

  ghost predicate DependsImpliesOn(sym: Symbol) {
    forall e: Expr, env: Env :: DependsSymbol(e, sym) && Eval(e, env) != NO ==> TriOf(sym, env) != NO
  }

  /** The test means what it says exactly for symbols whose string value follows
      their tristate value. */
  lemma DependsSymbolSoundIff(sym: Symbol)
    requires sym.Config? || sym.Quoted?
    ensures DependsImpliesOn(sym) <==> IsTriType(sym)
  {
    if IsTriType(sym) {
      forall e, env | DependsSymbol(e, sym) && Eval(e, env) != NO ensures TriOf(sym, env) != NO {
        DependsSymbolSound(e, sym, env);
      }
    } else {
      var env := Env(_ => NO, _ => "text");
      var e := Cmp(Unequal, sym, SymNo);
      assert DependsSymbol(e, sym) && TriOf(sym, env) == NO;
      assert StrOf(sym, env) != "n" && Eval(e, env) != NO;
    }
  }

  /** "cond is not n", simplified. */
  function Visible(cond: Option<Expr>): Expr {
    EliminateDups(Transform(TransCompare(cond, Unequal, SymNo)))
  }

  /** The test on an entry with dependency `dep` behind a symbol `sym` whose prompt
      shows under `prompt`. */
  predicate Adopts(sym: Symbol, prompt: Option<Expr>, dep: Option<Expr>) {
    && dep.Some?
    && ContainsSymbol(dep.value, sym)
    && (DependsSymbol(dep.value, sym) || EliminateEq(Visible(dep), Visible(prompt)).1 == Sym(SymYes))
  }

  /** An entry that depends on the symbol is adopted whatever the prompt, and one that
      does not mention it never. */
  lemma {:induction false} DependentAdopted(sym: Symbol, prompt: Option<Expr>, dep: Option<Expr>)
    ensures dep.Some? && DependsSymbol(dep.value, sym) ==> Adopts(sym, prompt, dep)
    ensures dep.None? || !ContainsSymbol(dep.value, sym) ==> !Adopts(sym, prompt, dep)
  {
    if dep.Some? && DependsSymbol(dep.value, sym) {
      DependingMentions(dep.value, sym);
    }
    hide EliminateEq, Visible;
  }

  lemma {:induction false} DependingMentions(e: Expr, sym: Symbol)
    requires DependsSymbol(e, sym)
    ensures ContainsSymbol(e, sym)
  {
    if e.Bin? {
      if DependsSymbol(e.left, sym) {
        DependingMentions(e.left, sym);
      } else {
        DependingMentions(e.right, sym);
      }
    }
  }

  /** The conditions under which comparing with n is meaningful. */
  predicate Comparable(e: Option<Expr>) {
    e.Some? ==> LeavesAreTri(e.value) && NegationsNeverMod(e.value)
  }

  lemma VisibleSound(cond: Option<Expr>, env: Env)
    requires Comparable(cond)
    ensures Eval(Visible(cond), env) == FromBool(EvalOption(cond, env) != NO)
  {
    var c := TransCompare(cond, Unequal, SymNo);
    TransCompareSound(cond, Unequal, SymNo, env);
    TransformKeepsValue(c, env);
    EliminateDupsKeepsDefinite(Transform(c), env);
  }

  /** A simplified condition is n or y; where it is y the condition is not n, and
      where the condition is y it is y. */
  lemma VisibleNeverOverclaims(cond: Option<Expr>, env: Env)
    requires cond.Some? ==> LeavesAreTri(cond.value)
    ensures Eval(Visible(cond), env) != MOD
    ensures Eval(Visible(cond), env) == YES ==> EvalOption(cond, env) != NO
    ensures EvalOption(cond, env) == YES ==> Eval(Visible(cond), env) == YES
  {
    if cond.Some? {
      CompareNeverOverclaims(cond.value, env);
    }
    var c := TransCompare(cond, Unequal, SymNo);
    assert Eval(c, env) != MOD;
    TransformKeepsValue(c, env);
    EliminateDupsKeepsDefinite(Transform(c), env);
  }

  /** Where a condition stays on with every m taken for y, it is found visible. */
  lemma VisibleIsRaised(cond: Option<Expr>, env: Env)
    requires cond.Some? && LeavesAreTri(cond.value)
    ensures Eval(Visible(cond), env) == Raised(cond.value, env)
  {
    var c := TransCompare(cond, Unequal, SymNo);
    CompareIsRaised(cond.value, env);
    TransformKeepsValue(c, env);
    EliminateDupsKeepsDefinite(Transform(c), env);
  }

  /** An adopted entry is shown only where its new parent is on or is shown, as long
      as taking every m for y does not turn the entry off.  The prompt of the parent
      may negate anything. */
  lemma AdoptionSound(sym: Symbol, prompt: Option<Expr>, dep: Option<Expr>, env: Env)
    requires Adopts(sym, prompt, dep) && IsTriType(sym)
    requires LeavesAreTri(dep.value) && (prompt.Some? ==> LeavesAreTri(prompt.value))
    requires EvalOption(dep, env) != NO
    requires Raised(dep.value, env) == YES || DependsSymbol(dep.value, sym)
    ensures if DependsSymbol(dep.value, sym) then TriOf(sym, env) != NO
            else EvalOption(prompt, env) != NO
  {
    if DependsSymbol(dep.value, sym) {
      DependsSymbolSound(dep.value, sym, env);
    } else {
      VisibleIsRaised(dep, env);
      VisibleNeverOverclaims(prompt, env);
      EliminateEqFactors(Visible(dep), Visible(prompt), env);
    }
  }

  /** That is so wherever the entry is y, and everywhere if it negates nothing that
      can be m. */
  lemma RaisedWhere(e: Expr, env: Env)
    requires LeavesAreTri(e)
    ensures Eval(e, env) == YES ==> Raised(e, env) == YES
    ensures NegationsNeverMod(e) && Eval(e, env) != NO ==> Raised(e, env) == YES
  {
    CompareIsRaised(e, env);
    CompareNeverOverclaims(e, env);
    if NegationsNeverMod(e) {
      CompareExprSound(e, Unequal, SymNo, env);
    }
  }

  // ----- conjunctions -----

  /** A literal that simplifying leaves as it is. */
  predicate IsLiteral(e: Expr) {
    match e
    case Sym(s) => TypeOf(s) == BooleanType
    case Cmp(_, _, _) => IsNormal(e)
    case Not(a) => a.Sym? && TypeOf(a.sym) == BooleanType
    case Bin(_, _, _) => false
  }

  predicate IsConjunction(e: Expr) {
    if IsBin(e, AndOp) then IsConjunction(e.left) && IsConjunction(e.right) else IsLiteral(e)
  }

  /** A conjunction that is n has an operand that is n. */
  lemma {:induction false} FailingOperand(e: Expr, env: Env) returns (x: Expr)
    requires IsConjunction(e) && Eval(e, env) == NO
    ensures IsOperand(e, x) && IsLiteral(x) && Eval(x, env) == NO
  {
    if IsBin(e, AndOp) {
      if Eval(e.left, env) == NO {
        x := FailingOperand(e.left, env);
      } else {
        x := FailingOperand(e.right, env);
      }
    } else {
      x := e;
    }
  }

  lemma VisibleLiteral(x: Expr)
    requires IsLiteral(x)
    ensures Visible(Some(x)) == x && LeavesAreTri(x)
  {
    assert x.Not? ==> CompareExpr(x.arg, Equal, SymNo) == Cmp(Equal, x.arg.sym, SymNo);
    assert Transform(CompareExpr(x, Unequal, SymNo)) == x;
  }

  /** An operand is cancelled against the conjunction it stands in. */
  lemma {:induction false} OperandCancels(e: Expr, x: Expr)
    requires IsOperand(e, x) && IsLiteral(x)
    ensures EliminateOperands(AndOp, e, x).1 == Sym(SymYes)
    decreases e
  {
    if IsBin(e, AndOp) {
      SingleOperandSettled(AndOp, e.left, x);
      if IsOperand(e.left, x) {
        OperandCancels(e.left, x);
        SingleOperandSettled(AndOp, e.right, Sym(SymYes));
      } else {
        SingleOperandSettled(AndOp, e.right, Sym(SymYes));
        OperandCancels(e.right, x);
      }
    } else {
      assert x.Not? ==> ExprEq(x.arg, x.arg);
    }
  }

  /** Behind any symbol that a dependency mentions, a prompt that is one operand of
      the simplified dependency gets the entry adopted. */
  lemma OperandAdopts(sym: Symbol, x: Expr, dep: Expr)
    requires ContainsSymbol(dep, sym) && IsBin(Visible(Some(dep)), AndOp)
    requires IsOperand(Visible(Some(dep)), x) && IsLiteral(x)
    ensures Adopts(sym, Some(x), Some(dep))
  {
    VisibleLiteral(x);
    OperandCancels(Visible(Some(dep)), x);
    hide Visible;
  }

  /** Whatever prompt the parent has, an entry adopted behind it shows only with it. */
  ghost predicate ShownWithParent(sym: Symbol, dep: Expr, env: Env) {
    forall prompt: Option<Expr> ::
      Adopts(sym, prompt, Some(dep)) && (prompt.Some? ==> LeavesAreTri(prompt.value)) ==>
      EvalOption(prompt, env) != NO
  }

  /** For a dependency that simplifies to a conjunction, the condition of
      AdoptionSound is exact: where taking every m for y turns a shown entry off,
      some prompt gets it adopted and is hidden. */
  lemma AdoptionSoundIff(sym: Symbol, dep: Expr, env: Env)
    requires LeavesAreTri(dep) && ContainsSymbol(dep, sym) && !DependsSymbol(dep, sym) && IsTriType(sym)
    requires IsBin(Visible(Some(dep)), AndOp) && IsConjunction(Visible(Some(dep)))
    requires Eval(dep, env) != NO
    ensures ShownWithParent(sym, dep, env) <==> Raised(dep, env) == YES
  {
    hide Visible, Adopts, Eval, Raised;
    if Raised(dep, env) == YES {
      forall prompt: Option<Expr> |
        Adopts(sym, prompt, Some(dep)) && (prompt.Some? ==> LeavesAreTri(prompt.value))
        ensures EvalOption(prompt, env) != NO
      {
        AdoptionSound(sym, prompt, Some(dep), env);
      }
    } else {
      VisibleIsRaised(Some(dep), env);
      var x := FailingOperand(Visible(Some(dep)), env);
      OperandAdopts(sym, x, dep);
      VisibleLiteral(x);
      assert EvalOption(Some(x), env) == NO;
    }
  }

  // ----- a negated tristate in the dependency -----

  lemma VisibleNeither(u: Symbol, t: Symbol)
    requires TypeOf(u) == TristateType && TypeOf(t) == TristateType && u != t
    ensures Visible(Some(Bin(AndOp, Not(Sym(u)), Not(Sym(t)))))
         == Bin(AndOp, Cmp(Equal, u, SymNo), Cmp(Equal, t, SymNo))
  {
    var isU, isT := Cmp(Unequal, u, SymNo), Cmp(Unequal, t, SymNo);
    var dep := Bin(AndOp, Not(Sym(u)), Not(Sym(t)));
    assert CompareExpr(Sym(u), Unequal, SymNo) == isU;
    assert CompareExpr(Sym(t), Unequal, SymNo) == isT;
    assert CompareExpr(Not(Sym(u)), Equal, SymNo) == isU;
    assert CompareExpr(Not(Sym(t)), Equal, SymNo) == isT;
    assert CompareExpr(dep, Unequal, SymNo) == Not(Bin(OrOp, isU, isT));
    assert Transform(Bin(OrOp, isU, isT)) == Bin(OrOp, isU, isT);
    assert Transform(Not(isU)) == Cmp(Equal, u, SymNo);
    assert Transform(Not(isT)) == Cmp(Equal, t, SymNo);
    assert Transform(Bin(AndOp, Not(isU), Not(isT))) == Bin(AndOp, Cmp(Equal, u, SymNo), Cmp(Equal, t, SymNo));
    UnrelatedFixed(AndOp, Cmp(Equal, u, SymNo), Cmp(Equal, t, SymNo));
  }

  function Unset(u: Symbol): Option<Expr> {
    Some(Cmp(Equal, u, SymNo))
  }

  function NeitherSet(u: Symbol, t: Symbol): Option<Expr> {
    Some(Bin(AndOp, Not(Sym(u)), Not(Sym(t))))
  }

  lemma NeitherAdopted(u: Symbol, t: Symbol)
    requires TypeOf(u) == TristateType && TypeOf(t) == TristateType && u != t
    ensures Adopts(t, Unset(u), NeitherSet(u, t))
  {
    VisibleNeither(u, t);
    hide Visible, Adopts;
    assert ContainsSymbol(Not(Sym(t)), t);
    OperandAdopts(t, Cmp(Equal, u, SymNo), NeitherSet(u, t).value);
  }

  lemma NeitherValue(u: Symbol, t: Symbol, env: Env)
    requires TriOf(u, env) == MOD && TriOf(t, env) == NO && IsTriType(u)
    ensures EvalOption(NeitherSet(u, t), env) == MOD && EvalOption(Unset(u), env) == NO
    ensures Raised(NeitherSet(u, t).value, env) == NO
  {
    assert Raised(Not(Sym(u)), env) == NO;
    assert Eval(Not(Sym(u)), env) == MOD;
    assert Eval(Not(Sym(t)), env) == YES;
  }

  /** The test goes wrong for a dependency on negated tristates: behind T, whose
      prompt shows if U=n, an entry that depends on !U && !T is adopted, and with
      U at m and T at n it shows although T is n and its prompt is hidden. */
  lemma AdoptionFails(i: nat, j: nat, env: Env)
    requires i != j
    requires env.tri(Config(i, TristateType)) == MOD && env.tri(Config(j, TristateType)) == NO
    ensures var (u, t) := (Config(i, TristateType), Config(j, TristateType));
      && Adopts(t, Unset(u), NeitherSet(u, t))
      && EvalOption(NeitherSet(u, t), env) != NO && Raised(NeitherSet(u, t).value, env) == NO
      && TriOf(t, env) == NO && EvalOption(Unset(u), env) == NO
  {
    NeitherAdopted(Config(i, TristateType), Config(j, TristateType));
    NeitherValue(Config(i, TristateType), Config(j, TristateType), env);
    hide Adopts, NeitherSet;
  }
}
