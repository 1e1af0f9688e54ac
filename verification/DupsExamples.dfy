/** An expression in which the second pass of duplicate elimination is at work, with
    and without harm. */
module DupsExamples {
  import opened Options
  import opened Tristate
  import opened Expressions
  import opened Equality
  import opened Normalize
  import opened Joins
  import opened Spine
  import opened Dups
  import opened DupsExact

  // ----- (a || b) && !a && !b -----

  function Either(x: Expr, y: Expr): Expr {
    Bin(OrOp, x, y)
  }

  function Neither(x: Expr, y: Expr): Expr {
    Bin(AndOp, Not(x), Not(y))
  }

  predicate TwoSymbols(x: Expr, y: Expr) {
    x.Sym? && y.Sym? && x != y && IsTriType(x.sym) && IsTriType(y.sym)
  }

  lemma NegatedEither(x: Expr, y: Expr)
    requires TwoSymbols(x, y)
    ensures Transform(Not(Either(x, y))) == Neither(x, y)
  {
    assert Transform(Either(x, y)) == Either(x, y);
    NormalIsFixed(Neither(x, y));
  }

  lemma ExtractNeither(x: Expr, y: Expr)
    requires TwoSymbols(x, y)
    ensures Extract(AndOp, Neither(x, y), Neither(x, y)).1 == Sym(SymYes)
  {
    var neither := Neither(x, y);
    assert ExprEq(Not(x), Not(x)) && ExprEq(Not(y), Not(y));
    assert ExtractEq(AndOp, None, Not(x), Not(x)) == (Some(Not(x)), Sym(SymYes), Sym(SymYes));
    assert ExtractEq(AndOp, Some(Not(x)), Sym(SymYes), Not(y)) == (Some(Not(x)), Sym(SymYes), Not(y));
    var p := ExtractEq(AndOp, None, Not(x), neither);
    assert p == (Some(Not(x)), Sym(SymYes), Bin(AndOp, Sym(SymYes), Not(y)));
    assert ExtractEq(AndOp, p.0, Not(y), Sym(SymYes)) == (p.0, Not(y), Sym(SymYes));
    var q := ExtractEq(AndOp, p.0, Not(y), p.2);
    assert ExtractEq(AndOp, p.0, Not(y), Not(y)) == (Some(neither), Sym(SymYes), Sym(SymYes));
    assert q.0.Some? && q.1 == Sym(SymYes);
    assert EliminateYn(Bin(AndOp, Sym(SymYes), Sym(SymYes))) == Sym(SymYes);
  }

  lemma DifferentSymbols(x: Expr, y: Expr)
    requires x.Sym? && y.Sym? && x != y
    ensures !ExprEq(x, y) && !ExprEq(Not(x), Not(y))
  {
  }

  /** One of the two negations alone does not use up both. */
  lemma ExtractOne(x: Expr, y: Expr, z: Expr)
    requires TwoSymbols(x, y) && (z == x || z == y)
    ensures Extract(AndOp, Neither(x, y), Not(z)).1 != Sym(SymYes)
  {
    assert ExprEq(Not(z), Not(z));
    DifferentSymbols(x, y);
    DifferentSymbols(y, x);
    var p := ExtractEq(AndOp, None, Not(x), Not(z));
    if z == x {
      assert p == (Some(Not(x)), Sym(SymYes), Sym(SymYes));
      assert ExtractEq(AndOp, p.0, Not(y), Sym(SymYes)) == (p.0, Not(y), Sym(SymYes));
      assert EliminateYn(Bin(AndOp, Sym(SymYes), Not(y))) == Not(y);
    } else {
      assert p == (None, Not(x), Not(y));
      assert ExtractEq(AndOp, None, Not(y), Not(y)) == (Some(Not(y)), Sym(SymYes), Sym(SymYes));
      assert EliminateYn(Bin(AndOp, Not(x), Sym(SymYes))) == Not(x);
    }
  }

  function Clash(x: Expr, y: Expr): Expr {
    Bin(AndOp, Either(x, y), Neither(x, y))
  }

  lemma SlotsOfClash(x: Expr, y: Expr, p: seq<Dir>)
    requires TwoSymbols(x, y) && IsSlot(AndOp, Clash(x, y), p)
    ensures p == [Left] || p == [Right, Left] || p == [Right, Right]
    ensures At(AndOp, Clash(x, y), p)
         == if p == [Left] then Either(x, y) else if p == [Right, Left] then Not(x) else Not(y)
  {
    var t := Clash(x, y);
    assert p != [] && OnSpine(AndOp, Child(t, p[0]), p[1..]) && p == [p[0]] + p[1..];
    if p[0] == Right {
      assert IsSlot(AndOp, Neither(x, y), p[1..]);
      SlotsOfTwo(AndOp, Not(x), Not(y), p[1..]);
    }
  }

  /** The first pass finds nothing in it. */
  lemma ClashQuiet(x: Expr, y: Expr)
    requires TwoSymbols(x, y)
    ensures Dups1(AndOp, State(Clash(x, y), 0), [], []) == State(Clash(x, y), 0)
  {
    var t := Clash(x, y);
    assert Unrelated(OrOp, x, y);
    var operands := {Either(x, y), Not(x), Not(y)};
    assert forall u, v :: u in operands && v in operands && u != v ==> Join(AndOp, u, v).None?;
    hide Join, Dups1, Unrelated;
    forall p, q | IsSlot(AndOp, t, p) && IsSlot(AndOp, t, q) && p != q
      ensures Join(AndOp, At(AndOp, t, p), At(AndOp, t, q)).None?
    {
      SlotsOfClash(x, y, p);
      SlotsOfClash(x, y, q);
    }
    forall p, n | IsSlot(AndOp, t, p) && p != [] ensures InnerDups1(AndOp, State(t, n), p) == State(t, n) {
      SlotsOfClash(x, y, p);
      TwoUnrelated(OrOp, x, y, n);
      PutSame(AndOp, t, p);
    }
    Dups1Quiet(AndOp, State(t, 0), [], []);
  }

  lemma ClashSlots(x: Expr, y: Expr)
    ensures OnSpine(AndOp, Clash(x, y), [Left]) && At(AndOp, Clash(x, y), [Left]) == Either(x, y)
    ensures OnSpine(AndOp, Clash(x, y), [Right]) && At(AndOp, Clash(x, y), [Right]) == Neither(x, y)
    ensures OnSpine(AndOp, Clash(x, y), [Right, Left]) && At(AndOp, Clash(x, y), [Right, Left]) == Not(x)
    ensures OnSpine(AndOp, Clash(x, y), [Right, Right]) && At(AndOp, Clash(x, y), [Right, Right]) == Not(y)
  {
    var t := Clash(x, y);
    Extend(AndOp, t, [], Left);
    Extend(AndOp, t, [], Right);
    assert [] + [Left] == [Left] && [] + [Right] == [Right];
    Extend(AndOp, t, [Right], Left);
    Extend(AndOp, t, [Right], Right);
    assert [Right] + [Left] == [Right, Left] && [Right] + [Right] == [Right, Right];
  }

  /** Either is left alone by what happens inside it. */
  lemma EitherQuiet(x: Expr, y: Expr)
    requires TwoSymbols(x, y)
    ensures Dups2(OrOp, State(Either(x, y), 0), [], []) == State(Either(x, y), 0)
    ensures OnSpine(AndOp, Clash(x, y), [Left]) && Put(AndOp, Clash(x, y), [Left], Either(x, y)) == Clash(x, y)
  {
    assert Unrelated(OrOp, x, y);
    TwoUnrelated(OrOp, x, y, 0);
    ClashSlots(x, y);
    PutSame(AndOp, Clash(x, y), [Left]);
    hide Dups2, Unrelated, Put;
  }

  /** The second pass looks at Either next to each operand of Neither and keeps it. */
  lemma ClashOneByOne(x: Expr, y: Expr, d: Dir)
    requires TwoSymbols(x, y)
    ensures OnSpine(AndOp, Clash(x, y), [Left]) && OnSpine(AndOp, Clash(x, y), [Right, d])
    ensures Dups2(AndOp, State(Clash(x, y), 0), [Left], [Right, d]) == State(Clash(x, y), 0)
  {
    ClashSlots(x, y);
    EitherQuiet(x, y);
    NegatedEither(x, y);
    ExtractOne(x, y, if d == Left then x else y);
    hide Extract, Transform, Put, At, OnSpine, Clash;
  }

  /** Next to the whole of Neither it becomes n. */
  lemma ClashAtOnce(x: Expr, y: Expr, env: Env)
    requires TwoSymbols(x, y)
    ensures OnSpine(AndOp, Clash(x, y), [Left]) && OnSpine(AndOp, Clash(x, y), [Right])
    ensures var r := InnerDups2(AndOp, State(Clash(x, y), 0), [Left], [Right]);
      Eval(r.tree, env) == NO && r.count > 0
  {
    ClashSlots(x, y);
    EitherQuiet(x, y);
    NegatedEither(x, y);
    ExtractNeither(x, y);
    PutValue(AndOp, Clash(x, y), [Left], Sym(SymNo), env);
    hide Extract, Transform, Put, At, OnSpine, Clash, Dups2;
  }

  lemma ClashOnLeft(x: Expr, y: Expr, env: Env)
    requires TwoSymbols(x, y)
    ensures OnSpine(AndOp, Clash(x, y), [Left]) && OnSpine(AndOp, Clash(x, y), [Right])
    ensures var r := Dups2(AndOp, State(Clash(x, y), 0), [Left], [Right]);
      Eval(r.tree, env) == NO && r.count > 0
  {
    ClashSlots(x, y);
    assert [Right] + [Left] == [Right, Left] && [Right] + [Right] == [Right, Right];
    ClashOneByOne(x, y, Left);
    ClashOneByOne(x, y, Right);
    ClashAtOnce(x, y, env);
    hide InnerDups2, At, OnSpine, Clash, Eval;
  }

  /** So a round makes the clash n, whatever the symbols are. */
  lemma ClashRound(x: Expr, y: Expr, env: Env)
    requires TwoSymbols(x, y)
    ensures Eval(Round(Clash(x, y)).tree, env) == NO && !SecondPassIdle(Clash(x, y))
  {
    var t := Clash(x, y);
    var st := State(t, 0);
    ClashQuiet(x, y);
    ClashOnLeft(x, y, env);
    Extend(AndOp, t, [], Left);
    Extend(AndOp, t, [], Right);
    assert [] + [Left] == [Left] && [] + [Right] == [Right];
    var b := Dups2(AndOp, st, [Left], [Right]);
    MovedOn(AndOp, t, b.tree, [Left], []);
    InnerDups2Keeps(AndOp, b, [Left], [], env);
    var c := InnerDups2(AndOp, b, [Left], []);
    MovedOn(AndOp, b.tree, c.tree, [], []);
    Extend(AndOp, c.tree, [], Right);
    Dups2Keeps(AndOp, c, [Right], [], env);
    hide Dups1, InnerDups2, Keeps;
    assert Dups2(AndOp, st, [Left], [Left]) == st;
    assert Dups2(AndOp, st, [Left], []) == c;
    KeepsNo(b, c, env);
    KeepsNo(c, Dups2(AndOp, c, [Right], []), env);
  }

  lemma KeepsNo(a: State, b: State, env: Env)
    requires Keeps(false, a, b, env) && Eval(a.tree, env) == NO && a.count > 0
    ensures Eval(b.tree, env) == NO && b.count > 0
  {
  }

  lemma ClashAtMod(x: Expr, y: Expr, env: Env)
    requires Eval(x, env) == MOD && Eval(y, env) == MOD
    ensures Eval(Clash(x, y), env) == MOD
  {
    assert Eval(Not(x), env) == MOD;
    assert Eval(Not(y), env) == MOD;
    assert Eval(Either(x, y), env) == MOD;
    assert Eval(Neither(x, y), env) == MOD;
  }

  /** Duplicate elimination is not exact on m: with a and b both m,
      (a || b) && !a && !b is m before and n after. */
  lemma SecondPassMovesMod(a: nat, b: nat, env: Env)
    requires a != b
    requires env.tri(Config(a, TristateType)) == MOD && env.tri(Config(b, TristateType)) == MOD
    ensures var e := Clash(Sym(Config(a, TristateType)), Sym(Config(b, TristateType)));
      Eval(e, env) == MOD && Eval(EliminateDups(e), env) == NO
  {
    var x, y := Sym(Config(a, TristateType)), Sym(Config(b, TristateType));
    var e := Clash(x, y);
    ClashAtMod(x, y, env);
    ClashRound(x, y, env);
    RoundKeeps(e, env);
    EliminateYnKeepsValue(Round(e).tree, env);
    EliminateDupsKeepsDefinite(EliminateYn(Round(e).tree), env);
    hide Round, Clash;
  }

  /** The second pass may be at work in an expression on which the elimination is
      exact everywhere: with booleans the same expression is never m. */
  lemma SecondPassMayNotMatter(a: nat, b: nat, env: Env)
    requires a != b
    ensures var e := Clash(Sym(Config(a, BooleanType)), Sym(Config(b, BooleanType)));
      !SecondPassIdle(e) && Eval(EliminateDups(e), env) == Eval(e, env)
  {
    var x, y := Sym(Config(a, BooleanType)), Sym(Config(b, BooleanType));
    ClashRound(x, y, env);
    assert TwoValued(x, env) && TwoValued(y, env);
    assert TwoValued(Not(x), env);
    assert TwoValued(Not(y), env);
    assert TwoValued(Either(x, y), env);
    assert TwoValued(Neither(x, y), env);
    EliminateDupsExactOnTwoValues(Clash(x, y), env);
    hide SecondPassIdle, EliminateDups, Eval;
  }
}
