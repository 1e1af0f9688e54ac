/** When duplicate elimination keeps m as well as y and n. */
module DupsExact {
  import opened Tristate
  import opened Expressions
  import opened Equality
  import opened Joins
  import opened Spine
  import opened Normalize
  import opened Dups

  /** In no round of the loop does the second pass find anything. */
  predicate SecondPassIdle(e: Expr)
    decreases Size(e)
  {
    var r := Round(e);
    && (e.Bin? ==> Dups1(e.op, State(e, 0), [], []).count == r.count)
    && if r.count == 0 then true else
         RoundShrinks(e);
         SecondPassIdle(EliminateYn(r.tree))
  }

  /** Then the elimination is exact on all three values.  The second pass may be at
      work without harm, for instance on an expression that is n anyway. */
  lemma {:induction false} ExactIfSecondPassIdle(e: Expr, env: Env)
    requires SecondPassIdle(e)
    ensures Eval(EliminateDups(e), env) == Eval(e, env)
    decreases Size(e)
  {
    var r := Round(e);
    if e.Bin? {
      var a := Dups1(e.op, State(e, 0), [], []);
      Dups1Keeps(e.op, State(e, 0), [], [], env);
      Dups2Keeps(e.op, a, [], [], env);
    }
    if r.count > 0 {
      RoundShrinks(e);
      EliminateYnKeepsValue(r.tree, env);
      ExactIfSecondPassIdle(EliminateYn(r.tree), env);
    }
  }

  /** The second pass, counting from n, finds nothing inside an operand of t. */
  predicate OperandsIdle(op: Op, t: Expr, n: nat) {
    if IsBin(t, op) then OperandsIdle(op, t.left, n) && OperandsIdle(op, t.right, n)
    else t.Bin? ==> Dups2(t.op, State(t, n), [], []).count == n
  }

  lemma {:induction false} OperandIdle(op: Op, t: Expr, p: seq<Dir>, n: nat)
    requires OnSpine(op, t, p) && OperandsIdle(op, t, n)
    ensures OperandsIdle(op, At(op, t, p), n)
    decreases |p|
  {
    if p != [] {
      OperandIdle(op, Child(t, p[0]), p[1..], n);
    }
  }

  /** The pass did nothing, or what it did settles the whole. */
  predicate Decided(a: State, b: State, env: Env) {
    b == a || Eval(b.tree, env) != MOD
  }

  lemma StaysDecided(a: State, b: State, c: State, env: Env)
    requires Decided(a, b, env) && b != a && Keeps(false, b, c, env)
    ensures Decided(a, c, env)
  {
  }

  lemma InnerDups2Decides(op: Op, st: State, p1: seq<Dir>, p2: seq<Dir>, env: Env)
    requires OnSpine(op, st.tree, p1) && p1 != [] && !IsBin(At(op, st.tree, p1), op)
    requires OnSpine(op, st.tree, p2) && OperandsIdle(op, st.tree, st.count)
    ensures Decided(st, InnerDups2(op, st, p1, p2), env)
  {
    var e1 := At(op, st.tree, p1);
    OperandIdle(op, st.tree, p1, st.count);
    if e1.Bin? {
      Dups2Keeps(e1.op, State(e1, st.count), [], [], env);
      PutSame(op, st.tree, p1);
      PutValue(op, st.tree, p1, Absorbing(op), env);
    }
    hide Dups2, Put, At, OnSpine, Extract, Transform, SameSpine;
  }

  lemma {:induction false} Dups2Decides(op: Op, st: State, p1: seq<Dir>, p2: seq<Dir>, env: Env)
    requires OnSpine(op, st.tree, p1) && OnSpine(op, st.tree, p2) && OperandsIdle(op, st.tree, st.count)
    ensures Decided(st, Dups2(op, st, p1, p2), env)
    decreases SpineSize(op, At(op, st.tree, p1)) + SpineSize(op, At(op, st.tree, p2))
  {
    hide Keeps, InnerDups2, SameSpine, Size, OperandsIdle, Eval;
    var e1, e2 := At(op, st.tree, p1), At(op, st.tree, p2);
    if IsBin(e1, op) {
      Extend(op, st.tree, p1, Left);
      var a := Dups2(op, st, p1 + [Left], p2);
      MovedOn(op, st.tree, a.tree, p1, p2);
      Extend(op, a.tree, p1, Right);
      Dups2Decides(op, st, p1 + [Left], p2, env);
      if a == st {
        Dups2Decides(op, st, p1 + [Right], p2, env);
      } else {
        Dups2Keeps(op, a, p1 + [Right], p2, env);
        StaysDecided(st, a, Dups2(op, a, p1 + [Right], p2), env);
      }
    } else if IsBin(e2, op) {
      Extend(op, st.tree, p2, Left);
      var a := Dups2(op, st, p1, p2 + [Left]);
      MovedOn(op, st.tree, a.tree, p1, p2);
      Extend(op, a.tree, p2, Right);
      var b := Dups2(op, a, p1, p2 + [Right]);
      MovedOn(op, a.tree, b.tree, p1, p2);
      Dups2Decides(op, st, p1, p2 + [Left], env);
      if a == st {
        Dups2Decides(op, st, p1, p2 + [Right], env);
      } else {
        Dups2Keeps(op, a, p1, p2 + [Right], env);
        StaysDecided(st, a, b, env);
      }
      if b == st {
        InnerDups2Decides(op, st, p1, p2, env);
      } else {
        InnerDups2Keeps(op, b, p1, p2, env);
        StaysDecided(st, b, InnerDups2(op, b, p1, p2), env);
      }
    } else if p1 != p2 {
      InnerDups2Decides(op, st, p1, p2, env);
    }
  }

  /** In every round the second pass works between operands of the whole only. */
  predicate SecondPassOnTop(e: Expr)
    decreases Size(e)
  {
    var r := Round(e);
    && (e.Bin? ==> var a := Dups1(e.op, State(e, 0), [], []); OperandsIdle(e.op, a.tree, a.count))
    && if r.count == 0 then true else
         RoundShrinks(e);
         SecondPassOnTop(EliminateYn(r.tree))
  }

  /** Then the elimination is exact at a valuation if and only if the expression is
      not m there or the second pass finds nothing. */
  lemma {:induction false} ExactIff(e: Expr, env: Env)
    requires SecondPassOnTop(e)
    ensures Eval(EliminateDups(e), env) == Eval(e, env) <==> Eval(e, env) != MOD || SecondPassIdle(e)
    decreases Size(e)
  {
    if Eval(e, env) != MOD {
      EliminateDupsKeepsDefinite(e, env);
    } else if Round(e).count > 0 {
      RoundShrinks(e);
      var next := EliminateYn(Round(e).tree);
      EliminateYnKeepsValue(Round(e).tree, env);
      RoundExactIff(e, env);
      if Eval(next, env) == MOD {
        ExactIff(next, env);
      } else {
        EliminateDupsKeepsDefinite(next, env);
      }
    } else {
      RoundKeeps(e, env);
      if e.Bin? {
        RoundExactIff(e, env);
      }
    }
    hide Round, Dups1, OperandsIdle, Eval, HasConstOperand;
  }

  lemma RoundExactIff(e: Expr, env: Env)
    requires SecondPassOnTop(e) && Eval(e, env) == MOD && e.Bin?
    ensures Eval(Round(e).tree, env) == MOD <==> Dups1(e.op, State(e, 0), [], []).count == Round(e).count
  {
    var a := Dups1(e.op, State(e, 0), [], []);
    Dups1Keeps(e.op, State(e, 0), [], [], env);
    Dups2Keeps(e.op, a, [], [], env);
    Dups2Decides(e.op, a, [], [], env);
    hide Dups1, Dups2;
  }

  // ----- one level of connectives inside the other -----

  /** Below the operands of e, connectives alternate at most k more times. */
  predicate Nested(op: Op, e: Expr, k: nat)
    decreases e, k
  {
    if IsBin(e, op) then Nested(op, e.left, k) && Nested(op, e.right, k)
    else e.Bin? ==> k > 0 && Nested(e.op, e, k - 1)
  }

  lemma {:induction false} NestedMore(op: Op, e: Expr, k: nat)
    requires Nested(op, e, k)
    ensures Nested(op, e, k + 1)
    decreases e, k
  {
    if IsBin(e, op) {
      NestedMore(op, e.left, k);
      NestedMore(op, e.right, k);
    } else if e.Bin? {
      NestedMore(e.op, e, k - 1);
    }
  }

  lemma {:induction false} PutNested(op: Op, t: Expr, p: seq<Dir>, x: Expr, k: nat)
    requires OnSpine(op, t, p) && Nested(op, t, k)
    ensures Nested(op, At(op, t, p), k)
    ensures Nested(op, x, k) ==> Nested(op, Put(op, t, p, x), k)
    decreases |p|
  {
    if p != [] {
      PutNested(op, Child(t, p[0]), p[1..], x, k);
    }
  }

  lemma JoinOperandsNested(op: Op, st: State, p1: seq<Dir>, p2: seq<Dir>, k: nat)
    requires OnSpine(op, st.tree, p1) && !IsBin(At(op, st.tree, p1), op)
    requires OnSpine(op, st.tree, p2) && !IsBin(At(op, st.tree, p2), op)
    requires p1 != p2 && Nested(op, st.tree, k)
    ensures Nested(op, JoinOperands(op, st, p1, p2).tree, k)
  {
    hide Join, Put, At, OnSpine, SameSpine, Size;
    var e1, e2 := At(op, st.tree, p1), At(op, st.tree, p2);
    var j := Join(op, e1, e2);
    if j.Some? {
      JoinShape(op, e1, e2);
      PutOther(op, st.tree, p1, p2, Neutral(op));
      PutNested(op, st.tree, p1, Neutral(op), k);
      PutNested(op, Put(op, st.tree, p1, Neutral(op)), p2, j.value, k);
    }
  }

  lemma {:induction false} Dups1Nested(op: Op, st: State, p1: seq<Dir>, p2: seq<Dir>, k: nat)
    requires OnSpine(op, st.tree, p1) && OnSpine(op, st.tree, p2) && Nested(op, st.tree, k)
    ensures Nested(op, Dups1(op, st, p1, p2).tree, k)
    decreases Size(st.tree), SpineSize(op, At(op, st.tree, p1)) + SpineSize(op, At(op, st.tree, p2)), 1
  {
    hide InnerDups1, SameSpine, Size, Nested, JoinOperands;
    var e1, e2 := At(op, st.tree, p1), At(op, st.tree, p2);
    if IsBin(e1, op) {
      Extend(op, st.tree, p1, Left);
      var a := Dups1(op, st, p1 + [Left], p2);
      MovedOn(op, st.tree, a.tree, p1, p2);
      Extend(op, a.tree, p1, Right);
      Dups1Nested(op, st, p1 + [Left], p2, k);
      Dups1Nested(op, a, p1 + [Right], p2, k);
    } else if IsBin(e2, op) {
      Extend(op, st.tree, p2, Left);
      var a := Dups1(op, st, p1, p2 + [Left]);
      MovedOn(op, st.tree, a.tree, p1, p2);
      Extend(op, a.tree, p2, Right);
      Dups1Nested(op, st, p1, p2 + [Left], k);
      Dups1Nested(op, a, p1, p2 + [Right], k);
    } else if p1 != p2 {
      var a := InnerDups1(op, st, p1);
      PutOther(op, st.tree, p1, p2, At(op, a.tree, p1));
      MovedOn(op, st.tree, a.tree, p1, p2);
      InnerDups1Nested(op, st, p1, k);
      JoinOperandsNested(op, a, p1, p2, k);
    }
  }

  lemma {:induction false} InnerDups1Nested(op: Op, st: State, p1: seq<Dir>, k: nat)
    requires OnSpine(op, st.tree, p1) && p1 != [] && !IsBin(At(op, st.tree, p1), op)
    requires Nested(op, st.tree, k)
    ensures Nested(op, InnerDups1(op, st, p1).tree, k)
    decreases Size(st.tree), 0, 0
  {
    var e1 := At(op, st.tree, p1);
    PutNested(op, st.tree, p1, e1, k);
    if e1.Bin? {
      Dups1Nested(e1.op, State(e1, st.count), [], [], k - 1);
      PutNested(op, st.tree, p1, Dups1(e1.op, State(e1, st.count), [], []).tree, k);
    }
  }

  lemma {:induction false} Dups2Nested(op: Op, st: State, p1: seq<Dir>, p2: seq<Dir>, k: nat)
    requires OnSpine(op, st.tree, p1) && OnSpine(op, st.tree, p2) && Nested(op, st.tree, k)
    ensures Nested(op, Dups2(op, st, p1, p2).tree, k)
    decreases Size(st.tree), SpineSize(op, At(op, st.tree, p1)) + SpineSize(op, At(op, st.tree, p2)), 1
  {
    hide InnerDups2, SameSpine, Size, Nested;
    var e1, e2 := At(op, st.tree, p1), At(op, st.tree, p2);
    if IsBin(e1, op) {
      Extend(op, st.tree, p1, Left);
      var a := Dups2(op, st, p1 + [Left], p2);
      MovedOn(op, st.tree, a.tree, p1, p2);
      Extend(op, a.tree, p1, Right);
      Dups2Nested(op, st, p1 + [Left], p2, k);
      Dups2Nested(op, a, p1 + [Right], p2, k);
    } else if IsBin(e2, op) {
      Extend(op, st.tree, p2, Left);
      var a := Dups2(op, st, p1, p2 + [Left]);
      MovedOn(op, st.tree, a.tree, p1, p2);
      Extend(op, a.tree, p2, Right);
      var b := Dups2(op, a, p1, p2 + [Right]);
      MovedOn(op, a.tree, b.tree, p1, p2);
      Dups2Nested(op, st, p1, p2 + [Left], k);
      Dups2Nested(op, a, p1, p2 + [Right], k);
      InnerDups2Nested(op, b, p1, p2, k);
    } else if p1 != p2 {
      InnerDups2Nested(op, st, p1, p2, k);
    }
  }

  lemma {:induction false} InnerDups2Nested(op: Op, st: State, p1: seq<Dir>, p2: seq<Dir>, k: nat)
    requires OnSpine(op, st.tree, p1) && p1 != [] && !IsBin(At(op, st.tree, p1), op)
    requires OnSpine(op, st.tree, p2) && Nested(op, st.tree, k)
    ensures Nested(op, InnerDups2(op, st, p1, p2).tree, k)
    decreases Size(st.tree), 0, 0
  {
    hide Extract, Transform, Put;
    var e1 := At(op, st.tree, p1);
    PutNested(op, st.tree, p1, e1, k);
    if e1.Bin? {
      var inner := Dups2(e1.op, State(e1, st.count), [], []);
      Dups2Nested(e1.op, State(e1, st.count), [], [], k - 1);
      PutNested(op, st.tree, p1, inner.tree, k);
      PutNested(op, Put(op, st.tree, p1, inner.tree), p1, Absorbing(op), k);
    }
  }

  lemma {:induction false} EliminateYnNested(op: Op, e: Expr, k: nat)
    requires Nested(op, e, k)
    ensures Nested(op, EliminateYn(e), k)
    decreases e, k
  {
    if IsBin(e, op) {
      EliminateYnNested(op, e.left, k);
      EliminateYnNested(op, e.right, k);
    } else if e.Bin? {
      EliminateYnNested(e.op, e, k - 1);
      var r := EliminateYn(e);
      if IsBin(r, op) {
        NestedMore(op, r, k - 2);
        NestedMore(op, r, k - 1);
      }
    }
  }

  lemma {:induction false} OperandsFlat(op: Op, t: Expr, n: nat)
    requires Nested(op, t, 1)
    ensures OperandsIdle(op, t, n)
  {
    if IsBin(t, op) {
      OperandsFlat(op, t.left, n);
      OperandsFlat(op, t.right, n);
    } else if t.Bin? {
      forall p | IsSlot(t.op, t, p) ensures !At(t.op, t, p).Bin? {
        PutNested(t.op, t, p, t, 0);
      }
      Dups2Quiet(t.op, State(t, n), [], []);
    }
  }

  /** A conjunction of disjunctions of literals, or the other way round. */
  predicate TwoLevels(e: Expr) {
    e.Bin? ==> Nested(e.op, e, 1)
  }

  lemma {:induction false} TwoLevelsOnTop(e: Expr)
    requires TwoLevels(e)
    ensures SecondPassOnTop(e)
    decreases Size(e)
  {
    if e.Bin? {
      var a := Dups1(e.op, State(e, 0), [], []);
      Dups1Nested(e.op, State(e, 0), [], [], 1);
      OperandsFlat(e.op, a.tree, a.count);
      Dups2Nested(e.op, a, [], [], 1);
    }
    var r := Round(e);
    if r.count > 0 {
      RoundShrinks(e);
      EliminateYnNested(e.op, r.tree, 1);
      var next := EliminateYn(r.tree);
      if next.Bin? && next.op != e.op {
        NestedMore(next.op, next, 0);
      }
      TwoLevelsOnTop(next);
    }
  }

  /** For such expressions the question is settled. */
  lemma TwoLevelsExactIff(e: Expr, env: Env)
    requires TwoLevels(e)
    ensures Eval(EliminateDups(e), env) == Eval(e, env) <==> Eval(e, env) != MOD || SecondPassIdle(e)
  {
    TwoLevelsOnTop(e);
    ExactIff(e, env);
  }
}
