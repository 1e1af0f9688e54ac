/** Elimination of duplicate and contradictory operands, with its two aliased
    passes and the fixpoint loop around them. */
module Dups {
  import opened Options
  import opened Tristate
  import opened Expressions
  import opened Equality
  import opened Normalize
  import opened Joins
  import opened Spine

  /** The tree being rewritten and the number of rewrites so far. */
  datatype State = State(tree: Expr, count: nat)

  // ----- first pass: joining operands -----

  /** Joins the two distinct operands at p1 and p2 if they can be joined. */
  function JoinOperands(op: Op, st: State, p1: seq<Dir>, p2: seq<Dir>): (r: State)
    requires OnSpine(op, st.tree, p1) && !IsBin(At(op, st.tree, p1), op)
    requires OnSpine(op, st.tree, p2) && !IsBin(At(op, st.tree, p2), op)
    requires p1 != p2
    ensures Size(r.tree) <= Size(st.tree) && SameSpine(op, st.tree, r.tree)
  {
    var e1, e2 := At(op, st.tree, p1), At(op, st.tree, p2);
    var j := Join(op, e1, e2);
    SameSpineRefl(op, st.tree);
    if j.None? then st else
    JoinShape(op, e1, e2);
    PutOther(op, st.tree, p1, p2, Neutral(op));
    var u := Put(op, st.tree, p1, Neutral(op));
    var v := Put(op, u, p2, j.value);
    PutSameSpine(op, st.tree, p1, Neutral(op));
    PutSameSpine(op, u, p2, j.value);
    SameSpineTrans(op, st.tree, u, v);
    State(v, st.count + 1)
  }

  function Dups1(op: Op, st: State, p1: seq<Dir>, p2: seq<Dir>): (r: State)
    requires OnSpine(op, st.tree, p1) && OnSpine(op, st.tree, p2)
    ensures Size(r.tree) <= Size(st.tree) && SameSpine(op, st.tree, r.tree)
    decreases Size(st.tree), SpineSize(op, At(op, st.tree, p1)) + SpineSize(op, At(op, st.tree, p2)), 1
  {
    var e1, e2 := At(op, st.tree, p1), At(op, st.tree, p2);
    if IsBin(e1, op) then
      Extend(op, st.tree, p1, Left);
      var a := Dups1(op, st, p1 + [Left], p2);
      MovedOn(op, st.tree, a.tree, p1, p2);
      Extend(op, a.tree, p1, Right);
      var b := Dups1(op, a, p1 + [Right], p2);
      SameSpineTrans(op, st.tree, a.tree, b.tree);
      b
    else if IsBin(e2, op) then
      Extend(op, st.tree, p2, Left);
      var a := Dups1(op, st, p1, p2 + [Left]);
      MovedOn(op, st.tree, a.tree, p1, p2);
      Extend(op, a.tree, p2, Right);
      var b := Dups1(op, a, p1, p2 + [Right]);
      SameSpineTrans(op, st.tree, a.tree, b.tree);
      b
    else if p1 == p2 then
      SameSpineRefl(op, st.tree);
      st
    else
      var a := InnerDups1(op, st, p1);
      PutOther(op, st.tree, p1, p2, At(op, a.tree, p1));
      var b := JoinOperands(op, a, p1, p2);
      SameSpineTrans(op, st.tree, a.tree, b.tree);
      b
  }

  /** Runs the pass inside the operand at p1, with both pointers at that operand. */
  function InnerDups1(op: Op, st: State, p1: seq<Dir>): (r: State)
    requires OnSpine(op, st.tree, p1) && p1 != [] && !IsBin(At(op, st.tree, p1), op)
    ensures Size(r.tree) <= Size(st.tree) && SameSpine(op, st.tree, r.tree)
    ensures OnSpine(op, r.tree, p1) && r.tree == Put(op, st.tree, p1, At(op, r.tree, p1))
    decreases Size(st.tree), 0, 0
  {
    var e1 := At(op, st.tree, p1);
    if e1.Bin? then
      var inner := Dups1(e1.op, State(e1, st.count), [], []);
      PutSameSpine(op, st.tree, p1, inner.tree);
      State(Put(op, st.tree, p1, inner.tree), inner.count)
    else
      SameSpineRefl(op, st.tree);
      PutSame(op, st.tree, p1);
      st
  }

  /** After a pass the pointers are where they were. */
  lemma MovedOn(op: Op, t: Expr, u: Expr, p1: seq<Dir>, p2: seq<Dir>)
    requires SameSpine(op, t, u) && OnSpine(op, t, p1) && OnSpine(op, t, p2)
    ensures OnSpine(op, u, p1) && OnSpine(op, u, p2)
    ensures IsBin(At(op, u, p1), op) == IsBin(At(op, t, p1), op)
    ensures IsBin(At(op, u, p2), op) == IsBin(At(op, t, p2), op)
    ensures SpineSize(op, At(op, u, p1)) == SpineSize(op, At(op, t, p1))
    ensures SpineSize(op, At(op, u, p2)) == SpineSize(op, At(op, t, p2))
  {
    SameSpineAt(op, t, u, p1);
    SameSpineAt(op, t, u, p2);
    SameSpineSize(op, At(op, t, p1), At(op, u, p1));
    SameSpineSize(op, At(op, t, p2), At(op, u, p2));
  }

  // ----- what one pass keeps -----

  /** Values survive, exactly or at least where they are definite; rewrites are
      counted; a counted rewrite leaves a constant behind for eliminate_yn; and
      normal expressions stay normal. */
  predicate Keeps(exact: bool, a: State, b: State, env: Env) {
    && (if exact then Eval(b.tree, env) == Eval(a.tree, env)
        else Refines(Eval(a.tree, env), Eval(b.tree, env)))
    && a.count <= b.count
    && (a.count == b.count ==> a.tree == b.tree)
    && (a.count < b.count ==> HasConstOperand(b.tree))
    && (IsNormal(a.tree) ==> IsNormal(b.tree))
  }

  lemma KeepsRefl(exact: bool, a: State, env: Env)
    ensures Keeps(exact, a, a, env)
  {}

  lemma KeepsTrans(exact: bool, a: State, b: State, c: State, env: Env)
    requires Keeps(exact, a, b, env) && Keeps(exact, b, c, env)
    ensures Keeps(exact, a, c, env)
  {}

  lemma {:induction false} PutNormal(op: Op, t: Expr, p: seq<Dir>, x: Expr)
    requires OnSpine(op, t, p) && IsNormal(t)
    ensures IsNormal(At(op, t, p))
    ensures IsNormal(x) ==> IsNormal(Put(op, t, p, x))
    decreases |p|
  {
    if p != [] {
      PutNormal(op, Child(t, p[0]), p[1..], x);
    }
  }

  lemma JoinNormal(op: Op, e1: Expr, e2: Expr)
    requires IsNormal(e1) && IsNormal(e2) && Join(op, e1, e2).Some?
    ensures IsNormal(Join(op, e1, e2).value)
  {}

  /** Work inside one operand, lifted to the whole tree. */
  lemma LiftKeeps(exact: bool, op: Op, st: State, p: seq<Dir>, inner: State, env: Env)
    requires OnSpine(op, st.tree, p) && p != []
    requires Keeps(exact, State(At(op, st.tree, p), st.count), inner, env)
    ensures Keeps(exact, st, State(Put(op, st.tree, p, inner.tree), inner.count), env)
  {
    if exact {
      PutEqualValue(op, st.tree, p, inner.tree, env);
    } else {
      PutRefines(op, st.tree, p, inner.tree, env);
    }
    PutSame(op, st.tree, p);
    if st.count < inner.count {
      PutHasConst(op, st.tree, p, inner.tree);
    }
    if IsNormal(st.tree) {
      PutNormal(op, st.tree, p, inner.tree);
    }
  }

  lemma JoinOperandsKeeps(op: Op, st: State, p1: seq<Dir>, p2: seq<Dir>, env: Env)
    requires OnSpine(op, st.tree, p1) && !IsBin(At(op, st.tree, p1), op)
    requires OnSpine(op, st.tree, p2) && !IsBin(At(op, st.tree, p2), op)
    requires p1 != p2
    ensures Keeps(true, st, JoinOperands(op, st, p1, p2), env)
  {
    var t := st.tree;
    var e1, e2 := At(op, t, p1), At(op, t, p2);
    var j := Join(op, e1, e2);
    if j.Some? {
      var u := Put(op, t, p1, Neutral(op));
      PutOther(op, t, p1, p2, Neutral(op));
      var v := Put(op, u, p2, j.value);
      JoinedValue(op, t, p1, p2, j.value, env);
      PutSameSpine(op, t, p1, Neutral(op));
      SameSpineAt(op, t, u, p1);
      PutOther(op, u, p2, p1, j.value);
      PutSame(op, v, p1);
      PutHasConst(op, v, p1, Neutral(op));
      if IsNormal(t) {
        PutNormal(op, t, p1, Neutral(op));
        PutNormal(op, t, p2, Neutral(op));
        JoinNormal(op, e1, e2);
        PutNormal(op, u, p2, j.value);
      }
    }
  }

  lemma JoinedValue(op: Op, t: Expr, p1: seq<Dir>, p2: seq<Dir>, j: Expr, env: Env)
    requires OnSpine(op, t, p1) && !IsBin(At(op, t, p1), op)
    requires OnSpine(op, t, p2) && !IsBin(At(op, t, p2), op)
    requires p1 != p2 && Join(op, At(op, t, p1), At(op, t, p2)) == Some(j)
    requires OnSpine(op, Put(op, t, p1, Neutral(op)), p2)
    ensures Eval(Put(op, Put(op, t, p1, Neutral(op)), p2, j), env) == Eval(t, env)
  {
    hide Apply, Join, Eval, Size;
    var e1, e2 := At(op, t, p1), At(op, t, p2);
    var u := Put(op, t, p1, Neutral(op));
    PutOther(op, t, p1, p2, Neutral(op));
    JoinSound(op, e1, e2, env);
    PutSame(op, t, p1);
    PutValue(op, t, p1, e1, env);
    PutSame(op, u, p2);
    PutValue(op, u, p2, e2, env);
    PutValue(op, u, p2, j, env);
    Together(op, Eval(Put(op, u, p2, Neutral(op)), env), Eval(e1, env), Eval(e2, env));
    hide Put, At, OnSpine;
  }

  lemma Together(op: Op, w: Tri, a: Tri, b: Tri)
    ensures Apply(op, Apply(op, w, b), a) == Apply(op, w, Apply(op, a, b))
  {}

  /** The first pass is exact on all three values, although both pointers start at
      the same slot and each rewrites what the other is walking over. */
  lemma {:induction false} Dups1Keeps(op: Op, st: State, p1: seq<Dir>, p2: seq<Dir>, env: Env)
    requires OnSpine(op, st.tree, p1) && OnSpine(op, st.tree, p2)
    ensures Keeps(true, st, Dups1(op, st, p1, p2), env)
    decreases Size(st.tree), SpineSize(op, At(op, st.tree, p1)) + SpineSize(op, At(op, st.tree, p2)), 1
  {
    hide Keeps, JoinOperands, Size, Join, Eval;
    var e1, e2 := At(op, st.tree, p1), At(op, st.tree, p2);
    KeepsRefl(true, st, env);
    if IsBin(e1, op) {
      Extend(op, st.tree, p1, Left);
      var a := Dups1(op, st, p1 + [Left], p2);
      MovedOn(op, st.tree, a.tree, p1, p2);
      Extend(op, a.tree, p1, Right);
      Dups1Keeps(op, st, p1 + [Left], p2, env);
      Dups1Keeps(op, a, p1 + [Right], p2, env);
      KeepsTrans(true, st, a, Dups1(op, a, p1 + [Right], p2), env);
    } else if IsBin(e2, op) {
      Extend(op, st.tree, p2, Left);
      var a := Dups1(op, st, p1, p2 + [Left]);
      MovedOn(op, st.tree, a.tree, p1, p2);
      Extend(op, a.tree, p2, Right);
      Dups1Keeps(op, st, p1, p2 + [Left], env);
      Dups1Keeps(op, a, p1, p2 + [Right], env);
      KeepsTrans(true, st, a, Dups1(op, a, p1, p2 + [Right]), env);
    } else if p1 != p2 {
      var a := InnerDups1(op, st, p1);
      PutOther(op, st.tree, p1, p2, At(op, a.tree, p1));
      InnerDups1Keeps(op, st, p1, env);
      JoinOperandsKeeps(op, a, p1, p2, env);
      KeepsTrans(true, st, a, JoinOperands(op, a, p1, p2), env);
    }
  }

  lemma {:induction false} InnerDups1Keeps(op: Op, st: State, p1: seq<Dir>, env: Env)
    requires OnSpine(op, st.tree, p1) && p1 != [] && !IsBin(At(op, st.tree, p1), op)
    ensures Keeps(true, st, InnerDups1(op, st, p1), env)
    decreases Size(st.tree), 0, 0
  {
    var e1 := At(op, st.tree, p1);
    if e1.Bin? {
      Dups1Keeps(e1.op, State(e1, st.count), [], [], env);
      LiftKeeps(true, op, st, p1, Dups1(e1.op, State(e1, st.count), [], []), env);
    }
  }

  // ----- second pass: contradicting operands -----

  /** (a || b) next to !a && !b is n, and (a && b) next to !a || !b is y: the operand
      at p1 becomes that constant when its negation is part of what p2 points to. */
  function DropContradicted(op: Op, st: State, p1: seq<Dir>, p2: seq<Dir>): (r: State)
    requires OnSpine(op, st.tree, p1) && !IsBin(At(op, st.tree, p1), op)
    requires OnSpine(op, st.tree, p2)
    ensures Size(r.tree) <= Size(st.tree) && SameSpine(op, st.tree, r.tree)
  {
    var e1, e2 := At(op, st.tree, p1), At(op, st.tree, p2);
    SameSpineRefl(op, st.tree);
    if !e1.Bin? then st
    else if Extract(op, Transform(Not(e1)), e2).1 != Neutral(op) then st
    else
      PutSameSpine(op, st.tree, p1, Absorbing(op));
      State(Put(op, st.tree, p1, Absorbing(op)), st.count + 1)
  }

  /** Unlike in the first pass, a conjunction at p2 is also looked at as a whole
      after its operands. */
  function Dups2(op: Op, st: State, p1: seq<Dir>, p2: seq<Dir>): (r: State)
    requires OnSpine(op, st.tree, p1) && OnSpine(op, st.tree, p2)
    ensures Size(r.tree) <= Size(st.tree) && SameSpine(op, st.tree, r.tree)
    decreases Size(st.tree), SpineSize(op, At(op, st.tree, p1)) + SpineSize(op, At(op, st.tree, p2)), 1
  {
    var e1, e2 := At(op, st.tree, p1), At(op, st.tree, p2);
    if IsBin(e1, op) then
      Extend(op, st.tree, p1, Left);
      var a := Dups2(op, st, p1 + [Left], p2);
      MovedOn(op, st.tree, a.tree, p1, p2);
      Extend(op, a.tree, p1, Right);
      var b := Dups2(op, a, p1 + [Right], p2);
      SameSpineTrans(op, st.tree, a.tree, b.tree);
      b
    else if IsBin(e2, op) then
      Extend(op, st.tree, p2, Left);
      var a := Dups2(op, st, p1, p2 + [Left]);
      MovedOn(op, st.tree, a.tree, p1, p2);
      Extend(op, a.tree, p2, Right);
      var b := Dups2(op, a, p1, p2 + [Right]);
      MovedOn(op, a.tree, b.tree, p1, p2);
      SameSpineTrans(op, st.tree, a.tree, b.tree);
      var c := InnerDups2(op, b, p1, p2);
      SameSpineTrans(op, st.tree, b.tree, c.tree);
      c
    else if p1 == p2 then
      SameSpineRefl(op, st.tree);
      st
    else InnerDups2(op, st, p1, p2)
  }

  function InnerDups2(op: Op, st: State, p1: seq<Dir>, p2: seq<Dir>): (r: State)
    requires OnSpine(op, st.tree, p1) && p1 != [] && !IsBin(At(op, st.tree, p1), op)
    requires OnSpine(op, st.tree, p2)
    ensures Size(r.tree) <= Size(st.tree) && SameSpine(op, st.tree, r.tree)
    decreases Size(st.tree), 0, 0
  {
    var e1 := At(op, st.tree, p1);
    if e1.Bin? then
      var inner := Dups2(e1.op, State(e1, st.count), [], []);
      PutSameSpine(op, st.tree, p1, inner.tree);
      var a := State(Put(op, st.tree, p1, inner.tree), inner.count);
      SameSpineAt(op, st.tree, a.tree, p2);
      var b := DropContradicted(op, a, p1, p2);
      SameSpineTrans(op, st.tree, a.tree, b.tree);
      b
    else
      SameSpineRefl(op, st.tree);
      st
  }

  /** An operand whose negation is part of another decides the whole, up to m. */
  lemma ContradictionDecides(op: Op, t: Expr, p1: seq<Dir>, p2: seq<Dir>, env: Env)
    requires OnSpine(op, t, p1) && OnSpine(op, t, p2)
    requires Extract(op, Transform(Not(At(op, t, p1))), At(op, t, p2)).1 == Neutral(op)
    ensures Refines(Eval(t, env), Eval(Put(op, t, p1, Absorbing(op)), env))
  {
    var e1, e2 := At(op, t, p1), At(op, t, p2);
    var neg := Transform(Not(e1));
    TransformKeepsValue(Not(e1), env);
    ExtractFactors(op, neg, e2, env);
    AtAbsorbed(op, t, p1, env);
    AtAbsorbed(op, t, p2, env);
    PutValue(op, t, p1, Absorbing(op), env);
    hide Extract, Transform, At, Put, OnSpine;
  }

  lemma DropContradictedKeeps(op: Op, st: State, p1: seq<Dir>, p2: seq<Dir>, env: Env)
    requires OnSpine(op, st.tree, p1) && !IsBin(At(op, st.tree, p1), op) && p1 != []
    requires OnSpine(op, st.tree, p2)
    ensures Keeps(false, st, DropContradicted(op, st, p1, p2), env)
  {
    hide Extract, Transform, Eval, Refines, Put;
    var e1, e2 := At(op, st.tree, p1), At(op, st.tree, p2);
    if e1.Bin? && Extract(op, Transform(Not(e1)), e2).1 == Neutral(op) {
      ContradictionDecides(op, st.tree, p1, p2, env);
      PutHasConst(op, st.tree, p1, Absorbing(op));
      if IsNormal(st.tree) {
        PutNormal(op, st.tree, p1, Absorbing(op));
      }
    } else {
      KeepsRefl(false, st, env);
    }
  }

  /** The second pass keeps y and n; only m may move. */
  lemma {:induction false} Dups2Keeps(op: Op, st: State, p1: seq<Dir>, p2: seq<Dir>, env: Env)
    requires OnSpine(op, st.tree, p1) && OnSpine(op, st.tree, p2)
    ensures Keeps(false, st, Dups2(op, st, p1, p2), env)
    decreases Size(st.tree), SpineSize(op, At(op, st.tree, p1)) + SpineSize(op, At(op, st.tree, p2)), 1
  {
    hide Keeps, InnerDups2, SameSpine, Size;
    var e1, e2 := At(op, st.tree, p1), At(op, st.tree, p2);
    KeepsRefl(false, st, env);
    if IsBin(e1, op) {
      Extend(op, st.tree, p1, Left);
      var a := Dups2(op, st, p1 + [Left], p2);
      MovedOn(op, st.tree, a.tree, p1, p2);
      Extend(op, a.tree, p1, Right);
      Dups2Keeps(op, st, p1 + [Left], p2, env);
      Dups2Keeps(op, a, p1 + [Right], p2, env);
      KeepsTrans(false, st, a, Dups2(op, a, p1 + [Right], p2), env);
    } else if IsBin(e2, op) {
      Extend(op, st.tree, p2, Left);
      var a := Dups2(op, st, p1, p2 + [Left]);
      MovedOn(op, st.tree, a.tree, p1, p2);
      Extend(op, a.tree, p2, Right);
      var b := Dups2(op, a, p1, p2 + [Right]);
      MovedOn(op, a.tree, b.tree, p1, p2);
      Dups2Keeps(op, st, p1, p2 + [Left], env);
      Dups2Keeps(op, a, p1, p2 + [Right], env);
      KeepsTrans(false, st, a, b, env);
      InnerDups2Keeps(op, b, p1, p2, env);
      KeepsTrans(false, st, b, InnerDups2(op, b, p1, p2), env);
    } else if p1 != p2 {
      InnerDups2Keeps(op, st, p1, p2, env);
    }
  }

  lemma {:induction false} InnerDups2Keeps(op: Op, st: State, p1: seq<Dir>, p2: seq<Dir>, env: Env)
    requires OnSpine(op, st.tree, p1) && p1 != [] && !IsBin(At(op, st.tree, p1), op)
    requires OnSpine(op, st.tree, p2)
    ensures Keeps(false, st, InnerDups2(op, st, p1, p2), env)
    decreases Size(st.tree), 0, 0
  {
    var e1 := At(op, st.tree, p1);
    if e1.Bin? {
      var inner := Dups2(e1.op, State(e1, st.count), [], []);
      Dups2Keeps(e1.op, State(e1, st.count), [], [], env);
      LiftKeeps(false, op, st, p1, inner, env);
      PutSameSpine(op, st.tree, p1, inner.tree);
      var a := State(Put(op, st.tree, p1, inner.tree), inner.count);
      SameSpineAt(op, st.tree, a.tree, p2);
      DropContradictedKeeps(op, a, p1, p2, env);
      KeepsTrans(false, st, a, DropContradicted(op, a, p1, p2), env);
    }
  }

  // ----- the loop -----

  /** One round: both passes with both pointers at the root. */
  function Round(e: Expr): (r: State)
    ensures Size(r.tree) <= Size(e)
  {
    if e.Bin? then Dups2(e.op, Dups1(e.op, State(e, 0), [], []), [], []) else State(e, 0)
  }

  lemma RoundKeeps(e: Expr, env: Env)
    ensures Keeps(false, State(e, 0), Round(e), env)
  {
    if e.Bin? {
      var a := Dups1(e.op, State(e, 0), [], []);
      Dups1Keeps(e.op, State(e, 0), [], [], env);
      Dups2Keeps(e.op, a, [], [], env);
      KeepsTrans(false, State(e, 0), a, Round(e), env);
    }
  }

  lemma FoldConstShrinks(op: Op, l: Expr, r: Expr)
    ensures IsYn(l) || IsYn(r) ==> Size(FoldConst(op, l, r)) < 1 + Size(l) + Size(r)
  {}

  /** Constant elimination takes at least one node away when it has anything to do. */
  lemma {:induction false} EliminateYnShrinks(e: Expr)
    requires HasConstOperand(e)
    ensures Size(EliminateYn(e)) < Size(e)
  {
    FoldConstShrinks(e.op, EliminateYn(e.left), EliminateYn(e.right));
    if HasConstOperand(e.left) {
      EliminateYnShrinks(e.left);
    }
    if HasConstOperand(e.right) {
      EliminateYnShrinks(e.right);
    }
  }

  /** Every round that rewrote something leaves fewer nodes. */
  lemma RoundShrinks(e: Expr)
    requires Round(e).count > 0
    ensures Size(EliminateYn(Round(e).tree)) < Size(e)
  {
    RoundKeeps(e, Env(_ => NO, _ => ""));
    EliminateYnShrinks(Round(e).tree);
  }

  /** The value the loop computes. */
  function EliminateDups(e: Expr): (r: Expr)
    ensures Size(r) <= Size(e)
    decreases Size(e)
  {
    var r := Round(e);
    if r.count == 0 then r.tree else
    RoundShrinks(e);
    EliminateDups(EliminateYn(r.tree))
  }

  method EliminateDupsLoop(e: Expr) returns (r: Expr)
    ensures r == EliminateDups(e)
    ensures Round(r).count == 0
  {
    r := e;
    while true
      invariant EliminateDups(r) == EliminateDups(e)
      decreases Size(r)
    {
      var round := Round(r);
      if round.count == 0 {
        RoundKeeps(r, Env(_ => NO, _ => ""));
        return round.tree;
      }
      RoundShrinks(r);
      r := EliminateYn(round.tree);
    }
  }

  lemma {:induction false} EliminateYnNormal(e: Expr)
    requires IsNormal(e)
    ensures IsNormal(EliminateYn(e))
  {
    if e.Bin? {
      EliminateYnNormal(e.left);
      EliminateYnNormal(e.right);
    }
  }

  /** Duplicate elimination keeps every definite value and every normal form. */
  lemma {:induction false} EliminateDupsKeepsDefinite(e: Expr, env: Env)
    ensures Refines(Eval(e, env), Eval(EliminateDups(e), env))
    ensures IsNormal(e) ==> IsNormal(EliminateDups(e))
    decreases Size(e)
  {
    var r := Round(e);
    RoundKeeps(e, env);
    if r.count > 0 {
      RoundShrinks(e);
      EliminateYnKeepsValue(r.tree, env);
      if IsNormal(e) {
        EliminateYnNormal(r.tree);
      }
      EliminateDupsKeepsDefinite(EliminateYn(r.tree), env);
    }
  }

  /** No symbol the expression mentions as an operand holds m. */
  predicate TwoValued(e: Expr, env: Env) {
    match e
    case Sym(s) => TriOf(s, env) != MOD
    case Cmp(_, _, _) => true
    case Not(a) => TwoValued(a, env)
    case Bin(_, l, r) => TwoValued(l, env) && TwoValued(r, env)
  }

  lemma {:induction false} TwoValuedDefinite(e: Expr, env: Env)
    requires TwoValued(e, env)
    ensures Eval(e, env) != MOD
  {
    match e
    case Sym(_) =>
    case Cmp(_, _, _) =>
    case Not(a) => TwoValuedDefinite(a, env);
    case Bin(_, l, r) => TwoValuedDefinite(l, env); TwoValuedDefinite(r, env);
  }

  /** Duplicate elimination is exact wherever no operand is m. */
  lemma EliminateDupsExactOnTwoValues(e: Expr, env: Env)
    requires TwoValued(e, env)
    ensures Eval(EliminateDups(e), env) == Eval(e, env)
  {
    TwoValuedDefinite(e, env);
    EliminateDupsKeepsDefinite(e, env);
  }

  lemma {:induction false} EliminateDupsIdempotent(e: Expr)
    ensures EliminateDups(EliminateDups(e)) == EliminateDups(e)
    decreases Size(e)
  {
    var r := Round(e);
    RoundKeeps(e, Env(_ => NO, _ => ""));
    if r.count > 0 {
      RoundShrinks(e);
      EliminateDupsIdempotent(EliminateYn(r.tree));
    }
  }

  // ----- expressions in which nothing is found -----

  /** p leads to an operand of t. */
  predicate IsSlot(op: Op, t: Expr, p: seq<Dir>) {
    OnSpine(op, t, p) && !IsBin(At(op, t, p), op)
  }

  /** No two operands join, and the first pass finds nothing inside an operand. */
  ghost predicate Quiet1(op: Op, t: Expr) {
    && (forall p, q :: IsSlot(op, t, p) && IsSlot(op, t, q) && p != q ==> Join(op, At(op, t, p), At(op, t, q)).None?)
    && (forall p, n :: IsSlot(op, t, p) && p != [] ==> InnerDups1(op, State(t, n), p) == State(t, n))
  }

  lemma {:induction false} Dups1Quiet(op: Op, st: State, p1: seq<Dir>, p2: seq<Dir>)
    requires OnSpine(op, st.tree, p1) && OnSpine(op, st.tree, p2) && Quiet1(op, st.tree)
    ensures Dups1(op, st, p1, p2) == st
    decreases SpineSize(op, At(op, st.tree, p1)) + SpineSize(op, At(op, st.tree, p2))
  {
    hide Quiet1;
    if IsBin(At(op, st.tree, p1), op) {
      Extend(op, st.tree, p1, Left);
      Extend(op, st.tree, p1, Right);
      Dups1Quiet(op, st, p1 + [Left], p2);
      Dups1Quiet(op, st, p1 + [Right], p2);
    } else if IsBin(At(op, st.tree, p2), op) {
      Extend(op, st.tree, p2, Left);
      Extend(op, st.tree, p2, Right);
      Dups1Quiet(op, st, p1, p2 + [Left]);
      Dups1Quiet(op, st, p1, p2 + [Right]);
    } else if p1 != p2 {
      QuietPair(op, st, p1, p2);
    }
  }

  lemma QuietPair(op: Op, st: State, p1: seq<Dir>, p2: seq<Dir>)
    requires IsSlot(op, st.tree, p1) && IsSlot(op, st.tree, p2) && Quiet1(op, st.tree) && p1 != p2
    ensures p1 != [] && InnerDups1(op, st, p1) == st && JoinOperands(op, st, p1, p2) == st
  {
  }

  /** The second pass finds nothing among operands without connectives. */
  lemma {:induction false} Dups2Quiet(op: Op, st: State, p1: seq<Dir>, p2: seq<Dir>)
    requires OnSpine(op, st.tree, p1) && OnSpine(op, st.tree, p2)
    requires forall p :: IsSlot(op, st.tree, p) ==> !At(op, st.tree, p).Bin?
    ensures Dups2(op, st, p1, p2) == st
    decreases SpineSize(op, At(op, st.tree, p1)) + SpineSize(op, At(op, st.tree, p2))
  {
    if IsBin(At(op, st.tree, p1), op) {
      Extend(op, st.tree, p1, Left);
      Extend(op, st.tree, p1, Right);
      Dups2Quiet(op, st, p1 + [Left], p2);
      Dups2Quiet(op, st, p1 + [Right], p2);
    } else {
      assert IsSlot(op, st.tree, p1);
      if IsBin(At(op, st.tree, p2), op) {
        Extend(op, st.tree, p2, Left);
        Extend(op, st.tree, p2, Right);
        Dups2Quiet(op, st, p1, p2 + [Left]);
        Dups2Quiet(op, st, p1, p2 + [Right]);
      }
    }
  }

  lemma SlotsOfTwo(op: Op, x: Expr, y: Expr, p: seq<Dir>)
    requires !IsBin(x, op) && !IsBin(y, op) && IsSlot(op, Bin(op, x, y), p)
    ensures p == [Left] || p == [Right]
    ensures At(op, Bin(op, x, y), p) == if p == [Left] then x else y
  {
    assert p != [] && OnSpine(op, Child(Bin(op, x, y), p[0]), p[1..]);
    assert p == [p[0]] + p[1..];
  }

  /** Two operands without connectives that do not join. */
  predicate Unrelated(op: Op, x: Expr, y: Expr) {
    !x.Bin? && !y.Bin? && Join(op, x, y).None? && Join(op, y, x).None?
  }

  lemma TwoUnrelated(op: Op, x: Expr, y: Expr, n: nat)
    requires Unrelated(op, x, y)
    ensures Dups1(op, State(Bin(op, x, y), n), [], []) == State(Bin(op, x, y), n)
    ensures Dups2(op, State(Bin(op, x, y), n), [], []) == State(Bin(op, x, y), n)
  {
    hide Unrelated, Dups1, Dups2, Quiet1, IsSlot;
    TwoQuiet(op, x, y);
    Dups1Quiet(op, State(Bin(op, x, y), n), [], []);
    Dups2Quiet(op, State(Bin(op, x, y), n), [], []);
  }

  lemma TwoQuiet(op: Op, x: Expr, y: Expr)
    requires Unrelated(op, x, y)
    ensures Quiet1(op, Bin(op, x, y))
    ensures forall p :: IsSlot(op, Bin(op, x, y), p) ==> !At(op, Bin(op, x, y), p).Bin?
  {
    var t := Bin(op, x, y);
    hide Join, IsSlot;
    forall p | IsSlot(op, t, p) ensures (p == [Left] && At(op, t, p) == x) || (p == [Right] && At(op, t, p) == y) {
      SlotsOfTwo(op, x, y, p);
    }
    forall p, n | IsSlot(op, t, p) && p != [] ensures InnerDups1(op, State(t, n), p) == State(t, n) {
      SlotsOfTwo(op, x, y, p);
    }
  }

  lemma UnrelatedFixed(op: Op, x: Expr, y: Expr)
    requires Unrelated(op, x, y)
    ensures EliminateDups(Bin(op, x, y)) == Bin(op, x, y)
  {
    hide Unrelated, Dups1, Dups2;
    TwoUnrelated(op, x, y, 0);
  }
}
