/** Slots inside an expression tree.  Duplicate elimination runs with two pointers
    into one tree, often both at its root, and overwrites the tree through either;
    here such a pointer is the path from the root to the slot, so pointers are
    equal exactly when the paths are, and a write through one shows in the other. */
module Spine {
  import opened Tristate
  import opened Expressions

  datatype Dir = Left | Right

  function Child(e: Expr, d: Dir): Expr
    requires e.Bin?
  {
    if d.Left? then e.left else e.right
  }

  /** p leads from the root of t through `op` nodes only. */
  predicate OnSpine(op: Op, t: Expr, p: seq<Dir>)
    decreases |p|
  {
    p == [] || (IsBin(t, op) && OnSpine(op, Child(t, p[0]), p[1..]))
  }

  function At(op: Op, t: Expr, p: seq<Dir>): (e: Expr)
    requires OnSpine(op, t, p)
    ensures Size(e) <= Size(t)
    ensures p != [] ==> Size(e) < Size(t)
    decreases |p|
  {
    if p == [] then t else At(op, Child(t, p[0]), p[1..])
  }

  function Put(op: Op, t: Expr, p: seq<Dir>, x: Expr): (r: Expr)
    requires OnSpine(op, t, p)
    ensures OnSpine(op, r, p) && At(op, r, p) == x
    ensures Size(r) == Size(t) - Size(At(op, t, p)) + Size(x)
    decreases |p|
  {
    if p == [] then x
    else if p[0].Left? then Bin(op, Put(op, t.left, p[1..], x), t.right)
    else Bin(op, t.left, Put(op, t.right, p[1..], x))
  }

  /** The number of `op` nodes at the top of t. */
  function SpineSize(op: Op, t: Expr): nat {
    if IsBin(t, op) then 1 + SpineSize(op, t.left) + SpineSize(op, t.right) else 0
  }

  /** t and u have the same `op` nodes at the top. */
  predicate SameSpine(op: Op, t: Expr, u: Expr) {
    if IsBin(t, op) then IsBin(u, op) && SameSpine(op, t.left, u.left) && SameSpine(op, t.right, u.right)
    else !IsBin(u, op)
  }

  lemma {:induction false} SameSpineRefl(op: Op, t: Expr)
    ensures SameSpine(op, t, t)
  {
    if IsBin(t, op) {
      SameSpineRefl(op, t.left);
      SameSpineRefl(op, t.right);
    }
  }

  lemma {:induction false} SameSpineTrans(op: Op, t: Expr, u: Expr, v: Expr)
    requires SameSpine(op, t, u) && SameSpine(op, u, v)
    ensures SameSpine(op, t, v)
  {
    if IsBin(t, op) {
      SameSpineTrans(op, t.left, u.left, v.left);
      SameSpineTrans(op, t.right, u.right, v.right);
    }
  }

  /** A path keeps its place in a tree with the same spine. */
  lemma {:induction false} SameSpineAt(op: Op, t: Expr, u: Expr, p: seq<Dir>)
    requires SameSpine(op, t, u) && OnSpine(op, t, p)
    ensures OnSpine(op, u, p)
    ensures SameSpine(op, At(op, t, p), At(op, u, p))
    decreases |p|
  {
    if p != [] {
      SameSpineAt(op, Child(t, p[0]), Child(u, p[0]), p[1..]);
    }
  }

  lemma {:induction false} SameSpineSize(op: Op, t: Expr, u: Expr)
    requires SameSpine(op, t, u)
    ensures SpineSize(op, t) == SpineSize(op, u)
  {
    if IsBin(t, op) {
      SameSpineSize(op, t.left, u.left);
      SameSpineSize(op, t.right, u.right);
    }
  }

  lemma {:induction false} Extend(op: Op, t: Expr, p: seq<Dir>, d: Dir)
    requires OnSpine(op, t, p) && IsBin(At(op, t, p), op)
    ensures OnSpine(op, t, p + [d])
    ensures At(op, t, p + [d]) == Child(At(op, t, p), d)
    decreases |p|
  {
    if p != [] {
      Extend(op, Child(t, p[0]), p[1..], d);
      assert (p + [d])[1..] == p[1..] + [d];
    } else {
      assert (p + [d])[1..] == [];
    }
  }

  lemma {:induction false} PutSame(op: Op, t: Expr, p: seq<Dir>)
    requires OnSpine(op, t, p)
    ensures Put(op, t, p, At(op, t, p)) == t
    decreases |p|
  {
    if p != [] {
      PutSame(op, Child(t, p[0]), p[1..]);
    }
  }

  /** Overwriting one operand by another operand keeps the spine. */
  lemma {:induction false} PutSameSpine(op: Op, t: Expr, p: seq<Dir>, x: Expr)
    requires OnSpine(op, t, p) && !IsBin(At(op, t, p), op) && !IsBin(x, op)
    ensures SameSpine(op, t, Put(op, t, p, x))
    decreases |p|
  {
    if p != [] {
      PutSameSpine(op, Child(t, p[0]), p[1..], x);
      SameSpineRefl(op, t.left);
      SameSpineRefl(op, t.right);
    }
  }

  /** Overwriting one operand leaves every other operand alone. */
  lemma {:induction false} PutOther(op: Op, t: Expr, p: seq<Dir>, q: seq<Dir>, x: Expr)
    requires OnSpine(op, t, p) && !IsBin(At(op, t, p), op)
    requires OnSpine(op, t, q) && !IsBin(At(op, t, q), op)
    requires p != q
    ensures var u := Put(op, t, p, x); OnSpine(op, u, q) && At(op, u, q) == At(op, t, q)
    decreases |p|
  {
    if p != [] && p[0] == q[0] {
      assert p == [p[0]] + p[1..] && q == [q[0]] + q[1..];
      PutOther(op, Child(t, p[0]), p[1..], q[1..], x);
    }
  }

  // ----- value of a spine -----

  /** The tree is one operand combined with all the rest. */
  lemma {:induction false} PutValue(op: Op, t: Expr, p: seq<Dir>, x: Expr, env: Env)
    requires OnSpine(op, t, p)
    ensures Eval(Put(op, t, p, x), env)
            == Apply(op, Eval(Put(op, t, p, Neutral(op)), env), Eval(x, env))
    decreases |p|
  {
    hide Apply;
    if p != [] {
      var c := Child(t, p[0]);
      PutValue(op, c, p[1..], x, env);
      Shuffle(op, Eval(Put(op, c, p[1..], Neutral(op)), env), Eval(Child(t, Other(p[0])), env), Eval(x, env));
    } else {
      NeutralLeft(op, x, env);
    }
  }

  function Other(d: Dir): Dir {
    if d.Left? then Right else Left
  }

  lemma Shuffle(op: Op, n: Tri, r: Tri, x: Tri)
    ensures Apply(op, Apply(op, n, x), r) == Apply(op, Apply(op, n, r), x)
    ensures Apply(op, r, Apply(op, n, x)) == Apply(op, Apply(op, r, n), x)
  {}

  lemma NeutralLeft(op: Op, x: Expr, env: Env)
    ensures Apply(op, Eval(Neutral(op), env), Eval(x, env)) == Eval(x, env)
  {}

  /** Everything on the spine is already counted in the value of the tree. */
  lemma {:induction false} AtAbsorbed(op: Op, t: Expr, p: seq<Dir>, env: Env)
    requires OnSpine(op, t, p)
    ensures Apply(op, Eval(t, env), Eval(At(op, t, p), env)) == Eval(t, env)
    decreases |p|
  {
    if p != [] {
      AtAbsorbed(op, Child(t, p[0]), p[1..], env);
    }
  }

  lemma PutEqualValue(op: Op, t: Expr, p: seq<Dir>, x: Expr, env: Env)
    requires OnSpine(op, t, p) && Eval(x, env) == Eval(At(op, t, p), env)
    ensures Eval(Put(op, t, p, x), env) == Eval(t, env)
  {
    PutSame(op, t, p);
    PutValue(op, t, p, x, env);
    PutValue(op, t, p, At(op, t, p), env);
  }

  lemma PutRefines(op: Op, t: Expr, p: seq<Dir>, x: Expr, env: Env)
    requires OnSpine(op, t, p) && Refines(Eval(At(op, t, p), env), Eval(x, env))
    ensures Refines(Eval(t, env), Eval(Put(op, t, p, x), env))
  {
    PutSame(op, t, p);
    PutValue(op, t, p, x, env);
    PutValue(op, t, p, At(op, t, p), env);
  }

  // ----- constants that constant elimination will remove -----

  /** Some y or n is an operand of a connective that eliminate_yn reaches. */
  predicate HasConstOperand(e: Expr) {
    e.Bin? &&
    (IsYn(e.left) || IsYn(e.right) || HasConstOperand(e.left) || HasConstOperand(e.right))
  }

  predicate IsYn(e: Expr) {
    e == Sym(SymYes) || e == Sym(SymNo)
  }

  lemma {:induction false} PutHasConst(op: Op, t: Expr, p: seq<Dir>, x: Expr)
    requires OnSpine(op, t, p) && p != []
    requires IsYn(x) || HasConstOperand(x)
    ensures HasConstOperand(Put(op, t, p, x))
    decreases |p|
  {
    if p[1..] != [] {
      PutHasConst(op, Child(t, p[0]), p[1..], x);
    }
  }
}
