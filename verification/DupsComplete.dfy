/** What duplicate elimination leaves nothing of. */
module DupsComplete {
  import opened Options
  import opened Tristate
  import opened Expressions
  import opened Equality
  import opened Normalize
  import opened Joins
  import opened Spine
  import opened Dups

  // ----- equality recognises an expression -----

  predicate IsQuoted(e: Expr) {
    e.Sym? && e.sym.Quoted?
  }

  /** No quoted text is an operand of a connective. */
  predicate Plain(e: Expr) {
    match e
    case Sym(_) => true
    case Cmp(_, _, _) => true
    case Not(a) => Plain(a)
    case Bin(_, l, r) => !IsQuoted(l) && !IsQuoted(r) && Plain(l) && Plain(r)
  }

  /** What is left of an operand that met itself: y and n are left alone. */
  function Met(op: Op, e: Expr): Expr {
    if IsBin(e, op) then Bin(op, Met(op, e.left), Met(op, e.right))
    else if IsYn(e) then e
    else Neutral(op)
  }

  /** All operands are y or n. */
  predicate Settled(op: Op, e: Expr) {
    if IsBin(e, op) then Settled(op, e.left) && Settled(op, e.right) else IsYn(e)
  }

  lemma {:induction false} MetIsSettled(op: Op, e: Expr)
    ensures Settled(op, Met(op, e))
  {
    if IsBin(e, op) {
      MetIsSettled(op, e.left);
      MetIsSettled(op, e.right);
    }
  }

  /** Every operand in front of the slot is y or n. */
  predicate SettledBefore(op: Op, t: Expr, p: seq<Dir>)
    requires OnSpine(op, t, p)
    decreases |p|
  {
    p == [] || ((p[0].Right? ==> Settled(op, t.left)) && SettledBefore(op, Child(t, p[0]), p[1..]))
  }

  /** y and n match nothing. */
  lemma {:induction false} ConstantMeets(op: Op, c: Expr, t: Expr)
    requires IsYn(c)
    ensures EliminateOperands(op, c, t) == (c, t)
    decreases t
  {
    if IsBin(t, op) {
      ConstantMeets(op, c, t.left);
      ConstantMeets(op, c, t.right);
    }
  }

  lemma {:induction false} SettledMeets(op: Op, x: Expr, t: Expr)
    requires !IsBin(x, op) && Settled(op, t)
    ensures EliminateOperands(op, x, t) == (x, t)
    decreases t
  {
    if IsBin(t, op) {
      SettledMeets(op, x, t.left);
      SettledMeets(op, x, t.right);
    } else if !IsYn(x) {
      assert x.Sym? && t.Sym? ==> x != t;
    }
  }

  /** An operand finds itself in a tree in which all before it is settled. */
  lemma {:induction false} OperandMeets(op: Op, x: Expr, t: Expr, p: seq<Dir>)
    requires OnSpine(op, t, p) && SettledBefore(op, t, p) && At(op, t, p) == x
    requires !IsBin(x, op) && !IsQuoted(x) && ExprEq(x, x)
    ensures EliminateOperands(op, x, t) == (Met(op, x), Put(op, t, p, Met(op, x)))
    decreases |p|
  {
    hide ExprEq;
    if p != [] {
      if p[0].Left? {
        OperandMeets(op, x, t.left, p[1..]);
        ConstantMeets(op, Met(op, x), t.right);
      } else {
        SettledMeets(op, x, t.left);
        OperandMeets(op, x, t.right, p[1..]);
      }
    }
  }

  lemma {:induction false} BeforeLeft(op: Op, t: Expr, p: seq<Dir>)
    requires OnSpine(op, t, p) && SettledBefore(op, t, p) && IsBin(At(op, t, p), op)
    ensures OnSpine(op, t, p + [Left]) && SettledBefore(op, t, p + [Left])
    ensures At(op, t, p + [Left]) == At(op, t, p).left
    decreases |p|
  {
    Extend(op, t, p, Left);
    if p != [] {
      BeforeLeft(op, Child(t, p[0]), p[1..]);
      assert (p + [Left])[1..] == p[1..] + [Left];
    }
  }

  /** The left part is dealt with, and the right part is next. */
  lemma {:induction false} BeforeRight(op: Op, t: Expr, p: seq<Dir>, l: Expr)
    requires OnSpine(op, t, p) && SettledBefore(op, t, p) && IsBin(At(op, t, p), op) && Settled(op, l)
    requires OnSpine(op, t, p + [Left])
    ensures var u := Put(op, t, p + [Left], l);
      && OnSpine(op, u, p + [Right]) && SettledBefore(op, u, p + [Right])
      && At(op, u, p + [Right]) == At(op, t, p).right
      && forall r :: Put(op, u, p + [Right], r) == Put(op, t, p, Bin(op, l, r))
    decreases |p|
  {
    if p == [] {
      assert (p + [Left])[1..] == [] && (p + [Right])[1..] == [];
    } else {
      Extend(op, t, p, Left);
      assert (p + [Left])[1..] == p[1..] + [Left] && (p + [Right])[1..] == p[1..] + [Right];
      BeforeRight(op, Child(t, p[0]), p[1..], l);
    }
  }

  /** A whole part of a tree meets itself, operand by operand. */
  lemma {:induction false} PartMeets(op: Op, x: Expr, t: Expr, p: seq<Dir>)
    requires OnSpine(op, t, p) && SettledBefore(op, t, p) && At(op, t, p) == x
    requires Plain(x) && !IsQuoted(x)
    ensures EliminateOperands(op, x, t) == (Met(op, x), Put(op, t, p, Met(op, x)))
    decreases x, 2
  {
    if IsBin(x, op) {
      BeforeLeft(op, t, p);
      PartMeets(op, x.left, t, p + [Left]);
      MetIsSettled(op, x.left);
      BeforeRight(op, t, p, Met(op, x.left));
      PartMeets(op, x.right, Put(op, t, p + [Left], Met(op, x.left)), p + [Right]);
    } else {
      EqualToItself(x);
      OperandMeets(op, x, t, p);
    }
  }

  lemma {:induction false} SettledFolds(op: Op, e: Expr)
    requires Settled(op, e)
    ensures IsYn(EliminateYn(e))
    decreases e
  {
    if IsBin(e, op) {
      SettledFolds(op, e.left);
      SettledFolds(op, e.right);
    }
  }

  /** An expression without quoted operands equals itself. */
  lemma {:induction false} EqualToItself(e: Expr)
    requires Plain(e)
    ensures ExprEq(e, e)
    decreases e, 1
  {
    match e
    case Sym(_) =>
    case Cmp(_, _, _) =>
    case Not(a) => EqualToItself(a);
    case Bin(op, l, r) =>
      BinMeets(op, l, r);
      MetIsSettled(op, e);
      SettledFolds(op, Met(op, e));
  }

  lemma {:induction false} BinMeets(op: Op, l: Expr, r: Expr)
    requires Plain(Bin(op, l, r))
    ensures var e := Bin(op, l, r); EliminateOperands(op, e, e) == (Met(op, e), Met(op, e))
    decreases Bin(op, l, r), 0
  {
    var e := Bin(op, l, r);
    PartMeets(op, l, e, [Left]);
    MetIsSettled(op, l);
    var u := Bin(op, Met(op, l), r);
    assert Put(op, e, [Left], Met(op, l)) == u;
    PartMeets(op, r, u, [Right]);
  }

  /** Two quoted texts in a conjunction are more than the comparison can take. */
  lemma QuotedNotEqual(a: Symbol, b: Symbol)
    requires a.Quoted? && b.Quoted?
    ensures var e := Bin(AndOp, Sym(a), Sym(b)); !Plain(e) && !ExprEq(e, e)
  {
    var x, y := Sym(a), Sym(b);
    var e := Bin(AndOp, x, y);
    QuotedMeets(a, x);
    QuotedMeets(a, y);
    QuotedMeets(b, x);
    QuotedMeets(b, y);
    assert EliminateOperands(AndOp, x, e) == (x, e);
    assert EliminateOperands(AndOp, y, e) == (y, e);
    assert EliminateOperands(AndOp, e, e) == (e, e);
    assert EliminateYn(e) == e;
    assert EliminateEq(e, e) == (e, e);
  }

  lemma QuotedMeets(q: Symbol, x: Expr)
    requires q.Quoted? && !x.Bin?
    ensures EliminateOperands(AndOp, Sym(q), x) == (Sym(q), x)
  {
  }

  // ----- an operand against the expression it stands in -----

  /** An operand is cancelled against the connective it stands in. */
  lemma {:induction false} CancelsLeft(op: Op, e: Expr, p: seq<Dir>, x: Expr)
    requires IsSlot(op, e, p) && At(op, e, p) == x && ExprEq(x, x) && !IsYn(x) && !IsQuoted(x)
    ensures EliminateOperands(op, e, x).1 == Neutral(op)
    decreases e
  {
    hide ExprEq;
    if p != [] {
      SingleOperandSettled(op, e.left, x);
      SingleOperandSettled(op, e.right, Neutral(op));
      CancelsLeft(op, Child(e, p[0]), p[1..], x);
    }
  }

  lemma {:induction false} SingleSettled(op: Op, x: Expr, e: Expr)
    requires !IsBin(x, op)
    ensures var r := EliminateOperands(op, x, e); r.0 == x || r.0 == Neutral(op)
    decreases e
  {
    if IsBin(e, op) {
      SingleSettled(op, x, e.left);
      SingleSettled(op, EliminateOperands(op, x, e.left).0, e.right);
    }
  }

  lemma {:induction false} CancelsRight(op: Op, x: Expr, e: Expr, p: seq<Dir>)
    requires IsSlot(op, e, p) && At(op, e, p) == x && ExprEq(x, x) && !IsYn(x) && !IsQuoted(x)
    ensures EliminateOperands(op, x, e).0 == Neutral(op)
    decreases e
  {
    hide ExprEq;
    if p != [] {
      SingleSettled(op, x, e.left);
      SingleSettled(op, Neutral(op), e.right);
      CancelsRight(op, x, Child(e, p[0]), p[1..]);
    }
  }

  /** Elimination takes a literal away against a connective that has it as an operand,
      whichever of the two comes first. */
  lemma LiteralCancels(op: Op, e: Expr, p: seq<Dir>, x: Expr)
    requires IsSlot(op, e, p) && p != [] && At(op, e, p) == x && !x.Bin? && Plain(x) && !IsYn(x) && !IsQuoted(x)
    ensures EliminateEq(e, x).1 == Neutral(op) && EliminateEq(x, e).0 == Neutral(op)
  {
    EqualToItself(x);
    CancelsLeft(op, e, p, x);
    CancelsRight(op, x, e, p);
    hide ExprEq, EliminateOperands;
  }

  lemma {:induction false} ExtractsSingle(op: Op, acc: Option<Expr>, x: Expr, e: Expr)
    requires !IsBin(x, op)
    ensures var r := ExtractEq(op, acc, x, e);
      (r.1 == x || (r.1 == Neutral(op) && r.0.Some?)) && (acc.Some? ==> r.0.Some?)
    decreases e
  {
    if IsBin(e, op) {
      ExtractsSingle(op, acc, x, e.left);
      var l := ExtractEq(op, acc, x, e.left);
      ExtractsSingle(op, l.0, l.1, e.right);
    }
  }

  lemma {:induction false} ExtractsFrom(op: Op, acc: Option<Expr>, x: Expr, e: Expr, p: seq<Dir>)
    requires IsSlot(op, e, p) && At(op, e, p) == x && ExprEq(x, x)
    ensures var r := ExtractEq(op, acc, x, e); r.1 == Neutral(op) && r.0.Some?
    decreases e
  {
    hide ExprEq;
    if p != [] {
      ExtractsSingle(op, acc, x, e.left);
      var l := ExtractEq(op, acc, x, e.left);
      ExtractsSingle(op, l.0, l.1, e.right);
      if p[0].Left? {
        ExtractsFrom(op, acc, x, e.left, p[1..]);
      } else if l.1 == x {
        ExtractsFrom(op, l.0, x, e.right, p[1..]);
      }
    }
  }

  /** Extraction finds an operand in the connective it stands in. */
  lemma OperandExtracted(op: Op, x: Expr, e: Expr, p: seq<Dir>)
    requires IsSlot(op, e, p) && At(op, e, p) == x && Plain(x)
    ensures Extract(op, x, e).0.Some? && Extract(op, x, e).1 == Neutral(op)
  {
    EqualToItself(x);
    ExtractsFrom(op, None, x, e, p);
    hide ExprEq, ExtractEq;
  }

  /** Equal operands are joined into one of them. */
  lemma JoinSame(op: Op, x: Expr)
    requires Plain(x)
    ensures Join(op, x, x) == Some(x)
  {
    EqualToItself(x);
  }

  /** Removing constants leaves none that is an operand. */
  lemma {:induction false} NoConstantLeft(e: Expr)
    ensures !HasConstOperand(EliminateYn(e))
  {
    if e.Bin? {
      NoConstantLeft(e.left);
      NoConstantLeft(e.right);
    }
  }

  // ----- what a pass that counts nothing has looked at -----

  /** A path that goes on behind an operand ends there. */
  lemma {:induction false} OperandIsEnd(op: Op, t: Expr, p: seq<Dir>, q: seq<Dir>)
    requires IsSlot(op, t, p) && OnSpine(op, t, q) && p <= q
    ensures p == q
    decreases |p|
  {
    if p != [] {
      assert q[0] == p[0] && p[1..] <= q[1..];
      OperandIsEnd(op, Child(t, p[0]), p[1..], q[1..]);
      assert p == [p[0]] + p[1..] && q == [q[0]] + q[1..];
    }
  }

  /** Two operands that do not join, the first of which has been worked through. */
  predicate Apart(op: Op, st: State, q1: seq<Dir>, q2: seq<Dir>)
    requires IsSlot(op, st.tree, q1) && IsSlot(op, st.tree, q2)
  {
    var e1, e2 := At(op, st.tree, q1), At(op, st.tree, q2);
    && Join(op, e1, e2).None?
    && (e1.Bin? ==> Dups1(e1.op, State(e1, st.count), [], []).count == st.count)
  }

  /** All operands below two slots have been compared. */
  ghost predicate AllApart(op: Op, st: State, p1: seq<Dir>, p2: seq<Dir>) {
    forall q1, q2 ::
      IsSlot(op, st.tree, q1) && IsSlot(op, st.tree, q2) && p1 <= q1 && p2 <= q2 && q1 != q2 ==>
      Apart(op, st, q1, q2)
  }

  lemma GoesOnOrEnds(p: seq<Dir>, q: seq<Dir>)
    requires p <= q
    ensures p == q || p + [Left] <= q || p + [Right] <= q
  {
    if p != q {
      var d := q[|p|];
      assert q == (p + [d]) + q[|p| + 1..];
      assert d == Left || d == Right;
    }
  }

  /** A path behind an inner node goes left or right. */
  lemma GoesOn(op: Op, t: Expr, p: seq<Dir>, q: seq<Dir>)
    requires OnSpine(op, t, p) && IsBin(At(op, t, p), op) && IsSlot(op, t, q) && p <= q
    ensures p + [Left] <= q || p + [Right] <= q
  {
    assert p != q;
    hide OnSpine, At;
    GoesOnOrEnds(p, q);
  }

  lemma SameIfNotCounted(op: Op, st: State, p1: seq<Dir>, p2: seq<Dir>)
    requires OnSpine(op, st.tree, p1) && OnSpine(op, st.tree, p2)
    ensures var r := Dups1(op, st, p1, p2); r.count >= st.count && (r.count == st.count ==> r == st)
  {
    Dups1Keeps(op, st, p1, p2, Env(_ => NO, _ => ""));
  }

  /** If the first pass counts nothing it has compared everything with everything. */
  lemma {:induction false} Dups1Compares(op: Op, st: State, p1: seq<Dir>, p2: seq<Dir>)
    requires OnSpine(op, st.tree, p1) && OnSpine(op, st.tree, p2)
    requires Dups1(op, st, p1, p2).count == st.count
    ensures AllApart(op, st, p1, p2)
    decreases SpineSize(op, At(op, st.tree, p1)) + SpineSize(op, At(op, st.tree, p2))
  {
    hide Join, InnerDups1, SameSpine, Size;
    var e1, e2 := At(op, st.tree, p1), At(op, st.tree, p2);
    if IsBin(e1, op) {
      Extend(op, st.tree, p1, Left);
      Extend(op, st.tree, p1, Right);
      SameIfNotCounted(op, st, p1 + [Left], p2);
      var a := Dups1(op, st, p1 + [Left], p2);
      MovedOn(op, st.tree, a.tree, p1, p2);
      Extend(op, a.tree, p1, Right);
      SameIfNotCounted(op, a, p1 + [Right], p2);
      assert a == st;
      Dups1Compares(op, st, p1 + [Left], p2);
      Dups1Compares(op, st, p1 + [Right], p2);
      forall q1, q2 | IsSlot(op, st.tree, q1) && IsSlot(op, st.tree, q2) && p1 <= q1 && p2 <= q2 && q1 != q2
        ensures Apart(op, st, q1, q2)
      {
        GoesOn(op, st.tree, p1, q1);
      }
    } else if IsBin(e2, op) {
      Extend(op, st.tree, p2, Left);
      Extend(op, st.tree, p2, Right);
      SameIfNotCounted(op, st, p1, p2 + [Left]);
      var a := Dups1(op, st, p1, p2 + [Left]);
      MovedOn(op, st.tree, a.tree, p1, p2);
      Extend(op, a.tree, p2, Right);
      SameIfNotCounted(op, a, p1, p2 + [Right]);
      assert a == st;
      Dups1Compares(op, st, p1, p2 + [Left]);
      Dups1Compares(op, st, p1, p2 + [Right]);
      forall q1, q2 | IsSlot(op, st.tree, q1) && IsSlot(op, st.tree, q2) && p1 <= q1 && p2 <= q2 && q1 != q2
        ensures Apart(op, st, q1, q2)
      {
        GoesOn(op, st.tree, p2, q2);
      }
    } else {
      if p1 != p2 {
        PairCompared(op, st, p1, p2);
      }
      forall q1, q2 | IsSlot(op, st.tree, q1) && IsSlot(op, st.tree, q2) && p1 <= q1 && p2 <= q2 && q1 != q2
        ensures Apart(op, st, q1, q2)
      {
        OperandIsEnd(op, st.tree, p1, q1);
        OperandIsEnd(op, st.tree, p2, q2);
      }
    }
  }

  lemma PairCompared(op: Op, st: State, p1: seq<Dir>, p2: seq<Dir>)
    requires IsSlot(op, st.tree, p1) && IsSlot(op, st.tree, p2) && p1 != p2
    requires Dups1(op, st, p1, p2).count == st.count
    ensures Apart(op, st, p1, p2)
  {
    var e1 := At(op, st.tree, p1);
    var a := InnerDups1(op, st, p1);
    InnerDups1Keeps(op, st, p1, Env(_ => NO, _ => ""));
    PutOther(op, st.tree, p1, p2, At(op, a.tree, p1));
    hide Join, Dups1, SameSpine, Size, Put;
    assert a == st;
  }

  // ----- the same for the second pass -----

  /** The negation of the operand is not part of the other place. */
  predicate Uncontradicted(op: Op, st: State, q1: seq<Dir>, q2: seq<Dir>)
    requires IsSlot(op, st.tree, q1) && OnSpine(op, st.tree, q2)
  {
    var e1, e2 := At(op, st.tree, q1), At(op, st.tree, q2);
    e1.Bin? ==>
      && Extract(op, Transform(Not(e1)), e2).1 != Neutral(op)
      && Dups2(e1.op, State(e1, st.count), [], []).count == st.count
  }

  ghost predicate AllUncontradicted(op: Op, st: State, p1: seq<Dir>, p2: seq<Dir>) {
    forall q1, q2 ::
      IsSlot(op, st.tree, q1) && OnSpine(op, st.tree, q2) && p1 <= q1 && p2 <= q2 && q1 != q2 ==>
      Uncontradicted(op, st, q1, q2)
  }

  lemma SameIfNotDropped(op: Op, st: State, p1: seq<Dir>, p2: seq<Dir>)
    requires OnSpine(op, st.tree, p1) && OnSpine(op, st.tree, p2)
    ensures var r := Dups2(op, st, p1, p2); r.count >= st.count && (r.count == st.count ==> r == st)
  {
    Dups2Keeps(op, st, p1, p2, Env(_ => NO, _ => ""));
  }

  lemma PairLookedAt(op: Op, st: State, p1: seq<Dir>, p2: seq<Dir>)
    requires IsSlot(op, st.tree, p1) && p1 != [] && OnSpine(op, st.tree, p2)
    requires InnerDups2(op, st, p1, p2).count == st.count
    ensures Uncontradicted(op, st, p1, p2)
  {
    var e1 := At(op, st.tree, p1);
    if e1.Bin? {
      var inner := Dups2(e1.op, State(e1, st.count), [], []);
      SameIfNotDropped(e1.op, State(e1, st.count), [], []);
      PutSameSpine(op, st.tree, p1, inner.tree);
      var a := State(Put(op, st.tree, p1, inner.tree), inner.count);
      SameSpineAt(op, st.tree, a.tree, p2);
      PutSame(op, st.tree, p1);
      hide Extract, Transform, SameSpine, Size, Dups2;
    }
  }

  /** If the second pass counts nothing it has looked at every operand next to every
      other place of the same connective. */
  lemma {:induction false} Dups2Compares(op: Op, st: State, p1: seq<Dir>, p2: seq<Dir>)
    requires OnSpine(op, st.tree, p1) && OnSpine(op, st.tree, p2)
    requires Dups2(op, st, p1, p2).count == st.count
    ensures AllUncontradicted(op, st, p1, p2)
    decreases SpineSize(op, At(op, st.tree, p1)) + SpineSize(op, At(op, st.tree, p2))
  {
    hide Extract, Transform, InnerDups2, SameSpine, Size;
    var e1, e2 := At(op, st.tree, p1), At(op, st.tree, p2);
    if IsBin(e1, op) {
      Extend(op, st.tree, p1, Left);
      Extend(op, st.tree, p1, Right);
      SameIfNotDropped(op, st, p1 + [Left], p2);
      var a := Dups2(op, st, p1 + [Left], p2);
      MovedOn(op, st.tree, a.tree, p1, p2);
      Extend(op, a.tree, p1, Right);
      SameIfNotDropped(op, a, p1 + [Right], p2);
      assert a == st;
      Dups2Compares(op, st, p1 + [Left], p2);
      Dups2Compares(op, st, p1 + [Right], p2);
      forall q1, q2 | IsSlot(op, st.tree, q1) && OnSpine(op, st.tree, q2) && p1 <= q1 && p2 <= q2 && q1 != q2
        ensures Uncontradicted(op, st, q1, q2)
      {
        GoesOn(op, st.tree, p1, q1);
      }
    } else if IsBin(e2, op) {
      Dups2ComparesRight(op, st, p1, p2);
    } else {
      if p1 != p2 {
        PairLookedAt(op, st, p1, p2);
      }
      forall q1, q2 | IsSlot(op, st.tree, q1) && OnSpine(op, st.tree, q2) && p1 <= q1 && p2 <= q2 && q1 != q2
        ensures Uncontradicted(op, st, q1, q2)
      {
        OperandIsEnd(op, st.tree, p1, q1);
        OperandIsEnd(op, st.tree, p2, q2);
      }
    }
  }

  lemma {:induction false} Dups2ComparesRight(op: Op, st: State, p1: seq<Dir>, p2: seq<Dir>)
    requires OnSpine(op, st.tree, p1) && OnSpine(op, st.tree, p2)
    requires !IsBin(At(op, st.tree, p1), op) && IsBin(At(op, st.tree, p2), op)
    requires Dups2(op, st, p1, p2).count == st.count
    ensures AllUncontradicted(op, st, p1, p2)
    decreases SpineSize(op, At(op, st.tree, p1)) + SpineSize(op, At(op, st.tree, p2)), 0
  {
    hide Extract, Transform, InnerDups2, SameSpine, Size;
    Extend(op, st.tree, p2, Left);
    Extend(op, st.tree, p2, Right);
    SameIfNotDropped(op, st, p1, p2 + [Left]);
    var a := Dups2(op, st, p1, p2 + [Left]);
    MovedOn(op, st.tree, a.tree, p1, p2);
    Extend(op, a.tree, p2, Right);
    SameIfNotDropped(op, a, p1, p2 + [Right]);
    var b := Dups2(op, a, p1, p2 + [Right]);
    MovedOn(op, a.tree, b.tree, p1, p2);
    InnerDups2Keeps(op, b, p1, p2, Env(_ => NO, _ => ""));
    assert a == st && b == st;
    Dups2Compares(op, st, p1, p2 + [Left]);
    Dups2Compares(op, st, p1, p2 + [Right]);
    PairLookedAt(op, st, p1, p2);
    forall q1, q2 | IsSlot(op, st.tree, q1) && OnSpine(op, st.tree, q2) && p1 <= q1 && p2 <= q2 && q1 != q2
      ensures Uncontradicted(op, st, q1, q2)
    {
      OperandIsEnd(op, st.tree, p1, q1);
      GoesOnOrEnds(p2, q2);
    }
  }

  // ----- the result -----

  /** At every connective, no two operands are the same expression, except such
      with quoted operands, and no two can be joined. */
  ghost predicate DupFree(e: Expr)
    decreases Size(e)
  {
    e.Bin? ==>
      && (forall p, q :: IsSlot(e.op, e, p) && IsSlot(e.op, e, q) && p != q ==>
            Join(e.op, At(e.op, e, p), At(e.op, e, q)).None?)
      && (forall p, q :: IsSlot(e.op, e, p) && IsSlot(e.op, e, q) && p != q && Plain(At(e.op, e, p)) ==>
            At(e.op, e, p) != At(e.op, e, q))
      && (forall p :: IsSlot(e.op, e, p) ==> DupFree(At(e.op, e, p)))
  }

  /** The outermost slots. */
  function Edge(op: Op, t: Expr, d: Dir): (p: seq<Dir>)
    ensures IsSlot(op, t, p) && (IsBin(t, op) ==> p != [] && p[0] == d)
  {
    if IsBin(t, op) then
      var q := Edge(op, Child(t, d), d);
      assert ([d] + q)[1..] == q;
      [d] + q
    else []
  }

  lemma {:induction false} NothingCountedDupFree(e: Expr, n: nat)
    requires e.Bin? ==> Dups1(e.op, State(e, n), [], []).count == n
    ensures DupFree(e)
    decreases Size(e)
  {
    if e.Bin? {
      var st := State(e, n);
      Dups1Compares(e.op, st, [], []);
      hide Dups1, Join, EliminateOperands, ExprEq;
      forall p, q | IsSlot(e.op, e, p) && IsSlot(e.op, e, q) && p != q
        ensures Join(e.op, At(e.op, e, p), At(e.op, e, q)).None?
        ensures Plain(At(e.op, e, p)) ==> At(e.op, e, p) != At(e.op, e, q)
      {
        assert Apart(e.op, st, p, q);
        if Plain(At(e.op, e, p)) {
          JoinSame(e.op, At(e.op, e, p));
        }
      }
      forall p | IsSlot(e.op, e, p) ensures DupFree(At(e.op, e, p)) {
        var l, r := Edge(e.op, e, Left), Edge(e.op, e, Right);
        assert Apart(e.op, st, p, if p == l then r else l);
        NothingCountedDupFree(At(e.op, e, p), n);
      }
    }
  }

  lemma {:induction false} NothingLeftToCount(e: Expr)
    ensures Round(EliminateDups(e)).count == 0
    decreases Size(e)
  {
    RoundKeeps(e, Env(_ => NO, _ => ""));
    if Round(e).count > 0 {
      RoundShrinks(e);
      NothingLeftToCount(EliminateYn(Round(e).tree));
    }
  }

  /** No duplicate survives: in the result no connective, at any depth, has the same
      operand twice. */
  lemma NoDuplicateLeft(e: Expr)
    ensures DupFree(EliminateDups(e))
  {
    var r := EliminateDups(e);
    NothingLeftToCount(e);
    if r.Bin? {
      SameIfNotCounted(r.op, State(r, 0), [], []);
      SameIfNotDropped(r.op, Dups1(r.op, State(r, 0), [], []), [], []);
    }
    NothingCountedDupFree(r, 0);
  }

  /** At every connective, no operand is contradicted by what else stands there. */
  ghost predicate ContradictionFree(e: Expr)
    decreases Size(e)
  {
    e.Bin? ==>
      && (forall p, q :: IsSlot(e.op, e, p) && OnSpine(e.op, e, q) && p != q && At(e.op, e, p).Bin? ==>
            Extract(e.op, Transform(Not(At(e.op, e, p))), At(e.op, e, q)).1 != Neutral(e.op))
      && (forall p :: IsSlot(e.op, e, p) ==> ContradictionFree(At(e.op, e, p)))
  }

  lemma {:induction false} NothingDroppedContradictionFree(e: Expr, n: nat)
    requires e.Bin? ==> Dups2(e.op, State(e, n), [], []).count == n
    ensures ContradictionFree(e)
    decreases Size(e)
  {
    if e.Bin? {
      var st := State(e, n);
      Dups2Compares(e.op, st, [], []);
      hide Dups2, Extract, Transform;
      forall p, q | IsSlot(e.op, e, p) && OnSpine(e.op, e, q) && p != q && At(e.op, e, p).Bin?
        ensures Extract(e.op, Transform(Not(At(e.op, e, p))), At(e.op, e, q)).1 != Neutral(e.op)
      {
        assert Uncontradicted(e.op, st, p, q);
      }
      forall p | IsSlot(e.op, e, p) ensures ContradictionFree(At(e.op, e, p)) {
        assert Uncontradicted(e.op, st, p, []);
        NothingDroppedContradictionFree(At(e.op, e, p), n);
      }
    }
  }

  /** No contradiction survives either. */
  lemma NoContradictionLeft(e: Expr)
    ensures ContradictionFree(EliminateDups(e))
  {
    var r := EliminateDups(e);
    NothingLeftToCount(e);
    if r.Bin? {
      SameIfNotCounted(r.op, State(r, 0), [], []);
      var a := Dups1(r.op, State(r, 0), [], []);
      SameIfNotDropped(r.op, a, [], []);
    }
    NothingDroppedContradictionFree(r, 0);
  }
}
