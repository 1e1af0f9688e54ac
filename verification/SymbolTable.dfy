/** The memoised evaluator: values are computed on demand, kept until a user setting
    changes, and flagged valid while they may be reused. */
module SymbolTable {
  import opened Options
  import opened Tristate
  import opened Expressions
  import opened Symbols
  import opened SymbolMeaning

  /** The right visibility and select bound of s; the bound is not refreshed while s
      is deselected. */
  ghost predicate VisibleOk(cfg: Config, user: map<Symbol, User>, s: Symbol, visible: Tri, selected: Tri)
    requires Acyclic(cfg) && user.Keys == cfg.symbols && s in cfg.symbols
  {
    var i, env := cfg.info(s), EnvBelow(cfg, user, cfg.rank(s));
    && visible == Visibility(TypeOf(s), i, env)
    && (!Deselected(i, env) ==> selected == Selected(TypeOf(s), i, env))
  }

  lemma VisibleDeselected(cfg: Config, user: map<Symbol, User>, s: Symbol, selected: Tri)
    requires Acyclic(cfg) && user.Keys == cfg.symbols && s in cfg.symbols
    requires Deselected(cfg.info(s), EnvBelow(cfg, user, cfg.rank(s)))
    ensures VisibleOk(cfg, user, s, NO, selected)
  {}

  lemma VisibleShown(cfg: Config, user: map<Symbol, User>, s: Symbol)
    requires Acyclic(cfg) && user.Keys == cfg.symbols && s in cfg.symbols
    requires !Deselected(cfg.info(s), EnvBelow(cfg, user, cfg.rank(s)))
    ensures var i, env := cfg.info(s), EnvBelow(cfg, user, cfg.rank(s));
            VisibleOk(cfg, user, s, PromptVisibility(TypeOf(s), i.prompts, env), Selected(TypeOf(s), i, env))
  {}

  /** The changeable part of the table. */
  datatype Snapshot = Snapshot(
    user: map<Symbol, User>,
    valid: set<Symbol>,
    curr: map<Symbol, Value>,
    visible: map<Symbol, Tri>,
    selected: map<Symbol, Tri>)

  ghost predicate Agree(a: Snapshot, b: Snapshot, s: Symbol) {
    && (s in a.curr <==> s in b.curr) && (s in a.curr ==> a.curr[s] == b.curr[s])
    && (s in a.visible <==> s in b.visible) && (s in a.visible ==> a.visible[s] == b.visible[s])
    && (s in a.selected <==> s in b.selected) && (s in a.selected ==> a.selected[s] == b.selected[s])
  }

  /** No user setting changed, no flag was taken back, and of the symbols of rank k
      or more only those in `open` changed, and none was flagged. */
  ghost predicate Kept(cfg: Config, a: Snapshot, b: Snapshot, k: nat, open: set<Symbol>) {
    && a.user == b.user && a.valid <= b.valid
    && (forall s :: s in b.valid && s !in a.valid ==> cfg.rank(s) < k)
    && (forall s :: s in cfg.symbols && cfg.rank(s) >= k && s !in open ==> Agree(a, b, s))
  }

  lemma KeptRefl(cfg: Config, a: Snapshot, k: nat, open: set<Symbol>)
    ensures Kept(cfg, a, a, k, open)
  {}

  lemma KeptTrans(cfg: Config, a: Snapshot, b: Snapshot, c: Snapshot, k: nat, open: set<Symbol>)
    requires Kept(cfg, a, b, k, open) && Kept(cfg, b, c, k, open)
    ensures Kept(cfg, a, c, k, open)
  {
    forall s | s in cfg.symbols && cfg.rank(s) >= k && s !in open ensures Agree(a, c, s) {
      assert Agree(a, b, s) && Agree(b, c, s);
    }
  }

  lemma KeptWeaken(cfg: Config, a: Snapshot, b: Snapshot, j: nat, k: nat, open: set<Symbol>)
    requires Kept(cfg, a, b, j, {}) && j <= k
    ensures Kept(cfg, a, b, k, open)
  {}

  /** Closing the one open symbol. */
  lemma KeptClose(cfg: Config, a: Snapshot, b: Snapshot, s: Symbol)
    requires Kept(cfg, a, b, cfg.rank(s), {s})
    ensures Kept(cfg, a, b, cfg.rank(s) + 1, {})
  {}

  lemma FlagStays(cfg: Config, a: Snapshot, b: Snapshot, s: Symbol)
    requires Kept(cfg, a, b, cfg.rank(s), {s}) && s in a.valid
    ensures s in b.valid
  {}

  /** Kept says that user settings stay and that closed symbols stay. */
  lemma KeptSymbol(cfg: Config, a: Snapshot, b: Snapshot, k: nat, s: Symbol)
    requires Kept(cfg, a, b, k, {}) && s in cfg.symbols && cfg.rank(s) >= k
    ensures a.user == b.user && Agree(a, b, s)
  {}

  datatype Action = Calculate(sym: Symbol) | Set(sym: Symbol, value: Tri)

  class Table {
    const cfg: Config
    const modules: Option<Symbol>
    var user: map<Symbol, User>
    var valid: set<Symbol>
    var curr: map<Symbol, Value>
    var visible: map<Symbol, Tri>
    var selected: map<Symbol, Tri>

    ghost predicate Shape()
      reads this
    {
      && Acyclic(cfg)
      && (modules.Some? ==> modules.value in cfg.symbols)
      && user.Keys == curr.Keys == visible.Keys == selected.Keys == cfg.symbols
      && valid <= cfg.symbols
    }

    ghost function EnvFor(s: Symbol): Env
      requires Shape() && s in cfg.symbols
      reads this
    {
      EnvBelow(cfg, user, cfg.rank(s))
    }

    /** What the table says about s is right for the current user settings. */
    ghost predicate Right(s: Symbol)
      requires Shape() && s in cfg.symbols
      reads this
    {
      && curr[s] == ValueOf(cfg, user, s)
      && (TypeOf(s) != UnknownType ==> VisibleOk(cfg, user, s, visible[s], selected[s]))
    }

    /** Every symbol flagged valid is right, except those still being computed. */
    ghost predicate AllRight(busy: set<Symbol>)
      requires Shape()
      reads this
    {
      forall s :: s in valid && s !in busy ==> Right(s)
    }

    ghost predicate Memo(busy: set<Symbol>)
      reads this
    {
      Shape() && AllRight(busy)
    }

    ghost function Now(): Snapshot
      reads this
    {
      Snapshot(user, valid, curr, visible, selected)
    }

    // ----- reading values -----

    function TriNow(s: Symbol): Tri
      requires IsYmn(s) || s in curr
      reads this
    {
      match s
      case SymYes => YES
      case SymMod => MOD
      case SymNo => NO
      case _ => curr[s].tri
    }

    function RawNow(s: Symbol): string
      requires IsYmn(s) || s in curr
      reads this
    {
      match s
      case SymYes => "y"
      case SymMod => "m"
      case SymNo => "n"
      case _ => curr[s].val
    }

    function StrNow(s: Symbol): string
      requires IsYmn(s) || s in curr
      reads this
    {
      if IsTriType(s) then TriName(TriNow(s)) else RawNow(s)
    }

    /** A calculated symbol reads as its definition says. */
    lemma ReadsRight(s: Symbol, k: nat)
      requires Shape() && SymBelow(cfg, s, k)
      requires IsYmn(s) || curr[s] == ValueOf(cfg, user, s)
      ensures var env := EnvBelow(cfg, user, k);
              TriNow(s) == TriOf(s, env) && StrNow(s) == StrOf(s, env) && RawNow(s) == RawStr(s, env)
    {}

    // ----- computing values -----

    ghost predicate BusyAbove(busy: set<Symbol>, k: nat) {
      forall b :: b in busy ==> b in cfg.symbols && cfg.rank(b) >= k
    }

    ghost function Top(s: Symbol): nat {
      if IsYmn(s) then 0 else cfg.rank(s) + 1
    }

    method CalcOption(e: Option<Expr>, ghost k: nat, ghost busy: set<Symbol>) returns (t: Tri)
      requires Memo(busy) && BusyAbove(busy, k) && OptionBelow(cfg, e, k)
      modifies this
      ensures Memo(busy) && Kept(cfg, old(Now()), Now(), k, {}) && user == old(user)
      ensures t == EvalOption(e, EnvBelow(cfg, user, k))
      decreases k, 2
    {
      if e.None? {
        t := YES;
      } else {
        t := CalcExpr(e.value, k, busy);
      }
    }

    /** Calculates something the current computation depends on. */
    method CalcBelow(s: Symbol, ghost k: nat, ghost busy: set<Symbol>)
      requires Memo(busy) && BusyAbove(busy, k) && SymBelow(cfg, s, k)
      modifies this
      ensures Memo(busy) && Kept(cfg, old(Now()), Now(), k, {}) && user == old(user)
      ensures IsYmn(s) || s in valid
      ensures var env := EnvBelow(cfg, user, k);
              TriNow(s) == TriOf(s, env) && StrNow(s) == StrOf(s, env) && RawNow(s) == RawStr(s, env)
      decreases k, 0, 1
    {
      hide Acyclic, AllRight, Right, EnvBelow, ValueOf;
      ghost var a := Now();
      CalcValue(s, busy);
      KeptWeaken(cfg, a, Now(), Top(s), k, {});
      RightReads(s, k);
    }

    lemma RightReads(s: Symbol, k: nat)
      requires Shape() && SymBelow(cfg, s, k) && (IsYmn(s) || Right(s))
      ensures var env := EnvBelow(cfg, user, k);
              TriNow(s) == TriOf(s, env) && StrNow(s) == StrOf(s, env) && RawNow(s) == RawStr(s, env)
    {
      ReadsRight(s, k);
    }

    /** A symbol once calculated still reads right later. */
    lemma StillRight(s: Symbol, k: nat, before: Snapshot, busy: set<Symbol>)
      requires Memo(busy) && BusyAbove(busy, k) && SymBelow(cfg, s, k)
      requires IsYmn(s) || s in before.valid
      requires Kept(cfg, before, Now(), k, {})
      ensures var env := EnvBelow(cfg, user, k);
              TriNow(s) == TriOf(s, env) && StrNow(s) == StrOf(s, env) && RawNow(s) == RawStr(s, env)
    {
      ReadsRight(s, k);
    }

    method CalcExpr(e: Expr, ghost k: nat, ghost busy: set<Symbol>) returns (t: Tri)
      requires Memo(busy) && BusyAbove(busy, k) && ExprBelow(cfg, e, k)
      modifies this
      ensures Memo(busy) && Kept(cfg, old(Now()), Now(), k, {}) && user == old(user)
      ensures t == Eval(e, EnvBelow(cfg, user, k))
      decreases k, 1, e
    {
      hide Kept, Acyclic, AllRight, BusyAbove;
      ghost var a := Now();
      match e
      case Sym(s) =>
        CalcBelow(s, k, busy);
        t := TriNow(s);
      case Bin(op, l, r) =>
        var v := CalcExpr(l, k, busy);
        ghost var b := Now();
        var w := CalcExpr(r, k, busy);
        KeptTrans(cfg, a, b, Now(), k, {});
        t := Apply(op, v, w);
      case Not(x) =>
        var v := CalcExpr(x, k, busy);
        t := Negate(v);
      case Cmp(rel, x, y) =>
        CalcBelow(x, k, busy);
        ghost var b := Now();
        CalcBelow(y, k, busy);
        KeptTrans(cfg, a, b, Now(), k, {});
        StillRight(x, k, b, busy);
        t := FromBool((StrNow(x) == StrNow(y)) == rel.Equal?);
    }

    method AnyPromptNow(prompts: seq<Option<Expr>>, ghost k: nat, ghost busy: set<Symbol>) returns (t: Tri)
      requires Memo(busy) && BusyAbove(busy, k)
      requires forall p :: p in prompts ==> OptionBelow(cfg, p, k)
      modifies this
      ensures Memo(busy) && Kept(cfg, old(Now()), Now(), k, {}) && user == old(user)
      ensures t == AnyPrompt(prompts, EnvBelow(cfg, user, k))
      decreases k, 3
    {
      hide Kept, Acyclic, AllRight, BusyAbove;
      ghost var a := Now();
      KeptRefl(cfg, a, k, {});
      t := NO;
      for n := 0 to |prompts|
        invariant Memo(busy) && Kept(cfg, a, Now(), k, {}) && user == old(user)
        invariant t == AnyPrompt(prompts[..n], EnvBelow(cfg, user, k))
      {
        ghost var b := Now();
        var v := CalcOption(prompts[n], k, busy);
        KeptTrans(cfg, a, b, Now(), k, {});
        t := Apply(OrOp, t, v);
        AnyPromptMore(prompts, n, EnvBelow(cfg, user, k));
      }
      assert prompts[..|prompts|] == prompts;
    }

    method FirstDefaultNow(ds: seq<Default>, ghost k: nat, ghost busy: set<Symbol>) returns (d: Option<Default>)
      requires Memo(busy) && BusyAbove(busy, k)
      requires forall d :: d in ds ==> OptionBelow(cfg, d.visible, k)
      modifies this
      ensures Memo(busy) && Kept(cfg, old(Now()), Now(), k, {}) && user == old(user)
      ensures d == FirstDefault(ds, EnvBelow(cfg, user, k))
      ensures d.Some? ==> d.value in ds
      decreases k, 3
    {
      hide Kept, Acyclic, AllRight, BusyAbove;
      ghost var a := Now();
      KeptRefl(cfg, a, k, {});
      for n := 0 to |ds|
        invariant Memo(busy) && Kept(cfg, a, Now(), k, {}) && user == old(user)
        invariant FirstDefault(ds, EnvBelow(cfg, user, k)) == FirstDefault(ds[n..], EnvBelow(cfg, user, k))
      {
        ghost var b := Now();
        var v := CalcOption(ds[n].visible, k, busy);
        KeptTrans(cfg, a, b, Now(), k, {});
        if v != NO {
          return Some(ds[n]);
        }
      }
      d := None;
    }

    method FirstRangeNow(rs: seq<Range>, ghost k: nat, ghost busy: set<Symbol>) returns (r: Option<Range>)
      requires Memo(busy) && BusyAbove(busy, k)
      requires forall r :: r in rs ==> OptionBelow(cfg, r.visible, k)
      modifies this
      ensures Memo(busy) && Kept(cfg, old(Now()), Now(), k, {}) && user == old(user)
      ensures r == FirstRange(rs, EnvBelow(cfg, user, k))
      ensures r.Some? ==> r.value in rs
      decreases k, 3
    {
      hide Kept, Acyclic, AllRight, BusyAbove;
      ghost var a := Now();
      KeptRefl(cfg, a, k, {});
      for n := 0 to |rs|
        invariant Memo(busy) && Kept(cfg, a, Now(), k, {}) && user == old(user)
        invariant FirstRange(rs, EnvBelow(cfg, user, k)) == FirstRange(rs[n..], EnvBelow(cfg, user, k))
      {
        ghost var b := Now();
        var v := CalcOption(rs[n].visible, k, busy);
        KeptTrans(cfg, a, b, Now(), k, {});
        if v != NO {
          return Some(rs[n]);
        }
      }
      r := None;
    }

    method RangeBoundNow(s: Symbol, base: nat, ghost k: nat, ghost busy: set<Symbol>) returns (n: int)
      requires Memo(busy) && BusyAbove(busy, k) && SymBelow(cfg, s, k)
      modifies this
      ensures Memo(busy) && Kept(cfg, old(Now()), Now(), k, {}) && user == old(user)
      ensures n == RangeBound(cfg, s, base, EnvBelow(cfg, user, k))
      decreases k, 1
    {
      CalcBelow(s, k, busy);
      n := cfg.parse(RawNow(s), Base(TypeOf(s), base));
    }

    lemma ClampIntoIs(typ: SymbolType, range: Range, val: string, env: Env)
      ensures
        var base := Base(typ, 0);
        var n := cfg.parse(val, base);
        var low, high := RangeBound(cfg, range.low, base, env), RangeBound(cfg, range.high, base, env);
        ClampInto(cfg, typ, range, val, env)
          == if n < low then cfg.show(typ, low) else if n <= high then val else cfg.show(typ, high)
    {
    }

    method ClampIntoNow(typ: SymbolType, range: Range, val: string, ghost k: nat, ghost busy: set<Symbol>)
      returns (r: string)
      requires Memo(busy) && BusyAbove(busy, k) && SymBelow(cfg, range.low, k) && SymBelow(cfg, range.high, k)
      modifies this
      ensures Memo(busy) && Kept(cfg, old(Now()), Now(), k, {}) && user == old(user)
      ensures r == ClampInto(cfg, typ, range, val, EnvBelow(cfg, user, k))
      decreases k, 2
    {
      ghost var env := EnvBelow(cfg, user, k);
      hide *;
      ClampIntoIs(typ, range, val, env);
      ghost var a := Now();
      var base := Base(typ, 0);
      var n := cfg.parse(val, base);
      var bound := RangeBoundNow(range.low, base, k, busy);
      if n >= bound {
        ghost var b := Now();
        bound := RangeBoundNow(range.high, base, k, busy);
        KeptTrans(cfg, a, b, Now(), k, {});
        if n <= bound {
          return val;
        }
      }
      r := cfg.show(typ, bound);
    }

    lemma RangesBelow(s: Symbol, busy: set<Symbol>)
      requires s in cfg.symbols && Memo(busy)
      ensures forall r :: r in cfg.info(s).ranges ==> OptionBelow(cfg, r.visible, cfg.rank(s))
      ensures forall r :: r in cfg.info(s).ranges ==>
                SymBelow(cfg, r.low, cfg.rank(s)) && SymBelow(cfg, r.high, cfg.rank(s))
      ensures Shape() && EnvFor(s) == EnvBelow(cfg, user, cfg.rank(s))
    {
      InfoParts(cfg, s);
      hide Acyclic, SymBelow, OptionBelow, AllRight;
    }

    lemma ClampIs(s: Symbol, val: string, env: Env)
      ensures var range := FirstRange(cfg.info(s).ranges, env);
        Clamp(cfg, TypeOf(s), cfg.info(s), val, env)
          == if (TypeOf(s) == IntType || TypeOf(s) == HexType) && range.Some?
             then ClampInto(cfg, TypeOf(s), range.value, val, env) else val
    {
    }

    /** Moves a number into its range. */
    method ClampNow(s: Symbol, val: string, ghost busy: set<Symbol>) returns (r: string)
      requires s in cfg.symbols && Memo(busy) && BusyAbove(busy, cfg.rank(s))
      modifies this
      ensures Memo(busy) && Kept(cfg, old(Now()), Now(), cfg.rank(s), {}) && user == old(user)
      ensures r == Clamp(cfg, TypeOf(s), cfg.info(s), val, EnvFor(s))
      decreases cfg.rank(s), 4
    {
      hide *;
      RangesBelow(s, busy);
      ghost var k, a := cfg.rank(s), Now();
      KeptRefl(cfg, a, k, {});
      ClampIs(s, val, EnvFor(s));
      r := val;
      if TypeOf(s) == IntType || TypeOf(s) == HexType {
        var range := FirstRangeNow(cfg.info(s).ranges, k, busy);
        if range.Some? {
          ghost var b := Now();
          r := ClampIntoNow(TypeOf(s), range.value, val, k, busy);
          KeptTrans(cfg, a, b, Now(), k, {});
        }
      }
      RangesBelow(s, busy);
    }

    method DeselectedNow(s: Symbol, ghost busy: set<Symbol>) returns (b: bool)
      requires s in cfg.symbols && Memo(busy) && BusyAbove(busy, cfg.rank(s))
      modifies this
      ensures Memo(busy) && Kept(cfg, old(Now()), Now(), cfg.rank(s), {}) && user == old(user)
      ensures b == Deselected(cfg.info(s), EnvFor(s))
      decreases cfg.rank(s), 4
    {
      hide Acyclic, Right;
      InfoParts(cfg, s);
      b := false;
      if cfg.info(s).deselectedBy.Some? {
        var d := CalcExpr(cfg.info(s).deselectedBy.value, cfg.rank(s), busy);
        b := d == YES;
      }
    }

    method PromptsNow(s: Symbol, ghost busy: set<Symbol>) returns (tri: Tri)
      requires s in cfg.symbols && Memo(busy) && BusyAbove(busy, cfg.rank(s))
      modifies this
      ensures Memo(busy) && Kept(cfg, old(Now()), Now(), cfg.rank(s), {}) && user == old(user)
      ensures tri == PromptVisibility(TypeOf(s), cfg.info(s).prompts, EnvFor(s))
      decreases cfg.rank(s), 4
    {
      hide Acyclic, Right;
      InfoParts(cfg, s);
      tri := AnyPromptNow(cfg.info(s).prompts, cfg.rank(s), busy);
      if tri == MOD && TypeOf(s) != TristateType {
        tri := YES;
      }
    }

    method SelectedNow(s: Symbol, ghost busy: set<Symbol>) returns (tri: Tri)
      requires s in cfg.symbols && Memo(busy) && BusyAbove(busy, cfg.rank(s))
      modifies this
      ensures Memo(busy) && Kept(cfg, old(Now()), Now(), cfg.rank(s), {}) && user == old(user)
      ensures tri == Selected(TypeOf(s), cfg.info(s), EnvFor(s))
      decreases cfg.rank(s), 4
    {
      hide Acyclic, Right;
      InfoParts(cfg, s);
      tri := NO;
      if cfg.info(s).selectedBy.Some? {
        tri := CalcExpr(cfg.info(s).selectedBy.value, cfg.rank(s), busy);
      }
      if tri == MOD && TypeOf(s) == BooleanType {
        tri := YES;
      }
    }

    /** The visibility the prompts give, unless s is deselected. */
    method ShownNow(s: Symbol, ghost busy: set<Symbol>) returns (tri: Tri, deselected: bool)
      requires s in cfg.symbols && Memo(busy) && BusyAbove(busy, cfg.rank(s))
      modifies this
      ensures Memo(busy) && Kept(cfg, old(Now()), Now(), cfg.rank(s), {}) && user == old(user)
      ensures deselected == Deselected(cfg.info(s), EnvFor(s))
      ensures tri == if deselected then NO else PromptVisibility(TypeOf(s), cfg.info(s).prompts, EnvFor(s))
      decreases cfg.rank(s), 5
    {
      hide Acyclic, AllRight, BusyAbove, Kept, PromptVisibility, Deselected, EnvBelow;
      ghost var a := Now();
      tri := PromptsNow(s, busy);
      ghost var b := Now();
      deselected := DeselectedNow(s, busy);
      KeptTrans(cfg, a, b, Now(), cfg.rank(s), {});
      if deselected {
        tri := NO;
      }
    }

    method CalcSelected(s: Symbol, ghost busy: set<Symbol>)
      requires s in cfg.symbols && s in busy && Memo(busy) && BusyAbove(busy, cfg.rank(s))
      modifies this
      ensures Memo(busy) && Kept(cfg, old(Now()), Now(), cfg.rank(s), {s}) && user == old(user)
      ensures visible[s] == old(visible[s]) && selected[s] == Selected(TypeOf(s), cfg.info(s), EnvFor(s))
      decreases cfg.rank(s), 5
    {
      hide Acyclic, AllRight, BusyAbove, Kept, Selected, EnvBelow;
      ghost var k, a := cfg.rank(s), Now();
      var tri := SelectedNow(s, busy);
      KeptSymbol(cfg, a, Now(), k, s);
      KeptWeaken(cfg, a, Now(), k, k, {s});
      ghost var b := Now();
      SetSelected(s, tri, busy);
      KeptTrans(cfg, a, b, Now(), k, {s});
    }

    method CalcVisibility(s: Symbol, ghost busy: set<Symbol>)
      requires s in cfg.symbols && s in busy && Memo(busy) && BusyAbove(busy, cfg.rank(s))
      modifies this
      ensures Memo(busy) && Kept(cfg, old(Now()), Now(), cfg.rank(s), {s}) && user == old(user)
      ensures VisibleOk(cfg, user, s, visible[s], selected[s])
      decreases cfg.rank(s), 6
    {
      hide Acyclic, AllRight, BusyAbove, Kept, PromptVisibility, Deselected, Selected, EnvBelow, VisibleOk;
      ghost var k, a := cfg.rank(s), Now();
      var tri, deselected := ShownNow(s, busy);
      KeptWeaken(cfg, a, Now(), k, k, {s});
      ghost var b := Now();
      SetVisible(s, tri, busy);
      KeptTrans(cfg, a, b, Now(), k, {s});
      if deselected {
        VisibleDeselected(cfg, user, s, selected[s]);
        return;
      }
      b := Now();
      CalcSelected(s, busy);
      KeptTrans(cfg, a, b, Now(), k, {s});
      VisibleShown(cfg, user, s);
    }

    /** Writing a field of a symbol that is still being computed. */
    method SetVisible(s: Symbol, t: Tri, ghost busy: set<Symbol>)
      requires s in cfg.symbols && s in busy && Memo(busy)
      modifies this`visible
      ensures visible == old(visible)[s := t] && Memo(busy)
      ensures Kept(cfg, old(Now()), Now(), cfg.rank(s), {s})
    {
      visible := visible[s := t];
      assert forall x :: x in valid && x !in busy ==> old(Right(x)) && Right(x);
    }

    method SetSelected(s: Symbol, t: Tri, ghost busy: set<Symbol>)
      requires s in cfg.symbols && s in busy && Memo(busy)
      modifies this`selected
      ensures selected == old(selected)[s := t] && Memo(busy)
      ensures Kept(cfg, old(Now()), Now(), cfg.rank(s), {s})
    {
      selected := selected[s := t];
      assert forall x :: x in valid && x !in busy ==> old(Right(x)) && Right(x);
    }

    method SetCurr(s: Symbol, v: Value, ghost busy: set<Symbol>)
      requires s in cfg.symbols && s in busy && Memo(busy)
      modifies this`curr
      ensures curr == old(curr)[s := v] && Memo(busy)
      ensures Kept(cfg, old(Now()), Now(), cfg.rank(s), {s})
    {
      curr := curr[s := v];
      assert forall x :: x in valid && x !in busy ==> old(Right(x)) && Right(x);
    }

    method DefaultTriNow(s: Symbol, ghost busy: set<Symbol>) returns (tri: Tri)
      requires s in cfg.symbols && Memo(busy) && BusyAbove(busy, cfg.rank(s))
      modifies this
      ensures Memo(busy) && Kept(cfg, old(Now()), Now(), cfg.rank(s), {}) && user == old(user)
      ensures tri == DefaultTri(cfg.info(s), EnvFor(s))
      decreases cfg.rank(s), 4
    {
      hide Acyclic, AllRight, BusyAbove, Kept, FirstDefault;
      InfoParts(cfg, s);
      ghost var a := Now();
      tri := NO;
      var d := FirstDefaultNow(cfg.info(s).defaults, cfg.rank(s), busy);
      if d.Some? {
        ghost var b := Now();
        tri := CalcExpr(d.value.expr, cfg.rank(s), busy);
        KeptTrans(cfg, a, b, Now(), cfg.rank(s), {});
      }
    }

    method DefaultStrNow(s: Symbol, ghost busy: set<Symbol>) returns (val: string)
      requires s in cfg.symbols && Memo(busy) && BusyAbove(busy, cfg.rank(s))
      modifies this
      ensures Memo(busy) && Kept(cfg, old(Now()), Now(), cfg.rank(s), {}) && user == old(user)
      ensures val == DefaultStr(cfg.info(s), EnvFor(s))
      decreases cfg.rank(s), 4
    {
      hide Acyclic, AllRight, BusyAbove, Kept, FirstDefault;
      InfoParts(cfg, s);
      ghost var a := Now();
      val := "";
      var d := FirstDefaultNow(cfg.info(s).defaults, cfg.rank(s), busy);
      if d.Some? && d.value.expr.Sym? {
        ghost var b := Now();
        CalcBelow(d.value.expr.sym, cfg.rank(s), busy);
        KeptTrans(cfg, a, b, Now(), cfg.rank(s), {});
        val := RawNow(d.value.expr.sym);
      }
    }

    method CalcTri(s: Symbol, ghost busy: set<Symbol>) returns (tri: Tri)
      requires s in cfg.symbols && Memo(busy) && BusyAbove(busy, cfg.rank(s))
      requires VisibleOk(cfg, user, s, visible[s], selected[s])
      modifies this
      ensures Memo(busy) && Kept(cfg, old(Now()), Now(), cfg.rank(s), {}) && user == old(user)
      ensures tri == TriValue(TypeOf(s), cfg.info(s), user[s], EnvFor(s))
      decreases cfg.rank(s), 5
    {
      hide Acyclic, AllRight, Kept, Visibility, Deselected, Selected, DefaultTri, BusyAbove, EnvBelow;
      ghost var k, a := cfg.rank(s), Now();
      tri := NO;
      var deselected := DeselectedNow(s, busy);
      KeptSymbol(cfg, a, Now(), k, s);
      ghost var b := Now();
      if deselected {
      } else if Apply(OrOp, visible[s], selected[s]) != NO {
        if !user[s].isNew {
          tri := user[s].tri;
        } else {
          tri := DefaultTriNow(s, busy);
          KeptTrans(cfg, a, b, Now(), k, {});
          KeptSymbol(cfg, a, Now(), k, s);
        }
        tri := Apply(OrOp, Apply(AndOp, tri, visible[s]), selected[s]);
      } else {
        tri := DefaultTriNow(s, busy);
        KeptTrans(cfg, a, b, Now(), k, {});
      }
      if tri == MOD && TypeOf(s) == BooleanType {
        tri := YES;
      }
    }

    method CalcStr(s: Symbol, ghost busy: set<Symbol>) returns (val: string)
      requires s in cfg.symbols && Memo(busy) && BusyAbove(busy, cfg.rank(s))
      requires VisibleOk(cfg, user, s, visible[s], selected[s])
      modifies this
      ensures Memo(busy) && Kept(cfg, old(Now()), Now(), cfg.rank(s), {}) && user == old(user)
      ensures val == StrValue(cfg, TypeOf(s), cfg.info(s), user[s], EnvFor(s))
      decreases cfg.rank(s), 5
    {
      hide Acyclic, AllRight, Kept, Visibility, Clamp, DefaultStr, BusyAbove;
      ghost var a := Now();
      KeptRefl(cfg, a, cfg.rank(s), {});
      if visible[s] != NO && !user[s].isNew {
        val := user[s].val;
      } else {
        val := DefaultStrNow(s, busy);
      }
      ghost var b := Now();
      val := ClampNow(s, val, busy);
      KeptTrans(cfg, a, b, Now(), cfg.rank(s), {});
    }

    lemma ValidIsRight(s: Symbol, busy: set<Symbol>)
      requires Memo(busy) && BusyAbove(busy, Top(s)) && (IsYmn(s) || s in valid)
      ensures IsYmn(s) || Right(s)
    {}

    lemma NowRight(s: Symbol, busy: set<Symbol>)
      requires s in cfg.symbols && Memo(busy + {s}) && Right(s)
      ensures Memo(busy)
    {}

    /** Makes the value of s valid.  In an acyclic configuration the flag can be set
        before the value is computed, because nobody asks for s meanwhile. */
    method CalcValue(s: Symbol, ghost busy: set<Symbol>)
      requires IsYmn(s) || s in cfg.symbols
      requires Memo(busy) && BusyAbove(busy, Top(s))
      modifies this
      ensures Memo(busy) && Kept(cfg, old(Now()), Now(), Top(s), {})
      ensures IsYmn(s) || (s in valid && Right(s))
      decreases Top(s), 0, 0
    {
      hide Acyclic, AllRight, Kept, Right;
      ghost var a := Now();
      KeptRefl(cfg, a, Top(s), {});
      if IsYmn(s) || s in valid {
        ValidIsRight(s, busy);
        return;
      }
      Flag(s, busy);
      ghost var b := Now();
      FillIn(s, busy + {s});
      KeptClose(cfg, b, Now(), s);
      KeptTrans(cfg, a, b, Now(), Top(s), {});
      NowRight(s, busy);
      FlagStays(cfg, b, Now(), s);
    }

    /** Flags s as valid although its value is still to be computed. */
    method Flag(s: Symbol, ghost busy: set<Symbol>)
      requires s in cfg.symbols && Memo(busy)
      modifies this`valid
      ensures valid == old(valid) + {s} && Memo(busy + {s})
      ensures Kept(cfg, old(Now()), Now(), cfg.rank(s) + 1, {})
    {
      valid := valid + {s};
      assert forall x :: x in valid && x !in busy + {s} ==> old(Right(x)) && Right(x);
    }

    lemma RightByParts(s: Symbol)
      requires Shape() && s in cfg.symbols
      requires curr[s] == ValueGiven(cfg, s, user[s], EnvFor(s))
      requires TypeOf(s) != UnknownType ==> VisibleOk(cfg, user, s, visible[s], selected[s])
      ensures Right(s)
    {}

    method ValueNow(s: Symbol, ghost busy: set<Symbol>) returns (value: Value)
      requires s in cfg.symbols && TypeOf(s) != UnknownType && Memo(busy) && BusyAbove(busy, cfg.rank(s))
      requires VisibleOk(cfg, user, s, visible[s], selected[s])
      modifies this
      ensures Memo(busy) && Kept(cfg, old(Now()), Now(), cfg.rank(s), {}) && user == old(user)
      ensures value == ValueGiven(cfg, s, user[s], EnvFor(s))
      decreases cfg.rank(s), 6
    {
      hide Acyclic, AllRight, BusyAbove, Kept, VisibleOk, TriValue, StrValue, EnvBelow;
      if IsTriType(s) {
        var tri := CalcTri(s, busy);
        value := Value("n", tri);
      } else {
        var val := CalcStr(s, busy);
        value := Value(val, NO);
      }
    }

    /** Computes everything about s. */
    method FillIn(s: Symbol, ghost busy: set<Symbol>)
      requires s in cfg.symbols && s in busy && s in valid && Memo(busy) && BusyAbove(busy, cfg.rank(s))
      modifies this
      ensures Memo(busy) && Kept(cfg, old(Now()), Now(), cfg.rank(s), {s}) && user == old(user)
      ensures Right(s)
      decreases cfg.rank(s), 7
    {
      hide Acyclic, AllRight, BusyAbove, Kept, VisibleOk, Right, EnvBelow, ValueOf;
      ghost var k, a := cfg.rank(s), Now();
      if TypeOf(s) == UnknownType {
        SetCurr(s, Value(cfg.info(s).name, NO), busy);
        RightByParts(s);
        return;
      }
      CalcVisibility(s, busy);
      ghost var b := Now();
      SetCurr(s, Value(if IsTriType(s) then "n" else "", NO), busy);
      KeptTrans(cfg, a, b, Now(), k, {s});
      b := Now();
      var value := ValueNow(s, busy);
      KeptSymbol(cfg, b, Now(), k, s);
      KeptWeaken(cfg, b, Now(), k, k, {s});
      KeptTrans(cfg, a, b, Now(), k, {s});
      b := Now();
      SetCurr(s, value, busy);
      KeptTrans(cfg, a, b, Now(), k, {s});
      RightByParts(s);
    }

    // ----- changing settings -----

    constructor (cfg: Config, modules: Option<Symbol>)
      requires Acyclic(cfg) && (modules.Some? ==> modules.value in cfg.symbols)
      ensures this.cfg == cfg && this.modules == modules
      ensures Memo({}) && valid == {}
    {
      this.cfg := cfg;
      this.modules := modules;
      user := map s | s in cfg.symbols :: User(NO, "", true);
      valid := {};
      curr := map s | s in cfg.symbols :: Value("", NO);
      visible := map s | s in cfg.symbols :: NO;
      selected := map s | s in cfg.symbols :: NO;
    }

    /** Forgets all values, then computes the modules symbol again. */
    method ClearAllValid()
      requires Shape()
      modifies this
      ensures Memo({}) && user == old(user)
    {
      hide Acyclic, EnvBelow, ValueOf;
      valid := {};
      if modules.Some? {
        CalcValue(modules.value, {});
      }
    }

    /** Whether the user may set s to v. */
    predicate WithinRange(s: Symbol, v: Tri)
      requires s in visible && s in selected
      reads this
    {
      && visible[s] != NO
      && IsTriType(s)
      && !(TypeOf(s) == BooleanType && v == MOD)
      && visible[s] > selected[s]
      && selected[s] <= v <= visible[s]
    }

    /** In terms of the properties: the prompts allow more than select demands, and v is
        one of the values in between that the type has. */
    lemma WithinRangeIff(s: Symbol, v: Tri, shown: Tri, demanded: Tri)
      requires Memo({}) && s in valid && IsTriType(s)
      requires IsShown(TypeOf(s), cfg.info(s), EnvFor(s), shown)
      requires IsDemanded(TypeOf(s), cfg.info(s), EnvFor(s), demanded)
      ensures WithinRange(s, v) <==>
        && !IsDeselected(cfg.info(s), EnvFor(s)) && demanded < shown && demanded <= v <= shown
        && !(TypeOf(s) == BooleanType && v == MOD)
    {
      assert Right(s);
      if !IsDeselected(cfg.info(s), EnvFor(s)) {
        ShownIs(TypeOf(s), cfg.info(s), EnvFor(s), shown);
      }
      hide EnvBelow, Visibility, IsShown, ValueOf, AllRight, Acyclic;
    }

    /** Sets a calculated symbol.  The new setting takes effect exactly as asked, and
        every value still flagged valid is right for it, also when the setting equals
        the present value and nothing is recalculated. */
    method SetTristate(s: Symbol, v: Tri) returns (ok: bool)
      requires Memo({}) && s in valid && IsTriType(s)
      modifies this
      ensures Memo({})
      ensures ok == (v == old(curr[s].tri) || old(WithinRange(s, v)))
      ensures !ok ==> Now() == old(Now())
      ensures ok ==> user == old(user)[s := old(user[s]).(tri := v, isNew := false)]
      ensures ok && v == old(curr[s].tri) ==> valid == old(valid) && curr == old(curr)
      ensures ok ==> ValueOf(cfg, user, s).tri == v
    {
      hide Acyclic, AllRight, EnvBelow, ValueOf;
      ValidIsRight(s, {});
      var oldval := curr[s].tri;
      if oldval != v && !WithinRange(s, v) {
        return false;
      }
      ghost var before := user;
      var setting := user[s].(tri := v, isNew := false);
      if oldval == v {
        SameSetting(cfg, before, s, v);
        Reset(s, setting);
      } else {
        SettingTakesEffect(cfg, before, s, v, visible[s], selected[s]);
        user := user[s := setting];
        ClearAllValid();
      }
      return true;
    }

    /** The next value in the cycle n, m, y that the symbol can take. */
    method Toggle(s: Symbol) returns (v: Tri)
      requires Memo({}) && s in valid && IsTriType(s)
      modifies this
      ensures Memo({})
      ensures user == old(user)[s := old(user[s]).(tri := v, isNew := false)]
      ensures ValueOf(cfg, user, s).tri == v
      ensures v == old(curr[s].tri) || old(WithinRange(s, v))
      ensures forall w: Tri :: w != old(curr[s].tri) && old(WithinRange(s, w)) ==>
                v != old(curr[s].tri) && Steps(old(curr[s].tri), v) <= Steps(old(curr[s].tri), w)
    {
      hide Acyclic, AllRight, ValueOf;
      var oldval := curr[s].tri;
      v := oldval;
      var done := false;
      while !done
        invariant Memo({})
        invariant !done ==> Now() == old(Now())
        invariant !done ==>
          forall w: Tri :: w != oldval && old(WithinRange(s, w)) ==> Steps(oldval, v) < Steps(oldval, w)
        invariant done ==> user == old(user)[s := old(user[s]).(tri := v, isNew := false)]
        invariant done ==> ValueOf(cfg, user, s).tri == v
        invariant done ==> v == oldval || old(WithinRange(s, v))
        invariant done ==> forall w: Tri :: w != oldval && old(WithinRange(s, w)) ==>
                             v != oldval && Steps(oldval, v) <= Steps(oldval, w)
        decreases if done then 0 else 3 - Steps(oldval, v)
      {
        v := Next(v);
        done := SetTristate(s, v);
      }
    }

    /** How many steps of the cycle lead from a to b. */
    static function Steps(a: Tri, b: Tri): nat {
      if b >= a then b - a else b - a + 3
    }

    static function Next(t: Tri): Tri {
      if t == NO then MOD else if t == MOD then YES else NO
    }

    /** Any run of calculations and settings, in any order. */
    method Run(actions: seq<Action>)
      requires Memo({})
      requires forall a :: a in actions ==> a.sym in cfg.symbols
      modifies this
      ensures Memo({})
      ensures forall s :: s in valid ==> curr[s] == ValueOf(cfg, user, s)
    {
      for n := 0 to |actions|
        invariant Memo({})
      {
        var a := actions[n];
        assert a in actions;
        if a.Calculate? {
          CalcValue(a.sym, {});
        } else if a.sym in valid && IsTriType(a.sym) {
          var _ := SetTristate(a.sym, a.value);
        }
      }
      assert forall s :: s in valid ==> Right(s);
    }

    /** A setting that changes no value changes nothing that is in the table. */
    method Reset(s: Symbol, setting: User)
      requires Memo({}) && s in cfg.symbols
      requires ValueGiven(cfg, s, setting, EnvFor(s)) == ValueOf(cfg, user, s)
      modifies this`user
      ensures user == old(user)[s := setting] && Memo({})
    {
      ghost var before := user;
      user := user[s := setting];
      forall x | x in valid ensures Right(x) {
        assert old(Right(x));
        ValuesUnchanged(cfg, before, user, s, x);
        EnvUnchanged(cfg, before, user, s, cfg.rank(x));
        InfoParts(cfg, x);
        var k := cfg.rank(x);
        VisibilityAgrees(cfg, TypeOf(x), cfg.info(x), EnvBelow(cfg, before, k), EnvBelow(cfg, user, k), k);
      }
    }
  }

  // ----- what a new setting does -----

  lemma {:induction false} ValuesUnchanged(
    cfg: Config, user: map<Symbol, User>, user': map<Symbol, User>, s: Symbol, t: Symbol)
    requires Acyclic(cfg) && user.Keys == cfg.symbols && s in cfg.symbols && t in cfg.symbols
    requires s in user' && user' == user[s := user'[s]]
    requires ValueGiven(cfg, s, user'[s], EnvBelow(cfg, user, cfg.rank(s))) == ValueOf(cfg, user, s)
    ensures ValueOf(cfg, user', t) == ValueOf(cfg, user, t)
    decreases cfg.rank(t), 1
  {
    EnvUnchanged(cfg, user, user', s, cfg.rank(t));
    ValueGivenAgrees(cfg, t, user'[t], EnvBelow(cfg, user, cfg.rank(t)), EnvBelow(cfg, user', cfg.rank(t)));
  }

  lemma {:induction false} EnvUnchanged(
    cfg: Config, user: map<Symbol, User>, user': map<Symbol, User>, s: Symbol, k: nat)
    requires Acyclic(cfg) && user.Keys == cfg.symbols && s in cfg.symbols
    requires s in user' && user' == user[s := user'[s]]
    requires ValueGiven(cfg, s, user'[s], EnvBelow(cfg, user, cfg.rank(s))) == ValueOf(cfg, user, s)
    ensures AgreeBelow(cfg, EnvBelow(cfg, user, k), EnvBelow(cfg, user', k), k)
    decreases k, 0
  {
    forall t | t in cfg.symbols && cfg.rank(t) < k ensures ValueOf(cfg, user', t) == ValueOf(cfg, user, t) {
      ValuesUnchanged(cfg, user, user', s, t);
    }
  }

  /** A setting does not reach symbols of no greater rank. */
  lemma {:induction false} LowerUnchanged(cfg: Config, user: map<Symbol, User>, s: Symbol, u: User, k: nat)
    requires Acyclic(cfg) && user.Keys == cfg.symbols && s in cfg.symbols && k <= cfg.rank(s)
    ensures AgreeBelow(cfg, EnvBelow(cfg, user, k), EnvBelow(cfg, user[s := u], k), k)
    decreases k
  {
    forall t | t in cfg.symbols && cfg.rank(t) < k
      ensures ValueOf(cfg, user[s := u], t) == ValueOf(cfg, user, t)
    {
      LowerUnchanged(cfg, user, s, u, cfg.rank(t));
      ValueGivenAgrees(cfg, t, user[t], EnvBelow(cfg, user, cfg.rank(t)), EnvBelow(cfg, user[s := u], cfg.rank(t)));
    }
  }

  /** Setting a symbol to the value it has changes no value at all. */
  lemma SameSetting(cfg: Config, user: map<Symbol, User>, s: Symbol, v: Tri)
    requires Acyclic(cfg) && user.Keys == cfg.symbols && s in cfg.symbols && IsTriType(s)
    requires v == ValueOf(cfg, user, s).tri
    ensures ValueGiven(cfg, s, user[s].(tri := v, isNew := false), EnvBelow(cfg, user, cfg.rank(s)))
         == ValueOf(cfg, user, s)
    ensures ValueOf(cfg, user[s := user[s].(tri := v, isNew := false)], s).tri == v
  {
    var u := user[s].(tri := v, isNew := false);
    TriValueSettles(TypeOf(s), cfg.info(s), user[s], u, EnvBelow(cfg, user, cfg.rank(s)));
    LowerUnchanged(cfg, user, s, u, cfg.rank(s));
    ValueGivenAgrees(cfg, s, u, EnvBelow(cfg, user, cfg.rank(s)), EnvBelow(cfg, user[s := u], cfg.rank(s)));
  }

  lemma TriValueSettles(typ: SymbolType, i: Info, u: User, u': User, env: Env)
    requires typ == BooleanType || typ == TristateType
    requires !u'.isNew && u'.tri == TriValue(typ, i, u, env)
    ensures TriValue(typ, i, u', env) == TriValue(typ, i, u, env)
  {
    hide DefaultTri, Deselected, AnyPrompt;
  }

  /** An accepted setting is the value the symbol gets. */
  lemma SettingTakesEffect(cfg: Config, user: map<Symbol, User>, s: Symbol, v: Tri, visible: Tri, selected: Tri)
    requires Acyclic(cfg) && user.Keys == cfg.symbols && s in cfg.symbols && IsTriType(s)
    requires VisibleOk(cfg, user, s, visible, selected)
    requires visible != NO && !(TypeOf(s) == BooleanType && v == MOD) && selected <= v <= visible
    ensures ValueOf(cfg, user[s := user[s].(tri := v, isNew := false)], s).tri == v
  {
    var u := user[s].(tri := v, isNew := false);
    LowerUnchanged(cfg, user, s, u, cfg.rank(s));
    ValueGivenAgrees(cfg, s, u, EnvBelow(cfg, user, cfg.rank(s)), EnvBelow(cfg, user[s := u], cfg.rank(s)));
  }
}
