/** What the value of a configuration symbol is: the recursive definition that the
    memoised evaluator is measured against. */
module Symbols {
  import opened Options
  import opened Tristate
  import opened Expressions
  import opened Normalize

  datatype Value = Value(val: string, tri: Tri)

  /** A user setting; `isNew` until the user or a file sets it. */
  datatype User = User(tri: Tri, val: string, isNew: bool)

  datatype Default = Default(visible: Option<Expr>, expr: Expr)
  datatype Range = Range(visible: Option<Expr>, low: Symbol, high: Symbol)

  /** The properties of a symbol, each kind in the order of the property list. */
  datatype Info = Info(
    name: string,
    prompts: seq<Option<Expr>>,
    defaults: seq<Default>,
    ranges: seq<Range>,
    selectedBy: Option<Expr>,
    deselectedBy: Option<Expr>)

  /** A choice-free configuration.  Number parsing and printing are parameters; the
      rank is a witness that dependencies have no cycle. */
  datatype Config = Config(
    symbols: set<Symbol>,
    info: Symbol -> Info,
    parse: (string, nat) -> int,
    show: (SymbolType, int) -> string,
    rank: Symbol -> nat)

  predicate IsYmn(s: Symbol) {
    s.SymYes? || s.SymMod? || s.SymNo?
  }

  // ----- dependencies -----

  predicate SymBelow(cfg: Config, s: Symbol, k: nat) {
    IsYmn(s) || (s in cfg.symbols && cfg.rank(s) < k)
  }

  predicate ExprBelow(cfg: Config, e: Expr, k: nat) {
    match e
    case Sym(s) => SymBelow(cfg, s, k)
    case Cmp(_, a, b) => SymBelow(cfg, a, k) && SymBelow(cfg, b, k)
    case Not(a) => ExprBelow(cfg, a, k)
    case Bin(_, l, r) => ExprBelow(cfg, l, k) && ExprBelow(cfg, r, k)
  }

  predicate OptionBelow(cfg: Config, e: Option<Expr>, k: nat) {
    e.Some? ==> ExprBelow(cfg, e.value, k)
  }

  /** Everything s depends on, through prompts, defaults, ranges, select and
      deselect, has a smaller rank. */
  predicate InfoBelow(cfg: Config, i: Info, k: nat) {
    && (forall p :: p in i.prompts ==> OptionBelow(cfg, p, k))
    && (forall d :: d in i.defaults ==> OptionBelow(cfg, d.visible, k) && ExprBelow(cfg, d.expr, k))
    && (forall r :: r in i.ranges ==>
          OptionBelow(cfg, r.visible, k) && SymBelow(cfg, r.low, k) && SymBelow(cfg, r.high, k))
    && OptionBelow(cfg, i.selectedBy, k)
    && OptionBelow(cfg, i.deselectedBy, k)
  }

  /** Dependencies are acyclic, and quoted constants are named after their text. */
  ghost predicate Acyclic(cfg: Config) {
    forall s :: s in cfg.symbols ==>
      && !IsYmn(s)
      && InfoBelow(cfg, cfg.info(s), cfg.rank(s))
      && (s.Quoted? ==> cfg.info(s).name == s.text)
  }

  lemma InfoParts(cfg: Config, s: Symbol)
    requires Acyclic(cfg) && s in cfg.symbols
    ensures InfoBelow(cfg, cfg.info(s), cfg.rank(s)) && !IsYmn(s)
  {}

  // ----- one symbol, given the values of the others -----

  function AnyPrompt(prompts: seq<Option<Expr>>, env: Env): Tri {
    if prompts == [] then NO
    else Apply(OrOp, AnyPrompt(prompts[..|prompts| - 1], env), EvalOption(prompts[|prompts| - 1], env))
  }

  lemma AnyPromptMore(prompts: seq<Option<Expr>>, n: nat, env: Env)
    requires n < |prompts|
    ensures AnyPrompt(prompts[..n + 1], env) == Apply(OrOp, AnyPrompt(prompts[..n], env), EvalOption(prompts[n], env))
  {
    assert prompts[..n + 1][..n] == prompts[..n];
  }

  predicate Deselected(i: Info, env: Env) {
    i.deselectedBy.Some? && Eval(i.deselectedBy.value, env) == YES
  }

  function PromptVisibility(typ: SymbolType, prompts: seq<Option<Expr>>, env: Env): Tri {
    var tri := AnyPrompt(prompts, env);
    if tri == MOD && typ != TristateType then YES else tri
  }

  function Visibility(typ: SymbolType, i: Info, env: Env): Tri {
    if Deselected(i, env) then NO else PromptVisibility(typ, i.prompts, env)
  }

  /** The lower bound that select imposes. */
  function Selected(typ: SymbolType, i: Info, env: Env): Tri {
    var tri := if i.selectedBy.Some? then Eval(i.selectedBy.value, env) else NO;
    if tri == MOD && typ == BooleanType then YES else tri
  }

  function FirstDefault(ds: seq<Default>, env: Env): Option<Default> {
    if ds == [] then None
    else if EvalOption(ds[0].visible, env) != NO then Some(ds[0])
    else FirstDefault(ds[1..], env)
  }

  function FirstRange(rs: seq<Range>, env: Env): Option<Range> {
    if rs == [] then None
    else if EvalOption(rs[0].visible, env) != NO then Some(rs[0])
    else FirstRange(rs[1..], env)
  }

  /** The value of the first default that applies. */
  function DefaultTri(i: Info, env: Env): Tri {
    var d := FirstDefault(i.defaults, env);
    if d.Some? then Eval(d.value.expr, env) else NO
  }

  function DefaultStr(i: Info, env: Env): string {
    var d := FirstDefault(i.defaults, env);
    if d.Some? && d.value.expr.Sym? then RawStr(d.value.expr.sym, env) else ""
  }

  /** The value of a boolean or tristate symbol. */
  function TriValue(typ: SymbolType, i: Info, u: User, env: Env): Tri {
    var visible, selected := Visibility(typ, i, env), Selected(typ, i, env);
    var tri :=
      if Deselected(i, env) then NO
      else if Apply(OrOp, visible, selected) != NO then
        Apply(OrOp, Apply(AndOp, if u.isNew then DefaultTri(i, env) else u.tri, visible), selected)
      else DefaultTri(i, env);
    if tri == MOD && typ == BooleanType then YES else tri
  }

  /** What the evaluator stores in the string part of a symbol's value. */
  function RawStr(s: Symbol, env: Env): string {
    if IsTriType(s) then "n" else StrOf(s, env)
  }

  function Base(typ: SymbolType, base: nat): nat {
    if typ == IntType then 10 else if typ == HexType then 16 else base
  }

  function RangeBound(cfg: Config, s: Symbol, base: nat, env: Env): int {
    cfg.parse(RawStr(s, env), Base(TypeOf(s), base))
  }

  /** A number moved into a range. */
  function ClampInto(cfg: Config, typ: SymbolType, r: Range, val: string, env: Env): string {
    var base := Base(typ, 0);
    var n := cfg.parse(val, base);
    var low, high := RangeBound(cfg, r.low, base, env), RangeBound(cfg, r.high, base, env);
    if n < low then cfg.show(typ, low) else if n <= high then val else cfg.show(typ, high)
  }

  /** A number moved into the first range that applies. */
  function Clamp(cfg: Config, typ: SymbolType, i: Info, val: string, env: Env): string {
    if typ != IntType && typ != HexType then val else
    var r := FirstRange(i.ranges, env);
    if r.None? then val else ClampInto(cfg, typ, r.value, val, env)
  }

  function StrValue(cfg: Config, typ: SymbolType, i: Info, u: User, env: Env): string {
    var val := if Visibility(typ, i, env) != NO && !u.isNew then u.val else DefaultStr(i, env);
    Clamp(cfg, typ, i, val, env)
  }

  function ValueGiven(cfg: Config, s: Symbol, u: User, env: Env): Value {
    var i := cfg.info(s);
    match TypeOf(s)
    case BooleanType => Value("n", TriValue(BooleanType, i, u, env))
    case TristateType => Value("n", TriValue(TristateType, i, u, env))
    case UnknownType => Value(i.name, NO)
    case typ => Value(StrValue(cfg, typ, i, u, env), NO)
  }

  // ----- all symbols -----

  /** The value of s under the user's settings. */
  ghost function ValueOf(cfg: Config, user: map<Symbol, User>, s: Symbol): Value
    requires Acyclic(cfg) && user.Keys == cfg.symbols && s in cfg.symbols
    decreases cfg.rank(s), 1
  {
    ValueGiven(cfg, s, user[s], EnvBelow(cfg, user, cfg.rank(s)))
  }

  /** The values of all symbols of rank below k. */
  ghost function EnvBelow(cfg: Config, user: map<Symbol, User>, k: nat): Env
    requires Acyclic(cfg) && user.Keys == cfg.symbols
    decreases k, 0
  {
    Env(s => if s in cfg.symbols && cfg.rank(s) < k then ValueOf(cfg, user, s).tri else NO,
        s => if s in cfg.symbols && cfg.rank(s) < k then ValueOf(cfg, user, s).val else "")
  }

  // ----- values depend on what is mentioned only -----

  ghost predicate AgreeBelow(cfg: Config, a: Env, b: Env, k: nat) {
    forall s :: SymBelow(cfg, s, k) ==> TriOf(s, a) == TriOf(s, b) && StrOf(s, a) == StrOf(s, b)
  }

  lemma {:induction false} EvalAgrees(cfg: Config, e: Expr, a: Env, b: Env, k: nat)
    requires AgreeBelow(cfg, a, b, k) && ExprBelow(cfg, e, k)
    ensures Eval(e, a) == Eval(e, b)
  {
    match e
    case Sym(_) =>
    case Cmp(_, _, _) =>
    case Not(x) => EvalAgrees(cfg, x, a, b, k);
    case Bin(_, l, r) =>
      EvalAgrees(cfg, l, a, b, k);
      EvalAgrees(cfg, r, a, b, k);
  }

  lemma OptionAgrees(cfg: Config, e: Option<Expr>, a: Env, b: Env, k: nat)
    requires AgreeBelow(cfg, a, b, k) && OptionBelow(cfg, e, k)
    ensures EvalOption(e, a) == EvalOption(e, b)
  {
    if e.Some? {
      EvalAgrees(cfg, e.value, a, b, k);
    }
  }

  lemma {:induction false} PromptsAgree(cfg: Config, ps: seq<Option<Expr>>, a: Env, b: Env, k: nat)
    requires AgreeBelow(cfg, a, b, k) && forall p :: p in ps ==> OptionBelow(cfg, p, k)
    ensures AnyPrompt(ps, a) == AnyPrompt(ps, b)
  {
    if ps != [] {
      PromptsAgree(cfg, ps[..|ps| - 1], a, b, k);
      OptionAgrees(cfg, ps[|ps| - 1], a, b, k);
    }
  }

  lemma {:induction false} DefaultsAgree(cfg: Config, ds: seq<Default>, a: Env, b: Env, k: nat)
    requires AgreeBelow(cfg, a, b, k) && forall d :: d in ds ==> OptionBelow(cfg, d.visible, k)
    ensures FirstDefault(ds, a) == FirstDefault(ds, b)
    ensures FirstDefault(ds, a).Some? ==> FirstDefault(ds, a).value in ds
  {
    if ds != [] {
      OptionAgrees(cfg, ds[0].visible, a, b, k);
      DefaultsAgree(cfg, ds[1..], a, b, k);
    }
  }

  lemma {:induction false} RangesAgree(cfg: Config, rs: seq<Range>, a: Env, b: Env, k: nat)
    requires AgreeBelow(cfg, a, b, k) && forall r :: r in rs ==> OptionBelow(cfg, r.visible, k)
    ensures FirstRange(rs, a) == FirstRange(rs, b)
    ensures FirstRange(rs, a).Some? ==> FirstRange(rs, a).value in rs
  {
    if rs != [] {
      OptionAgrees(cfg, rs[0].visible, a, b, k);
      RangesAgree(cfg, rs[1..], a, b, k);
    }
  }

  lemma VisibilityAgrees(cfg: Config, typ: SymbolType, i: Info, a: Env, b: Env, k: nat)
    requires AgreeBelow(cfg, a, b, k) && InfoBelow(cfg, i, k)
    ensures Visibility(typ, i, a) == Visibility(typ, i, b)
    ensures Selected(typ, i, a) == Selected(typ, i, b)
    ensures Deselected(i, a) == Deselected(i, b)
  {
    PromptsAgree(cfg, i.prompts, a, b, k);
    OptionAgrees(cfg, i.selectedBy, a, b, k);
    OptionAgrees(cfg, i.deselectedBy, a, b, k);
  }

  lemma DefaultAgrees(cfg: Config, i: Info, a: Env, b: Env, k: nat)
    requires AgreeBelow(cfg, a, b, k) && InfoBelow(cfg, i, k)
    ensures DefaultTri(i, a) == DefaultTri(i, b) && DefaultStr(i, a) == DefaultStr(i, b)
  {
    DefaultsAgree(cfg, i.defaults, a, b, k);
    var d := FirstDefault(i.defaults, a);
    if d.Some? {
      EvalAgrees(cfg, d.value.expr, a, b, k);
    }
  }

  lemma ClampAgrees(cfg: Config, typ: SymbolType, i: Info, val: string, a: Env, b: Env, k: nat)
    requires AgreeBelow(cfg, a, b, k) && InfoBelow(cfg, i, k)
    ensures Clamp(cfg, typ, i, val, a) == Clamp(cfg, typ, i, val, b)
  {
    RangesAgree(cfg, i.ranges, a, b, k);
  }

  lemma ValueGivenAgrees(cfg: Config, s: Symbol, u: User, a: Env, b: Env)
    requires Acyclic(cfg) && s in cfg.symbols && AgreeBelow(cfg, a, b, cfg.rank(s))
    ensures ValueGiven(cfg, s, u, a) == ValueGiven(cfg, s, u, b)
  {
    var i, k := cfg.info(s), cfg.rank(s);
    VisibilityAgrees(cfg, TypeOf(s), i, a, b, k);
    DefaultAgrees(cfg, i, a, b, k);
    hide Visibility, Selected, Deselected, DefaultTri, DefaultStr, Clamp;
    ClampAgrees(cfg, TypeOf(s), i, u.val, a, b, k);
    ClampAgrees(cfg, TypeOf(s), i, DefaultStr(i, a), a, b, k);
  }

  // ----- prompts of non-tristate symbols -----

  function TransBoolPrompts(ps: seq<Option<Expr>>): seq<Option<Expr>> {
    if ps == [] then []
    else TransBoolPrompts(ps[..|ps| - 1])
         + [var p := ps[|ps| - 1]; if p.None? then None else Some(TransBool(p.value))]
  }

  lemma {:induction false} AnyPromptTransBool(ps: seq<Option<Expr>>, env: Env)
    requires forall p :: p in ps && p.Some? ==> IsNormal(p.value)
    ensures AnyPrompt(TransBoolPrompts(ps), env) == NO <==> AnyPrompt(ps, env) == NO
  {
    if ps != [] {
      var n := |ps| - 1;
      var ts := TransBoolPrompts(ps);
      AnyPromptTransBool(ps[..n], env);
      assert ts[..|ts| - 1] == TransBoolPrompts(ps[..n]);
      if ps[n].Some? {
        TransBoolKeepsNo(ps[n].value, env);
      }
    }
  }

  /** Rewriting FOO!=n to FOO in the prompts of a symbol that is not tristate never
      changes whether, or how, the symbol is visible. */
  lemma TransBoolKeepsVisibility(typ: SymbolType, ps: seq<Option<Expr>>, env: Env)
    requires typ != TristateType
    requires forall p :: p in ps && p.Some? ==> IsNormal(p.value)
    ensures PromptVisibility(typ, TransBoolPrompts(ps), env) == PromptVisibility(typ, ps, env)
  {
    AnyPromptTransBool(ps, env);
  }
}
