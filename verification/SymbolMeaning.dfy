/** What values symbols get, read off their properties: nothing here is said in terms
    of the evaluator's own case distinctions. */
module SymbolMeaning {
  import opened Options
  import opened Tristate
  import opened Expressions
  import opened Symbols

  // ----- properties -----

  /** Entry k is the first whose condition is not n. */
  predicate IsFirstOn(conds: seq<Option<Expr>>, env: Env, k: int) {
    && 0 <= k < |conds| && EvalOption(conds[k], env) != NO
    && forall j :: 0 <= j < k ==> EvalOption(conds[j], env) == NO
  }

  predicate AllOff(conds: seq<Option<Expr>>, env: Env) {
    forall j :: 0 <= j < |conds| ==> EvalOption(conds[j], env) == NO
  }

  function DefaultConditions(ds: seq<Default>): (r: seq<Option<Expr>>)
    ensures |r| == |ds| && forall k :: 0 <= k < |ds| ==> r[k] == ds[k].visible
  {
    seq(|ds|, k requires 0 <= k < |ds| => ds[k].visible)
  }

  function RangeConditions(rs: seq<Range>): (r: seq<Option<Expr>>)
    ensures |r| == |rs| && forall k :: 0 <= k < |rs| ==> r[k] == rs[k].visible
  {
    seq(|rs|, k requires 0 <= k < |rs| => rs[k].visible)
  }

  lemma NoneFirst(conds: seq<Option<Expr>>, env: Env)
    requires conds == []
    ensures forall k :: !IsFirstOn(conds, env, k)
  {
  }

  lemma FirstIndex(conds: seq<Option<Expr>>, env: Env, k: int)
    requires conds != [] && IsFirstOn(conds, env, k)
    ensures 0 <= k < |conds| && (EvalOption(conds[0], env) != NO ==> k == 0)
    ensures EvalOption(conds[0], env) == NO ==> k > 0 && IsFirstOn(conds[1..], env, k - 1)
  {
    assert forall j :: 0 <= j < |conds| - 1 ==> conds[1..][j] == conds[j + 1];
  }

  lemma FirstOfTail(conds: seq<Option<Expr>>, env: Env)
    requires conds != []
    ensures AllOff(conds, env) ==> EvalOption(conds[0], env) == NO && AllOff(conds[1..], env)
  {
  }

  lemma {:induction false} FirstDefaultIs(ds: seq<Default>, env: Env)
    ensures AllOff(DefaultConditions(ds), env) ==> FirstDefault(ds, env) == None
    ensures forall k :: IsFirstOn(DefaultConditions(ds), env, k) ==> FirstDefault(ds, env) == Some(ds[k])
    decreases |ds|
  {
    hide AllOff, DefaultConditions;
    if ds == [] {
      NoneFirst(DefaultConditions(ds), env);
    } else {
      var conds := DefaultConditions(ds);
      assert DefaultConditions(ds[1..]) == conds[1..];
      FirstDefaultIs(ds[1..], env);
      FirstOfTail(conds, env);
      forall k | IsFirstOn(conds, env, k) ensures FirstDefault(ds, env) == Some(ds[k]) {
        FirstIndex(conds, env, k);
      }
    }
  }

  lemma {:induction false} FirstRangeIs(rs: seq<Range>, env: Env)
    ensures AllOff(RangeConditions(rs), env) ==> FirstRange(rs, env) == None
    ensures forall k :: IsFirstOn(RangeConditions(rs), env, k) ==> FirstRange(rs, env) == Some(rs[k])
    decreases |rs|
  {
    hide AllOff, RangeConditions;
    if rs == [] {
      NoneFirst(RangeConditions(rs), env);
    } else {
      var conds := RangeConditions(rs);
      assert RangeConditions(rs[1..]) == conds[1..];
      FirstRangeIs(rs[1..], env);
      FirstOfTail(conds, env);
      forall k | IsFirstOn(conds, env, k) ensures FirstRange(rs, env) == Some(rs[k]) {
        FirstIndex(conds, env, k);
      }
    }
  }

  /** Visibility over a list of prompts is their maximum. */
  lemma {:induction false} AnyPromptIs(ps: seq<Option<Expr>>, env: Env)
    ensures forall k :: 0 <= k < |ps| ==> EvalOption(ps[k], env) <= AnyPrompt(ps, env)
    ensures AnyPrompt(ps, env) == NO || exists k :: 0 <= k < |ps| && EvalOption(ps[k], env) == AnyPrompt(ps, env)
    decreases |ps|
  {
    if ps != [] {
      var front := ps[..|ps| - 1];
      AnyPromptIs(front, env);
      assert forall k :: 0 <= k < |front| ==> front[k] == ps[k];
    }
  }

  predicate IsDeselected(i: Info, env: Env) {
    i.deselectedBy.Some? && EvalOption(i.deselectedBy, env) == YES
  }

  /** What a tristate value counts for a symbol of a type. */
  function Counts(typ: SymbolType, t: Tri): Tri {
    if t == MOD && typ != TristateType then YES else t
  }

  /** v is how visible the prompts make the symbol. */
  predicate IsShown(typ: SymbolType, i: Info, env: Env, v: Tri) {
    && (forall k :: 0 <= k < |i.prompts| ==> Counts(typ, EvalOption(i.prompts[k], env)) <= v)
    && (v == NO || exists k :: 0 <= k < |i.prompts| && Counts(typ, EvalOption(i.prompts[k], env)) == v)
  }

  /** t is what select demands. */
  predicate IsDemanded(typ: SymbolType, i: Info, env: Env, t: Tri) {
    t == if i.selectedBy.None? then NO else Counts(typ, EvalOption(i.selectedBy, env))
  }

  /** w is what the user wants, or else the first default that applies. */
  ghost predicate IsWished(typ: SymbolType, i: Info, u: User, env: Env, w: Tri) {
    if !u.isNew then w == Counts(typ, u.tri) else IsDefault(typ, i, env, w)
  }

  ghost predicate IsDefault(typ: SymbolType, i: Info, env: Env, w: Tri) {
    var conds := DefaultConditions(i.defaults);
    && (AllOff(conds, env) ==> w == NO)
    && forall k :: IsFirstOn(conds, env, k) ==> w == Counts(typ, Eval(i.defaults[k].expr, env))
  }

  lemma ShownIs(typ: SymbolType, i: Info, env: Env, v: Tri)
    requires !IsDeselected(i, env) && IsShown(typ, i, env, v)
    ensures Visibility(typ, i, env) == v
  {
    AnyPromptIs(i.prompts, env);
    hide AnyPrompt;
  }

  /** Some default is the first, or all are off. */
  lemma {:induction false} SomeFirst(conds: seq<Option<Expr>>, env: Env, n: nat)
    requires n <= |conds| && forall j :: 0 <= j < n ==> EvalOption(conds[j], env) == NO
    ensures AllOff(conds, env) || exists k :: IsFirstOn(conds, env, k)
    decreases |conds| - n
  {
    if n < |conds| {
      if EvalOption(conds[n], env) == NO {
        SomeFirst(conds, env, n + 1);
      } else {
        assert IsFirstOn(conds, env, n);
      }
    }
  }

  lemma DefaultIs(typ: SymbolType, i: Info, env: Env, w: Tri)
    requires IsDefault(typ, i, env, w)
    ensures Counts(typ, DefaultTri(i, env)) == w
  {
    FirstDefaultIs(i.defaults, env);
    SomeFirst(DefaultConditions(i.defaults), env, 0);
    hide FirstDefault, DefaultConditions;
  }

  /** Every symbol has one visibility, one demand and one default. */
  lemma MeaningExists(s: Symbol, i: Info, env: Env) returns (shown: Tri, demanded: Tri, fallback: Tri)
    requires IsTriType(s)
    ensures IsShown(TypeOf(s), i, env, shown) && IsDemanded(TypeOf(s), i, env, demanded)
    ensures IsDefault(TypeOf(s), i, env, fallback)
  {
    AnyPromptIs(i.prompts, env);
    FirstDefaultIs(i.defaults, env);
    shown := PromptVisibility(TypeOf(s), i.prompts, env);
    demanded := Selected(TypeOf(s), i, env);
    fallback := Counts(TypeOf(s), DefaultTri(i, env));
    hide AnyPrompt, FirstDefault, DefaultConditions;
  }

  // ----- boolean and tristate symbols -----

  function Max(a: Tri, b: Tri): Tri {
    if a < b then b else a
  }

  /** A deselected symbol is n. */
  lemma DeselectedIsNo(cfg: Config, s: Symbol, u: User, env: Env)
    requires IsTriType(s) && IsDeselected(cfg.info(s), env)
    ensures ValueGiven(cfg, s, u, env).tri == NO
  {
  }

  /** v is the value nearest to the wish between what select demands and what the
      prompts allow. */
  predicate IsNearest(v: Tri, shown: Tri, demanded: Tri, wish: Tri) {
    && demanded <= v <= Max(shown, demanded)
    && (demanded <= wish <= shown ==> v == wish)
    && (wish <= demanded ==> v == demanded)
    && (wish >= shown ==> v == Max(shown, demanded))
  }

  lemma NearestValue(typ: SymbolType, i: Info, u: User, env: Env, shown: Tri, demanded: Tri, wish: Tri)
    requires (typ == BooleanType || typ == TristateType) && !IsDeselected(i, env)
    requires IsShown(typ, i, env, shown) && IsDemanded(typ, i, env, demanded) && IsWished(typ, i, u, env, wish)
    requires Max(shown, demanded) != NO
    ensures IsNearest(TriValue(typ, i, u, env), shown, demanded, wish)
  {
    ShownIs(typ, i, env, shown);
    if u.isNew {
      DefaultIs(typ, i, env, wish);
    }
    hide AnyPrompt, Visibility, DefaultTri, IsShown, IsDefault;
  }

  /** A symbol that can be set or is selected gets that value. */
  lemma ShownValue(cfg: Config, s: Symbol, u: User, env: Env, shown: Tri, demanded: Tri, wish: Tri)
    requires IsTriType(s) && !IsDeselected(cfg.info(s), env)
    requires var (typ, i) := (TypeOf(s), cfg.info(s));
      IsShown(typ, i, env, shown) && IsDemanded(typ, i, env, demanded) && IsWished(typ, i, u, env, wish)
    requires Max(shown, demanded) != NO
    ensures IsNearest(ValueGiven(cfg, s, u, env).tri, shown, demanded, wish)
  {
    NearestValue(TypeOf(s), cfg.info(s), u, env, shown, demanded, wish);
    hide TriValue, IsNearest, IsShown, IsDemanded, IsWished;
  }

  /** A symbol that can neither be set nor is selected has its default: the value of
      the first whose condition is not n, and n if there is none. */
  lemma HiddenValue(cfg: Config, s: Symbol, u: User, env: Env, w: Tri)
    requires IsTriType(s) && !IsDeselected(cfg.info(s), env)
    requires var (typ, i) := (TypeOf(s), cfg.info(s));
      IsShown(typ, i, env, NO) && IsDemanded(typ, i, env, NO) && IsDefault(typ, i, env, w)
    ensures ValueGiven(cfg, s, u, env).tri == w
  {
    var (typ, i) := (TypeOf(s), cfg.info(s));
    ShownIs(typ, i, env, NO);
    DefaultIs(typ, i, env, w);
    hide AnyPrompt, Visibility, DefaultTri, IsShown, IsDefault;
  }

  // ----- strings and numbers -----

  /** val is the text a symbol starts from: the user's, if it can be set, or else the
      one the first default that applies names. */
  ghost predicate IsText(typ: SymbolType, i: Info, u: User, env: Env, val: string) {
    var conds := DefaultConditions(i.defaults);
    if !IsDeselected(i, env) && !IsShown(typ, i, env, NO) && !u.isNew then val == u.val
    else
      && (AllOff(conds, env) ==> val == "")
      && forall k :: IsFirstOn(conds, env, k) ==>
           val == if i.defaults[k].expr.Sym? then RawStr(i.defaults[k].expr.sym, env) else ""
  }

  lemma HiddenIff(typ: SymbolType, i: Info, env: Env)
    ensures Visibility(typ, i, env) == NO <==> IsDeselected(i, env) || IsShown(typ, i, env, NO)
  {
    AnyPromptIs(i.prompts, env);
    hide AnyPrompt;
  }

  lemma TextIs(typ: SymbolType, i: Info, u: User, env: Env, val: string)
    requires IsText(typ, i, u, env, val)
    ensures val == if Visibility(typ, i, env) != NO && !u.isNew then u.val else DefaultStr(i, env)
  {
    HiddenIff(typ, i, env);
    FirstDefaultIs(i.defaults, env);
    SomeFirst(DefaultConditions(i.defaults), env, 0);
    hide FirstDefault, Visibility, IsShown, IsDeselected, DefaultConditions, RawStr;
  }

  /** A string symbol has that text. */
  lemma StringValue(cfg: Config, s: Symbol, u: User, env: Env, val: string)
    requires TypeOf(s) == StringType && IsText(StringType, cfg.info(s), u, env, val)
    ensures ValueGiven(cfg, s, u, env) == Value(val, NO)
  {
    TextIs(StringType, cfg.info(s), u, env, val);
    hide Visibility, DefaultStr, IsText;
  }

  predicate IsNumber(typ: SymbolType) {
    typ == IntType || typ == HexType
  }

  function Radix(typ: SymbolType): nat {
    match typ
    case IntType => 10
    case HexType => 16
    case _ => 0
  }

  /** A bound is the number its symbol's text says, read like the symbol's own type if
      that is a number and else like the type of the symbol in the range. */
  lemma RangeBoundIs(cfg: Config, s: Symbol, typ: SymbolType, env: Env)
    requires IsNumber(typ) && !IsTriType(s)
    ensures RangeBound(cfg, s, Radix(typ), env)
         == cfg.parse(StrOf(s, env), Radix(if IsNumber(TypeOf(s)) then TypeOf(s) else typ))
  {
  }

  /** Printing and parsing again keeps the bounds of a range. */
  predicate BoundsPrint(cfg: Config, typ: SymbolType, r: Range, env: Env) {
    var base := Radix(typ);
    var low, high := RangeBound(cfg, r.low, base, env), RangeBound(cfg, r.high, base, env);
    cfg.parse(cfg.show(typ, low), base) == low && cfg.parse(cfg.show(typ, high), base) == high
  }

  predicate InOrder(cfg: Config, typ: SymbolType, r: Range, env: Env) {
    RangeBound(cfg, r.low, Radix(typ), env) <= RangeBound(cfg, r.high, Radix(typ), env)
  }

  /** A number has that text if no range applies or it lies in the first that does;
      else it is moved to the nearer bound. */
  lemma NumberValue(cfg: Config, s: Symbol, u: User, env: Env, val: string)
    requires IsNumber(TypeOf(s)) && IsText(TypeOf(s), cfg.info(s), u, env, val)
    ensures var (typ, i, v) := (TypeOf(s), cfg.info(s), ValueGiven(cfg, s, u, env));
      && v.tri == NO
      && (AllOff(RangeConditions(i.ranges), env) ==> v.val == val)
      && forall k :: IsFirstOn(RangeConditions(i.ranges), env, k) ==> MovedInto(cfg, typ, i.ranges[k], env, val, v.val)
  {
    var (typ, i) := (TypeOf(s), cfg.info(s));
    TextIs(typ, i, u, env, val);
    FirstRangeIs(i.ranges, env);
    hide Visibility, DefaultStr, IsText, FirstRange, RangeConditions;
    forall k | IsFirstOn(RangeConditions(i.ranges), env, k)
      ensures MovedInto(cfg, typ, i.ranges[k], env, val, ValueGiven(cfg, s, u, env).val)
    {
      ClampedInto(cfg, typ, i.ranges[k], env, val);
    }
  }

  /** The text `out` is the number `val` moved into a range. */
  predicate MovedInto(cfg: Config, typ: SymbolType, r: Range, env: Env, val: string, out: string) {
    var base := Radix(typ);
    var low, high := RangeBound(cfg, r.low, base, env), RangeBound(cfg, r.high, base, env);
    var n, m := cfg.parse(val, base), cfg.parse(out, base);
    && (low <= n <= high ==> out == val)
    && (BoundsPrint(cfg, typ, r, env) ==>
          (n < low ==> m == low) && (low <= n && high < n ==> m == high) && (low <= high ==> low <= m <= high))
  }

  lemma ClampedInto(cfg: Config, typ: SymbolType, r: Range, env: Env, val: string)
    ensures MovedInto(cfg, typ, r, env, val, ClampInto(cfg, typ, r, val, env))
  {
    hide RangeBound;
  }
}
