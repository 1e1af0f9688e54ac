/** The conditions that regrouping computes for the properties of menu entries. */
module MenuConditions {
  import opened Options
  import opened Tristate
  import opened Expressions
  import opened Normalize
  import opened Dups
  import opened Symbols
  import Choices

  function AndOption(a: Option<Expr>, b: Option<Expr>): Option<Expr> {
    if a.None? then b else if b.None? then a else Some(Bin(AndOp, a.value, b.value))
  }

  /** A dependency of the surroundings and a condition of one's own, simplified. */
  function Combine(outer: Option<Expr>, own: Option<Expr>): Option<Expr> {
    var both := AndOption(outer, if own.None? then None else Some(Transform(own.value)));
    if both.None? then None else Some(EliminateDups(both.value))
  }

  /** The condition of a property of an entry whose dependency is `dep`. */
  function Condition(typ: SymbolType, dep: Option<Expr>, own: Option<Expr>): Option<Expr> {
    var c := Combine(dep, own);
    if c.None? || typ == TristateType then c else Some(TransBool(c.value))
  }

  /** An entry on the way down: the type of its symbol (an entry without a symbol
      is treated like a tristate), its own dependency, its
      prompt's own condition if it has a prompt, and its symbol if it is a choice. */
  datatype Step = Step(typ: SymbolType, dep: Option<Expr>, prompt: Option<Option<Expr>>, choice: Option<Symbol>)

  /** What the entries below a path of entries depend on. */
  function Inherited(path: seq<Step>): Option<Expr> {
    if path == [] then None
    else
      var last := path[|path| - 1];
      var dep := Combine(Inherited(path[..|path| - 1]), last.dep);
      if last.choice.Some? then Some(Sym(last.choice.value))
      else if last.prompt.Some? then Condition(last.typ, dep, last.prompt.value)
      else dep
  }

  predicate NormalOption(e: Option<Expr>) {
    e.Some? ==> IsNormal(e.value)
  }

  lemma CombineNormal(outer: Option<Expr>, own: Option<Expr>)
    requires NormalOption(outer)
    ensures NormalOption(Combine(outer, own))
  {
    if own.Some? {
      TransformIsNormal(own.value);
    }
    var both := AndOption(outer, if own.None? then None else Some(Transform(own.value)));
    if both.Some? {
      EliminateDupsKeepsDefinite(both.value, Env(_ => NO, _ => ""));
    }
  }

  lemma ConditionNormal(typ: SymbolType, dep: Option<Expr>, own: Option<Expr>)
    requires NormalOption(dep)
    ensures NormalOption(Condition(typ, dep, own))
  {
    hide Combine, TransBool;
    CombineNormal(dep, own);
    var c := Combine(dep, own);
    if c.Some? {
      TransBoolKeepsNo(c.value, Env(_ => NO, _ => ""));
    }
  }

  /** Whatever entries say, all that is computed below them is in normal form. */
  lemma {:induction false} InheritedNormal(path: seq<Step>)
    ensures NormalOption(Inherited(path))
  {
    if path != [] {
      var last := path[|path| - 1];
      InheritedNormal(path[..|path| - 1]);
      CombineNormal(Inherited(path[..|path| - 1]), last.dep);
      if last.prompt.Some? {
        ConditionNormal(last.typ, Combine(Inherited(path[..|path| - 1]), last.dep), last.prompt.value);
      }
    }
  }

  /** The prompts of an entry below a path, before and after the last rewrite. */
  function Combined(dep: Option<Expr>, owns: seq<Option<Expr>>): seq<Option<Expr>> {
    if owns == [] then []
    else Combined(dep, owns[..|owns| - 1]) + [Combine(dep, owns[|owns| - 1])]
  }

  lemma {:induction false} CombinedNormal(dep: Option<Expr>, owns: seq<Option<Expr>>)
    requires NormalOption(dep)
    ensures forall p :: p in Combined(dep, owns) ==> NormalOption(p)
  {
    if owns != [] {
      CombinedNormal(dep, owns[..|owns| - 1]);
      CombineNormal(dep, owns[|owns| - 1]);
    }
  }

  function Conditions(typ: SymbolType, dep: Option<Expr>, owns: seq<Option<Expr>>): seq<Option<Expr>> {
    if owns == [] then []
    else Conditions(typ, dep, owns[..|owns| - 1]) + [Condition(typ, dep, owns[|owns| - 1])]
  }

  lemma {:induction false} ConditionsAre(typ: SymbolType, dep: Option<Expr>, owns: seq<Option<Expr>>)
    requires typ != TristateType
    ensures TransBoolPrompts(Combined(dep, owns)) == Conditions(typ, dep, owns)
  {
    hide Combine, TransBool;
    if owns != [] {
      var front := owns[..|owns| - 1];
      ConditionsAre(typ, dep, front);
      var all := Combined(dep, owns);
      assert all[..|all| - 1] == Combined(dep, front);
    }
  }

  /** For every entry of the menu and all prompt conditions it gives, the rewrite
      of FOO!=n to FOO does not change whether a non-tristate symbol shows. */
  lemma RewriteKeepsVisibility(path: seq<Step>, typ: SymbolType, own: Option<Expr>, owns: seq<Option<Expr>>, env: Env)
    requires typ != TristateType
    ensures var dep := Combine(Inherited(path), own);
      PromptVisibility(typ, Conditions(typ, dep, owns), env) == PromptVisibility(typ, Combined(dep, owns), env)
  {
    var dep := Combine(Inherited(path), own);
    InheritedNormal(path);
    CombineNormal(Inherited(path), own);
    CombinedNormal(dep, owns);
    ConditionsAre(typ, dep, owns);
    TransBoolKeepsVisibility(typ, Combined(dep, owns), env);
  }

  // ----- what the conditions mean -----

  /** A combined condition is the conjunction of the two, wherever that is not m. */
  lemma CombineMeans(outer: Option<Expr>, own: Option<Expr>, env: Env)
    ensures var both := Apply(AndOp, EvalOption(outer, env), EvalOption(own, env));
      both != MOD ==> EvalOption(Combine(outer, own), env) == both
  {
    if own.Some? {
      TransformKeepsValue(own.value, env);
    }
    var both := AndOption(outer, if own.None? then None else Some(Transform(own.value)));
    if both.Some? {
      EliminateDupsKeepsDefinite(both.value, env);
    }
    hide Transform, EliminateDups;
  }

  /** So is the condition of a property, up to y and m if it was rewritten. */
  lemma ConditionMeans(typ: SymbolType, dep: Option<Expr>, own: Option<Expr>, env: Env)
    requires NormalOption(dep)
    ensures var both := Apply(AndOp, EvalOption(dep, env), EvalOption(own, env));
      var c := EvalOption(Condition(typ, dep, own), env);
      both != MOD ==> (c == NO <==> both == NO) && (typ == TristateType ==> c == both)
  {
    CombineMeans(dep, own, env);
    CombineNormal(dep, own);
    var c := Combine(dep, own);
    if c.Some? {
      TransBoolKeepsNo(c.value, env);
    }
    hide Combine, TransBool;
  }

  /** No tristate symbol is m. */
  ghost predicate NoneAtMod(env: Env) {
    forall s: Symbol :: TypeOf(s) == TristateType ==> TriOf(s, env) != MOD
  }

  lemma {:induction false} TransBoolExact(e: Expr, env: Env)
    requires NoneAtMod(env)
    ensures Eval(TransBool(e), env) == Eval(e, env)
  {
    match e
    case Sym(_) =>
    case Cmp(_, _, _) =>
    case Not(a) => TransBoolExact(a, env);
    case Bin(_, l, r) =>
      TransBoolExact(l, env);
      TransBoolExact(r, env);
  }

  /** Nothing that an entry says is m. */
  predicate Definite(step: Step, env: Env) {
    && EvalOption(step.dep, env) != MOD
    && (step.prompt.Some? ==> EvalOption(step.prompt.value, env) != MOD)
    && (step.choice.Some? ==> TriOf(step.choice.value, env) != MOD)
  }

  /** An entry lets the entries below it show; a choice speaks for itself. */
  predicate LetsShow(step: Step, env: Env) {
    if step.choice.Some? then TriOf(step.choice.value, env) != NO
    else EvalOption(step.dep, env) != NO && (step.prompt.Some? ==> EvalOption(step.prompt.value, env) != NO)
  }

  /** All entries on the path do, those in front of the last choice aside. */
  ghost predicate PathShows(path: seq<Step>, env: Env) {
    forall j :: 0 <= j < |path| && NoChoiceBehind(path, j) ==> LetsShow(path[j], env)
  }

  predicate NoChoiceBehind(path: seq<Step>, j: nat) {
    forall i :: j < i < |path| ==> path[i].choice.None?
  }

  lemma PathShowsMore(path: seq<Step>, env: Env)
    requires path != []
    ensures var front, last := path[..|path| - 1], path[|path| - 1];
      PathShows(path, env) <==> LetsShow(last, env) && (last.choice.None? ==> PathShows(front, env))
  {
    var n := |path| - 1;
    var front := path[..n];
    assert NoChoiceBehind(path, n);
    if path[n].choice.None? {
      assert forall j :: 0 <= j < n ==> (NoChoiceBehind(front, j) <==> NoChoiceBehind(path, j)) by {
        forall j | 0 <= j < n ensures NoChoiceBehind(front, j) <==> NoChoiceBehind(path, j) {
          if NoChoiceBehind(path, j) {
            forall i | j < i < n ensures front[i].choice.None? {
              assert path[i].choice.None?;
            }
          }
          if NoChoiceBehind(front, j) {
            forall i | j < i < |path| ensures path[i].choice.None? {
              assert i < n ==> front[i].choice.None?;
            }
          }
        }
      }
      hide NoChoiceBehind;
      if PathShows(path, env) {
        forall j | 0 <= j < n && NoChoiceBehind(front, j) ensures LetsShow(front[j], env) {
          assert NoChoiceBehind(path, j);
        }
      }
      if LetsShow(path[n], env) && PathShows(front, env) {
        forall j | 0 <= j < |path| && NoChoiceBehind(path, j) ensures LetsShow(path[j], env) {
          assert j < n ==> NoChoiceBehind(front, j) && front[j] == path[j];
        }
      }
    } else {
      assert forall j :: 0 <= j < n ==> !NoChoiceBehind(path, j);
    }
  }

  /** Where nothing is m, what is inherited below a path is y if all its entries let
      it show, and n if not. */
  lemma {:induction false} InheritedMeans(path: seq<Step>, env: Env)
    requires NoneAtMod(env) && forall j :: 0 <= j < |path| ==> Definite(path[j], env)
    ensures EvalOption(Inherited(path), env) == FromBool(PathShows(path, env))
  {
    if path != [] {
      var front, last := path[..|path| - 1], path[|path| - 1];
      InheritedMeans(front, env);
      PathShowsMore(path, env);
      CombineMeans(Inherited(front), last.dep, env);
      var dep := Combine(Inherited(front), last.dep);
      assert Definite(last, env);
      if last.prompt.Some? {
        CombineMeans(dep, last.prompt.value, env);
        var c := Combine(dep, last.prompt.value);
        if c.Some? {
          TransBoolExact(c.value, env);
        }
      }
      hide Combine, TransBool, PathShows, NoneAtMod;
    }
  }

  // ----- members of a choice -----

  /** Nothing is combined to something that is on while the surroundings are n. */
  lemma CombineNeeds(outer: Option<Expr>, own: Option<Expr>, s: Symbol)
    requires Choices.Needs(outer, s)
    ensures Choices.Needs(Combine(outer, own), s)
  {
    var both := AndOption(outer, if own.None? then None else Some(Transform(own.value)));
    forall env: Env | TriOf(s, env) == NO ensures Eval(EliminateDups(both.value), env) == NO {
      EliminateDupsKeepsDefinite(both.value, env);
    }
  }

  lemma ConditionNeeds(typ: SymbolType, dep: Option<Expr>, own: Option<Expr>, s: Symbol)
    requires Choices.Needs(dep, s) && NormalOption(dep)
    ensures Choices.Needs(Condition(typ, dep, own), s)
  {
    CombineNeeds(dep, own, s);
    CombineNormal(dep, own);
    hide Combine, TransBool;
    forall env: Env | TriOf(s, env) == NO ensures Eval(Condition(typ, dep, own).value, env) == NO {
      TransBoolKeepsNo(Combine(dep, own).value, env);
    }
  }

  /** The prompts computed for an entry below a choice need the choice, whatever
      they simplify to. */
  lemma {:induction false} MemberPromptsNeedChoice(
    path: seq<Step>, typ: SymbolType, own: Option<Expr>, owns: seq<Option<Expr>>)
    requires path != [] && path[|path| - 1].choice.Some?
    ensures
      var dep := Combine(Inherited(path), own);
      forall p :: p in Conditions(typ, dep, owns) ==> Choices.Needs(p, path[|path| - 1].choice.value)
  {
    var c := path[|path| - 1].choice.value;
    var dep := Combine(Inherited(path), own);
    InheritedNormal(path);
    CombineNormal(Inherited(path), own);
    CombineNeeds(Inherited(path), own, c);
    hide Combine, Condition, Inherited, Choices.Needs;
    if owns != [] {
      MemberPromptsNeedChoice(path, typ, own, owns[..|owns| - 1]);
      ConditionNeeds(typ, dep, owns[|owns| - 1], c);
    }
  }
}
