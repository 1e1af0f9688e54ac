/** Boolean choices: what the values of a choice and of its members are. */
module Choices {
  import opened Options
  import opened Tristate
  import opened Expressions
  import opened Symbols
  import opened SymbolMeaning
  import Adoption

  /** A choice symbol, its members in order, and the properties of symbols. */
  datatype Group = Group(choice: Symbol, members: seq<Symbol>, info: Symbol -> Info)

  /** The expression is about symbols outside the group. */
  predicate Outside(g: Group, e: Option<Expr>) {
    e.Some? ==> forall s :: s in [g.choice] + g.members ==> !Adoption.ContainsSymbol(e.value, s)
  }

  /** A condition that is n while the symbol is. */
  ghost predicate Needs(p: Option<Expr>, s: Symbol) {
    p.Some? && forall env: Env :: TriOf(s, env) == NO ==> Eval(p.value, env) == NO
  }

  predicate Mentions(p: Option<Expr>, s: Symbol) {
    p.Some? && Adoption.ContainsSymbol(p.value, s)
  }

  /** The prompts of members need the choice and apart from it mention, like all
      conditions of the choice, only symbols outside the group.  Members have no
      defaults of their own. */
  ghost predicate Proper(g: Group) {
    && TypeOf(g.choice) == BooleanType && g.choice !in g.members
    && (forall p :: p in g.info(g.choice).prompts ==> Outside(g, p))
    && Outside(g, g.info(g.choice).selectedBy) && Outside(g, g.info(g.choice).deselectedBy)
    && (forall d :: d in g.info(g.choice).defaults ==> Outside(g, d.visible) && d.expr.Sym?)
    && (forall k :: k in g.members ==> MemberProper(g, k))
  }

  ghost predicate MemberProper(g: Group, k: Symbol) {
    && TypeOf(k) == BooleanType && g.info(k).defaults == []
    && Outside(g, g.info(k).deselectedBy)
    && (forall p :: p in g.info(k).prompts ==> Needs(p, g.choice))
    && (forall p, j :: p in g.info(k).prompts && j in g.members ==> !Mentions(p, j))
  }

  // ----- values -----

  /** The values outside the group, with the choice at t. */
  function With(g: Group, env: Env, t: Tri): Env {
    Env((s: Symbol) => TriWith(g, env, t, s), env.str)
  }

  function TriWith(g: Group, env: Env, t: Tri, s: Symbol): Tri {
    if s == g.choice then t else env.tri(s)
  }

  /** The value of the choice before its members are looked at; the defaults of a
      choice name members and give it no value. */
  function Raw(g: Group, env: Env, u: User): Tri {
    TriValue(BooleanType, g.info(g.choice).(defaults := []), u, env)
  }

  /** A choice is n if it is deselected, or can neither be set nor is selected; else it
      has the value nearest to the user's, n if there is none, that it can have. */
  lemma RawIs(g: Group, env: Env, u: User, shown: Tri, demanded: Tri)
    requires IsShown(BooleanType, g.info(g.choice), env, shown)
    requires IsDemanded(BooleanType, g.info(g.choice), env, demanded)
    ensures var raw := Raw(g, env, u);
      if IsDeselected(g.info(g.choice), env) || Max(shown, demanded) == NO then raw == NO
      else IsNearest(raw, shown, demanded, if u.isNew then NO else Counts(BooleanType, u.tri))
  {
    var i := g.info(g.choice).(defaults := []);
    if !IsDeselected(i, env) {
      ShownIs(BooleanType, i, env, shown);
      if Max(shown, demanded) != NO {
        NearestValue(BooleanType, i, u, env, shown, demanded, if u.isNew then NO else Counts(BooleanType, u.tri));
      }
    }
    hide AnyPrompt, Visibility, IsShown, IsNearest;
  }

  /** What a symbol's visibility is while the choice is at t. */
  function Seen(g: Group, env: Env, t: Tri, k: Symbol): Tri {
    Visibility(TypeOf(k), g.info(k), With(g, env, t))
  }

  predicate Shown(g: Group, env: Env, k: Symbol) {
    Seen(g, env, YES, k) != NO
  }

  function FirstShown(g: Group, env: Env, ids: seq<Symbol>): (r: Option<Symbol>)
    ensures r.Some? ==> r.value in ids && Shown(g, env, r.value)
    ensures r.None? <==> forall k :: k in ids ==> !Shown(g, env, k)
  {
    if ids == [] then None
    else if Shown(g, env, ids[0]) then Some(ids[0])
    else
      var r := FirstShown(g, env, ids[1..]);
      assert ids == [ids[0]] + ids[1..];
      r
  }

  /** The target of the first default whose condition holds and which is shown. */
  function ShownDefault(g: Group, env: Env, ds: seq<Default>): (r: Option<Symbol>)
    requires forall d :: d in ds ==> d.expr.Sym?
    ensures r.Some? ==> Shown(g, env, r.value) && exists d :: d in ds && d.expr.sym == r.value
  {
    if ds == [] then None
    else if EvalOption(ds[0].visible, env) != NO && Shown(g, env, ds[0].expr.sym) then Some(ds[0].expr.sym)
    else ShownDefault(g, env, ds[1..])
  }

  /** The member in force: the user's, else the first default that is shown, else
      the first member that is. */
  function Pick(g: Group, env: Env, user: Option<Symbol>): (r: Option<Symbol>)
    requires Proper(g)
    ensures r.Some? ==> Shown(g, env, r.value)
    ensures r.None? ==> forall k :: k in g.members ==> !Shown(g, env, k)
  {
    if user.Some? && Shown(g, env, user.value) then user
    else
      var d := ShownDefault(g, env, g.info(g.choice).defaults);
      if d.Some? then d else FirstShown(g, env, g.members)
  }

  /** Default k applies: its condition is not n and its target is shown. */
  predicate Applies(g: Group, env: Env, ds: seq<Default>, k: int) {
    0 <= k < |ds| && ds[k].expr.Sym? && EvalOption(ds[k].visible, env) != NO && Shown(g, env, ds[k].expr.sym)
  }

  lemma {:induction false} ShownDefaultIs(g: Group, env: Env, ds: seq<Default>)
    requires forall d :: d in ds ==> d.expr.Sym?
    ensures forall k :: Applies(g, env, ds, k) && (forall j :: 0 <= j < k ==> !Applies(g, env, ds, j)) ==>
      ShownDefault(g, env, ds) == Some(ds[k].expr.sym)
    ensures (forall k :: !Applies(g, env, ds, k)) ==> ShownDefault(g, env, ds) == None
    decreases |ds|
  {
    hide Shown;
    if ds != [] {
      var rest := ds[1..];
      ShownDefaultIs(g, env, rest);
      assert forall k :: Applies(g, env, rest, k) <==> k >= 0 && Applies(g, env, ds, k + 1);
      if !Applies(g, env, ds, 0) {
        forall k | Applies(g, env, ds, k) && (forall j :: 0 <= j < k ==> !Applies(g, env, ds, j))
          ensures ShownDefault(g, env, ds) == Some(ds[k].expr.sym)
        {
          assert Applies(g, env, rest, k - 1);
          assert forall j :: 0 <= j < k - 1 ==> !Applies(g, env, rest, j);
        }
      }
    }
  }

  lemma {:induction false} FirstShownIs(g: Group, env: Env, ids: seq<Symbol>, k: nat)
    requires k < |ids| && Shown(g, env, ids[k]) && forall j :: 0 <= j < k ==> !Shown(g, env, ids[j])
    ensures FirstShown(g, env, ids) == Some(ids[k])
    decreases |ids|
  {
    hide Shown;
    if k > 0 {
      FirstShownIs(g, env, ids[1..], k - 1);
    }
  }

  /** The user's member wins if it is shown, else the first default that applies,
      else the first member that is shown. */
  lemma PickIs(g: Group, env: Env, user: Option<Symbol>)
    requires Proper(g)
    ensures var ds := g.info(g.choice).defaults;
      var userShown := user.Some? && Shown(g, env, user.value);
      && (userShown ==> Pick(g, env, user) == user)
      && (!userShown ==>
            && (forall k :: Applies(g, env, ds, k) && (forall j :: 0 <= j < k ==> !Applies(g, env, ds, j)) ==>
                  Pick(g, env, user) == Some(ds[k].expr.sym))
            && ((forall k :: !Applies(g, env, ds, k)) ==>
                  forall k :: 0 <= k < |g.members| && Shown(g, env, g.members[k])
                              && (forall j :: 0 <= j < k ==> !Shown(g, env, g.members[j])) ==>
                    Pick(g, env, user) == Some(g.members[k])))
  {
    ShownDefaultIs(g, env, g.info(g.choice).defaults);
    hide Shown, ShownDefault, FirstShown;
    forall k | 0 <= k < |g.members| && Shown(g, env, g.members[k])
               && forall j :: 0 <= j < k ==> !Shown(g, env, g.members[j])
      ensures FirstShown(g, env, g.members) == Some(g.members[k])
    {
      FirstShownIs(g, env, g.members, k);
    }
  }

  function Picked(g: Group, env: Env, u: User, user: Option<Symbol>): Option<Symbol>
    requires Proper(g)
  {
    if Raw(g, env, u) == YES then Pick(g, env, user) else None
  }

  /** Without a member in force the choice falls back to n. */
  function ChoiceTri(g: Group, env: Env, u: User, user: Option<Symbol>): Tri
    requires Proper(g)
  {
    FromBool(Picked(g, env, u, user).Some?)
  }

  function MemberTri(g: Group, env: Env, u: User, user: Option<Symbol>, k: Symbol): Tri
    requires Proper(g)
  {
    FromBool(Seen(g, env, ChoiceTri(g, env, u, user), k) == YES && Picked(g, env, u, user) == Some(k))
  }

  // ----- exclusivity -----

  lemma {:induction false} PromptsNeedChoice(g: Group, env: Env, ps: seq<Option<Expr>>)
    requires TypeOf(g.choice) == BooleanType
    requires forall p :: p in ps ==> Needs(p, g.choice)
    ensures AnyPrompt(ps, With(g, env, NO)) == NO
  {
    if ps != [] {
      assert ps[|ps| - 1] in ps;
      PromptsNeedChoice(g, env, ps[..|ps| - 1]);
    }
  }

  /** None of its prompts mentions the choice. */
  predicate Dead(g: Group, k: Symbol) {
    forall p :: p in g.info(k).prompts ==> !Mentions(p, g.choice)
  }

  lemma {:induction false} NotMentioned(g: Group, env: Env, e: Expr, t: Tri)
    requires !Adoption.ContainsSymbol(e, g.choice)
    ensures Eval(e, With(g, env, t)) == Eval(e, With(g, env, NO))
  {
    match e
    case Sym(_) =>
    case Cmp(_, _, _) =>
    case Not(a) => NotMentioned(g, env, a, t);
    case Bin(_, l, r) =>
      NotMentioned(g, env, l, t);
      NotMentioned(g, env, r, t);
  }

  lemma {:induction false} PromptsNotMentioned(g: Group, env: Env, ps: seq<Option<Expr>>, t: Tri)
    requires forall p :: p in ps ==> p.Some? && !Mentions(p, g.choice)
    ensures AnyPrompt(ps, With(g, env, t)) == AnyPrompt(ps, With(g, env, NO))
  {
    if ps != [] {
      assert ps[|ps| - 1] in ps;
      PromptsNotMentioned(g, env, ps[..|ps| - 1], t);
      NotMentioned(g, env, ps[|ps| - 1].value, t);
    }
  }

  /** A member whose prompts do not mention the choice is never seen. */
  lemma DeadUnseen(g: Group, env: Env, k: Symbol, t: Tri)
    requires Proper(g) && k in g.members && Dead(g, k)
    ensures Seen(g, env, t, k) == NO
  {
    assert MemberProper(g, k);
    PromptsNeedChoice(g, env, g.info(k).prompts);
    PromptsNotMentioned(g, env, g.info(k).prompts, t);
  }

  /** A member is not seen unless its choice is y. */
  lemma MemberNeedsChoice(g: Group, env: Env, k: Symbol)
    requires Proper(g) && k in g.members
    ensures Seen(g, env, NO, k) == NO && Seen(g, env, YES, k) != MOD
  {
    assert MemberProper(g, k);
    PromptsNeedChoice(g, env, g.info(k).prompts);
  }

  /** Of the members exactly one is y. */
  ghost predicate ExactlyOne(g: Group, value: Symbol -> Tri) {
    exists k :: k in g.members && value(k) == YES && forall j :: j in g.members && j != k ==> value(j) == NO
  }

  ghost function Values(g: Group, env: Env, u: User, user: Option<Symbol>): Symbol -> Tri
    requires Proper(g)
  {
    (k: Symbol) => MemberTri(g, env, u, user, k)
  }

  /** Each member's value: y for the one in force, n for the others. */
  lemma MemberIs(g: Group, env: Env, u: User, user: Option<Symbol>, k: Symbol)
    requires Proper(g) && k in g.members
    ensures MemberTri(g, env, u, user, k) == FromBool(Picked(g, env, u, user) == Some(k))
  {
    if Picked(g, env, u, user) == Some(k) {
      MemberNeedsChoice(g, env, k);
    }
  }

  /** If the choice is n no member is y. */
  lemma NoneIfOff(g: Group, env: Env, u: User, user: Option<Symbol>)
    requires Proper(g) && ChoiceTri(g, env, u, user) == NO
    ensures forall k :: k in g.members ==> MemberTri(g, env, u, user, k) == NO
  {
  }

  /** The symbol that would be picked by user or default is a member. */
  predicate PicksInside(g: Group, env: Env, user: Option<Symbol>)
    requires forall d :: d in g.info(g.choice).defaults ==> d.expr.Sym?
  {
    if user.Some? && Shown(g, env, user.value) then user.value in g.members
    else DefaultsInside(g, env, g.info(g.choice).defaults)
  }

  /** The first default that applies, if any, names a member. */
  predicate DefaultsInside(g: Group, env: Env, ds: seq<Default>)
    requires forall d :: d in ds ==> d.expr.Sym?
  {
    ds == [] ||
    if EvalOption(ds[0].visible, env) != NO && Shown(g, env, ds[0].expr.sym) then ds[0].expr.sym in g.members
    else DefaultsInside(g, env, ds[1..])
  }

  lemma {:induction false} DefaultInsideIff(g: Group, env: Env, ds: seq<Default>)
    requires forall d :: d in ds ==> d.expr.Sym?
    ensures var r := ShownDefault(g, env, ds); DefaultsInside(g, env, ds) <==> (r.Some? ==> r.value in g.members)
  {
    if ds != [] {
      DefaultInsideIff(g, env, ds[1..]);
    }
  }

  predicate DefaultsAreMembers(g: Group, ds: seq<Default>) {
    forall d :: d in ds ==> d.expr.Sym? && d.expr.sym in g.members
  }

  /** Then the default that applies is a member, whichever it is. */
  lemma {:induction false} MembersInside(g: Group, env: Env, ds: seq<Default>)
    requires DefaultsAreMembers(g, ds)
    ensures DefaultsInside(g, env, ds)
  {
    if ds != [] {
      MembersInside(g, env, ds[1..]);
    }
  }

  /** A choice that comes out y with a member to be seen is y, and has exactly one
      member at y if and only if the user's pick, if it is shown, or else the first
      default that applies, is a member. */
  lemma ExclusiveIff(g: Group, env: Env, u: User, user: Option<Symbol>)
    requires Proper(g) && Raw(g, env, u) == YES && exists k :: k in g.members && Shown(g, env, k)
    ensures ChoiceTri(g, env, u, user) == YES
    ensures ExactlyOne(g, Values(g, env, u, user)) <==> PicksInside(g, env, user)
  {
    var value := Values(g, env, u, user);
    var picked := Picked(g, env, u, user);
    DefaultInsideIff(g, env, g.info(g.choice).defaults);
    forall k | k in g.members ensures value(k) == FromBool(picked == Some(k)) {
      MemberIs(g, env, u, user, k);
    }
    if PicksInside(g, env, user) {
      assert picked.value in g.members && value(picked.value) == YES;
    }
  }

  /** A choice c, always visible, with a member m and a default x outside it. */
  function Hijacked(c: Symbol, m: Symbol, x: Symbol): Group {
    Group(c, [m], (s: Symbol) =>
      if s == c then Info("C", [None], [Default(None, Sym(x))], [], Some(Sym(SymMod)), None)
      else if s == m then Info("M", [Some(Sym(c))], [], [], None, None)
      else Info("X", [None], [], [], None, None))
  }

  /** The choice is y, its only member can be seen, and is n. */
  lemma DefaultOutside(c: Symbol, m: Symbol, x: Symbol, env: Env)
    requires c != m && m != x && c != x && TypeOf(c) == TypeOf(m) == TypeOf(x) == BooleanType
    ensures
      var (g, u) := (Hijacked(c, m, x), User(NO, "", true));
      && Proper(g) && ChoiceTri(g, env, u, None) == YES
      && Shown(g, env, m) && MemberTri(g, env, u, None, m) == NO
  {
    var (g, u) := (Hijacked(c, m, x), User(NO, "", true));
    assert MemberProper(g, m);
    assert Proper(g);
    OnePrompt(None, env);
    assert Raw(g, env, u) == YES;
    OnePrompt(None, With(g, env, YES));
    OnePrompt(Some(Sym(c)), With(g, env, YES));
    assert Shown(g, env, x) && Shown(g, env, m);
    assert Picked(g, env, u, None) == Some(x);
  }

  lemma OnePrompt(p: Option<Expr>, env: Env)
    ensures AnyPrompt([p], env) == EvalOption(p, env)
  {
    assert [p][..0] == [];
  }

  // ----- settings that change nothing, and settings that do -----

  /** Recording that the user has chosen does not turn a choice off. */
  lemma ChoiceStaysYes(g: Group, env: Env, u: User)
    requires Raw(g, env, u) == YES
    ensures Raw(g, env, u.(isNew := false)) == YES
  {
  }

  /** A member that is seen and chosen is the one in force. */
  lemma ChosenIsPicked(g: Group, env: Env, u: User, user: Option<Symbol>, k: Symbol)
    requires Proper(g) && k in g.members && Seen(g, env, ChoiceTri(g, env, u, user), k) == YES
    ensures Picked(g, env, u.(isNew := false), Some(k)) == Some(k)
  {
    MemberNeedsChoice(g, env, k);
    ChoiceStaysYes(g, env, u);
  }

  /** Setting a choice gives it that value, if it has a member to be seen. */
  lemma SettingChoice(g: Group, env: Env, u: User, user: Option<Symbol>, v: Tri)
    requires Proper(g)
    requires
      var i := g.info(g.choice);
      var v0, s0 := Visibility(BooleanType, i, env), Selected(BooleanType, i, env);
      v == ChoiceTri(g, env, u, user) || (v0 != NO && v != MOD && v0 > s0 && s0 <= v <= v0)
    ensures var w := u.(tri := v, isNew := false);
      && (v == NO ==> ChoiceTri(g, env, w, user) == NO)
      && (v == YES ==> ChoiceTri(g, env, w, user) == FromBool(Pick(g, env, user).Some?))
  {
  }

  /** Setting a choice to the value it has changes nothing. */
  lemma SameChoice(g: Group, env: Env, u: User, user: Option<Symbol>, v: Tri)
    requires Proper(g) && v == ChoiceTri(g, env, u, user)
    ensures Picked(g, env, u.(tri := v, isNew := false), user) == Picked(g, env, u, user)
  {
    hide Proper, Pick, AnyPrompt;
  }
}
