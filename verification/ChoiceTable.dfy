/** The evaluator on a choice and its members: asking for a member asks for the
    choice, and the choice looks at the visibility of its members. */
module ChoiceTable {
  import opened Options
  import opened Tristate
  import opened Expressions
  import opened Symbols
  import opened Choices
  import Adoption

  datatype Action = Calculate(s: Symbol) | SetTo(sym: Symbol, v: Tri) | Switch(t: Tri) | Outside(env: Env)

  class Table {
    const g: Group
    /** The values outside the group, and what the user has set. */
    var env: Env
    var user: User
    var chosen: Option<Symbol>
    /** What has been calculated: the choice's value and member in force, the
        visibility of symbols, and the members' values. */
    var valid: set<Symbol>
    var tri: Tri
    var picked: Option<Symbol>
    var visible: map<Symbol, Tri>
    var value: map<Symbol, Tri>

    ghost function RightTri(): Tri
      requires Proper(g)
      reads this
    {
      ChoiceTri(g, env, user, chosen)
    }

    ghost function RightPick(): Option<Symbol>
      requires Proper(g)
      reads this
    {
      Picked(g, env, user, chosen)
    }

    /** What the table says about a member is right. */
    ghost predicate RightMember(k: Symbol)
      requires Proper(g)
      reads this
    {
      && k in value && value[k] == MemberTri(g, env, user, chosen, k)
      && k in visible && visible[k] == Seen(g, env, RightTri(), k)
    }

    /** Everything flagged valid is right, except what is being calculated: the
        choice, which then is provisionally y, or the members in `busy`. */
    ghost predicate Memo(open: bool, busy: set<Symbol>)
      reads this
    {
      && Proper(g)
      && Members(g.choice in valid && !open, busy)
      && (open ==> g.choice in valid && tri == YES && Raw(g, env, user) == YES)
      && (g.choice in valid && !open ==> tri == RightTri() && picked == RightPick())
      && ChosenInside()
    }

    /** The user picks members only. */
    predicate ChosenInside()
      reads this
    {
      chosen.Some? ==> chosen.value in g.members
    }

    /** The valid members are right; before the choice is known only members whose
        prompts do not mention it can be valid. */
    ghost predicate Members(known: bool, busy: set<Symbol>)
      requires Proper(g)
      reads this
    {
      forall k :: k in valid && k in g.members && k !in busy ==>
        RightMember(k) && (known || Dead(g, k))
    }

    /** What a reader of the choice sees. */
    ghost function Provisional(open: bool): Tri
      requires Proper(g)
      reads this
    {
      if open then YES else RightTri()
    }

    /** Nothing but visibilities and the choice has been calculated. */
    twostate predicate Kept(open: bool)
      reads this
    {
      && env == old(env) && user == old(user) && chosen == old(chosen) && value == old(value)
      && (valid == old(valid) || valid == old(valid) + {g.choice})
      && (open ==> valid == old(valid) && tri == old(tri) && picked == old(picked))
    }

    // ----- reading -----

    function TriNow(s: Symbol): Tri
      reads this
    {
      if s == g.choice then tri else TriOf(s, env)
    }

    function StrNow(s: Symbol): string
      reads this
    {
      if s == g.choice then TriName(tri) else StrOf(s, env)
    }

    lemma ReadsRight(s: Symbol, t: Tri)
      requires TypeOf(g.choice) == BooleanType && t != MOD && (s == g.choice ==> tri == t)
      ensures TriNow(s) == TriOf(s, With(g, env, t)) && StrNow(s) == StrOf(s, With(g, env, t))
    {
    }

    lemma NeverMod(open: bool)
      requires Proper(g)
      ensures Provisional(open) != MOD && TypeOf(g.choice) == BooleanType
    {
    }

    // ----- expressions -----

    method CalcOption(e: Option<Expr>, ghost open: bool, ghost busy: set<Symbol>) returns (t: Tri)
      requires Memo(open, busy)
      modifies this`valid, this`tri, this`picked, this`visible
      ensures Memo(open, busy) && Kept(open)
      ensures t == EvalOption(e, With(g, env, Provisional(open)))
      ensures e.Some? && Adoption.ContainsSymbol(e.value, g.choice) ==> g.choice in valid
      decreases if g.choice in valid then 0 else 1, 3
    {
      hide Table.Memo;
      if e.None? {
        return YES;
      }
      t := CalcExpr(e.value, open, busy);
    }

    method CalcExpr(e: Expr, ghost open: bool, ghost busy: set<Symbol>) returns (t: Tri)
      requires Memo(open, busy)
      modifies this`valid, this`tri, this`picked, this`visible
      ensures Memo(open, busy) && Kept(open)
      ensures t == Eval(e, With(g, env, Provisional(open)))
      ensures Adoption.ContainsSymbol(e, g.choice) ==> g.choice in valid
      decreases if g.choice in valid then 0 else 1, 2, e
    {
      assert Proper(g);
      NeverMod(open);
      hide Table.Memo, ChoiceTri, Proper, With, TriOf, StrOf;
      match e
      case Sym(s) =>
        CalcSymbol(s, open, busy);
        ReadsRight(s, Provisional(open));
        t := TriNow(s);
      case Cmp(rel, a, b) =>
        CalcSymbol(a, open, busy);
        CalcSymbol(b, open, busy);
        ReadsRight(a, Provisional(open));
        ReadsRight(b, Provisional(open));
        t := FromBool((StrNow(a) == StrNow(b)) == rel.Equal?);
      case Not(a) =>
        t := CalcExpr(a, open, busy);
        t := Negate(t);
      case Bin(op, l, r) =>
        var x := CalcExpr(l, open, busy);
        var y := CalcExpr(r, open, busy);
        t := Apply(op, x, y);
    }

    /** A symbol outside the group has its value; the choice is calculated. */
    method CalcSymbol(s: Symbol, ghost open: bool, ghost busy: set<Symbol>)
      requires Memo(open, busy)
      modifies this`valid, this`tri, this`picked, this`visible
      ensures Memo(open, busy) && Kept(open)
      ensures s == g.choice ==> g.choice in valid
      ensures g.choice in valid ==> tri == Provisional(open)
      decreases if g.choice in valid then 0 else 1, 1
    {
      if s == g.choice {
        CalcChoice(open, busy);
      }
    }

    // ----- visibility -----

    /** The visibility of a member that is being calculated or looked at. */
    method CalcVisibility(k: Symbol, ghost open: bool, ghost busy: set<Symbol>)
      requires Memo(open, busy) && (open || k in busy)
      modifies this`valid, this`tri, this`picked, this`visible
      ensures Memo(open, busy) && Kept(open)
      ensures k in visible && visible[k] == Seen(g, env, Provisional(open), k)
      ensures k in g.members && !Dead(g, k) ==> g.choice in valid
      decreases if g.choice in valid then 0 else 1, 5
    {
      hide Table.Memo, AnyPrompt, ChoiceTri;
      var t := AnyPromptNow(k, open, busy);
      if t == MOD && TypeOf(k) != TristateType {
        t := YES;
      }
      var d := NO;
      if g.info(k).deselectedBy.Some? {
        d := CalcOption(g.info(k).deselectedBy, open, busy);
      }
      if d == YES {
        t := NO;
      }
      SetVisible(k, t, open, busy);
    }

    method AnyPromptNow(k: Symbol, ghost open: bool, ghost busy: set<Symbol>) returns (t: Tri)
      requires Memo(open, busy)
      modifies this`valid, this`tri, this`picked, this`visible
      ensures Memo(open, busy) && Kept(open)
      ensures t == AnyPrompt(g.info(k).prompts, With(g, env, Provisional(open)))
      ensures k in g.members && !Dead(g, k) ==> g.choice in valid
      decreases if g.choice in valid then 0 else 1, 4, 0
    {
      hide Table.Members, AnyPrompt, Apply, EvalOption, Proper, ChoiceTri;
      var ps := g.info(k).prompts;
      t := NO;
      NoPrompt(ps[..0], With(g, env, Provisional(open)));
      for i := 0 to |ps|
        invariant Memo(open, busy) && Kept(open)
        invariant t == AnyPrompt(ps[..i], With(g, env, Provisional(open)))
        invariant g.choice in valid || forall p :: p in ps[..i] ==> !Mentions(p, g.choice)
      {
        var v := CalcOption(ps[i], open, busy);
        AnyPromptMore(ps, i, With(g, env, Provisional(open)));
        t := Apply(OrOp, t, v);
        assert ps[..i + 1] == ps[..i] + [ps[i]];
      }
      assert ps[..|ps|] == ps;
    }

    lemma NoPrompt(ps: seq<Option<Expr>>, e: Env)
      requires ps == []
      ensures AnyPrompt(ps, e) == NO
    {
    }

    method SetVisible(k: Symbol, t: Tri, ghost open: bool, ghost busy: set<Symbol>)
      requires Memo(open, busy) && (open || k in busy) && t == Seen(g, env, Provisional(open), k)
      modifies this`visible
      ensures Memo(open, busy) && visible == old(visible)[k := t]
    {
      if open && k in g.members && k in valid && k !in busy {
        DeadUnseen(g, env, k, YES);
        DeadUnseen(g, env, k, RightTri());
      }
      visible := visible[k := t];
    }

    // ----- the choice -----

    /** Calculates the choice; a second request while that goes on returns at once. */
    method CalcChoice(ghost open: bool, ghost busy: set<Symbol>)
      requires Memo(open, busy)
      modifies this`valid, this`tri, this`picked, this`visible
      ensures Memo(open, busy) && Kept(open)
      ensures g.choice in valid && tri == Provisional(open)
      decreases if g.choice in valid then 0 else 1, 0
    {
      if g.choice in valid {
        return;
      }
      var raw := StartChoice(busy);
      if raw == YES {
        var r := FindPick(busy);
        FinishChoice(r, busy);
      }
    }

    /** Flags the choice as valid and gives it its value before members count. */
    method StartChoice(ghost busy: set<Symbol>) returns (raw: Tri)
      requires Memo(false, busy) && g.choice !in valid
      modifies this`valid, this`tri, this`picked
      ensures valid == old(valid) + {g.choice} && raw == Raw(g, env, user) && raw != MOD
      ensures Memo(raw == YES, busy)
    {
      valid := valid + {g.choice};
      raw := Raw(g, env, user);
      tri, picked := raw, None;
      MembersKept(busy);
    }

    method FinishChoice(r: Option<Symbol>, ghost busy: set<Symbol>)
      requires Proper(g) && Members(false, busy) && ChosenInside() && g.choice in valid && Raw(g, env, user) == YES
      requires r == Pick(g, env, chosen) && tri == FromBool(r.Some?)
      modifies this`picked
      ensures Memo(false, busy) && picked == r
    {
      picked := r;
      MembersKept(busy);
    }

    twostate lemma MembersKept(busy: set<Symbol>)
      requires Proper(g) && old(Members(false, busy)) && env == old(env) && user == old(user) && chosen == old(chosen)
      requires value == old(value) && visible == old(visible)
      requires valid == old(valid) || valid == old(valid) + {g.choice}
      ensures Members(false, busy) && Members(true, busy)
    {
      forall k | k in valid && k in g.members && k !in busy ensures RightMember(k) && Dead(g, k) {
        assert k in old(valid);
        assert old(RightMember(k));
      }
    }

    /** The member in force; without one the choice falls back to n. */
    method FindPick(ghost busy: set<Symbol>) returns (r: Option<Symbol>)
      requires Memo(true, busy)
      modifies this`valid, this`tri, this`picked, this`visible
      ensures env == old(env) && user == old(user) && chosen == old(chosen)
      ensures value == old(value) && valid == old(valid)
      ensures r == Pick(g, env, chosen) && tri == FromBool(r.Some?)
      ensures Proper(g) && Members(false, busy)
      decreases 0, 7
    {
      hide Table.Members, Table.RightMember, Seen, Proper;
      if chosen.Some? {
        CalcVisibility(chosen.value, true, busy);
        if visible[chosen.value] != NO {
          return chosen;
        }
      }
      r := FindDefault(busy);
      if r.Some? {
        return;
      }
      r := FindMember(busy);
      if r.None? {
        ChoiceOff(busy);
      }
    }

    /** No member is in force. */
    method ChoiceOff(ghost busy: set<Symbol>)
      requires Memo(true, busy)
      modifies this`tri
      ensures tri == NO && Proper(g) && Members(false, busy)
    {
      tri := NO;
    }

    method FindDefault(ghost busy: set<Symbol>) returns (r: Option<Symbol>)
      requires Memo(true, busy)
      modifies this`valid, this`tri, this`picked, this`visible
      ensures Memo(true, busy) && Kept(true)
      ensures r == ShownDefault(g, env, g.info(g.choice).defaults)
      decreases 0, 6
    {
      hide Table.Members, Seen, ShownDefault;
      var ds := g.info(g.choice).defaults;
      assert ds[0..] == ds;
      for i := 0 to |ds|
        invariant Memo(true, busy) && Kept(true)
        invariant forall d :: d in ds ==> d.expr.Sym?
        invariant ShownDefault(g, env, ds[i..]) == ShownDefault(g, env, ds)
      {
        assert ds[i] in ds && ds[i..][1..] == ds[i + 1..];
        NextDefault(ds[i..]);
        if EvalOption(ds[i].visible, env) != NO {
          CalcVisibility(ds[i].expr.sym, true, busy);
          if visible[ds[i].expr.sym] != NO {
            return Some(ds[i].expr.sym);
          }
        }
      }
      NoDefault(ds[|ds|..]);
      return None;
    }

    lemma NextDefault(ds: seq<Default>)
      requires ds != [] && forall d :: d in ds ==> d.expr.Sym?
      ensures ShownDefault(g, env, ds) ==
        if EvalOption(ds[0].visible, env) != NO && Shown(g, env, ds[0].expr.sym) then Some(ds[0].expr.sym)
        else ShownDefault(g, env, ds[1..])
    {
    }

    lemma NoDefault(ds: seq<Default>)
      requires ds == []
      ensures ShownDefault(g, env, ds) == None
    {
    }

    method FindMember(ghost busy: set<Symbol>) returns (r: Option<Symbol>)
      requires Memo(true, busy)
      modifies this`valid, this`tri, this`picked, this`visible
      ensures Memo(true, busy) && Kept(true)
      ensures r == FirstShown(g, env, g.members)
      decreases 0, 6
    {
      hide Table.Members, Seen, Proper, FirstShown;
      assert g.members[0..] == g.members;
      for i := 0 to |g.members|
        invariant Memo(true, busy) && Kept(true)
        invariant FirstShown(g, env, g.members[i..]) == FirstShown(g, env, g.members)
      {
        assert g.members[i..][1..] == g.members[i + 1..];
        NextMember(g.members[i..]);
        CalcVisibility(g.members[i], true, busy);
        if visible[g.members[i]] != NO {
          return Some(g.members[i]);
        }
      }
      NoMember(g.members[|g.members|..]);
      return None;
    }

    lemma NextMember(ks: seq<Symbol>)
      requires ks != []
      ensures FirstShown(g, env, ks) == if Shown(g, env, ks[0]) then Some(ks[0]) else FirstShown(g, env, ks[1..])
    {
    }

    lemma NoMember(ks: seq<Symbol>)
      requires ks == []
      ensures FirstShown(g, env, ks) == None
    {
    }

    // ----- members -----

    /** Calculates a member; that calculates the choice first. */
    method CalcMember(k: Symbol)
      requires k in g.members && Memo(false, {})
      modifies this`valid, this`tri, this`picked, this`visible, this`value
      ensures Memo(false, {}) && k in valid
      ensures env == old(env) && user == old(user) && chosen == old(chosen) && valid >= old(valid)
    {
      if k in valid {
        return;
      }
      StartMember(k);
      CalcVisibility(k, false, {k});
      FinishMember(k);
    }

    method StartMember(k: Symbol)
      requires k in g.members && Memo(false, {}) && k !in valid
      modifies this`valid
      ensures Memo(false, {k}) && valid == old(valid) + {k}
    {
      valid := valid + {k};
    }

    method FinishMember(k: Symbol)
      requires k in g.members && Memo(false, {k}) && k in valid
      requires k in visible && visible[k] == Seen(g, env, RightTri(), k)
      requires !Dead(g, k) ==> g.choice in valid
      modifies this`value
      ensures Memo(false, {})
    {
      if Dead(g, k) {
        DeadUnseen(g, env, k, RightTri());
      }
      value := value[k := if visible[k] == YES then FromBool(picked == Some(k)) else NO];
      assert RightMember(k);
      assert forall j :: j in valid && j in g.members && j != k ==> old(RightMember(j)) && RightMember(j);
    }

    // ----- changing settings -----

    constructor (g: Group, env: Env)
      requires Proper(g)
      ensures this.g == g && Memo(false, {}) && valid == {}
    {
      this.g, this.env := g, env;
      user, chosen := User(NO, "", true), None;
      valid, tri, picked := {}, NO, None;
      visible, value := map[], map[];
    }

    /** Something outside the group has changed, or a member, and all is forgotten. */
    method Forget(env': Env)
      requires Proper(g) && ChosenInside()
      modifies this`env, this`valid
      ensures env == env' && valid == {} && Memo(false, {})
    {
      env, valid := env', {};
    }

    predicate WithinRange(k: Symbol, v: Tri)
      requires k in visible
      reads this
    {
      visible[k] == YES && v == YES
    }

    /** Sets a calculated member.  Setting it to y makes it the one in force, and
        every value still flagged valid is right, also when the member was y before
        and nothing is forgotten. */
    method SetMember(k: Symbol, v: Tri) returns (ok: bool)
      requires Memo(false, {}) && k in g.members && k in valid
      modifies this`user, this`chosen, this`env, this`valid
      ensures Memo(false, {}) && env == old(env)
      ensures ok == (v == old(value[k]) || (old(Seen(g, env, RightTri(), k)) == YES && v == YES))
      ensures !ok || v != YES ==> user == old(user) && chosen == old(chosen)
      ensures !ok || v == old(value[k]) ==> valid == old(valid)
      ensures ok && v == YES ==> chosen == Some(k) && !user.isNew && user.tri == old(user.tri)
      ensures ok && v == YES ==> RightTri() == YES && RightPick() == Some(k)
      ensures ok ==> MemberTri(g, env, user, chosen, k) == v
    {
      assert RightMember(k);
      var oldval := value[k];
      if oldval != v && !WithinRange(k, v) {
        return false;
      }
      ok := true;
      if v == YES {
        Choose(k);
      }
      if oldval != v {
        Forget(env);
      }
    }

    /** Records a member as the user's pick. */
    method Choose(k: Symbol)
      requires Memo(false, {}) && k in g.members && k in valid && visible[k] == YES
      modifies this`user, this`chosen
      ensures chosen == Some(k) && user == old(user).(isNew := false)
      ensures Proper(g) && RightPick() == Some(k) && RightTri() == YES && MemberTri(g, env, user, chosen, k) == YES
      ensures old(value[k]) == YES ==> Memo(false, {})
    {
      ghost var was := (user, chosen);
      ChosenIsPicked(g, env, user, chosen, k);
      MemberIs(g, env, user.(isNew := false), Some(k), k);
      chosen := Some(k);
      user := user.(isNew := false);
      if value[k] == YES {
        forall j | j in valid && j in g.members ensures RightMember(j) {
          assert old(RightMember(j));
        }
      }
    }

    /** Whether the user may set the choice itself to v. */
    predicate ChoiceWithinRange(v: Tri)
      reads this
    {
      var i := g.info(g.choice);
      var v0, s0 := Visibility(BooleanType, i, env), Selected(BooleanType, i, env);
      v0 != NO && v != MOD && v0 > s0 && s0 <= v <= v0
    }

    /** Sets the calculated choice, again with or without forgetting. */
    method SetChoice(v: Tri) returns (ok: bool)
      requires Memo(false, {}) && g.choice in valid
      modifies this`user, this`env, this`valid
      ensures Memo(false, {}) && env == old(env) && chosen == old(chosen)
      ensures ok == (v == old(tri) || old(ChoiceWithinRange(v)))
      ensures user == if ok then old(user).(tri := v, isNew := false) else old(user)
      ensures !ok || v == old(tri) ==> valid == old(valid)
      ensures ok && v == NO ==> RightTri() == NO
      ensures ok && v == YES ==> RightTri() == FromBool(Pick(g, env, chosen).Some?)
    {
      if tri != v && !ChoiceWithinRange(v) {
        return false;
      }
      ok := true;
      SettingChoice(g, env, user, chosen, v);
      if tri == v {
        SameChoice(g, env, user, chosen, v);
        RecordChoice(v);
      } else {
        user := user.(tri := v, isNew := false);
        Forget(env);
      }
    }

    /** A setting that changes nothing. */
    method RecordChoice(v: Tri)
      requires Memo(false, {})
      requires Picked(g, env, user.(tri := v, isNew := false), chosen) == RightPick()
      modifies this`user
      ensures user == old(user).(tri := v, isNew := false) && Memo(false, {})
    {
      user := user.(tri := v, isNew := false);
      forall j | j in valid && j in g.members ensures RightMember(j) {
        assert old(RightMember(j));
      }
    }

    /** Any run of calculations and settings of the group, and of changes outside
        it, in any order. */
    method Run(actions: seq<Action>)
      requires Memo(false, {})
      requires forall a :: a in actions && a.SetTo? ==> a.sym in g.members
      modifies this
      ensures Memo(false, {})
      ensures g.choice in valid ==> tri == RightTri()
      ensures forall k :: k in valid && k in g.members ==> k in value && value[k] == MemberTri(g, env, user, chosen, k)
    {
      hide Table.Memo;
      for n := 0 to |actions|
        invariant Memo(false, {})
      {
        var a := actions[n];
        assert a in actions;
        Act(a);
      }
      ValidIsRight();
    }

    method Act(a: Action)
      requires Memo(false, {}) && (a.SetTo? ==> a.sym in g.members)
      modifies this
      ensures Memo(false, {})
    {
      hide Table.Members;
      match a
      case Calculate(s) =>
        if s == g.choice {
          CalcChoice(false, {});
        } else if s in g.members {
          CalcMember(s);
        }
      case SetTo(k, v) =>
        if k in valid {
          var _ := SetMember(k, v);
        }
      case Switch(v) =>
        if g.choice in valid {
          var _ := SetChoice(v);
        }
      case Outside(e) =>
        Forget(e);
    }

    lemma ValidIsRight()
      requires Memo(false, {})
      ensures Proper(g) && (g.choice in valid ==> tri == RightTri())
      ensures forall k :: k in valid && k in g.members ==> k in value && value[k] == MemberTri(g, env, user, chosen, k)
    {
    }

    /** Calculates everything. */
    method CalcAll()
      requires Memo(false, {})
      modifies this`valid, this`tri, this`picked, this`visible, this`value
      ensures Memo(false, {}) && g.choice in valid && forall k :: k in g.members ==> k in valid
      ensures env == old(env) && user == old(user) && chosen == old(chosen)
    {
      CalcChoice(false, {});
      hide Table.Memo;
      for i := 0 to |g.members|
        invariant Memo(false, {}) && g.choice in valid
        invariant forall k :: k in g.members[..i] ==> k in valid
        invariant env == old(env) && user == old(user) && chosen == old(chosen)
      {
        CalcMember(g.members[i]);
        assert g.members[..i + 1] == g.members[..i] + [g.members[i]];
      }
      assert g.members[..|g.members|] == g.members;
    }

    /** After any run, once all is calculated, in whatever order: exactly one member
        is y if the choice is y, else none, as long as the defaults of the choice
        name members. */
    lemma Exclusive()
      requires Memo(false, {}) && g.choice in valid && forall k :: k in g.members ==> k in valid
      requires DefaultsAreMembers(g, g.info(g.choice).defaults)
      ensures tri == YES <==> Raw(g, env, user) == YES && exists k :: k in g.members && Shown(g, env, k)
      ensures tri == YES ==> exists k :: k in g.members && value[k] == YES
                                         && forall j :: j in g.members && j != k ==> value[j] == NO
      ensures tri == NO ==> forall k :: k in g.members ==> value[k] == NO
    {
      ValidIsRight();
      MembersInside(g, env, g.info(g.choice).defaults);
      DefaultInsideIff(g, env, g.info(g.choice).defaults);
      if tri == YES {
        assert RightPick().value in g.members;
        ExclusiveIff(g, env, user, chosen);
      } else {
        NoneIfOff(g, env, user, chosen);
      }
    }
  }
}
