/** A configuration that is written, read and calculated again. */
module ConfReload {
  import opened Options
  import opened Tristate
  import opened Expressions
  import opened Symbols
  import opened SymbolMeaning
  import opened MenuTree
  import opened SymbolTable
  import ConfText
  import ConfFile
  import opened ConfWrite
  import opened ConfSymbols

  // ----- numbers in their range -----

  /** A number that has been moved into a range stays where it is if and only if the
      bounds are in order; else it goes back and forth between them. */
  lemma ClampTwiceIff(cfg: Config, typ: SymbolType, r: Range, val: string, env: Env)
    requires BoundsPrint(cfg, typ, r, env)
    ensures ClampInto(cfg, typ, r, ClampInto(cfg, typ, r, val, env), env) == ClampInto(cfg, typ, r, val, env)
       <==> InOrder(cfg, typ, r, env)
  {
    hide RangeBound;
  }

  predicate GoodRange(cfg: Config, typ: SymbolType, i: Info, env: Env) {
    var r := FirstRange(i.ranges, env);
    (typ == IntType || typ == HexType) && r.Some? ==>
      BoundsPrint(cfg, typ, r.value, env) && InOrder(cfg, typ, r.value, env)
  }

  // ----- settings that give the same value -----

  /** What a file says of a symbol, as a setting; without a word it is new. */
  function UserFrom(r: Option<ConfText.FileValue>): User {
    match r
    case None => User(NO, "", true)
    case Some(State(t)) => User(t, "", false)
    case Some(Written(text)) => User(NO, text, false)
  }

  /** The value of a symbol that cannot be set does not depend on its setting. */
  lemma HiddenIgnoresUser(cfg: Config, s: Symbol, u: User, u': User, env: Env)
    requires Visibility(TypeOf(s), cfg.info(s), env) == NO
    ensures ValueGiven(cfg, s, u', env) == ValueGiven(cfg, s, u, env)
  {
    hide Clamp, DefaultStr, DefaultTri, Visibility;
  }

  /** A symbol set to the value it has keeps it. */
  lemma OwnValueSettles(cfg: Config, s: Symbol, u: User, env: Env)
    requires TypeOf(s) != UnknownType && Visibility(TypeOf(s), cfg.info(s), env) != NO
    requires GoodRange(cfg, TypeOf(s), cfg.info(s), env)
    ensures var v := ValueGiven(cfg, s, u, env);
      ValueGiven(cfg, s, UserFrom(Some(FileForm(s, v))), env) == v
  {
    var i, v := cfg.info(s), ValueGiven(cfg, s, u, env);
    var u' := UserFrom(Some(FileForm(s, v)));
    if IsTriType(s) {
      TriValueSettles(TypeOf(s), i, u, u', env);
    } else {
      var val := if Visibility(TypeOf(s), i, env) != NO && !u.isNew then u.val else DefaultStr(i, env);
      var r := FirstRange(i.ranges, env);
      if r.Some? && (TypeOf(s) == IntType || TypeOf(s) == HexType) {
        ClampTwiceIff(cfg, TypeOf(s), r.value, val, env);
      }
    }
    hide ClampInto, FirstRange, BoundsPrint, InOrder, DefaultStr, TriValue, Visibility;
  }

  // ----- all symbols -----

  /** Each symbol's new setting gives it the value it has, as long as the others
      have theirs. */
  ghost predicate EachSettles(cfg: Config, user: map<Symbol, User>, user': map<Symbol, User>)
    requires Acyclic(cfg) && user.Keys == user'.Keys == cfg.symbols
  {
    forall s :: s in cfg.symbols ==>
      ValueGiven(cfg, s, user'[s], EnvBelow(cfg, user, cfg.rank(s))) == ValueOf(cfg, user, s)
  }

  lemma {:induction false} AllSettle(cfg: Config, user: map<Symbol, User>, user': map<Symbol, User>, s: Symbol)
    requires Acyclic(cfg) && user.Keys == user'.Keys == cfg.symbols && s in cfg.symbols
    requires EachSettles(cfg, user, user')
    ensures ValueOf(cfg, user', s) == ValueOf(cfg, user, s)
    decreases cfg.rank(s), 1
  {
    AllSettleBelow(cfg, user, user', cfg.rank(s));
    ValueGivenAgrees(cfg, s, user'[s], EnvBelow(cfg, user, cfg.rank(s)), EnvBelow(cfg, user', cfg.rank(s)));
  }

  lemma {:induction false} AllSettleBelow(cfg: Config, user: map<Symbol, User>, user': map<Symbol, User>, k: nat)
    requires Acyclic(cfg) && user.Keys == user'.Keys == cfg.symbols && EachSettles(cfg, user, user')
    ensures AgreeBelow(cfg, EnvBelow(cfg, user, k), EnvBelow(cfg, user', k), k)
    decreases k, 0
  {
    hide EachSettles, ValueOf;
    forall t | t in cfg.symbols && cfg.rank(t) < k ensures ValueOf(cfg, user', t) == ValueOf(cfg, user, t) {
      AllSettle(cfg, user, user', t);
    }
  }

  // ----- there and back -----

  ghost predicate CanBeSet(cfg: Config, user: map<Symbol, User>, s: Symbol)
    requires Acyclic(cfg) && user.Keys == cfg.symbols && s in cfg.symbols
  {
    TypeOf(s) != UnknownType && Visibility(TypeOf(s), cfg.info(s), EnvBelow(cfg, user, cfg.rank(s))) != NO
  }

  ghost function Items(cfg: Config, user: map<Symbol, User>, f: Forest, at: nat -> Entry): seq<ConfFile.Item>
    requires Acyclic(cfg) && user.Keys == cfg.symbols
  {
    FileItems(f, at, Flagged(cfg, user), TextsOf(cfg, user))
  }

  /** Every symbol with a prompt has an entry.  Of the symbols that can be set,
      numbers are numbers, in ranges whose bounds are in order, and no menu prompt
      reads like one of them being unset, unless it is n. */
  ghost predicate Reloadable(cfg: Config, user: map<Symbol, User>, f: Forest, at: nat -> Entry,
                             kinds: map<string, ConfText.Kind>)
    requires Acyclic(cfg) && user.Keys == cfg.symbols
  {
    && (forall s :: s in cfg.symbols && cfg.info(s).prompts != [] ==>
          exists i :: i in Preorder(f) && at(i) == ConfWrite.Value(s))
    && (forall s :: s in cfg.symbols && CanBeSet(cfg, user, s) ==>
          SymbolReloadable(cfg, user, s, kinds, Items(cfg, user, f, at)))
  }

  ghost predicate SymbolReloadable(cfg: Config, user: map<Symbol, User>, s: Symbol,
                                   kinds: map<string, ConfText.Kind>, items: seq<ConfFile.Item>)
    requires Acyclic(cfg) && user.Keys == cfg.symbols && s in cfg.symbols && CanBeSet(cfg, user, s)
  {
    var v := FileForm(s, ValueOf(cfg, user, s));
    && ConfFile.Readable(KindOf(TypeOf(s)), v)
    && GoodRange(cfg, TypeOf(s), cfg.info(s), EnvBelow(cfg, user, cfg.rank(s)))
    && (v == ConfText.State(NO) ||
        forall k :: 0 <= k < |items| ==> !ConfFile.IsUnsetLike(kinds, items[k], cfg.info(s).name))
  }

  /** The settings after reading. */
  ghost function Reloaded(cfg: Config, read: ConfText.UserSettings): map<Symbol, User> {
    map s | s in cfg.symbols :: UserFrom(ConfFile.Recorded(read, cfg.info(s).name))
  }

  /** A symbol that can be set is written. */
  lemma SettableIsWritten(cfg: Config, user: map<Symbol, User>, s: Symbol)
    requires Acyclic(cfg) && user.Keys == cfg.symbols && s in cfg.symbols && CanBeSet(cfg, user, s)
    ensures WriteFlag(cfg, user, s) && cfg.info(s).prompts != []
  {
    hide Selected, FirstDefault, EnvBelow;
  }

  lemma ValueComesBack(cfg: Config, user: map<Symbol, User>, f: Forest, at: nat -> Entry,
                       kinds: map<string, ConfText.Kind>, was: ConfText.UserSettings, s: Symbol)
    requires Acyclic(cfg) && user.Keys == cfg.symbols && Presentable(cfg, user, at, kinds)
    requires Reloadable(cfg, user, f, at, kinds) && s in cfg.symbols && CanBeSet(cfg, user, s)
    ensures var items := Items(cfg, user, f, at);
      && ConfFile.AllWritable(kinds, items)
      && ConfFile.Recorded(ConfFile.ReadFile(kinds, ConfFile.WriteFile(kinds, items), was), cfg.info(s).name)
        == Some(FileForm(s, ValueOf(cfg, user, s)))
  {
    SettableIsWritten(cfg, user, s);
    var i :| i in Preorder(f) && at(i) == ConfWrite.Value(s);
    assert SymbolFits(cfg, user, kinds, s);
    assert SymbolReloadable(cfg, user, s, kinds, Items(cfg, user, f, at));
    hide WriteFlag, FileItems, ConfFile.AllWritable, ConfFile.ReadFile, ConfFile.WriteFile, Preorder;
    hide ConfFile.Readable, ConfFile.Render, ConfFile.IsUnsetLike, ValueOf, CanBeSet, Presentable, Reloadable;
    var k := ConfigRoundTrip(cfg, user, f, at, kinds, s, was);
  }

  lemma SymbolSettles(cfg: Config, user: map<Symbol, User>, f: Forest, at: nat -> Entry,
                      kinds: map<string, ConfText.Kind>, was: ConfText.UserSettings, s: Symbol)
    requires Acyclic(cfg) && user.Keys == cfg.symbols && Presentable(cfg, user, at, kinds)
    requires Reloadable(cfg, user, f, at, kinds) && s in cfg.symbols
    requires ConfFile.AllWritable(kinds, Items(cfg, user, f, at))
    ensures var read := ConfFile.ReadFile(kinds, ConfFile.WriteFile(kinds, Items(cfg, user, f, at)), was);
      ValueGiven(cfg, s, Reloaded(cfg, read)[s], EnvBelow(cfg, user, cfg.rank(s))) == ValueOf(cfg, user, s)
  {
    var read := ConfFile.ReadFile(kinds, ConfFile.WriteFile(kinds, Items(cfg, user, f, at)), was);
    var env := EnvBelow(cfg, user, cfg.rank(s));
    if CanBeSet(cfg, user, s) {
      ValueComesBack(cfg, user, f, at, kinds, was, s);
      assert SymbolReloadable(cfg, user, s, kinds, Items(cfg, user, f, at));
      hide ConfFile.ReadFile, ConfFile.WriteFile, ValueGiven, Items, Presentable, Reloadable, UserFrom;
      OwnValueSettles(cfg, s, user[s], env);
    } else if TypeOf(s) != UnknownType {
      hide ConfFile.ReadFile, ConfFile.WriteFile, ValueGiven, Items, Presentable, Reloadable, UserFrom;
      HiddenIgnoresUser(cfg, s, user[s], Reloaded(cfg, read)[s], env);
    }
  }

  /** After a configuration is written and read again, over whatever settings, the
      evaluator gives every symbol the value it had... */
  lemma ValuesReload(cfg: Config, user: map<Symbol, User>, f: Forest, at: nat -> Entry,
                     kinds: map<string, ConfText.Kind>, was: ConfText.UserSettings, s: Symbol)
    requires Acyclic(cfg) && user.Keys == cfg.symbols && Presentable(cfg, user, at, kinds)
    requires Reloadable(cfg, user, f, at, kinds) && s in cfg.symbols
    ensures var items := Items(cfg, user, f, at);
      && ConfFile.AllWritable(kinds, items)
      && var read := ConfFile.ReadFile(kinds, ConfFile.WriteFile(kinds, items), was);
         ValueOf(cfg, Reloaded(cfg, read), s) == ValueOf(cfg, user, s)
  {
    AllReload(cfg, user, f, at, kinds, was);
    hide Items, Presentable, Reloadable, ValueOf, EachSettles;
    hide ConfFile.AllWritable, ConfFile.ReadFile, ConfFile.WriteFile;
    var read := ConfFile.ReadFile(kinds, ConfFile.WriteFile(kinds, Items(cfg, user, f, at)), was);
    AllSettle(cfg, user, Reloaded(cfg, read), s);
  }

  lemma AllReload(cfg: Config, user: map<Symbol, User>, f: Forest, at: nat -> Entry,
                  kinds: map<string, ConfText.Kind>, was: ConfText.UserSettings)
    requires Acyclic(cfg) && user.Keys == cfg.symbols && Presentable(cfg, user, at, kinds)
    requires Reloadable(cfg, user, f, at, kinds)
    ensures var items := Items(cfg, user, f, at);
      && ConfFile.AllWritable(kinds, items)
      && var read := ConfFile.ReadFile(kinds, ConfFile.WriteFile(kinds, items), was);
         EachSettles(cfg, user, Reloaded(cfg, read))
  {
    EntriesWritable(cfg, user, at, kinds);
    ItemsWritable(f, at, Flagged(cfg, user), kinds, TextsOf(cfg, user));
    hide Presentable, Reloadable, FileItems, ValueOf, ValueGiven;
    hide ConfFile.AllWritable, ConfFile.ReadFile, ConfFile.WriteFile;
    var read := ConfFile.ReadFile(kinds, ConfFile.WriteFile(kinds, Items(cfg, user, f, at)), was);
    forall s | s in cfg.symbols
      ensures ValueGiven(cfg, s, Reloaded(cfg, read)[s], EnvBelow(cfg, user, cfg.rank(s))) == ValueOf(cfg, user, s)
    {
      SymbolSettles(cfg, user, f, at, kinds, was, s);
    }
  }

  // ----- and the same file -----

  lemma SameFlag(cfg: Config, user: map<Symbol, User>, user': map<Symbol, User>, s: Symbol)
    requires Acyclic(cfg) && user.Keys == user'.Keys == cfg.symbols && s in cfg.symbols
    requires EachSettles(cfg, user, user')
    ensures WriteFlag(cfg, user', s) == WriteFlag(cfg, user, s)
  {
    var k := cfg.rank(s);
    var a, b := EnvBelow(cfg, user, k), EnvBelow(cfg, user', k);
    AllSettleBelow(cfg, user, user', k);
    InfoParts(cfg, s);
    VisibilityAgrees(cfg, TypeOf(s), cfg.info(s), a, b, k);
    DefaultsAgree(cfg, cfg.info(s).defaults, a, b, k);
    hide EachSettles, Acyclic, EnvBelow, Visibility, Selected, Deselected, FirstDefault, InfoBelow;
  }

  lemma SameItems(cfg: Config, user: map<Symbol, User>, user': map<Symbol, User>, f: Forest, at: nat -> Entry)
    requires Acyclic(cfg) && user.Keys == user'.Keys == cfg.symbols && EachSettles(cfg, user, user')
    ensures Items(cfg, user', f, at) == Items(cfg, user, f, at)
  {
    forall s | s in cfg.symbols
      ensures WriteFlag(cfg, user', s) == WriteFlag(cfg, user, s) && ValueOf(cfg, user', s) == ValueOf(cfg, user, s)
    {
      SameFlag(cfg, user, user', s);
      AllSettle(cfg, user, user', s);
    }
    assert Flagged(cfg, user') == Flagged(cfg, user);
    EmittedEntries(Preorder(f), at, Flagged(cfg, user));
    hide WriteFlag, ValueOf, EachSettles, Acyclic, Emit, Preorder;
  }

  /** ...so writing it again gives the same file. */
  lemma FileReloads(cfg: Config, user: map<Symbol, User>, f: Forest, at: nat -> Entry,
                    kinds: map<string, ConfText.Kind>, was: ConfText.UserSettings)
    requires Acyclic(cfg) && user.Keys == cfg.symbols && Presentable(cfg, user, at, kinds)
    requires Reloadable(cfg, user, f, at, kinds)
    ensures var items := Items(cfg, user, f, at);
      && ConfFile.AllWritable(kinds, items)
      && var read := ConfFile.ReadFile(kinds, ConfFile.WriteFile(kinds, items), was);
         Items(cfg, Reloaded(cfg, read), f, at) == items
  {
    AllReload(cfg, user, f, at, kinds, was);
    hide Items, Presentable, Reloadable, ValueOf, EachSettles;
    hide ConfFile.AllWritable, ConfFile.ReadFile, ConfFile.WriteFile;
    var read := ConfFile.ReadFile(kinds, ConfFile.WriteFile(kinds, Items(cfg, user, f, at)), was);
    SameItems(cfg, user, Reloaded(cfg, read), f, at);
  }
}
