/** The configuration file of a configuration: which symbols it shows, with which
    values, and what reading it gives. */
module ConfSymbols {
  import opened Tristate
  import opened Expressions
  import opened Symbols
  import opened SymbolMeaning
  import opened MenuTree
  import ConfText
  import ConfFile
  import opened ConfWrite

  /** A calculated symbol is flagged to be written: it can be set, is selected or
      has a default, and is not deselected. */
  ghost predicate WriteFlag(cfg: Config, user: map<Symbol, User>, s: Symbol)
    requires Acyclic(cfg) && user.Keys == cfg.symbols && s in cfg.symbols
  {
    var i, env := cfg.info(s), EnvBelow(cfg, user, cfg.rank(s));
    var visible, first := Visibility(TypeOf(s), i, env), FirstDefault(i.defaults, env);
    if IsTriType(s) then
      !Deselected(i, env) && (Apply(OrOp, visible, Selected(TypeOf(s), i, env)) != NO || first.Some?)
    else
      TypeOf(s) != UnknownType && (visible != NO || (first.Some? && first.value.expr.Sym?))
  }

  /** A symbol that is not written has nothing to say: it is n, or the empty text,
      moved into its range if it is a number. */
  lemma UnwrittenIsEmpty(cfg: Config, user: map<Symbol, User>, s: Symbol)
    requires Acyclic(cfg) && user.Keys == cfg.symbols && s in cfg.symbols && TypeOf(s) != UnknownType
    requires !WriteFlag(cfg, user, s)
    ensures var v := ValueOf(cfg, user, s);
      && v.tri == NO
      && (TypeOf(s) == StringType ==> v.val == "")
      && (IsNumber(TypeOf(s)) && cfg.info(s).ranges == [] ==> v.val == "")
  {
    hide EnvBelow, Selected, Visibility, FirstDefault;
  }

  /** It is written if it can be set, if it is selected, or if a default applies. */
  lemma WrittenIff(cfg: Config, user: map<Symbol, User>, s: Symbol)
    requires Acyclic(cfg) && user.Keys == cfg.symbols && s in cfg.symbols && IsTriType(s)
    ensures var (i, env) := (cfg.info(s), EnvBelow(cfg, user, cfg.rank(s)));
      WriteFlag(cfg, user, s) <==>
        && !IsDeselected(i, env)
        && !(AllOff(i.prompts, env) && IsDemanded(TypeOf(s), i, env, NO) && AllOff(DefaultConditions(i.defaults), env))
  {
    var (i, env) := (cfg.info(s), EnvBelow(cfg, user, cfg.rank(s)));
    AnyPromptIs(i.prompts, env);
    FirstDefaultIs(i.defaults, env);
    SomeFirst(DefaultConditions(i.defaults), env, 0);
    hide AnyPrompt, FirstDefault, EnvBelow, DefaultConditions;
  }

  ghost function Flagged(cfg: Config, user: map<Symbol, User>): set<Symbol>
    requires Acyclic(cfg) && user.Keys == cfg.symbols
  {
    set s | s in cfg.symbols && WriteFlag(cfg, user, s)
  }

  function KindOf(typ: SymbolType): ConfText.Kind
    requires typ != UnknownType
  {
    match typ
    case BooleanType => ConfText.Boolean
    case TristateType => ConfText.ThreeState
    case IntType => ConfText.Int
    case HexType => ConfText.Hex
    case StringType => ConfText.Text
  }

  function FileForm(s: Symbol, v: Value): ConfText.FileValue {
    if IsTriType(s) then ConfText.State(v.tri) else ConfText.Written(v.val)
  }

  ghost function TextsOf(cfg: Config, user: map<Symbol, User>): Texts
    requires Acyclic(cfg) && user.Keys == cfg.symbols
  {
    Texts((s: Symbol) => cfg.info(s).name,
          (s: Symbol) => if s in cfg.symbols then FileForm(s, ValueOf(cfg, user, s)) else ConfText.State(NO))
  }

  /** The menu shows known symbols, which have good and distinct names, and prompts,
      and each of them fits on a line. */
  ghost predicate Presentable(cfg: Config, user: map<Symbol, User>, at: nat -> Entry, kinds: map<string, ConfText.Kind>)
    requires Acyclic(cfg) && user.Keys == cfg.symbols
  {
    && (forall i :: at(i).Title? ==> ConfFile.Writable(kinds, ConfFile.Heading(at(i).prompt)))
    && (forall i :: at(i).Value? ==> SymbolFits(cfg, user, kinds, at(i).sym))
    && (forall i, j :: at(i).Value? && at(j).Value? && cfg.info(at(i).sym).name == cfg.info(at(j).sym).name ==>
          at(i) == at(j))
  }

  ghost predicate SymbolFits(cfg: Config, user: map<Symbol, User>, kinds: map<string, ConfText.Kind>, s: Symbol)
    requires Acyclic(cfg) && user.Keys == cfg.symbols
  {
    && s in cfg.symbols && TypeOf(s) != UnknownType
    && var name := cfg.info(s).name;
    && ConfFile.GoodName(name) && name in kinds && kinds[name] == KindOf(TypeOf(s))
    && (!IsTriType(s) ==> ConfFile.Lacks(ValueOf(cfg, user, s).val, '\n'))
    && |ConfFile.Render(kinds[name], name, FileForm(s, ValueOf(cfg, user, s)))| < ConfFile.Limit
  }

  /** Boolean symbols are never written as m. */
  lemma ValueSuits(cfg: Config, user: map<Symbol, User>, s: Symbol)
    requires Acyclic(cfg) && user.Keys == cfg.symbols && s in cfg.symbols && TypeOf(s) != UnknownType
    requires !IsTriType(s) ==> ConfFile.Lacks(ValueOf(cfg, user, s).val, '\n')
    ensures ConfFile.Suits(KindOf(TypeOf(s)), FileForm(s, ValueOf(cfg, user, s)))
  {
    hide EnvBelow, Visibility, Selected, Deselected, DefaultTri;
  }

  lemma EntriesWritable(cfg: Config, user: map<Symbol, User>, at: nat -> Entry, kinds: map<string, ConfText.Kind>)
    requires Acyclic(cfg) && user.Keys == cfg.symbols && Presentable(cfg, user, at, kinds)
    ensures AllEntriesWritable(kinds, TextsOf(cfg, user), at) && DistinctNames(TextsOf(cfg, user), at)
  {
    forall k ensures EntryWritable(kinds, TextsOf(cfg, user), at(k)) {
      if at(k).Value? {
        assert SymbolFits(cfg, user, kinds, at(k).sym);
        ValueSuits(cfg, user, at(k).sym);
      }
    }
  }

  /** A calculated configuration, written by the walk over its menu and read again:
      every symbol that is to be written and has an entry comes back with its value,
      if and only if that is n or no later prompt reads like the symbol being unset,
      numbers that are none excepted. */
  lemma ConfigRoundTrip(cfg: Config, user: map<Symbol, User>, f: Forest, at: nat -> Entry,
                        kinds: map<string, ConfText.Kind>, s: Symbol, read: ConfText.UserSettings) returns (k: nat)
    requires Acyclic(cfg) && user.Keys == cfg.symbols && Presentable(cfg, user, at, kinds)
    requires s in cfg.symbols && WriteFlag(cfg, user, s) && exists i :: i in Preorder(f) && at(i) == ConfWrite.Value(s)
    ensures var items := FileItems(f, at, Flagged(cfg, user), TextsOf(cfg, user));
      && ConfFile.AllWritable(kinds, items)
      && k < |items| && items[k] == ConfFile.Setting(cfg.info(s).name, FileForm(s, ValueOf(cfg, user, s)))
      && ComesBack(kinds, items, k, read)
  {
    EntriesWritable(cfg, user, at, kinds);
    hide Presentable, WriteFlag, FileItems, ComesBack, ConfFile.AllWritable;
    k := RoundTrip(f, at, Flagged(cfg, user), kinds, TextsOf(cfg, user), s, read);
  }
}
