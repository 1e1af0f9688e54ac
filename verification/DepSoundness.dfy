/** What the search for recursive dependencies guarantees to the evaluator. */
module DepSoundness {
  import opened Options
  import opened Expressions
  import opened Symbols
  import opened DepCheck
  import Adoption

  function Listed(e: Option<Expr>): seq<Expr> {
    if e.None? then [] else [e.value]
  }

  function PromptExprs(ps: seq<Option<Expr>>): seq<Expr> {
    if ps == [] then [] else Listed(ps[0]) + PromptExprs(ps[1..])
  }

  function DefaultExprs(ds: seq<Default>): seq<Expr> {
    if ds == [] then [] else Listed(ds[0].visible) + [ds[0].expr] + DefaultExprs(ds[1..])
  }

  function RangeExprs(rs: seq<Range>): seq<Expr> {
    if rs == [] then [] else Listed(rs[0].visible) + RangeExprs(rs[1..])
  }

  /** The expressions the search follows from a symbol.  What deselects the symbol and
      the bounds of its ranges are not among them. */
  function Followed(i: Info): seq<Expr> {
    Listed(i.selectedBy) + PromptExprs(i.prompts) + DefaultExprs(i.defaults) + RangeExprs(i.ranges)
  }

  lemma {:induction false} PromptExprListed(ps: seq<Option<Expr>>, e: Expr)
    ensures e in PromptExprs(ps) <==> Some(e) in ps
  {
    if ps != [] {
      PromptExprListed(ps[1..], e);
      assert ps == [ps[0]] + ps[1..];
    }
  }

  lemma {:induction false} DefaultExprListed(ds: seq<Default>, e: Expr)
    ensures e in DefaultExprs(ds) <==> exists d :: d in ds && (d.visible == Some(e) || d.expr == e)
  {
    if ds != [] {
      DefaultExprListed(ds[1..], e);
      assert ds == [ds[0]] + ds[1..];
    }
  }

  lemma {:induction false} RangeExprListed(rs: seq<Range>, e: Expr)
    ensures e in RangeExprs(rs) <==> exists r :: r in rs && r.visible == Some(e)
  {
    if rs != [] {
      RangeExprListed(rs[1..], e);
      assert rs == [rs[0]] + rs[1..];
    }
  }

  /** The search follows what selects the symbol, the conditions of its prompts,
      defaults and ranges, and the defaults themselves, and nothing else. */
  lemma FollowedIff(i: Info, e: Expr)
    ensures e in Followed(i) <==>
      || i.selectedBy == Some(e) || Some(e) in i.prompts
      || (exists d :: d in i.defaults && (d.visible == Some(e) || d.expr == e))
      || (exists r :: r in i.ranges && r.visible == Some(e))
  {
    PromptExprListed(i.prompts, e);
    DefaultExprListed(i.defaults, e);
    RangeExprListed(i.ranges, e);
    hide PromptExprs, DefaultExprs, RangeExprs;
  }

  function GraphOf(info: Symbol -> Info): Graph {
    (s: Symbol) => Followed(info(s))
  }

  function BoundExprs(rs: seq<Range>): seq<Expr> {
    if rs == [] then [] else [Sym(rs[0].low), Sym(rs[0].high)] + BoundExprs(rs[1..])
  }

  /** What the evaluator looks at besides. */
  function Unfollowed(i: Info): seq<Expr> {
    Listed(i.deselectedBy) + BoundExprs(i.ranges)
  }

  lemma {:induction false} BoundListed(rs: seq<Range>, e: Expr)
    ensures e in BoundExprs(rs) <==> exists r :: r in rs && (e == Sym(r.low) || e == Sym(r.high))
  {
    if rs != [] {
      BoundListed(rs[1..], e);
      assert rs == [rs[0]] + rs[1..];
    }
  }

  /** Besides there are what deselects the symbol and the bounds of its ranges. */
  lemma UnfollowedIff(i: Info, e: Expr)
    ensures e in Unfollowed(i) <==>
      i.deselectedBy == Some(e) || exists r :: r in i.ranges && (e == Sym(r.low) || e == Sym(r.high))
  {
    BoundListed(i.ranges, e);
    hide BoundExprs;
  }

  /** Everything the evaluator looks at. */
  function FullGraph(info: Symbol -> Info): Graph {
    (s: Symbol) => Followed(info(s)) + Unfollowed(info(s))
  }

  /** What an expression contains, for adoption, is what the search follows. */
  lemma {:induction false} ContainsIffMentions(e: Expr, s: Symbol)
    ensures Adoption.ContainsSymbol(e, s) <==> s in Mentions(e)
  {
    match e
    case Sym(_) =>
    case Cmp(_, _, _) =>
    case Not(a) => ContainsIffMentions(a, s);
    case Bin(_, l, r) =>
      ContainsIffMentions(l, s);
      ContainsIffMentions(r, s);
  }

  lemma {:induction false} MentionsBelow(cfg: Config, e: Expr, k: nat)
    requires forall t :: t in Mentions(e) ==> SymBelow(cfg, t, k)
    ensures ExprBelow(cfg, e, k)
  {
    match e
    case Sym(s) => assert s in Mentions(e);
    case Cmp(_, a, b) => assert a in Mentions(e) && b in Mentions(e);
    case Not(a) =>
      assert Mentions(a) == Mentions(e);
      MentionsBelow(cfg, a, k);
    case Bin(_, l, r) =>
      assert Mentions(l) <= Mentions(e) && Mentions(r) <= Mentions(e);
      MentionsBelow(cfg, l, k);
      MentionsBelow(cfg, r, k);
  }

  lemma {:induction false} PromptListed(ps: seq<Option<Expr>>, p: Option<Expr>)
    requires p in ps && p.Some?
    ensures p.value in PromptExprs(ps)
  {
    if p != ps[0] {
      PromptListed(ps[1..], p);
    }
  }

  lemma {:induction false} DefaultListed(ds: seq<Default>, d: Default)
    requires d in ds
    ensures d.expr in DefaultExprs(ds)
    ensures d.visible.Some? ==> d.visible.value in DefaultExprs(ds)
  {
    if d != ds[0] {
      DefaultListed(ds[1..], d);
    }
  }

  lemma {:induction false} RangeListed(rs: seq<Range>, r: Range)
    requires r in rs
    ensures r.visible.Some? ==> r.visible.value in RangeExprs(rs)
    ensures Sym(r.low) in BoundExprs(rs) && Sym(r.high) in BoundExprs(rs)
  {
    if r != rs[0] {
      RangeListed(rs[1..], r);
    }
  }

  /** The evaluator's recursion goes down from s if everything looked at is below. */
  lemma AllBelow(cfg: Config, s: Symbol, k: nat)
    requires forall e :: e in FullGraph(cfg.info)(s) ==> ExprBelow(cfg, e, k)
    ensures InfoBelow(cfg, cfg.info(s), k)
  {
    var i := cfg.info(s);
    hide ExprBelow;
    forall p | p in i.prompts ensures OptionBelow(cfg, p, k) {
      if p.Some? {
        PromptListed(i.prompts, p);
      }
    }
    forall d | d in i.defaults ensures OptionBelow(cfg, d.visible, k) && ExprBelow(cfg, d.expr, k) {
      DefaultListed(i.defaults, d);
    }
    forall r | r in i.ranges
      ensures OptionBelow(cfg, r.visible, k) && SymBelow(cfg, r.low, k) && SymBelow(cfg, r.high, k)
    {
      RangeListed(i.ranges, r);
      SymExprBelow(cfg, r.low, k);
      SymExprBelow(cfg, r.high, k);
    }
    assert i.selectedBy.Some? ==> i.selectedBy.value in Listed(i.selectedBy);
    assert i.deselectedBy.Some? ==> i.deselectedBy.value in Listed(i.deselectedBy);
  }

  lemma SymExprBelow(cfg: Config, s: Symbol, k: nat)
    ensures ExprBelow(cfg, Sym(s), k) <==> SymBelow(cfg, s, k)
  {
  }

  // ----- and back: what is listed is below -----

  ghost predicate SeqBelow(cfg: Config, es: seq<Expr>, k: nat) {
    forall e :: e in es ==> ExprBelow(cfg, e, k)
  }

  lemma {:induction false} PromptsBelow(cfg: Config, ps: seq<Option<Expr>>, k: nat)
    requires forall p :: p in ps ==> OptionBelow(cfg, p, k)
    ensures SeqBelow(cfg, PromptExprs(ps), k)
  {
    if ps != [] {
      assert ps[0] in ps && forall e :: e in Listed(ps[0]) ==> ps[0] == Some(e);
      PromptsBelow(cfg, ps[1..], k);
    }
  }

  lemma {:induction false} DefaultsBelow(cfg: Config, ds: seq<Default>, k: nat)
    requires forall d :: d in ds ==> OptionBelow(cfg, d.visible, k) && ExprBelow(cfg, d.expr, k)
    ensures SeqBelow(cfg, DefaultExprs(ds), k)
  {
    if ds != [] {
      DefaultsBelow(cfg, ds[1..], k);
    }
  }

  lemma {:induction false} RangesBelow(cfg: Config, rs: seq<Range>, k: nat)
    requires forall r :: r in rs ==>
      OptionBelow(cfg, r.visible, k) && SymBelow(cfg, r.low, k) && SymBelow(cfg, r.high, k)
    ensures SeqBelow(cfg, RangeExprs(rs), k) && SeqBelow(cfg, BoundExprs(rs), k)
  {
    if rs != [] {
      RangesBelow(cfg, rs[1..], k);
    }
  }

  lemma ListedBelow(cfg: Config, s: Symbol, k: nat)
    requires InfoBelow(cfg, cfg.info(s), k)
    ensures SeqBelow(cfg, FullGraph(cfg.info)(s), k)
  {
    var i := cfg.info(s);
    PromptsBelow(cfg, i.prompts, k);
    DefaultsBelow(cfg, i.defaults, k);
    RangesBelow(cfg, i.ranges, k);
  }

  lemma {:induction false} BelowMentions(cfg: Config, e: Expr, k: nat, t: Symbol)
    requires ExprBelow(cfg, e, k) && t in Mentions(e)
    ensures SymBelow(cfg, t, k)
  {
    match e
    case Sym(_) =>
    case Cmp(_, _, _) =>
    case Not(a) => BelowMentions(cfg, a, k, t);
    case Bin(_, l, r) =>
      if t in Mentions(l) {
        BelowMentions(cfg, l, k, t);
      } else {
        BelowMentions(cfg, r, k, t);
      }
  }

  // ----- cycles and evaluation orders -----

  /** Symbols are no constants y, m, n, quoted ones are named after their text,
      what they mention is known, and y, m and n have no properties. */
  ghost predicate Sane(cfg: Config) {
    && (forall s :: s in cfg.symbols ==> !IsYmn(s) && (s.Quoted? ==> cfg.info(s).name == s.text))
    && (forall s, t :: s in cfg.symbols && Edge(FullGraph(cfg.info), s, t) ==> IsYmn(t) || t in cfg.symbols)
    && (forall s :: IsYmn(s) ==> FullGraph(cfg.info)(s) == [])
  }

  function Nodes(cfg: Config): set<Symbol> {
    cfg.symbols + {SymYes, SymMod, SymNo}
  }

  /** The evaluator can be run: some rank goes down along everything it looks at. */
  ghost predicate Evaluable(cfg: Config) {
    exists rank: Symbol -> nat :: Acyclic(cfg.(rank := rank))
  }

  lemma OrderIsRank(cfg: Config, order: seq<Symbol>)
    requires Sane(cfg) && Topological(FullGraph(cfg.info), order)
    requires forall s :: s in Nodes(cfg) ==> s in order
    ensures Evaluable(cfg)
  {
    var rank: Symbol -> nat := s => if s in order then FirstIndex(order, s) else 0;
    var ranked := cfg.(rank := rank);
    forall s | s in cfg.symbols ensures InfoBelow(ranked, ranked.info(s), rank(s)) {
      forall e | e in FullGraph(cfg.info)(s) ensures ExprBelow(ranked, e, rank(s)) {
        EdgeBelow(cfg, ranked, order, s, e);
      }
      AllBelow(ranked, s, rank(s));
    }
    assert Acyclic(ranked);
  }

  lemma EdgeBelow(cfg: Config, ranked: Config, order: seq<Symbol>, s: Symbol, e: Expr)
    requires Sane(cfg) && Topological(FullGraph(cfg.info), order)
    requires forall s :: s in Nodes(cfg) ==> s in order
    requires ranked == cfg.(rank := ranked.rank)
    requires forall s :: s in cfg.symbols ==> ranked.rank(s) == FirstIndex(order, s)
    requires s in cfg.symbols && e in FullGraph(cfg.info)(s)
    ensures ExprBelow(ranked, e, ranked.rank(s))
  {
    var k := ranked.rank(s);
    forall t | t in Mentions(e) ensures SymBelow(ranked, t, k) {
      assert Edge(FullGraph(cfg.info), s, t);
      assert Edge(FullGraph(cfg.info), order[k], t);
      assert t in order[..k];
      if t in cfg.symbols {
        FirstIndexBefore(order, t, k);
      }
    }
    MentionsBelow(ranked, e, k);
  }

  lemma FirstIndexBefore(order: seq<Symbol>, t: Symbol, k: nat)
    requires k <= |order| && t in order[..k]
    ensures t in order && FirstIndex(order, t) < k
  {
    var j :| 0 <= j < k && order[j] == t;
    var f := FirstIndex(order, t);
    assert forall i :: 0 <= i < f ==> order[i] in order[..f];
  }

  /** Along a path the rank goes down, until y, m or n ends it. */
  lemma {:induction false} PathGoesDown(cfg: Config, p: seq<Symbol>)
    requires Sane(cfg) && Acyclic(cfg) && IsPath(FullGraph(cfg.info), p) && |p| >= 2 && p[0] in cfg.symbols
    ensures SymBelow(cfg, p[|p| - 1], cfg.rank(p[0]))
    decreases |p|
  {
    var g := FullGraph(cfg.info);
    assert Edge(g, p[0], p[1]);
    var e :| e in g(p[0]) && p[1] in Mentions(e);
    ListedBelow(cfg, p[0], cfg.rank(p[0]));
    BelowMentions(cfg, e, cfg.rank(p[0]), p[1]);
    if |p| > 2 {
      assert Edge(g, p[1], p[2]);
      PathTail(g, p);
      PathGoesDown(cfg, p[1..]);
    }
  }

  lemma RankedNoCycle(cfg: Config, p: seq<Symbol>)
    requires Sane(cfg) && Acyclic(cfg) && p != [] && p[0] in Nodes(cfg)
    ensures !IsCycle(FullGraph(cfg.info), p)
  {
    var g := FullGraph(cfg.info);
    if IsPath(g, p) && |p| >= 2 {
      assert Edge(g, p[0], p[1]);
      assert p[0] in cfg.symbols;
      PathGoesDown(cfg, p);
      hide FullGraph;
    }
  }

  lemma SaneAnyRank(cfg: Config, rank: Symbol -> nat)
    requires Sane(cfg)
    ensures Sane(cfg.(rank := rank)) && Nodes(cfg.(rank := rank)) == Nodes(cfg)
  {
  }

  lemma EvaluableNoCycle(cfg: Config)
    requires Sane(cfg) && Evaluable(cfg)
    ensures !HasCycle(FullGraph(cfg.info), Nodes(cfg))
  {
    var rank: Symbol -> nat :| Acyclic(cfg.(rank := rank));
    var ranked := cfg.(rank := rank);
    SaneAnyRank(cfg, rank);
    hide Sane, Acyclic, Nodes, FullGraph;
    forall p | p != [] && p[0] in Nodes(cfg) ensures !IsCycle(FullGraph(cfg.info), p) {
      RankedNoCycle(ranked, p);
    }
  }

  lemma FullClosed(cfg: Config)
    requires Sane(cfg)
    ensures Closed(FullGraph(cfg.info), Nodes(cfg)) && Closed(GraphOf(cfg.info), Nodes(cfg))
  {
    hide FullGraph, GraphOf, Sane;
    forall s, t | s in Nodes(cfg) && Edge(FullGraph(cfg.info), s, t) ensures t in Nodes(cfg) {
      EdgeKnown(cfg, s, t);
    }
    forall s, t | s in Nodes(cfg) && Edge(GraphOf(cfg.info), s, t) ensures t in Nodes(cfg) {
      FollowedEdge(cfg, s, t);
      EdgeKnown(cfg, s, t);
    }
  }

  lemma EdgeKnown(cfg: Config, s: Symbol, t: Symbol)
    requires Sane(cfg) && s in Nodes(cfg) && Edge(FullGraph(cfg.info), s, t)
    ensures t in Nodes(cfg)
  {
    var e :| e in FullGraph(cfg.info)(s) && t in Mentions(e);
    hide FullGraph;
    assert s in cfg.symbols;
  }

  /** The same search on everything the evaluator looks at decides whether the
      evaluator can be run. */
  method SearchFull(cfg: Config, all: seq<Symbol>) returns (warnings: nat)
    requires Sane(cfg) && Nodes(cfg) == set s | s in all
    ensures warnings == 0 <==> Evaluable(cfg)
    ensures warnings == 0 <==> !HasCycle(FullGraph(cfg.info), Nodes(cfg))
  {
    hide Sane, Evaluable, Closed, HasCycle, Topological, FullGraph, Checker.Inv;
    FullClosed(cfg);
    var checker := new Checker(FullGraph(cfg.info), Nodes(cfg));
    checker.CheckAll(all);
    if checker.warnings == 0 {
      OrderIsRank(cfg, checker.order);
    }
    if Evaluable(cfg) {
      EvaluableNoCycle(cfg);
    }
    return checker.warnings;
  }

  /** The search as it is: it reports exactly the cycles of what it follows, and a
      configuration that passes it can be evaluated exactly if the edges that it
      does not follow close no cycle either. */
  method Search(cfg: Config, all: seq<Symbol>) returns (warnings: nat)
    requires Sane(cfg) && Nodes(cfg) == set s | s in all
    ensures warnings == 0 <==> !HasCycle(GraphOf(cfg.info), Nodes(cfg))
    ensures Evaluable(cfg) <==> !HasCycle(FullGraph(cfg.info), Nodes(cfg))
    ensures Evaluable(cfg) ==> warnings == 0
  {
    hide Sane, Evaluable, Closed, HasCycle, Topological, FullGraph, GraphOf, Checker.Inv;
    FullClosed(cfg);
    var checker := new Checker(GraphOf(cfg.info), Nodes(cfg));
    checker.CheckAll(all);
    warnings := checker.warnings;
    var full := SearchFull(cfg, all);
    if warnings > 0 {
      FollowedCycle(cfg);
    }
  }

  lemma FollowedEdge(cfg: Config, s: Symbol, t: Symbol)
    requires Edge(GraphOf(cfg.info), s, t)
    ensures Edge(FullGraph(cfg.info), s, t)
  {
    var e :| e in GraphOf(cfg.info)(s) && t in Mentions(e);
    assert e in FullGraph(cfg.info)(s);
  }

  lemma FollowedCycle(cfg: Config)
    requires HasCycle(GraphOf(cfg.info), Nodes(cfg))
    ensures HasCycle(FullGraph(cfg.info), Nodes(cfg))
  {
    var p :| IsCycle(GraphOf(cfg.info), p) && p[0] in Nodes(cfg);
    forall i | 0 <= i < |p| - 1 ensures Edge(FullGraph(cfg.info), p[i], p[i + 1]) {
      FollowedEdge(cfg, p[i], p[i + 1]);
    }
    assert IsCycle(FullGraph(cfg.info), p);
  }

  /** Deselecting symbols and range bounds that have no properties of their own,
      such as numbers, close no cycle: then the search as it is decides. */
  lemma ConstantsCloseNoCycle(cfg: Config)
    requires forall s, e, t :: e in Unfollowed(cfg.info(s)) && t in Mentions(e) ==> FullGraph(cfg.info)(t) == []
    ensures HasCycle(FullGraph(cfg.info), Nodes(cfg)) <==> HasCycle(GraphOf(cfg.info), Nodes(cfg))
  {
    if HasCycle(FullGraph(cfg.info), Nodes(cfg)) {
      var g := FullGraph(cfg.info);
      var p :| IsCycle(g, p) && p[0] in Nodes(cfg);
      forall i | 0 <= i < |p| - 1 ensures Edge(GraphOf(cfg.info), p[i], p[i + 1]) {
        var j := if i + 1 < |p| - 1 then i + 1 else 0;
        assert p[j] == p[i + 1] && Edge(g, p[j], p[j + 1]);
        assert g(p[i + 1]) != [];
        assert Edge(g, p[i], p[i + 1]);
        var e :| e in g(p[i]) && p[i + 1] in Mentions(e);
        assert e in Followed(cfg.info(p[i]));
      }
      assert IsCycle(GraphOf(cfg.info), p);
    } else if HasCycle(GraphOf(cfg.info), Nodes(cfg)) {
      FollowedCycle(cfg);
    }
  }

  lemma TwoCycle(g: Graph, a: Symbol, b: Symbol, nodes: set<Symbol>)
    requires Sym(b) in g(a) && Sym(a) in g(b) && a in nodes
    ensures HasCycle(g, nodes)
  {
    assert b in Mentions(Sym(b)) && a in Mentions(Sym(a));
    var p := [a, b, a];
    assert Edge(g, p[0], p[1]);
    assert Edge(g, p[1], p[2]);
    assert IsCycle(g, p);
  }

  /** Two symbols that deselect each other: nothing is reported, since no followed edge
      leads anywhere, yet the evaluator cannot be run. */
  lemma SearchMissesDeselect(cfg: Config, a: Symbol, b: Symbol)
    requires a != b && cfg.symbols == {a, b} && Sane(cfg)
    requires cfg.info(a) == Info("A", [], [], [], None, Some(Sym(b)))
    requires cfg.info(b) == Info("B", [], [], [], None, Some(Sym(a)))
    ensures !HasCycle(GraphOf(cfg.info), Nodes(cfg)) && !Evaluable(cfg)
  {
    DeselectEdges(cfg, a, b);
    hide FullGraph, GraphOf, Sane, Evaluable, HasCycle;
    TwoCycle(FullGraph(cfg.info), a, b, Nodes(cfg));
    NothingFollowed(cfg);
    if Evaluable(cfg) {
      EvaluableNoCycle(cfg);
    }
  }

  /** Of a symbol that only is deselected the search follows nothing. */
  lemma OnlyDeselected(name: string, e: Expr)
    ensures var i := Info(name, [], [], [], None, Some(e)); Followed(i) == [] && Unfollowed(i) == [e]
  {
  }

  lemma NothingUnfollowed(cfg: Config, s: Symbol)
    requires Sane(cfg) && IsYmn(s)
    ensures Followed(cfg.info(s)) == []
  {
    assert FullGraph(cfg.info)(s) == [];
    hide Followed, Unfollowed;
  }

  lemma DeselectEdges(cfg: Config, a: Symbol, b: Symbol)
    requires a != b && cfg.symbols == {a, b} && Sane(cfg)
    requires cfg.info(a) == Info("A", [], [], [], None, Some(Sym(b)))
    requires cfg.info(b) == Info("B", [], [], [], None, Some(Sym(a)))
    ensures Sym(b) in FullGraph(cfg.info)(a) && Sym(a) in FullGraph(cfg.info)(b)
    ensures forall s :: s in Nodes(cfg) ==> Followed(cfg.info(s)) == []
  {
    hide Followed, Unfollowed, Sane;
    OnlyDeselected("A", Sym(b));
    OnlyDeselected("B", Sym(a));
    forall s | s in Nodes(cfg) ensures Followed(cfg.info(s)) == [] {
      if IsYmn(s) {
        NothingUnfollowed(cfg, s);
      }
    }
  }

  lemma NothingFollowed(cfg: Config)
    requires forall s :: s in Nodes(cfg) ==> Followed(cfg.info(s)) == []
    ensures !HasCycle(GraphOf(cfg.info), Nodes(cfg))
  {
    var g := GraphOf(cfg.info);
    forall p | |p| >= 2 && p[0] in Nodes(cfg) ensures !IsPath(g, p) {
      assert g(p[0]) == [] && !Edge(g, p[0], p[1]);
    }
  }
}
