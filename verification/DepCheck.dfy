/** The search for recursive dependencies among configuration symbols. */
module DepCheck {
  import opened Options
  import opened Expressions

  /** The symbols an expression mentions. */
  function Mentions(e: Expr): set<Symbol> {
    match e
    case Sym(s) => {s}
    case Cmp(_, a, b) => {a, b}
    case Not(a) => Mentions(a)
    case Bin(_, l, r) => Mentions(l) + Mentions(r)
  }

  /** The expressions followed from each symbol, in order: what selects it, the
      conditions of its prompts, defaults and ranges, and its default values. */
  type Graph = Symbol -> seq<Expr>

  ghost predicate Edge(g: Graph, s: Symbol, t: Symbol) {
    exists e :: e in g(s) && t in Mentions(e)
  }

  ghost predicate IsPath(g: Graph, p: seq<Symbol>) {
    p != [] && forall i :: 0 <= i < |p| - 1 ==> Edge(g, p[i], p[i + 1])
  }

  ghost predicate IsCycle(g: Graph, p: seq<Symbol>) {
    IsPath(g, p) && |p| >= 2 && p[0] == p[|p| - 1]
  }

  ghost predicate HasCycle(g: Graph, nodes: set<Symbol>) {
    exists p :: IsCycle(g, p) && p[0] in nodes
  }

  ghost predicate Closed(g: Graph, nodes: set<Symbol>) {
    forall s, t :: s in nodes && Edge(g, s, t) ==> t in nodes
  }

  /** Every symbol comes after everything it depends on. */
  ghost predicate Topological(g: Graph, order: seq<Symbol>) {
    forall i, t :: 0 <= i < |order| && Edge(g, order[i], t) ==> t in order[..i]
  }

  ghost function Elems(order: seq<Symbol>): set<Symbol> {
    set s | s in order
  }

  lemma TopologicalExtend(g: Graph, order: seq<Symbol>, s: Symbol)
    requires Topological(g, order)
    requires forall m :: 0 <= m < |g(s)| ==> Mentions(g(s)[m]) <= Elems(order)
    ensures Topological(g, order + [s])
  {
    var longer := order + [s];
    forall i, t | 0 <= i < |longer| && Edge(g, longer[i], t) ensures t in longer[..i] {
      if i < |order| {
        assert longer[..i] == order[..i];
      } else {
        assert longer[..i] == order;
        var m :| 0 <= m < |g(s)| && t in Mentions(g(s)[m]);
        assert t in Elems(order);
      }
    }
  }

  /** Along a path in topological order positions only go down, so no cycle closes. */
  lemma {:induction false} TopologicalPath(g: Graph, order: seq<Symbol>, p: seq<Symbol>, i: nat)
    requires Topological(g, order) && IsPath(g, p) && i < |order| && p[0] == order[i]
    ensures p[|p| - 1] in order[..i + 1]
    ensures |p| >= 2 ==> p[|p| - 1] in order[..i]
    decreases |p|
  {
    if |p| >= 2 {
      var j := StepBack(g, order, p, i);
      PathTail(g, p);
      hide Topological, IsPath;
      TopologicalPath(g, order, p[1..], j);
      assert order[..j + 1] <= order[..i];
    }
  }

  lemma StepBack(g: Graph, order: seq<Symbol>, p: seq<Symbol>, i: nat) returns (j: nat)
    requires Topological(g, order) && IsPath(g, p) && i < |order| && p[0] == order[i] && |p| >= 2
    ensures j < i && order[j] == p[1]
  {
    assert Edge(g, p[0], p[1]);
    assert p[1] in order[..i];
    j :| 0 <= j < i && order[j] == p[1];
  }

  lemma PathTail(g: Graph, p: seq<Symbol>)
    requires IsPath(g, p) && |p| >= 2
    ensures IsPath(g, p[1..])
  {
    var q := p[1..];
    forall k | 0 <= k < |q| - 1 ensures Edge(g, q[k], q[k + 1]) {
      assert Edge(g, p[k + 1], p[k + 2]);
    }
  }

  /** A topologically ordered set of symbols has no cycle. */
  lemma TopologicalNoCycle(g: Graph, order: seq<Symbol>, nodes: set<Symbol>)
    requires Topological(g, order) && forall s :: s in nodes ==> s in order
    ensures !HasCycle(g, nodes)
  {
    if HasCycle(g, nodes) {
      var p :| IsCycle(g, p) && p[0] in nodes;
      var i := FirstIndex(order, p[0]);
      TopologicalPath(g, order, p, i);
      assert false;
    }
  }

  ghost function FirstIndex(order: seq<Symbol>, s: Symbol): (i: nat)
    requires s in order
    ensures i < |order| && order[i] == s && s !in order[..i]
  {
    if order[0] == s then 0 else
    var j := FirstIndex(order[1..], s);
    assert order[..j + 1] == [order[0]] + order[1..][..j];
    j + 1
  }

  class Checker {
    const graph: Graph
    ghost const nodes: set<Symbol>
    var check: set<Symbol>
    var checked: set<Symbol>
    var warnings: nat
    ghost var order: seq<Symbol>

    constructor (graph: Graph, ghost nodes: set<Symbol>)
      requires Closed(graph, nodes)
      ensures this.graph == graph && this.nodes == nodes
      ensures Inv([]) && warnings == 0
    {
      this.graph := graph;
      this.nodes := nodes;
      check, checked, warnings, order := {}, {}, 0, [];
    }

    /** The symbols under examination form a path; unless a cycle was reported, the
        finished ones are in topological order; and reports are justified. */
    ghost predicate Inv(stack: seq<Symbol>)
      reads this
    {
      && Closed(graph, nodes)
      && checked <= nodes
      && (forall s :: s in check <==> s in stack)
      && (forall s :: s in stack ==> s in checked)
      && (forall i :: 0 <= i < |stack| - 1 ==> Edge(graph, stack[i], stack[i + 1]))
      && (warnings == 0 ==> Topological(graph, order) && forall s :: s in checked <==> s in order || s in stack)
      && (warnings > 0 ==> HasCycle(graph, nodes))
    }

    method CheckExprDeps(e: Expr, ghost stack: seq<Symbol>) returns (r: Option<Symbol>)
      requires Inv(stack) && stack != [] && stack[|stack| - 1] in nodes
      requires forall t :: t in Mentions(e) ==> Edge(graph, stack[|stack| - 1], t)
      modifies this
      ensures Inv(stack) && check == old(check) && checked >= old(checked) && warnings >= old(warnings)
      ensures r.Some? ==> warnings > 0
      ensures warnings == 0 ==> Elems(old(order)) <= Elems(order) && Mentions(e) <= Elems(order)
      decreases nodes - checked, 1, e
    {
      match e
      case Bin(_, a, b) =>
        assert forall t :: t in Mentions(a) ==> t in Mentions(e);
        assert forall t :: t in Mentions(b) ==> t in Mentions(e);
        r := CheckExprDeps(a, stack);
        if r.None? {
          r := CheckExprDeps(b, stack);
        }
      case Not(a) =>
        assert forall t :: t in Mentions(a) ==> t in Mentions(e);
        r := CheckExprDeps(a, stack);
      case Cmp(_, a, b) =>
        assert a in Mentions(e) && b in Mentions(e);
        r := CheckDeps(a, stack);
        if r.None? {
          r := CheckDeps(b, stack);
        }
      case Sym(s) =>
        assert s in Mentions(e);
        r := CheckDeps(s, stack);
    }

    method CheckDeps(s: Symbol, ghost stack: seq<Symbol>) returns (r: Option<Symbol>)
      requires Inv(stack) && s in nodes
      requires stack != [] ==> Edge(graph, stack[|stack| - 1], s)
      modifies this
      ensures Inv(stack) && check == old(check) && checked >= old(checked) && warnings >= old(warnings) && s in checked
      ensures r.Some? ==> warnings > 0
      ensures warnings == 0 ==> Elems(old(order)) <= Elems(order) && s in Elems(order)
      decreases nodes - checked, 0
    {
      if s in check {
        Found(s, stack);
        warnings := warnings + 1;
        return Some(s);
      }
      if s in checked {
        return None;
      }
      ghost var inner := stack + [s];
      Enter(s, stack);
      hide Checker.Inv;
      r := None;
      var n := 0;
      while n < |graph(s)| && r.None?
        invariant n <= |graph(s)|
        invariant Inv(inner) && check == old(check) + {s} && checked >= old(checked) + {s} && warnings >= old(warnings)
        invariant r.Some? ==> warnings > 0
        invariant warnings == 0 ==> Elems(old(order)) <= Elems(order)
        invariant warnings == 0 ==> forall m :: 0 <= m < n ==> Mentions(graph(s)[m]) <= Elems(order)
        decreases |graph(s)| - n, r.None?
      {
        r := CheckExprDeps(graph(s)[n], inner);
        n := n + 1;
      }
      if r == Some(s) {
        r := None;
      }
      Leave(s, stack);
    }

    method Enter(s: Symbol, ghost stack: seq<Symbol>)
      requires Inv(stack) && s in nodes && s !in check && s !in checked
      requires stack != [] ==> Edge(graph, stack[|stack| - 1], s)
      modifies this`check, this`checked
      ensures Inv(stack + [s]) && check == old(check) + {s} && checked == old(checked) + {s}
    {
      check, checked := check + {s}, checked + {s};
    }

    method Leave(s: Symbol, ghost stack: seq<Symbol>)
      requires Inv(stack + [s]) && s !in stack
      requires warnings == 0 ==> forall m :: 0 <= m < |graph(s)| ==> Mentions(graph(s)[m]) <= Elems(order)
      modifies this`check, this`order
      ensures Inv(stack) && check == old(check) - {s}
      ensures warnings == 0 ==> Elems(order) == Elems(old(order)) + {s}
    {
      ghost var inner := stack + [s];
      assert forall i :: 0 <= i < |stack| ==> inner[i] == stack[i];
      check := check - {s};
      if warnings == 0 {
        TopologicalExtend(graph, order, s);
        order := order + [s];
      }
    }

    /** The path from s down to the current symbol, and back to s, is a cycle. */
    lemma Found(s: Symbol, stack: seq<Symbol>)
      requires Inv(stack) && s in check && s in nodes
      requires stack != [] ==> Edge(graph, stack[|stack| - 1], s)
      ensures HasCycle(graph, nodes)
    {
      var i :| 0 <= i < |stack| && stack[i] == s;
      var p := stack[i..] + [s];
      assert IsCycle(graph, p);
    }

    /** Checks every symbol.  A recursive dependency is reported exactly when there is
        one, and no symbol is left marked as under examination. */
    method CheckAll(all: seq<Symbol>)
      requires Inv([]) && warnings == 0
      requires nodes == set s | s in all
      modifies this
      ensures check == {}
      ensures warnings > 0 <==> HasCycle(graph, nodes)
      ensures warnings == 0 ==> Topological(graph, order) && forall s :: s in nodes ==> s in order
    {
      for n := 0 to |all|
        invariant Inv([])
        invariant forall m :: 0 <= m < n ==> all[m] in checked
      {
        var _ := CheckDeps(all[n], []);
      }
      if warnings == 0 {
        TopologicalNoCycle(graph, order, nodes);
      }
    }
  }
}
