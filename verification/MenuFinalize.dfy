/** Regrouping the menu entries by relinking them in place. */
module MenuFinalize {
  import opened Options
  import opened MenuTree
  import opened MenuShape

  /** The links of all other entries are as they were. */
  ghost predicate SameBeyond(m: Links, n: Links, ids: set<nat>) {
    forall k :: k !in ids ==>
      Get(m.next, k) == Get(n.next, k) && Get(m.list, k) == Get(n.list, k) && Get(m.parent, k) == Get(n.parent, k)
  }

  lemma KeepLinked(m: Links, n: Links, ids: set<nat>, f: Forest, after: Option<nat>, parent: Option<nat>)
    requires SameBeyond(m, n, ids) && ids !! Ids(f) && Linked(m, f, after, parent)
    ensures Linked(n, f, after, parent)
  {
    LinkedFrame(m, n, f, after, parent);
  }

  lemma {:induction false} LastOfAppend(f: Forest, g: Forest)
    requires g.Menu?
    ensures Append(f, g).Menu? && LastId(Append(f, g)) == LastId(g)
  {
    if f.Menu? {
      LastOfAppend(f.next, g);
    }
  }

  lemma SameBeyondTrans(m: Links, n: Links, o: Links, some: set<nat>, all: set<nat>)
    requires SameBeyond(m, n, some) && SameBeyond(n, o, all) && some <= all
    ensures SameBeyond(m, o, all)
  {
  }

  lemma SamePreorder(f: Forest, g: Forest)
    requires Distinct(f) && Preorder(f) == Preorder(g)
    ensures Distinct(g) && Ids(f) == Ids(g)
  {
  }

  /** A level being worked through: `done` leads on to `todo`. */
  ghost predicate Split(m: Links, done: Forest, todo: Forest, p: nat, above: Option<nat>) {
    Linked(m, done, Head(todo, None), Some(p)) && Linked(m, todo, None, above)
  }

  /** The first entry of `g` goes behind `done`. */
  function Snoc(done: Forest, g: Forest): (r: Forest)
    requires g.Menu?
    ensures r.Menu? && Preorder(r) == Preorder(done) + ([g.id] + Preorder(g.list))
  {
    LastOfAppend(done, Menu(g.id, g.list, Empty));
    assert Preorder(Menu(g.id, g.list, Empty)) == [g.id] + Preorder(g.list);
    Append(done, Menu(g.id, g.list, Empty))
  }

  lemma SplitStart(m: Links, todo: Forest, p: nat, above: Option<nat>)
    requires Linked(m, todo, None, above)
    ensures Split(m, Empty, todo, p, above) && SameBeyond(m, m, Ids(todo))
  {
  }

  lemma SplitEnd(m: Links, done: Forest, p: nat, above: Option<nat>)
    requires Split(m, done, Empty, p, above)
    ensures Linked(m, done, None, Some(p)) && Append(done, Empty) == done
  {
    AppendEmpty(done);
  }

  lemma FinalizeAllStep(rules: Rules, f: Forest)
    requires f.Menu?
    ensures var g := FinalizeFirst(rules, f); FinalizeAll(rules, f) == Menu(g.id, g.list, FinalizeAll(rules, g.next))
  {
  }

  lemma FinalizeNone(rules: Rules)
    ensures FinalizeAll(rules, Empty) == Empty
  {
  }

  lemma EmptyFirst(f: Forest)
    ensures Append(Empty, f) == f && Preorder(Empty) == []
  {
  }

  lemma SnocAppend(done: Forest, g: Forest, tail: Forest)
    requires g.Menu?
    ensures Append(Snoc(done, g), tail) == Append(done, Menu(g.id, g.list, tail))
    ensures tail == g.next ==> Preorder(Append(Snoc(done, g), tail)) == Preorder(done) + Preorder(g)
  {
    AppendAssociates(done, Menu(g.id, g.list, Empty), tail);
    assert tail == g.next ==> Menu(g.id, g.list, tail) == g;
  }

  lemma SnocSplit(m: Links, done: Forest, g: Forest, p: nat, above: Option<nat>)
    requires g.Menu? && Linked(m, done, Some(g.id), Some(p)) && Get(m.parent, g.id) == Some(p)
    requires Get(m.next, g.id) == Head(g.next, None) && Get(m.list, g.id) == Head(g.list, None)
    requires Linked(m, g.list, None, Some(g.id)) && Linked(m, g.next, None, above)
    ensures Split(m, Snoc(done, g), g.next, p, above)
  {
    LinkedAppend(m, done, Menu(g.id, g.list, Empty), Head(g.next, None), Some(p));
  }

  lemma SmallerNext(f: Forest)
    requires f.Menu?
    ensures |Preorder(f.next)| < |Preorder(f)|
  {
  }

  lemma SameBeyondSelf(m: Links, ids: set<nat>)
    ensures SameBeyond(m, m, ids)
  {
  }

  lemma SmallerParts(f: Forest)
    requires f.Menu?
    ensures |Preorder(f.list)| < |Preorder(f)| && |Preorder(f.next)| < |Preorder(f)|
  {
  }

  lemma LinkedParts(m: Links, f: Forest, above: Option<nat>)
    requires f.Menu? && Linked(m, f, None, above)
    ensures Get(m.parent, f.id) == above && Get(m.next, f.id) == Head(f.next, None)
    ensures Get(m.list, f.id) == Head(f.list, None)
    ensures Linked(m, f.list, None, Some(f.id)) && Linked(m, f.next, None, above)
  {
  }

  lemma {:induction false} LastLeadsOn(m: Links, f: Forest, after: Option<nat>, parent: Option<nat>)
    requires f.Menu? && Linked(m, f, after, parent)
    ensures Get(m.next, LastId(f)) == after
  {
    if f.next.Menu? {
      LastLeadsOn(m, f.next, after, parent);
    }
  }

  lemma SnocLast(done: Forest, g: Forest)
    requires g.Menu?
    ensures LastId(Snoc(done, g)) == g.id
  {
    LastOfAppend(done, Menu(g.id, g.list, Empty));
  }

  lemma HeadsAgree(f: Forest, g: Forest, all: Forest)
    requires Preorder(Append(f, g)) == Preorder(all)
    ensures Head(Append(f, g), None) == Head(all, None)
    ensures f.Menu? ==> Head(Append(f, g), None) == Some(f.id)
    ensures f.Empty? ==> Append(f, g) == g
  {
    if Append(f, g).Menu? && all.Menu? {
      assert Preorder(Append(f, g))[0] == Append(f, g).id;
      assert Preorder(all)[0] == all.id;
    }
  }

  lemma Beyond(m: Links, n: Links, ids: set<nat>, k: nat)
    requires SameBeyond(m, n, ids) && k !in ids
    ensures Get(m.next, k) == Get(n.next, k) && Get(m.list, k) == Get(n.list, k)
    ensures Get(m.parent, k) == Get(n.parent, k)
  {
  }

  lemma AdoptStep(rules: Rules, p: nat, f: Forest)
    requires f.Menu? && rules.adopts(p, f.id)
    ensures var g := FinalizeFirst(rules, f); var (more, rest) := Adopt(rules, p, g.next);
      Adopt(rules, p, f) == (Menu(g.id, g.list, more), rest)
  {
  }

  lemma AdoptEnd(rules: Rules, p: nat, f: Forest)
    requires f.Empty? || !rules.adopts(p, f.id)
    ensures Adopt(rules, p, f) == (Empty, f)
  {
  }

  lemma RootAlone(rules: Rules, f: Forest)
    requires f.Menu? && f.next.Empty?
    ensures var r := FinalizeFirst(rules, f); r.next.Empty? && Preorder(f) == [f.id] + Preorder(r.list)
  {
    assert Group(rules, f).next.Empty?;
  }

  class Menus {
    const rules: Rules
    var next: map<nat, nat>
    var list: map<nat, nat>
    var parent: map<nat, nat>
    /** The entries for which regrouping was called, in that order. */
    ghost var finalized: seq<nat>

    ghost function View(): Links
      reads this
    {
      Links(next, list, parent)
    }

    /** Gives the children of `k` to `p` and returns the last of them. */
    method Reparent(k: nat, p: nat, ghost kids: Forest) returns (last: nat)
      requires kids.Menu? && Distinct(kids) && Get(list, k) == Some(kids.id)
      requires k !in Ids(kids) && p !in Ids(kids) && Linked(View(), kids, None, Some(k))
      modifies this`parent
      ensures last == LastId(kids) && Linked(View(), kids, None, Some(p))
      ensures SameBeyond(old(View()), View(), Ids(kids))
    {
      hide Distinct, Ids, Snoc, Split, Linked, SameBeyond, Preorder, Append;
      last := list[k];
      ghost var seen, rest := Empty, kids;
      SplitStart(View(), kids, p, Some(k));
      EmptyFirst(kids);
      while true
        invariant rest.Menu? && last == rest.id && Append(seen, rest) == kids
        invariant Split(View(), seen, rest, p, Some(k))
        invariant SameBeyond(old(View()), View(), Ids(kids))
        invariant next == old(next) && list == old(list)
        decreases rest
      {
        ghost var before := View();
        ReparentNext(last, k, p, seen, rest, kids);
        SameBeyondTrans(old(View()), before, View(), Ids(kids), Ids(kids));
        SnocAppend(seen, rest, rest.next);
        SnocLast(seen, rest);
        seen, rest := Snoc(seen, rest), rest.next;
        if last !in next {
          SplitEnd(View(), seen, p, Some(k));
          break;
        }
        last := next[last];
      }
    }

    method ReparentNext(last: nat, ghost k: nat, p: nat, ghost seen: Forest, ghost rest: Forest, ghost kids: Forest)
      requires rest.Menu? && rest.id == last && Distinct(kids) && Append(seen, rest) == kids
      requires Split(View(), seen, rest, p, Some(k))
      modifies this`parent
      ensures Split(View(), Snoc(seen, rest), rest.next, p, Some(k))
      ensures SameBeyond(old(View()), View(), Ids(kids))
      ensures Get(next, last) == Head(rest.next, None)
    {
      hide Distinct, Preorder;
      ghost var before := View();
      DistinctAppend(seen, rest);
      DistinctParts(rest);
      parent := Set(parent, last, Some(p));
      KeepLinked(before, View(), {last}, seen, Some(last), Some(p));
      KeepLinked(before, View(), {last}, rest.list, None, Some(last));
      KeepLinked(before, View(), {last}, rest.next, None, Some(k));
      SnocSplit(View(), seen, rest, p, Some(k));
    }

    /** The children of the first entry move up behind it. */
    method MoveUp(k: nat, p: nat, ghost f: Forest)
      requires f.Menu? && f.id == k && f.list.Menu? && Distinct(f) && p !in Ids(f)
      requires Linked(View(), f, None, Some(p))
      modifies this`next, this`list, this`parent
      ensures Linked(View(), Menu(k, Empty, Append(f.list, f.next)), None, Some(p))
      ensures SameBeyond(old(View()), View(), Ids(f))
    {
      DistinctParts(f);
      var last := Reparent(k, p, f.list);
      ghost var moved := View();
      KeepLinked(old(View()), moved, Ids(f.list), f.next, None, Some(p));
      next := Set(next, last, Get(next, k));
      ghost var joined := View();
      Relink(moved, f.list, None, Head(f.next, None), Some(p));
      KeepLinked(moved, joined, {last}, f.next, None, Some(p));
      LinkedAppend(joined, f.list, f.next, None, Some(p));
      next := Set(next, k, Get(list, k));
      list := Set(list, k, None);
      assert Ids(Append(f.list, f.next)) == Ids(f.list) + Ids(f.next);
      KeepLinked(joined, View(), {k}, Append(f.list, f.next), None, Some(p));
    }

    /** No child of `p` without a prompt keeps children. */
    method FlattenChildren(p: nat, ghost kids: Forest)
      requires Distinct(kids) && p !in Ids(kids)
      requires Get(list, p) == Head(kids, None) && Linked(View(), kids, None, Some(p))
      modifies this`next, this`list, this`parent
      ensures Get(list, p) == Head(Flatten(rules, kids), None)
      ensures Linked(View(), Flatten(rules, kids), None, Some(p))
      ensures SameBeyond(old(View()), View(), Ids(kids))
    {
      var cur := Get(list, p);
      ghost var done, todo := Empty, kids;
      while cur.Some?
        invariant cur == Head(todo, None)
        invariant Append(done, Flatten(rules, todo)) == Flatten(rules, kids)
        invariant Preorder(Append(done, todo)) == Preorder(kids)
        invariant Linked(View(), done, cur, Some(p)) && Linked(View(), todo, None, Some(p))
        invariant SameBeyond(old(View()), View(), Ids(kids))
        decreases |Preorder(todo)|
      {
        var k := cur.value;
        ghost var before := View();
        DistinctAppend(done, todo);
        if k in list && rules.bare(k) {
          MoveUp(k, p, todo);
          KeepLinked(before, View(), Ids(todo), done, cur, Some(p));
          todo := Menu(k, Empty, Append(todo.list, todo.next));
        }
        ghost var one := Menu(k, todo.list, Empty);
        LinkedAppend(View(), done, one, Head(todo.next, None), Some(p));
        AppendAssociates(done, one, todo.next);
        AppendAssociates(done, one, Flatten(rules, todo.next));
        done, todo := Append(done, one), todo.next;
        cur := Get(next, k);
      }
      AppendEmpty(done);
    }

    /** The flattening of the children of the first entry. */
    method FlattenFirst(p: nat, ghost g: Forest, ghost above: Option<nat>)
      requires g.Menu? && g.id == p && Distinct(g) && Linked(View(), g, None, above)
      modifies this`next, this`list, this`parent
      ensures Linked(View(), Menu(p, Flatten(rules, g.list), g.next), None, above)
      ensures SameBeyond(old(View()), View(), Ids(g))
    {
      hide Distinct, Ids;
      DistinctParts(g);
      FlattenChildren(p, g.list);
      KeepLinked(old(View()), View(), Ids(g.list), g.next, None, above);
    }

    /** Regroups an entry `p`, whose siblings follow it in `f`. */
    method Finalize(p: nat, ghost f: Forest, ghost above: Option<nat>)
      requires f.Menu? && f.id == p && Distinct(f) && Linked(View(), f, None, above)
      modifies this
      ensures Linked(View(), FinalizeFirst(rules, f), None, above)
      ensures SameBeyond(old(View()), View(), Ids(f))
      ensures finalized == old(finalized) + ([p] + Preorder(FinalizeFirst(rules, f).list))
      decreases |Preorder(f)|, 3
    {
      hide Distinct, Ids, SameBeyond, Preorder, FinalizeAll, Adopt;
      finalized := finalized + [p];
      if p in list {
        FinalizeChildren(p, f, above);
      } else if rules.hasSymbol(p) {
        AdoptSiblings(p, f, above);
      } else {
        SplitStart(View(), f, p, above);
        EmptyFirst(f);
      }
      ghost var g, grouped := Group(rules, f), View();
      SamePreorder(f, g);
      FlattenFirst(p, g, above);
      SameBeyondTrans(old(View()), grouped, View(), Ids(f), Ids(f));
      assert finalized == old(finalized) + [p] + Preorder(g.list);
      Regroup(old(finalized), [p], Preorder(g.list));
    }

    /** Regroups the children of `p` one after the other. */
    method FinalizeChildren(p: nat, ghost f: Forest, ghost above: Option<nat>)
      requires f.Menu? && f.id == p && f.list.Menu? && Distinct(f) && Linked(View(), f, None, above)
      modifies this
      ensures Linked(View(), Group(rules, f), None, above)
      ensures SameBeyond(old(View()), View(), Ids(f))
      ensures finalized == old(finalized) + Preorder(Group(rules, f).list)
      decreases |Preorder(f)|, 2
    {
      hide Distinct, Ids, Preorder, FinalizeAll;
      DistinctParts(f);
      SmallerParts(f);
      FinalizeLevel(p, f.list);
      KeepLinked(old(View()), View(), Ids(f.list), f.next, None, above);
      FinalizeAllStep(rules, f.list);
    }

    method FinalizeLevel(p: nat, ghost kids: Forest)
      requires kids.Menu? && Distinct(kids) && p !in Ids(kids) && Get(list, p) == Some(kids.id)
      requires Linked(View(), kids, None, Some(p))
      modifies this
      ensures Linked(View(), FinalizeAll(rules, kids), None, Some(p))
      ensures SameBeyond(old(View()), View(), Ids(kids))
      ensures finalized == old(finalized) + Preorder(kids)
      decreases |Preorder(kids)|, 5
    {
      hide Distinct, Ids, Snoc, Split, Linked, SameBeyond, FinalizeFirst, FinalizeAll, Preorder, Append;
      var cur := Get(list, p);
      ghost var done, todo := Empty, kids;
      SplitStart(View(), kids, p, Some(p));
      EmptyFirst(kids);
      EmptyFirst(FinalizeAll(rules, kids));
      while cur.Some?
        invariant cur == Head(todo, None) && Split(View(), done, todo, p, Some(p))
        invariant Append(done, FinalizeAll(rules, todo)) == FinalizeAll(rules, kids)
        invariant Preorder(Append(done, todo)) == Preorder(kids)
        invariant SameBeyond(old(View()), View(), Ids(kids))
        invariant finalized == old(finalized) + Preorder(done)
        invariant |Preorder(todo)| <= |Preorder(kids)|
        decreases |Preorder(todo)|
      {
        ghost var before := View();
        cur := FinalizeChild(p, cur.value, done, todo, kids);
        SameBeyondTrans(old(View()), before, View(), Ids(kids), Ids(kids));
        FinalizeAllStep(rules, todo);
        ghost var g := FinalizeFirst(rules, todo);
        SnocAppend(done, g, g.next);
        SnocAppend(done, g, FinalizeAll(rules, g.next));
        Regroup(old(finalized), Preorder(done), [g.id] + Preorder(g.list));
        done, todo := Snoc(done, g), g.next;
      }
      SplitEnd(View(), done, p, Some(p));
      FinalizeNone(rules);
    }

    method FinalizeChild(p: nat, k: nat, ghost done: Forest, ghost todo: Forest, ghost kids: Forest)
      returns (cur: Option<nat>)
      requires todo.Menu? && todo.id == k && Split(View(), done, todo, p, Some(p))
      requires Distinct(kids) && Preorder(Append(done, todo)) == Preorder(kids)
      modifies this
      ensures var g := FinalizeFirst(rules, todo);
        && cur == Head(g.next, None) && Split(View(), Snoc(done, g), g.next, p, Some(p))
        && finalized == old(finalized) + ([k] + Preorder(g.list))
        && |Preorder(g.next)| < |Preorder(todo)|
      ensures SameBeyond(old(View()), View(), Ids(kids))
      decreases |Preorder(todo)|, 4
    {
      hide Distinct, Ids, Append, Preorder;
      SamePreorder(kids, Append(done, todo));
      DistinctAppend(done, todo);
      Finalize(k, todo, Some(p));
      ghost var g := FinalizeFirst(rules, todo);
      KeepLinked(old(View()), View(), Ids(todo), done, Some(k), Some(p));
      SnocSplit(View(), done, g, p, Some(p));
      cur := Get(next, k);
      SmallerNext(g);
    }

    /** Takes over the siblings after `p` that depend on it. */
    method AdoptSiblings(p: nat, ghost f: Forest, ghost above: Option<nat>)
      requires f.Menu? && f.id == p && f.list.Empty? && rules.hasSymbol(p)
      requires Distinct(f) && Linked(View(), f, None, above)
      modifies this
      ensures Linked(View(), Group(rules, f), None, above)
      ensures SameBeyond(old(View()), View(), Ids(f))
      ensures finalized == old(finalized) + Preorder(Group(rules, f).list)
      decreases |Preorder(f)|, 2
    {
      hide Distinct, Ids, Snoc, Split, Linked, SameBeyond, FinalizeFirst, Adopt, Preorder, Append;
      DistinctParts(f);
      SmallerParts(f);
      LinkedParts(View(), f, above);
      SameBeyondSelf(View(), Ids(f.next));
      var cur, last := Get(next, p), None;
      ghost var taken, todo := Empty, f.next;
      SplitStart(View(), todo, p, above);
      EmptyFirst(todo);
      EmptyFirst(Adopt(rules, p, todo).0);
      while cur.Some? && rules.adopts(p, cur.value)
        invariant cur == Head(todo, None) && Split(View(), taken, todo, p, above)
        invariant last == (if taken.Empty? then None else Some(LastId(taken)))
        invariant Append(taken, Adopt(rules, p, todo).0) == Adopt(rules, p, f.next).0
        invariant Adopt(rules, p, todo).1 == Adopt(rules, p, f.next).1
        invariant Preorder(Append(taken, todo)) == Preorder(f.next)
        invariant SameBeyond(old(View()), View(), Ids(f.next))
        invariant finalized == old(finalized) + Preorder(taken)
        invariant |Preorder(todo)| < |Preorder(f)|
        decreases |Preorder(todo)|
      {
        ghost var before := View();
        last := cur;
        cur := AdoptOne(p, cur.value, taken, todo, f.next, above);
        SameBeyondTrans(old(View()), before, View(), Ids(f.next), Ids(f.next));
        AdoptStep(rules, p, todo);
        ghost var g := FinalizeFirst(rules, todo);
        SnocAppend(taken, g, g.next);
        SnocAppend(taken, g, Adopt(rules, p, g.next).0);
        Regroup(old(finalized), Preorder(taken), [g.id] + Preorder(g.list));
        SnocLast(taken, g);
        taken, todo := Snoc(taken, g), g.next;
      }
      AdoptEnd(rules, p, todo);
      AppendEmpty(taken);
      HeadsAgree(taken, todo, f.next);
      ghost var grouped := View();
      Beyond(old(View()), grouped, Ids(f.next), p);
      HookUp(p, last, taken, todo, f, above);
      SameBeyondTrans(old(View()), grouped, View(), Ids(f.next), Ids(f));
    }

    /** Regroups the next sibling and makes it a child of `p`. */
    method AdoptOne(p: nat, k: nat, ghost taken: Forest, ghost todo: Forest, ghost all: Forest,
                    ghost above: Option<nat>) returns (cur: Option<nat>)
      requires todo.Menu? && todo.id == k && Split(View(), taken, todo, p, above)
      requires Distinct(all) && Preorder(Append(taken, todo)) == Preorder(all)
      modifies this
      ensures var g := FinalizeFirst(rules, todo);
        && cur == Head(g.next, None) && Split(View(), Snoc(taken, g), g.next, p, above)
        && finalized == old(finalized) + ([k] + Preorder(g.list))
        && |Preorder(g.next)| < |Preorder(todo)|
      ensures SameBeyond(old(View()), View(), Ids(all))
      decreases |Preorder(todo)|, 4
    {
      hide Distinct, Ids, Append, Preorder, FinalizeFirst;
      SamePreorder(all, Append(taken, todo));
      DistinctAppend(taken, todo);
      Finalize(k, todo, above);
      ghost var g, regrouped := FinalizeFirst(rules, todo), View();
      SamePreorder(todo, g);
      DistinctParts(g);
      KeepLinked(old(View()), regrouped, Ids(todo), taken, Some(k), Some(p));
      parent := Set(parent, k, Some(p));
      KeepLinked(regrouped, View(), {k}, taken, Some(k), Some(p));
      KeepLinked(regrouped, View(), {k}, g.list, None, Some(k));
      KeepLinked(regrouped, View(), {k}, g.next, None, above);
      SnocSplit(View(), taken, g, p, above);
      cur := Get(next, k);
      SmallerNext(g);
    }

    /** The siblings taken over become the children of `p`. */
    method HookUp(p: nat, last: Option<nat>, ghost taken: Forest, ghost todo: Forest, ghost f: Forest,
                  ghost above: Option<nat>)
      requires f.Menu? && f.id == p && Distinct(f) && Preorder(Append(taken, todo)) == Preorder(f.next)
      requires last == (if taken.Empty? then None else Some(LastId(taken)))
      requires Split(View(), taken, todo, p, above) && p !in list
      requires Get(next, p) == Head(f.next, None) && Get(parent, p) == above
      requires Head(f.next, None) == if taken.Menu? then Some(taken.id) else Head(todo, None)
      modifies this`next, this`list
      ensures Linked(View(), Menu(p, taken, todo), None, above)
      ensures SameBeyond(old(View()), View(), Ids(f))
    {
      hide Distinct, Append, Preorder, Ids;
      DistinctParts(f);
      SamePreorder(f.next, Append(taken, todo));
      DistinctAppend(taken, todo);
      if last.Some? {
        ghost var before := View();
        list := Set(list, p, Get(next, p));
        next := Set(next, p, Get(next, last.value));
        ghost var hooked := View();
        KeepLinked(before, hooked, {p}, taken, Head(todo, None), Some(p));
        KeepLinked(before, hooked, {p}, todo, None, above);
        LastLeadsOn(hooked, taken, Head(todo, None), Some(p));
        next := Set(next, last.value, None);
        Relink(hooked, taken, Head(todo, None), None, Some(p));
        KeepLinked(hooked, View(), {last.value}, todo, None, above);
      }
    }

    /** The whole menu: every entry is regrouped exactly once, in reading order,
        the order of entries is kept, and every parent link is the real one.  Every
        entry has taken over the siblings it should and no others. */
    method FinalizeRoot(root: nat, ghost f: Forest) returns (ghost r: Forest)
      requires f.Menu? && f.id == root && f.next.Empty? && Distinct(f) && Linked(View(), f, None, None)
      modifies this
      ensures Linked(View(), r, None, None) && r.Menu? && r.id == root && r.next.Empty?
      ensures Preorder(r) == Preorder(f) && Flat(rules, r.list)
      ensures finalized == old(finalized) + Preorder(f)
      ensures Regrouped(rules, old(View()), View(), Ids(r.list))
    {
      hide Distinct, Linked, SameBeyond, Group, Flatten, Regrouped;
      Finalize(root, f, None);
      r := FinalizeFirst(rules, f);
      FinalizedFlat(rules, f);
      RootAlone(rules, f);
      RootRegrouped(rules, old(View()), View(), f);
    }
  }
}
