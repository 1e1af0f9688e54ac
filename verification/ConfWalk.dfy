/** The walk over the menu entries that writes the configuration. */
module ConfWalk {
  import opened Options
  import opened MenuTree

  /** What is still to be visited: the rest of this level, whose parent is
      `parent`, and then what follows the parent further up. */
  datatype Spot = Top | Spot(rest: Forest, parent: nat, up: Spot)

  function Remaining(s: Spot): seq<nat> {
    if s.Top? then [] else Preorder(s.rest) + Remaining(s.up)
  }

  predicate Consistent(m: Links, s: Spot) {
    s.Spot? ==>
      && Linked(m, s.rest, None, Some(s.parent))
      && Get(m.next, s.parent) == (if s.up.Top? then None else Head(s.up.rest, None))
      && Get(m.parent, s.parent) == (if s.up.Top? then None else Some(s.up.parent))
      && Consistent(m, s.up)
  }

  /** Where the walk is, if it is not over. */
  predicate At(m: Links, s: Spot, cur: Option<nat>) {
    && Consistent(m, s)
    && (cur.None? ==> Remaining(s) == [])
    && (cur.Some? ==> s.Spot? && s.rest.Menu? && s.rest.id == cur.value)
  }

  /** Up from the last entry of a level to the next one to visit. */
  method Climb(m: Links, k: nat, ghost s: Spot) returns (cur: Option<nat>, ghost r: Spot)
    requires s.Spot? && s.rest.Empty? && Consistent(m, s) && Get(m.parent, k) == Some(s.parent)
    ensures At(m, r, cur) && Remaining(r) == Remaining(s)
  {
    cur := Get(m.parent, k);
    r := s;
    while cur.Some?
      invariant r.Spot? && r.rest.Empty? && Consistent(m, r) && Remaining(r) == Remaining(s)
      invariant cur.Some? ==> cur.value == r.parent
      invariant cur.None? ==> Remaining(r) == []
      decreases r, cur.Some?
    {
      var n := Get(m.next, cur.value);
      if n.Some? {
        return n, r.up;
      }
      cur := Get(m.parent, cur.value);
      if cur.Some? {
        r := r.up;
      }
    }
  }

  /** The walk starts before the children of the root. */
  lemma AtStart(m: Links, root: nat, f: Forest)
    requires Get(m.parent, root) == None && Get(m.next, root) == None
    requires Get(m.list, root) == Head(f, None) && Linked(m, f, None, Some(root))
    ensures OnTheWay(m, Spot(f, root, Top), Get(m.list, root), [], f)
  {
    assert Consistent(m, Top);
    assert Remaining(Spot(f, root, Top)) == Preorder(f) + [] == Preorder(f);
  }

  /** Behind an entry come its children and then the rest of its level. */
  lemma OrderBehind(s: Spot)
    requires s.Spot? && s.rest.Menu?
    ensures var level := Spot(s.rest.next, s.parent, s.up);
      && Remaining(s) == [s.rest.id] + Remaining(Spot(s.rest.list, s.rest.id, level))
      && (s.rest.list.Empty? ==> Remaining(s) == [s.rest.id] + Remaining(level))
  {
    var level := Spot(s.rest.next, s.parent, s.up);
    Regroup([s.rest.id] + Preorder(s.rest.list), Preorder(s.rest.next), Remaining(s.up));
    Regroup([s.rest.id], Preorder(s.rest.list), Preorder(s.rest.next) + Remaining(s.up));
    assert Remaining(level) == Preorder(s.rest.next) + Remaining(s.up);
    assert Remaining(Spot(s.rest.list, s.rest.id, level)) == Preorder(s.rest.list) + Remaining(level);
    if s.rest.list.Empty? {
      assert [] + Remaining(level) == Remaining(level);
    }
  }

  lemma LinksBehind(m: Links, s: Spot)
    requires s.Spot? && s.rest.Menu? && Consistent(m, s)
    ensures var level := Spot(s.rest.next, s.parent, s.up);
      && Get(m.list, s.rest.id) == Head(s.rest.list, None) && Get(m.next, s.rest.id) == Head(s.rest.next, None)
      && Get(m.parent, s.rest.id) == Some(s.parent)
      && Consistent(m, level) && Consistent(m, Spot(s.rest.list, s.rest.id, level))
  {
    assert Consistent(m, Spot(s.rest.next, s.parent, s.up));
  }

  /** From one entry to the next: the first child, the next sibling, or the next
      sibling of the nearest ancestor that has one. */
  method Advance(m: Links, k: nat, ghost s: Spot) returns (cur: Option<nat>, ghost r: Spot)
    requires At(m, s, Some(k))
    ensures At(m, r, cur) && Remaining(s) == [k] + Remaining(r)
  {
    OrderBehind(s);
    LinksBehind(m, s);
    hide Linked, Consistent;
    ghost var here := s.rest;
    if k in m.list {
      cur := Some(m.list[k]);
      r := Spot(here.list, k, Spot(here.next, s.parent, s.up));
    } else if k in m.next {
      cur := Some(m.next[k]);
      r := Spot(here.next, s.parent, s.up);
    } else {
      cur, r := Climb(m, k, Spot(Empty, s.parent, s.up));
    }
  }

  /** Part of the entries have been visited and the others are still to come. */
  ghost predicate OnTheWay(m: Links, s: Spot, cur: Option<nat>, visited: seq<nat>, f: Forest) {
    At(m, s, cur) && visited + Remaining(s) == Preorder(f)
  }

  method Move(m: Links, k: nat, ghost s: Spot, ghost visited: seq<nat>, ghost f: Forest)
    returns (cur: Option<nat>, ghost r: Spot)
    requires OnTheWay(m, s, Some(k), visited, f)
    ensures OnTheWay(m, r, cur, visited + [k], f) && |Remaining(r)| < |Remaining(s)|
  {
    hide At, Remaining, Preorder;
    cur, r := Advance(m, k, s);
    Regroup(visited, [k], Remaining(r));
  }

  /** The walk stops and visits every entry of the menu once, in reading order. */
  method Walk(m: Links, root: nat, ghost f: Forest) returns (visited: seq<nat>)
    requires Get(m.parent, root) == None && Get(m.next, root) == None
    requires Get(m.list, root) == Head(f, None) && Linked(m, f, None, Some(root))
    ensures visited == Preorder(f)
  {
    AtStart(m, root, f);
    hide *;
    visited := [];
    var cur := Get(m.list, root);
    ghost var s := Spot(f, root, Top);
    while cur.Some?
      invariant OnTheWay(m, s, cur, visited, f)
      decreases |Remaining(s)|
    {
      var k := cur.value;
      cur, s := Move(m, k, s, visited, f);
      visited := visited + [k];
    }
    AtEnd(m, s, visited, f);
  }

  lemma AtEnd(m: Links, s: Spot, visited: seq<nat>, f: Forest)
    requires OnTheWay(m, s, None, visited, f)
    ensures visited == Preorder(f)
  {
    assert visited + [] == visited;
  }
}
