/** What the regrouped menu looks like: which entries end up below which. */
module MenuShape {
  import opened Options
  import opened MenuTree

  // ----- before regrouping -----

  /** An entry that takes over siblings: it has a symbol and no children yet. */
  predicate Takes(rules: Rules, m: Links, p: nat) {
    rules.hasSymbol(p) && Get(m.list, p) == None
  }

  /** t is f without some of its first entries. */
  predicate IsTail(f: Forest, t: Forest) {
    t == f || (f.Menu? && IsTail(f.next, t))
  }

  lemma {:induction false} TailOfTail(f: Forest, t: Forest, u: Forest)
    requires IsTail(f, t) && IsTail(t, u)
    ensures IsTail(f, u)
  {
    if t != f {
      TailOfTail(f.next, t, u);
    }
  }

  lemma {:induction false} TailLinked(m: Links, f: Forest, t: Forest, above: Option<nat>)
    requires IsTail(f, t) && Linked(m, f, None, above) && Distinct(f)
    ensures Linked(m, t, None, above) && Distinct(t) && Ids(t) <= Ids(f)
  {
    if t != f {
      DistinctParts(f);
      TailLinked(m, f.next, t, above);
    }
  }

  /** What is not taken over is a tail of the siblings. */
  lemma {:induction false} FirstLeavesTail(rules: Rules, f: Forest)
    requires f.Menu?
    ensures IsTail(f.next, FinalizeFirst(rules, f).next)
    decreases |Preorder(f)|, 1
  {
    if f.list.Empty? && rules.hasSymbol(f.id) {
      AdoptLeavesTail(rules, f.id, f.next);
    }
  }

  lemma {:induction false} AdoptLeavesTail(rules: Rules, p: nat, f: Forest)
    ensures IsTail(f, Adopt(rules, p, f).1)
    decreases |Preorder(f)|, 2
  {
    if f.Menu? && rules.adopts(p, f.id) {
      var g := FinalizeFirst(rules, f);
      FirstLeavesTail(rules, f);
      AdoptLeavesTail(rules, p, g.next);
      TailOfTail(f.next, g.next, Adopt(rules, p, g.next).1);
    }
  }

  // ----- no dependent sibling is left behind -----

  /** An entry that takes over siblings does not take n, if that was a sibling. */
  predicate Stops(rules: Rules, m: Links, p: nat, n: Option<nat>) {
    Takes(rules, m, p) && !rules.bare(p) && n.Some? && Get(m.parent, p) == Get(m.parent, n.value) ==>
      !rules.adopts(p, n.value)
  }

  /** Of every entry, what comes behind it and all that is below it is none that it
      should have taken over; `beyond` comes behind the whole. */
  predicate Complete(rules: Rules, m: Links, r: Forest, beyond: Option<nat>) {
    r.Menu? ==>
      && Stops(rules, m, r.id, Head(r.next, beyond))
      && Complete(rules, m, r.list, Head(r.next, beyond))
      && Complete(rules, m, r.next, beyond)
  }

  /** What comes behind belongs to a level further out. */
  ghost predicate Outer(m: Links, f: Forest, above: Option<nat>, beyond: Option<nat>) {
    && (above.Some? ==> above.value !in Ids(f))
    && (beyond.Some? ==>
          var up := Get(m.parent, beyond.value);
          up != above && (up.Some? ==> up.value !in Ids(f)))
  }

  lemma OuterParts(m: Links, f: Forest, above: Option<nat>, beyond: Option<nat>)
    requires f.Menu? && Distinct(f) && Linked(m, f, None, above) && Outer(m, f, above, beyond)
    ensures Outer(m, f.list, Some(f.id), Head(f.next, beyond))
  {
    DistinctParts(f);
    hide Distinct, Ids;
  }

  lemma OuterTail(m: Links, f: Forest, t: Forest, above: Option<nat>, beyond: Option<nat>)
    requires Outer(m, f, above, beyond) && Ids(t) <= Ids(f)
    ensures Outer(m, t, above, beyond)
  {
  }

  lemma {:induction false} AppendComplete(rules: Rules, m: Links, f: Forest, g: Forest, beyond: Option<nat>)
    requires Complete(rules, m, f, Head(g, beyond)) && Complete(rules, m, g, beyond)
    ensures Complete(rules, m, Append(f, g), beyond)
  {
    hide Stops;
    if f.Menu? {
      AppendComplete(rules, m, f.next, g, beyond);
    }
  }

  lemma {:induction false} FlattenHead(rules: Rules, f: Forest, beyond: Option<nat>)
    ensures Head(Flatten(rules, f), beyond) == Head(f, beyond)
  {
  }

  lemma {:induction false} FlattenComplete(rules: Rules, m: Links, f: Forest, beyond: Option<nat>)
    requires Complete(rules, m, f, beyond)
    ensures Complete(rules, m, Flatten(rules, f), beyond)
    decreases |Preorder(f)|
  {
    if f.Menu? {
      if f.list.Menu? && rules.bare(f.id) {
        AppendComplete(rules, m, f.list, f.next, beyond);
        FlattenComplete(rules, m, Append(f.list, f.next), beyond);
      } else {
        FlattenComplete(rules, m, f.next, beyond);
        FlattenHead(rules, f.next, beyond);
      }
    }
  }

  /** The same entries have the same first entry. */
  lemma SameHead(f: Forest, g: Forest, all: Forest, beyond: Option<nat>)
    requires Preorder(f) + Preorder(g) == Preorder(all)
    ensures Head(f, Head(g, beyond)) == Head(all, beyond)
  {
    if all.Menu? {
      assert Preorder(all)[0] == all.id;
      assert f.Menu? ==> (Preorder(f) + Preorder(g))[0] == f.id;
      assert f.Empty? ==> g.Menu? && (Preorder(f) + Preorder(g))[0] == g.id;
    } else {
      assert f.Menu? ==> |Preorder(f)| > 0;
      assert g.Menu? ==> |Preorder(g)| > 0;
    }
  }

  lemma {:induction false} FirstComplete(
    rules: Rules, m: Links, f: Forest, above: Option<nat>, beyond: Option<nat>)
    requires f.Menu? && Distinct(f) && Linked(m, f, None, above) && Outer(m, f, above, beyond)
    ensures var r := FinalizeFirst(rules, f);
      Stops(rules, m, r.id, Head(r.next, beyond)) && Complete(rules, m, r.list, Head(r.next, beyond))
    decreases |Preorder(f)|, 1
  {
    hide Distinct, Outer, Complete;
    var g := Group(rules, f);
    DistinctParts(f);
    if f.list.Menu? {
      OuterParts(m, f, above, beyond);
      AllComplete(rules, m, f.list, Some(f.id), Head(f.next, beyond));
    } else if rules.hasSymbol(f.id) {
      OuterTail(m, f, f.next, above, beyond);
      AdoptComplete(rules, m, f.id, f.next, above, beyond);
      AdoptStops(rules, m, f, above, beyond);
    } else {
      NothingComplete(rules, m, Head(f.next, beyond));
    }
    FlattenComplete(rules, m, g.list, Head(g.next, beyond));
  }

  lemma NothingComplete(rules: Rules, m: Links, beyond: Option<nat>)
    ensures Complete(rules, m, Empty, beyond)
  {
  }

  /** The entries on the top level of a forest. */
  function TopLevel(f: Forest): seq<nat> {
    if f.Empty? then [] else [f.id] + TopLevel(f.next)
  }

  /** The siblings taken over all passed the test, and the first one left behind
      did not. */
  lemma {:induction false} AdoptedPassed(rules: Rules, p: nat, f: Forest)
    ensures forall k :: k in TopLevel(Adopt(rules, p, f).0) ==> rules.adopts(p, k)
    ensures Adopt(rules, p, f).1.Menu? ==> !rules.adopts(p, Adopt(rules, p, f).1.id)
    decreases |Preorder(f)|
  {
    if f.Menu? && rules.adopts(p, f.id) {
      AdoptedPassed(rules, p, FinalizeFirst(rules, f).next);
    }
  }

  lemma AdoptStops(rules: Rules, m: Links, f: Forest, above: Option<nat>, beyond: Option<nat>)
    requires f.Menu? && Linked(m, f, None, above) && Outer(m, f, above, beyond)
    ensures Stops(rules, m, f.id, Head(Adopt(rules, f.id, f.next).1, beyond))
  {
    AdoptedPassed(rules, f.id, f.next);
    hide Adopt;
  }

  lemma {:induction false} AllComplete(
    rules: Rules, m: Links, f: Forest, above: Option<nat>, beyond: Option<nat>)
    requires Distinct(f) && Linked(m, f, None, above) && Outer(m, f, above, beyond)
    ensures Complete(rules, m, FinalizeAll(rules, f), beyond)
    decreases |Preorder(f)|, 2
  {
    hide Distinct, Outer, Stops, FinalizeFirst;
    if f.Menu? {
      var g := FinalizeFirst(rules, f);
      FirstComplete(rules, m, f, above, beyond);
      NextIsTail(rules, m, f, above, beyond);
      AllComplete(rules, m, g.next, above, beyond);
      SameHead(FinalizeAll(rules, g.next), Empty, g.next, beyond);
    }
  }

  lemma NextIsTail(rules: Rules, m: Links, f: Forest, above: Option<nat>, beyond: Option<nat>)
    requires f.Menu? && Distinct(f) && Linked(m, f, None, above) && Outer(m, f, above, beyond)
    ensures var t := FinalizeFirst(rules, f).next;
      Distinct(t) && Linked(m, t, None, above) && Outer(m, t, above, beyond) && |Preorder(t)| < |Preorder(f)|
  {
    var t := FinalizeFirst(rules, f).next;
    FirstLeavesTail(rules, f);
    DistinctParts(f);
    TailLinked(m, f.next, t, above);
    OuterTail(m, f, t, above, beyond);
    hide Distinct, Ids, Outer, Linked;
  }

  lemma {:induction false} AdoptComplete(
    rules: Rules, m: Links, p: nat, f: Forest, above: Option<nat>, beyond: Option<nat>)
    requires Distinct(f) && Linked(m, f, None, above) && Outer(m, f, above, beyond)
    ensures var (kids, rest) := Adopt(rules, p, f); Complete(rules, m, kids, Head(rest, beyond))
    decreases |Preorder(f)|, 2
  {
    hide Distinct, Outer, Stops, FinalizeFirst;
    if f.Menu? && rules.adopts(p, f.id) {
      var g := FinalizeFirst(rules, f);
      FirstComplete(rules, m, f, above, beyond);
      NextIsTail(rules, m, f, above, beyond);
      AdoptComplete(rules, m, p, g.next, above, beyond);
      var (more, rest) := Adopt(rules, p, g.next);
      SameHead(more, rest, g.next, beyond);
    }
  }

  /** An entry without children takes over its siblings up to the first that does not
      pass the test, and the first of them that does pass becomes its first child. */
  lemma FirstTakes(rules: Rules, f: Forest)
    requires f.Menu? && f.list.Empty? && rules.hasSymbol(f.id)
    ensures var r := FinalizeFirst(rules, f);
      && IsTail(f.next, r.next) && Preorder(f.next) == Preorder(r.list) + Preorder(r.next)
      && (r.next.Menu? ==> !rules.adopts(f.id, r.next.id))
      && (f.next.Menu? && rules.adopts(f.id, f.next.id) ==> r.list.Menu? && r.list.id == f.next.id)
  {
    FirstLeavesTail(rules, f);
    AdoptedPassed(rules, f.id, f.next);
    var (kids, rest) := Adopt(rules, f.id, f.next);
    SameHead(kids, rest, f.next, None);
    FlattenHead(rules, kids, None);
  }

  // ----- no other entry goes below -----

  /** b was a child of a, or a takes over b, a sibling that passes the test. */
  predicate StepDown(rules: Rules, m: Links, a: nat, b: nat) {
    || Get(m.parent, b) == Some(a)
    || (Takes(rules, m, a) && rules.adopts(a, b) && Get(m.parent, a) == Get(m.parent, b))
  }

  /** Steps down, all but the ends being entries without a prompt. */
  predicate Chain(rules: Rules, m: Links, c: seq<nat>) {
    && |c| >= 2
    && (forall i :: 0 <= i < |c| - 1 ==> StepDown(rules, m, c[i], c[i + 1]))
    && (forall i :: 0 < i < |c| - 1 ==> rules.bare(c[i]))
  }

  /** k may be a child of q. */
  ghost predicate Belongs(rules: Rules, m: Links, q: nat, k: nat) {
    exists c :: Chain(rules, m, c) && c[0] == q && c[|c| - 1] == k
  }

  /** Every entry belongs to its parent, q being the parent of the top level. */
  ghost predicate AllBelong(rules: Rules, m: Links, r: Forest, q: nat) {
    r.Menu? ==> Belongs(rules, m, q, r.id) && AllBelong(rules, m, r.list, r.id) && AllBelong(rules, m, r.next, q)
  }

  lemma OneStep(rules: Rules, m: Links, q: nat, k: nat)
    requires StepDown(rules, m, q, k)
    ensures Belongs(rules, m, q, k)
  {
    assert Chain(rules, m, [q, k]);
  }

  /** Through an entry without a prompt. */
  lemma BelongsThrough(rules: Rules, m: Links, q: nat, b: nat, k: nat)
    requires Belongs(rules, m, q, b) && Belongs(rules, m, b, k) && rules.bare(b)
    ensures Belongs(rules, m, q, k)
  {
    var c :| Chain(rules, m, c) && c[0] == q && c[|c| - 1] == b;
    var d :| Chain(rules, m, d) && d[0] == b && d[|d| - 1] == k;
    var e := c + d[1..];
    assert forall i :: |c| - 1 <= i < |e| ==> e[i] == d[i - (|c| - 1)];
    assert Chain(rules, m, e) by {
      forall i | 0 <= i < |e| - 1 ensures StepDown(rules, m, e[i], e[i + 1]) {
        if i < |c| - 1 {
          assert StepDown(rules, m, c[i], c[i + 1]);
        } else {
          assert StepDown(rules, m, d[i - (|c| - 1)], d[i - (|c| - 1) + 1]);
        }
      }
    }
  }

  lemma {:induction false} MovedUpBelong(rules: Rules, m: Links, r: Forest, b: nat, q: nat)
    requires AllBelong(rules, m, r, b) && Belongs(rules, m, q, b) && rules.bare(b)
    ensures AllBelong(rules, m, r, q)
  {
    if r.Menu? {
      BelongsThrough(rules, m, q, b, r.id);
      hide Belongs;
      MovedUpBelong(rules, m, r.next, b, q);
    }
  }

  lemma {:induction false} AppendBelong(rules: Rules, m: Links, f: Forest, g: Forest, q: nat)
    requires AllBelong(rules, m, f, q) && AllBelong(rules, m, g, q)
    ensures AllBelong(rules, m, Append(f, g), q)
  {
    hide Belongs;
    if f.Menu? {
      AppendBelong(rules, m, f.next, g, q);
    }
  }

  lemma {:induction false} FlattenBelong(rules: Rules, m: Links, f: Forest, q: nat)
    requires AllBelong(rules, m, f, q)
    ensures AllBelong(rules, m, Flatten(rules, f), q)
    decreases |Preorder(f)|
  {
    hide Belongs;
    if f.Menu? {
      if f.list.Menu? && rules.bare(f.id) {
        MovedUpBelong(rules, m, f.list, f.id, q);
        AppendBelong(rules, m, f.list, f.next, q);
        FlattenBelong(rules, m, Append(f.list, f.next), q);
      } else {
        FlattenBelong(rules, m, f.next, q);
      }
    }
  }

  lemma {:induction false} FirstBelong(rules: Rules, m: Links, f: Forest, above: Option<nat>)
    requires f.Menu? && Distinct(f) && Linked(m, f, None, above)
    ensures AllBelong(rules, m, FinalizeFirst(rules, f).list, f.id)
    decreases |Preorder(f)|, 1
  {
    hide Distinct, Belongs;
    DistinctParts(f);
    if f.list.Menu? {
      LevelBelong(rules, m, f.list, f.id);
    } else if rules.hasSymbol(f.id) {
      AdoptBelong(rules, m, f.id, f.next, above);
    }
    FlattenBelong(rules, m, Group(rules, f).list, f.id);
  }

  lemma TailOf(rules: Rules, m: Links, f: Forest, above: Option<nat>)
    requires f.Menu? && Distinct(f) && Linked(m, f, None, above)
    ensures var t := FinalizeFirst(rules, f).next;
      Distinct(t) && Linked(m, t, None, above) && |Preorder(t)| < |Preorder(f)|
  {
    FirstLeavesTail(rules, f);
    DistinctParts(f);
    TailLinked(m, f.next, FinalizeFirst(rules, f).next, above);
    hide Distinct, Linked;
  }

  lemma {:induction false} LevelBelong(rules: Rules, m: Links, f: Forest, q: nat)
    requires Distinct(f) && Linked(m, f, None, Some(q))
    ensures AllBelong(rules, m, FinalizeAll(rules, f), q)
    decreases |Preorder(f)|, 2
  {
    hide Distinct, Belongs, FinalizeFirst;
    if f.Menu? {
      FirstBelong(rules, m, f, Some(q));
      TailOf(rules, m, f, Some(q));
      OneStep(rules, m, q, f.id);
      LevelBelong(rules, m, FinalizeFirst(rules, f).next, q);
    }
  }

  lemma {:induction false} AdoptBelong(rules: Rules, m: Links, p: nat, f: Forest, above: Option<nat>)
    requires Distinct(f) && Linked(m, f, None, above) && Takes(rules, m, p) && Get(m.parent, p) == above
    ensures AllBelong(rules, m, Adopt(rules, p, f).0, p)
    decreases |Preorder(f)|, 2
  {
    hide Distinct, Belongs, FinalizeFirst;
    if f.Menu? && rules.adopts(p, f.id) {
      FirstBelong(rules, m, f, above);
      TailOf(rules, m, f, above);
      OneStep(rules, m, p, f.id);
      AdoptBelong(rules, m, p, FinalizeFirst(rules, f).next, above);
    }
  }

  // ----- the next sibling, if it depends, becomes the first child -----

  /** In the order of entries, a sibling follows an entry without children at once. */
  predicate FollowsAt(rules: Rules, m: Links, s: seq<nat>, i: nat, beyond: Option<nat>)
    requires i < |s|
  {
    Takes(rules, m, s[i]) && Get(m.next, s[i]).Some? ==>
      Get(m.next, s[i]) == if i + 1 < |s| then Some(s[i + 1]) else beyond
  }

  ghost predicate InOrder(rules: Rules, m: Links, s: seq<nat>, beyond: Option<nat>) {
    forall i :: 0 <= i < |s| ==> FollowsAt(rules, m, s, i, beyond)
  }

  function First(s: seq<nat>, beyond: Option<nat>): Option<nat> {
    if s == [] then beyond else Some(s[0])
  }

  lemma InOrderParts(rules: Rules, m: Links, s: seq<nat>, t: seq<nat>, beyond: Option<nat>)
    ensures InOrder(rules, m, s + t, beyond) <==>
      InOrder(rules, m, s, First(t, beyond)) && InOrder(rules, m, t, beyond)
  {
    var u := s + t;
    assert forall i :: 0 <= i < |s| ==>
      (FollowsAt(rules, m, s, i, First(t, beyond)) <==> FollowsAt(rules, m, u, i, beyond));
    forall i | 0 <= i < |t| ensures FollowsAt(rules, m, t, i, beyond) <==> FollowsAt(rules, m, u, |s| + i, beyond) {
      assert u[|s| + i] == t[i];
    }
    if InOrder(rules, m, s, First(t, beyond)) && InOrder(rules, m, t, beyond) {
      forall i | 0 <= i < |u| ensures FollowsAt(rules, m, u, i, beyond) {
        if i >= |s| {
          assert FollowsAt(rules, m, t, i - |s|, beyond);
        }
      }
    }
  }

  lemma FirstIsHead(f: Forest, beyond: Option<nat>)
    ensures First(Preorder(f), beyond) == Head(f, beyond)
  {
  }

  lemma {:induction false} LinkedInOrder(rules: Rules, m: Links, f: Forest, above: Option<nat>, beyond: Option<nat>)
    requires Linked(m, f, None, above)
    ensures InOrder(rules, m, Preorder(f), beyond)
  {
    if f.Menu? {
      LinkedInOrder(rules, m, f.list, Some(f.id), Head(f.next, beyond));
      LinkedInOrder(rules, m, f.next, above, beyond);
      InOrderNode(rules, m, f, beyond);
    }
  }

  /** The order of an entry, its children and its siblings. */
  lemma InOrderNode(rules: Rules, m: Links, f: Forest, beyond: Option<nat>)
    requires f.Menu?
    ensures InOrder(rules, m, Preorder(f), beyond) <==>
      && (Takes(rules, m, f.id) && Get(m.next, f.id).Some? ==> Get(m.next, f.id) == Head(f.list, Head(f.next, beyond)))
      && InOrder(rules, m, Preorder(f.list), Head(f.next, beyond))
      && InOrder(rules, m, Preorder(f.next), beyond)
  {
    InOrderParts(rules, m, [f.id] + Preorder(f.list), Preorder(f.next), beyond);
    InOrderParts(rules, m, [f.id], Preorder(f.list), Head(f.next, beyond));
    FirstIsHead(f.next, beyond);
    FirstIsHead(f.list, Head(f.next, beyond));
    assert InOrder(rules, m, [f.id], Head(f.list, Head(f.next, beyond))) <==>
      FollowsAt(rules, m, [f.id], 0, Head(f.list, Head(f.next, beyond)));
  }

  /** An entry with a prompt whose next sibling passes the test. */
  predicate MustTake(rules: Rules, m: Links, p: nat) {
    Takes(rules, m, p) && !rules.bare(p) && Get(m.next, p).Some? && rules.adopts(p, Get(m.next, p).value)
  }

  /** That sibling is its first child. */
  predicate TakenDown(rules: Rules, m: Links, r: Forest) {
    r.Menu? ==>
      && (MustTake(rules, m, r.id) ==> Head(r.list, None) == Get(m.next, r.id))
      && TakenDown(rules, m, r.list) && TakenDown(rules, m, r.next)
  }

  /** Siblings have the same parent. */
  ghost predicate SiblingsAgree(m: Links, ids: set<nat>) {
    forall k :: k in ids && Get(m.next, k).Some? ==> Get(m.parent, k) == Get(m.parent, Get(m.next, k).value)
  }

  lemma {:induction false} LinkedSiblings(m: Links, f: Forest, above: Option<nat>)
    requires Linked(m, f, None, above)
    ensures SiblingsAgree(m, Ids(f))
  {
    if f.Menu? {
      LinkedSiblings(m, f.list, Some(f.id));
      LinkedSiblings(m, f.next, above);
      assert Ids(f) == {f.id} + Ids(f.list) + Ids(f.next);
    }
  }

  lemma {:induction false} CompleteTakesDown(rules: Rules, m: Links, r: Forest, beyond: Option<nat>)
    requires Complete(rules, m, r, beyond) && InOrder(rules, m, Preorder(r), beyond) && SiblingsAgree(m, Ids(r))
    ensures TakenDown(rules, m, r)
  {
    if r.Menu? {
      InOrderNode(rules, m, r, beyond);
      assert Ids(r) == {r.id} + Ids(r.list) + Ids(r.next);
      hide InOrder, Ids;
      CompleteTakesDown(rules, m, r.list, Head(r.next, beyond));
      CompleteTakesDown(rules, m, r.next, beyond);
    }
  }

  // ----- said of the links -----

  /** What holds of the links after regrouping with respect to the links before. */
  ghost predicate Regrouped(rules: Rules, m: Links, n: Links, ids: set<nat>) {
    && (forall p :: p in ids ==> FirstChildTaken(rules, m, n, p) && LeftBehind(rules, m, n, p))
    && (forall k :: k in ids && Get(n.parent, k).Some? ==> Belongs(rules, m, Get(n.parent, k).value, k))
  }

  predicate FirstChildTaken(rules: Rules, m: Links, n: Links, p: nat) {
    MustTake(rules, m, p) ==> Get(n.list, p) == Get(m.next, p)
  }

  /** The sibling behind an entry, if it was one before, is none that it should have
      taken over. */
  predicate LeftBehind(rules: Rules, m: Links, n: Links, p: nat) {
    Stops(rules, m, p, Get(n.next, p))
  }

  lemma {:induction false} LinksTell(rules: Rules, m: Links, n: Links, r: Forest, q: nat, beyond: Option<nat>)
    requires Linked(n, r, None, Some(q))
    requires Complete(rules, m, r, beyond) && TakenDown(rules, m, r) && AllBelong(rules, m, r, q)
    ensures Regrouped(rules, m, n, Ids(r))
  {
    hide Belongs;
    if r.Menu? {
      LinksTell(rules, m, n, r.list, r.id, Head(r.next, beyond));
      LinksTell(rules, m, n, r.next, q, beyond);
      assert Ids(r) == {r.id} + Ids(r.list) + Ids(r.next);
      assert FirstChildTaken(rules, m, n, r.id) && LeftBehind(rules, m, n, r.id);
    }
  }

  /** The whole menu. */
  lemma RootRegrouped(rules: Rules, m: Links, n: Links, f: Forest)
    requires f.Menu? && f.next.Empty? && Distinct(f) && Linked(m, f, None, None)
    requires Linked(n, FinalizeFirst(rules, f), None, None)
    ensures var r := FinalizeFirst(rules, f); r.next.Empty? && Regrouped(rules, m, n, Ids(r.list))
  {
    var r := FinalizeFirst(rules, f);
    FirstLeavesTail(rules, f);
    FirstComplete(rules, m, f, None, None);
    FirstBelong(rules, m, f, None);
    LinkedInOrder(rules, m, f, None, None);
    LinkedSiblings(m, f, None);
    assert Ids(r) == Ids(f);
    assert Complete(rules, m, r, None);
    hide FinalizeFirst, Regrouped, Ids, InOrder;
    CompleteTakesDown(rules, m, r, None);
    LinksTell(rules, m, n, r.list, r.id, None);
  }
}
