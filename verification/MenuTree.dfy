/** Menu entries linked by first child and next sibling, and how they are
    regrouped once the whole configuration is known. */
module MenuTree {
  import opened Options

  /** An entry with its children and the entries after it on the same level. */
  datatype Forest = Empty | Menu(id: nat, list: Forest, next: Forest)

  /** The entries in the order in which they were read. */
  function Preorder(f: Forest): seq<nat> {
    if f.Empty? then [] else [f.id] + Preorder(f.list) + Preorder(f.next)
  }

  function Append(f: Forest, g: Forest): (r: Forest)
    ensures Preorder(r) == Preorder(f) + Preorder(g)
  {
    if f.Empty? then g else Menu(f.id, f.list, Append(f.next, g))
  }

  lemma Regroup(a: seq<nat>, b: seq<nat>, c: seq<nat>)
    ensures a + b + c == a + (b + c)
  {
  }

  /** What regrouping looks at: entries with a symbol, whether an entry's
      dependency makes it a child of another, and entries without a prompt. */
  datatype Rules = Rules(hasSymbol: nat -> bool, adopts: (nat, nat) -> bool, bare: nat -> bool)

  /** Children of an entry without a prompt move up behind it. */
  function Flatten(rules: Rules, f: Forest): (r: Forest)
    ensures Preorder(r) == Preorder(f)
    decreases |Preorder(f)|
  {
    if f.Empty? then f
    else if f.list.Menu? && rules.bare(f.id) then
      Menu(f.id, Empty, Flatten(rules, Append(f.list, f.next)))
    else Menu(f.id, f.list, Flatten(rules, f.next))
  }

  /** An entry with children regroups those; an entry without takes over the
      siblings that depend on it. */
  function Group(rules: Rules, f: Forest): (r: Forest)
    requires f.Menu?
    ensures r.Menu? && r.id == f.id && Preorder(r) == Preorder(f)
    decreases |Preorder(f)|, 0
  {
    if f.list.Menu? then Menu(f.id, FinalizeAll(rules, f.list), f.next)
    else if rules.hasSymbol(f.id) then
      var (kids, rest) := Adopt(rules, f.id, f.next);
      Menu(f.id, kids, rest)
    else f
  }

  /** The first entry regrouped, with the siblings that remain after it. */
  function FinalizeFirst(rules: Rules, f: Forest): (r: Forest)
    requires f.Menu?
    ensures r.Menu? && r.id == f.id && Preorder(r) == Preorder(f)
    decreases |Preorder(f)|, 1
  {
    var g := Group(rules, f);
    Menu(g.id, Flatten(rules, g.list), g.next)
  }

  function FinalizeAll(rules: Rules, f: Forest): (r: Forest)
    ensures Preorder(r) == Preorder(f)
    decreases |Preorder(f)|, 2
  {
    if f.Empty? then f
    else
      var g := FinalizeFirst(rules, f);
      Menu(g.id, g.list, FinalizeAll(rules, g.next))
  }

  /** The siblings that become children of entry `p`, and those that do not. */
  function Adopt(rules: Rules, p: nat, f: Forest): (r: (Forest, Forest))
    ensures Preorder(r.0) + Preorder(r.1) == Preorder(f)
    decreases |Preorder(f)|, 2
  {
    if f.Empty? || !rules.adopts(p, f.id) then (Empty, f)
    else
      var g := FinalizeFirst(rules, f);
      var (more, rest) := Adopt(rules, p, g.next);
      (Menu(g.id, g.list, more), rest)
  }

  // ----- what regrouping achieves -----

  /** No entry without a prompt has children, on this level or below. */
  predicate Flat(rules: Rules, f: Forest) {
    f.Menu? ==> (rules.bare(f.id) ==> f.list.Empty?) && Flat(rules, f.list) && Flat(rules, f.next)
  }

  /** Below the entries of this level no entry without a prompt has children. */
  predicate FlatBelow(rules: Rules, f: Forest) {
    f.Menu? ==> Flat(rules, f.list) && FlatBelow(rules, f.next)
  }

  lemma {:induction false} FlatIsFlatBelow(rules: Rules, f: Forest)
    requires Flat(rules, f)
    ensures FlatBelow(rules, f)
  {
    if f.Menu? {
      FlatIsFlatBelow(rules, f.next);
    }
  }

  lemma {:induction false} FlatBelowAppend(rules: Rules, f: Forest, g: Forest)
    requires FlatBelow(rules, f) && FlatBelow(rules, g)
    ensures FlatBelow(rules, Append(f, g))
  {
    if f.Menu? {
      FlatBelowAppend(rules, f.next, g);
    }
  }

  lemma {:induction false} FlattenFlat(rules: Rules, f: Forest)
    requires FlatBelow(rules, f)
    ensures Flat(rules, Flatten(rules, f))
    decreases |Preorder(f)|
  {
    if f.Menu? {
      if f.list.Menu? && rules.bare(f.id) {
        FlatIsFlatBelow(rules, f.list);
        FlatBelowAppend(rules, f.list, f.next);
        FlattenFlat(rules, Append(f.list, f.next));
      } else {
        FlattenFlat(rules, f.next);
      }
    }
  }

  /** After regrouping, no entry without a prompt has children anywhere below. */
  lemma {:induction false} FinalizedFlat(rules: Rules, f: Forest)
    requires f.Menu?
    ensures Flat(rules, FinalizeFirst(rules, f).list)
    decreases |Preorder(f)|, 1
  {
    if f.list.Menu? {
      FinalizedAllFlat(rules, f.list);
    } else if rules.hasSymbol(f.id) {
      AdoptedFlat(rules, f.id, f.next);
    }
    FlattenFlat(rules, Group(rules, f).list);
  }

  lemma {:induction false} FinalizedAllFlat(rules: Rules, f: Forest)
    ensures FlatBelow(rules, FinalizeAll(rules, f))
    decreases |Preorder(f)|, 2
  {
    if f.Menu? {
      FinalizedFlat(rules, f);
      FinalizedAllFlat(rules, FinalizeFirst(rules, f).next);
    }
  }

  lemma {:induction false} AdoptedFlat(rules: Rules, p: nat, f: Forest)
    ensures FlatBelow(rules, Adopt(rules, p, f).0)
    decreases |Preorder(f)|, 2
  {
    if f.Menu? && rules.adopts(p, f.id) {
      FinalizedFlat(rules, f);
      AdoptedFlat(rules, p, FinalizeFirst(rules, f).next);
    }
  }

  // ----- the links -----

  /** The three pointers of each entry; an entry that is not in a map has none. */
  datatype Links = Links(next: map<nat, nat>, list: map<nat, nat>, parent: map<nat, nat>)

  function Get(m: map<nat, nat>, k: nat): Option<nat> {
    if k in m then Some(m[k]) else None
  }

  function Set(m: map<nat, nat>, k: nat, v: Option<nat>): (r: map<nat, nat>)
    ensures forall j :: Get(r, j) == if j == k then v else Get(m, j)
  {
    if v.Some? then m[k := v.value] else m - {k}
  }

  function Head(f: Forest, after: Option<nat>): Option<nat> {
    if f.Empty? then after else Some(f.id)
  }

  /** The links describe the forest: on every level `next` leads from entry to
      entry and at last to `after`, and `parent` is the real parent. */
  predicate Linked(m: Links, f: Forest, after: Option<nat>, parent: Option<nat>) {
    f.Menu? ==>
      && Get(m.parent, f.id) == parent
      && Get(m.next, f.id) == Head(f.next, after)
      && Get(m.list, f.id) == Head(f.list, None)
      && Linked(m, f.list, None, Some(f.id))
      && Linked(m, f.next, after, parent)
  }

  function Ids(f: Forest): set<nat> {
    set k | k in Preorder(f)
  }

  /** No entry occurs twice. */
  predicate Distinct(f: Forest) {
    NoRepeat(Preorder(f))
  }

  predicate NoRepeat(s: seq<nat>) {
    forall i, j :: 0 <= i < j < |s| ==> s[i] != s[j]
  }

  lemma NoRepeatParts(s: seq<nat>, t: seq<nat>)
    requires NoRepeat(s + t)
    ensures NoRepeat(s) && NoRepeat(t) && forall k :: k in s ==> k !in t
  {
    assert forall i :: 0 <= i < |s| ==> (s + t)[i] == s[i];
    assert forall i :: 0 <= i < |t| ==> (s + t)[|s| + i] == t[i];
  }

  lemma DistinctParts(f: Forest)
    requires f.Menu? && Distinct(f)
    ensures f.id !in Ids(f.list) && f.id !in Ids(f.next) && Ids(f.list) !! Ids(f.next)
    ensures Distinct(f.list) && Distinct(f.next)
    ensures Ids(f) == {f.id} + Ids(f.list) + Ids(f.next)
  {
    NoRepeatParts([f.id] + Preorder(f.list), Preorder(f.next));
    NoRepeatParts([f.id], Preorder(f.list));
    assert f.id in [f.id] + Preorder(f.list);
    assert forall k :: k in Ids(f.list) ==> k in [f.id] + Preorder(f.list);
  }

  lemma DistinctAppend(f: Forest, g: Forest)
    requires Distinct(Append(f, g))
    ensures Distinct(f) && Distinct(g) && Ids(f) !! Ids(g)
    ensures Ids(Append(f, g)) == Ids(f) + Ids(g)
  {
    NoRepeatParts(Preorder(f), Preorder(g));
  }

  predicate SameOn(m: Links, n: Links, ids: set<nat>) {
    forall k :: k in ids ==>
      Get(m.next, k) == Get(n.next, k) && Get(m.list, k) == Get(n.list, k) && Get(m.parent, k) == Get(n.parent, k)
  }

  lemma {:induction false} LinkedFrame(m: Links, n: Links, f: Forest, after: Option<nat>, parent: Option<nat>)
    requires Linked(m, f, after, parent) && SameOn(m, n, Ids(f))
    ensures Linked(n, f, after, parent)
  {
    if f.Menu? {
      assert f.id in Ids(f) && Ids(f.list) <= Ids(f) && Ids(f.next) <= Ids(f);
      LinkedFrame(m, n, f.list, None, Some(f.id));
      LinkedFrame(m, n, f.next, after, parent);
    }
  }

  lemma {:induction false} LinkedAppend(m: Links, f: Forest, g: Forest, after: Option<nat>, parent: Option<nat>)
    ensures Linked(m, Append(f, g), after, parent)
       <==> Linked(m, f, Head(g, after), parent) && Linked(m, g, after, parent)
  {
    if f.Menu? {
      LinkedAppend(m, f.next, g, after, parent);
    }
  }

  lemma {:induction false} AppendEmpty(f: Forest)
    ensures Append(f, Empty) == f
  {
    if f.Menu? {
      AppendEmpty(f.next);
    }
  }

  lemma {:induction false} AppendAssociates(f: Forest, g: Forest, h: Forest)
    ensures Append(Append(f, g), h) == Append(f, Append(g, h))
  {
    if f.Menu? {
      AppendAssociates(f.next, g, h);
    }
  }

  /** The last entry of a level. */
  function LastId(f: Forest): (k: nat)
    requires f.Menu?
    ensures k in Ids(f)
  {
    if f.next.Empty? then f.id else LastId(f.next)
  }

  /** Pointing the last entry of a level elsewhere. */
  lemma {:induction false} Relink(m: Links, f: Forest, after: Option<nat>, later: Option<nat>, parent: Option<nat>)
    requires f.Menu? && Distinct(f) && Linked(m, f, after, parent)
    ensures Linked(m.(next := Set(m.next, LastId(f), later)), f, later, parent)
  {
    DistinctParts(f);
    var n := m.(next := Set(m.next, LastId(f), later));
    LinkedFrame(m, n, f.list, None, Some(f.id));
    if f.next.Menu? {
      Relink(m, f.next, after, later, parent);
    }
  }
}
