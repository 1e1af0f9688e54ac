/** Writing the configuration: the walk over the menu, the items it emits, and the
    way back. */
module ConfWrite {
  import opened Options
  import opened Tristate
  import opened Expressions
  import opened MenuTree
  import opened ConfText
  import opened ConfFile
  import opened ConfWalk

  /** What a menu entry has to write: nothing, the prompt of a visible menu, or the
      value of a symbol. */
  datatype Entry = Nothing | Title(prompt: string) | Value(sym: Symbol)

  /** What is emitted after some entries, and the symbols still flagged: a symbol
      loses its flag as it is written. */
  function Emit(order: seq<nat>, at: nat -> Entry, flagged: set<Symbol>): (r: (seq<Entry>, set<Symbol>)) {
    if order == [] then ([], flagged)
    else
      var (out, left) := Emit(order[..|order| - 1], at, flagged);
      EmitNext(out, left, at(order[|order| - 1]))
  }

  function EmitNext(out: seq<Entry>, left: set<Symbol>, e: Entry): (seq<Entry>, set<Symbol>) {
    match e
    case Nothing => (out, left)
    case Title(_) => (out + [e], left)
    case Value(s) => if s in left then (out + [e], left - {s}) else (out, left)
  }

  lemma EmitMore(order: seq<nat>, k: nat, at: nat -> Entry, flagged: set<Symbol>)
    ensures var (out, left) := Emit(order, at, flagged); Emit(order + [k], at, flagged) == EmitNext(out, left, at(k))
  {
    assert (order + [k])[..|order|] == order;
  }

  /** No symbol is written twice. */
  predicate Once(out: seq<Entry>) {
    forall i, j :: 0 <= i < j < |out| && out[i].Value? ==> out[i] != out[j]
  }

  /** Every flagged symbol that has an entry is written exactly once, and no other. */
  lemma {:induction false} WrittenOnce(order: seq<nat>, at: nat -> Entry, flagged: set<Symbol>)
    ensures var (out, left) := Emit(order, at, flagged);
      && Once(out) && (forall s :: s in left <==> s in flagged && Value(s) !in out)
      && (forall s :: Value(s) in out <==> s in flagged && exists i :: 0 <= i < |order| && at(order[i]) == Value(s))
  {
    if order != [] {
      var before := order[..|order| - 1];
      WrittenOnce(before, at, flagged);
      var last := at(order[|order| - 1]);
      assert forall i :: 0 <= i < |before| ==> before[i] == order[i];
      assert forall s :: (exists i :: 0 <= i < |order| && at(order[i]) == Value(s)) <==>
        last == Value(s) || exists i :: 0 <= i < |before| && at(before[i]) == Value(s);
    }
  }

  /** The entries emitted are entries of the menu. */
  lemma {:induction false} EmittedEntries(order: seq<nat>, at: nat -> Entry, flagged: set<Symbol>)
    ensures forall e :: e in Emit(order, at, flagged).0 ==>
      !e.Nothing? && exists i :: 0 <= i < |order| && at(order[i]) == e
  {
    if order != [] {
      var before := order[..|order| - 1];
      EmittedEntries(before, at, flagged);
      assert forall i :: 0 <= i < |before| ==> before[i] == order[i];
    }
  }

  /** Position i of the menu writes something: the prompt of a menu, or the value of a
      flagged symbol that no earlier position shows. */
  predicate WritesAt(order: seq<nat>, at: nat -> Entry, flagged: set<Symbol>, i: nat)
    requires i < |order|
  {
    match at(order[i])
    case Nothing => false
    case Title(_) => true
    case Value(s) => s in flagged && forall j :: 0 <= j < i ==> at(order[j]) != Value(s)
  }

  predicate Increasing(places: seq<nat>, n: nat) {
    && (forall i, j :: 0 <= i < j < |places| ==> places[i] < places[j])
    && (forall i :: 0 <= i < |places| ==> places[i] < n)
  }

  /** The entries of `out` come from the positions that write something. */
  ghost predicate ArePlaces(
    order: seq<nat>, at: nat -> Entry, flagged: set<Symbol>, out: seq<Entry>, places: seq<nat>)
  {
    && |places| == |out| && Increasing(places, |order|)
    && (forall j :: 0 <= j < |out| ==> out[j] == at(order[places[j]]))
    && (forall i :: 0 <= i < |order| ==> (i in places <==> WritesAt(order, at, flagged, i)))
  }

  lemma WritesBefore(order: seq<nat>, at: nat -> Entry, flagged: set<Symbol>, n: nat)
    requires n <= |order|
    ensures forall i :: 0 <= i < n ==> (WritesAt(order[..n], at, flagged, i) <==> WritesAt(order, at, flagged, i))
  {
  }

  lemma OneMorePlace(order: seq<nat>, at: nat -> Entry, flagged: set<Symbol>, out: seq<Entry>, places: seq<nat>)
    requires order != [] && ArePlaces(order[..|order| - 1], at, flagged, out, places)
    ensures var n := |order| - 1;
      if WritesAt(order, at, flagged, n) then ArePlaces(order, at, flagged, out + [at(order[n])], places + [n])
      else ArePlaces(order, at, flagged, out, places)
  {
    WritesBefore(order, at, flagged, |order| - 1);
    hide WritesAt;
  }

  /** The entries emitted are those, in the order of the menu. */
  lemma {:induction false} EmittedAre(order: seq<nat>, at: nat -> Entry, flagged: set<Symbol>)
    returns (places: seq<nat>)
    ensures ArePlaces(order, at, flagged, Emit(order, at, flagged).0, places)
  {
    hide ArePlaces;
    if order == [] {
      places := [];
      NoPlaces(at, flagged);
      return;
    }
    var n := |order| - 1;
    places := EmittedAre(order[..n], at, flagged);
    WrittenOnce(order[..n], at, flagged);
    var (out, left) := Emit(order[..n], at, flagged);
    OneMorePlace(order, at, flagged, out, places);
    var e := at(order[n]);
    LastWrites(order, at, flagged);
    if e.Title? || (e.Value? && e.sym in left) {
      places := places + [n];
    }
    hide WritesAt;
  }

  lemma NoPlaces(at: nat -> Entry, flagged: set<Symbol>)
    ensures ArePlaces([], at, flagged, [], [])
  {
  }

  lemma LastWrites(order: seq<nat>, at: nat -> Entry, flagged: set<Symbol>)
    requires order != []
    ensures var n, e := |order| - 1, at(order[|order| - 1]);
      WritesAt(order, at, flagged, n) <==>
        e.Title? || (e.Value? && e.sym in Emit(order[..n], at, flagged).1)
  {
    var n := |order| - 1;
    var before := order[..n];
    WrittenOnce(before, at, flagged);
    assert forall i :: 0 <= i < n ==> before[i] == order[i];
    hide Emit;
  }

  // ----- items -----

  /** How the file shows a symbol: its name and its value. */
  datatype Texts = Texts(name: Symbol -> string, value: Symbol -> FileValue)

  function ItemOf(t: Texts, e: Entry): Item
    requires !e.Nothing?
  {
    if e.Title? then Heading(e.prompt) else Setting(t.name(e.sym), t.value(e.sym))
  }

  function ItemsOf(t: Texts, out: seq<Entry>): (r: seq<Item>)
    requires forall e :: e in out ==> !e.Nothing?
    ensures |r| == |out| && forall i :: 0 <= i < |out| ==> r[i] == ItemOf(t, out[i])
  {
    seq(|out|, i requires 0 <= i < |out| => ItemOf(t, out[i]))
  }

  ghost predicate EntryWritable(kinds: map<string, Kind>, t: Texts, e: Entry) {
    !e.Nothing? ==> Writable(kinds, ItemOf(t, e))
  }

  lemma {:induction false} WriteFileMore(kinds: map<string, Kind>, items: seq<Item>, item: Item)
    requires AllWritable(kinds, items) && Writable(kinds, item)
    ensures AllWritable(kinds, items + [item])
    ensures WriteFile(kinds, items + [item]) == WriteFile(kinds, items) + WriteItem(kinds, item)
  {
    assert AllWritable(kinds, items + [item]);
    var all := items + [item];
    if items == [] {
      assert all[1..] == [];
      assert WriteFile(kinds, all) == WriteItem(kinds, item) + WriteFile(kinds, []);
    } else {
      assert all[1..] == items[1..] + [item];
      WriteFileMore(kinds, items[1..], item);
    }
  }

  // ----- the walk -----

  /** The file written for a menu. */
  ghost function FileItems(f: Forest, at: nat -> Entry, flagged: set<Symbol>, t: Texts): seq<Item> {
    EmittedEntries(Preorder(f), at, flagged);
    ItemsOf(t, Emit(Preorder(f), at, flagged).0)
  }

  /** What has been written after some entries. */
  ghost predicate WrittenSoFar(kinds: map<string, Kind>, t: Texts, at: nat -> Entry, flagged: set<Symbol>,
                               order: seq<nat>, text: string, left: set<Symbol>) {
    var (out, rest) := Emit(order, at, flagged);
    && (forall e :: e in out ==> !e.Nothing?)
    && left == rest && AllWritable(kinds, ItemsOf(t, out)) && text == WriteFile(kinds, ItemsOf(t, out))
  }

  method WriteEntry(kinds: map<string, Kind>, t: Texts, at: nat -> Entry, ghost flagged: set<Symbol>,
                    ghost order: seq<nat>, k: nat, text: string, left: set<Symbol>)
    returns (more: string, rest: set<Symbol>)
    requires EntryWritable(kinds, t, at(k)) && WrittenSoFar(kinds, t, at, flagged, order, text, left)
    ensures WrittenSoFar(kinds, t, at, flagged, order + [k], more, rest)
  {
    ghost var out := Emit(order, at, flagged).0;
    EmitMore(order, k, at, flagged);
    more, rest := text, left;
    var e := at(k);
    if e.Title? || (e.Value? && e.sym in left) {
      more := text + WriteItem(kinds, ItemOf(t, e));
      WriteFileMore(kinds, ItemsOf(t, out), ItemOf(t, e));
      assert ItemsOf(t, out + [e]) == ItemsOf(t, out) + [ItemOf(t, e)];
      if e.Value? {
        rest := left - {e.sym};
      }
    }
  }

  /** Walks the menu and writes the file. */
  method WriteConfig(m: Links, root: nat, ghost f: Forest, at: nat -> Entry, flagged: set<Symbol>,
                     kinds: map<string, Kind>, t: Texts) returns (text: string)
    requires Get(m.parent, root) == None && Get(m.next, root) == None
    requires Get(m.list, root) == Head(f, None) && Linked(m, f, None, Some(root))
    requires AllEntriesWritable(kinds, t, at)
    ensures AllWritable(kinds, FileItems(f, at, flagged, t))
    ensures text == WriteFile(kinds, FileItems(f, at, flagged, t))
  {
    AtStart(m, root, f);
    NothingWritten(kinds, t, at, flagged);
    hide *;
    text := [];
    var cur, left := Get(m.list, root), flagged;
    ghost var s, visited := Spot(f, root, Top), [];
    while cur.Some?
      invariant OnTheWay(m, s, cur, visited, f)
      invariant WrittenSoFar(kinds, t, at, flagged, visited, text, left)
      decreases |Remaining(s)|
    {
      var k := cur.value;
      OneEntryWritable(kinds, t, at, k);
      text, left := WriteEntry(kinds, t, at, flagged, visited, k, text, left);
      cur, s := Move(m, k, s, visited, f);
      visited := visited + [k];
    }
    AtEnd(m, s, visited, f);
    AllWritten(kinds, t, at, flagged, f, text, left);
  }

  lemma OneEntryWritable(kinds: map<string, Kind>, t: Texts, at: nat -> Entry, k: nat)
    requires AllEntriesWritable(kinds, t, at)
    ensures EntryWritable(kinds, t, at(k))
  {
  }

  lemma NothingWritten(kinds: map<string, Kind>, t: Texts, at: nat -> Entry, flagged: set<Symbol>)
    ensures WrittenSoFar(kinds, t, at, flagged, [], [], flagged)
  {
  }

  lemma AllWritten(kinds: map<string, Kind>, t: Texts, at: nat -> Entry, flagged: set<Symbol>, f: Forest,
                   text: string, left: set<Symbol>)
    requires WrittenSoFar(kinds, t, at, flagged, Preorder(f), text, left)
    ensures var items := FileItems(f, at, flagged, t); AllWritable(kinds, items) && text == WriteFile(kinds, items)
  {
  }

  // ----- there and back -----

  /** A heading of the file, behind position k, that reads like the symbol unset. */
  ghost predicate Overwritten(kinds: map<string, Kind>, items: seq<Item>, k: nat, name: string) {
    exists i :: k < i < |items| && IsUnsetLike(kinds, items[i], name)
  }

  /** The symbol written at a position comes back with its value if and only if the
      value is n or no prompt behind it reads like the symbol being unset; what is
      no number counts as not written. */
  ghost predicate ComesBack(kinds: map<string, Kind>, items: seq<Item>, k: nat, user: UserSettings)
    requires AllWritable(kinds, items) && k < |items| && items[k].Setting?
  {
    var (name, v) := (items[k].name, items[k].value);
    Recorded(ReadFile(kinds, WriteFile(kinds, items), user), name) == Some(v) <==>
      if Readable(kinds[name], v) then v == State(NO) || !Overwritten(kinds, items, k, name)
      else Recorded(user, name) == Some(v)
  }

  /** Entries of a menu with distinct names. */
  ghost predicate DistinctNames(t: Texts, at: nat -> Entry) {
    forall i, j :: at(i).Value? && at(j).Value? && t.name(at(i).sym) == t.name(at(j).sym) ==> at(i) == at(j)
  }

  ghost predicate AllEntriesWritable(kinds: map<string, Kind>, t: Texts, at: nat -> Entry) {
    forall k :: EntryWritable(kinds, t, at(k))
  }

  lemma ItemsWritable(f: Forest, at: nat -> Entry, flagged: set<Symbol>, kinds: map<string, Kind>, t: Texts)
    requires AllEntriesWritable(kinds, t, at)
    ensures AllWritable(kinds, FileItems(f, at, flagged, t))
  {
    var order := Preorder(f);
    var out := Emit(order, at, flagged).0;
    EmittedEntries(order, at, flagged);
    forall i | 0 <= i < |out| ensures Writable(kinds, ItemOf(t, out[i])) {
      assert out[i] in out;
      var j :| 0 <= j < |order| && at(order[j]) == out[i];
      assert EntryWritable(kinds, t, at(order[j]));
    }
  }

  /** A symbol that is written has one position, and nothing else sets its name. */
  lemma OnePosition(f: Forest, at: nat -> Entry, flagged: set<Symbol>, t: Texts, s: Symbol) returns (k: nat)
    requires DistinctNames(t, at) && s in flagged && exists i :: i in Preorder(f) && at(i) == Value(s)
    ensures var items := FileItems(f, at, flagged, t);
      && k < |items| && items[k] == Setting(t.name(s), t.value(s))
      && forall i :: 0 <= i < |items| && i != k ==> !IsSettingOf(items[i], t.name(s))
  {
    var order := Preorder(f);
    var out := Emit(order, at, flagged).0;
    EmittedEntries(order, at, flagged);
    WrittenOnce(order, at, flagged);
    var j :| j in order && at(j) == Value(s);
    var n :| 0 <= n < |order| && order[n] == j;
    assert Value(s) in out;
    k :| 0 <= k < |out| && out[k] == Value(s);
    forall i | 0 <= i < |out| && i != k ensures out[i].Value? ==> t.name(out[i].sym) != t.name(s) {
      assert out[i] in out;
      var l :| 0 <= l < |order| && at(order[l]) == out[i];
    }
  }

  /** Every flagged symbol that has an entry is in the file at exactly one position,
      and comes back from there as said. */
  lemma RoundTrip(f: Forest, at: nat -> Entry, flagged: set<Symbol>, kinds: map<string, Kind>, t: Texts,
                  s: Symbol, user: UserSettings) returns (k: nat)
    requires AllEntriesWritable(kinds, t, at) && DistinctNames(t, at)
    requires s in flagged && exists i :: i in Preorder(f) && at(i) == Value(s)
    ensures var items := FileItems(f, at, flagged, t);
      && AllWritable(kinds, items) && k < |items| && items[k] == Setting(t.name(s), t.value(s))
      && (forall i :: 0 <= i < |items| && i != k ==> !IsSettingOf(items[i], t.name(s)))
      && ComesBack(kinds, items, k, user)
  {
    hide FileItems, AllEntriesWritable, DistinctNames, AllWritable, ReadFile, WriteFile;
    ItemsWritable(f, at, flagged, kinds, t);
    k := OnePosition(f, at, flagged, t, s);
    RestoredIff(kinds, FileItems(f, at, flagged, t), k, user);
  }

  /** A symbol that is not written is left alone, except that a prompt that reads
      like it sets it to n. */
  lemma NotWritten(f: Forest, at: nat -> Entry, flagged: set<Symbol>, kinds: map<string, Kind>, t: Texts,
                   s: Symbol, user: UserSettings)
    requires AllEntriesWritable(kinds, t, at) && s !in flagged
    requires forall i :: at(i).Value? && t.name(at(i).sym) == t.name(s) ==> at(i) == Value(s)
    ensures var items := FileItems(f, at, flagged, t);
      && AllWritable(kinds, items)
      && Recorded(ReadFile(kinds, WriteFile(kinds, items), user), t.name(s))
        == if exists i :: 0 <= i < |items| && IsUnsetLike(kinds, items[i], t.name(s)) then Some(State(NO))
           else Recorded(user, t.name(s))
  {
    var order, items := Preorder(f), FileItems(f, at, flagged, t);
    var out := Emit(order, at, flagged).0;
    EmittedEntries(order, at, flagged);
    WrittenOnce(order, at, flagged);
    ItemsWritable(f, at, flagged, kinds, t);
    forall i | 0 <= i < |items| ensures !IsSettingOf(items[i], t.name(s)) {
      assert out[i] in out;
      var l :| 0 <= l < |order| && at(order[l]) == out[i];
      assert out[i] != Value(s);
    }
    hide FileItems, AllEntriesWritable, AllWritable, ReadFile, WriteFile, Emit;
    ReadOfWrite(kinds, items, user);
    ItemsEffect(kinds, items, t.name(s), user);
    OtherItems(kinds, items, t.name(s), Recorded(user, t.name(s)));
  }
}
