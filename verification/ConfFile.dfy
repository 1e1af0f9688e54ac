/** Whole configuration files, written and read again line by line. */
module ConfFile {
  import opened Options
  import opened Tristate
  import opened ConfText

  // ----- pieces of text -----

  predicate Lacks(s: string, c: char) {
    forall i :: 0 <= i < |s| ==> s[i] != c
  }

  /** What comes before and after the first `c`. */
  function Cut(s: string, c: char): Option<(string, string)> {
    if s == [] then None
    else if s[0] == c then Some(([], s[1..]))
    else
      var r := Cut(s[1..], c);
      if r.None? then None else Some(([s[0]] + r.value.0, r.value.1))
  }

  lemma {:induction false} CutAt(a: string, c: char, b: string)
    requires Lacks(a, c)
    ensures Cut(a + [c] + b, c) == Some((a, b))
  {
    var s := a + [c] + b;
    if a == [] {
      assert s[1..] == b;
    } else {
      CutAt(a[1..], c, b);
      assert s[1..] == a[1..] + [c] + b;
      assert a == [a[0]] + a[1..];
    }
  }

  function UpTo(s: string, c: char): string {
    var r := Cut(s, c);
    if r.Some? then r.value.0 else s
  }

  /** What follows a prefix. */
  function Strip(prefix: string, s: string): Option<string> {
    if prefix <= s then Some(s[|prefix|..]) else None
  }

  lemma StripOf(prefix: string, s: string)
    ensures Strip(prefix, prefix + s) == Some(s)
  {
  }

  // ----- numbers -----

  predicate IsDigit(c: char) {
    '0' <= c <= '9'
  }

  predicate IsHexDigit(c: char) {
    IsDigit(c) || 'a' <= c <= 'f' || 'A' <= c <= 'F'
  }

  /** Digits without a leading zero. */
  predicate AllDigits(t: string) {
    t != [] && IsDigit(t[0]) && (t[0] == '0' ==> |t| == 1) && forall i :: 0 <= i < |t| ==> IsDigit(t[i])
  }

  predicate ValidInt(s: string) {
    AllDigits(if s != [] && s[0] == '-' then s[1..] else s)
  }

  function DigitOf(d: nat): (c: char)
    requires d < 10
    ensures IsDigit(c) && (c == '0' <==> d == 0)
  {
    ('0' as int + d) as char
  }

  function Worth(c: char): (d: nat)
    requires IsDigit(c)
    ensures d < 10 && DigitOf(d) == c
  {
    c as int - '0' as int
  }

  /** The digits of a number. */
  function Decimal(n: nat): string {
    if n < 10 then [DigitOf(n)] else Decimal(n / 10) + [DigitOf(n % 10)]
  }

  lemma {:induction false} DecimalDigits(n: nat)
    ensures AllDigits(Decimal(n)) && (n > 0 ==> Decimal(n)[0] != '0')
    decreases n
  {
    hide DigitOf;
    if n >= 10 {
      DecimalDigits(n / 10);
    }
  }

  lemma DecimalMore(k: nat, d: nat)
    requires k > 0 && d < 10
    ensures Decimal(10 * k + d) == Decimal(k) + [DigitOf(d)]
  {
    var n := 10 * k + d;
    assert n >= 10 && n / 10 == k && n % 10 == d;
    hide DigitOf;
  }

  lemma DigitsFront(t: string)
    requires AllDigits(t) && |t| > 1
    ensures var front := t[..|t| - 1]; AllDigits(front) && front[0] == t[0] && t[0] != '0'
    ensures IsDigit(t[|t| - 1])
  {
    hide IsDigit;
  }

  /** Digits spell a number. */
  lemma {:induction false} DigitsSpell(t: string) returns (n: nat)
    requires AllDigits(t)
    ensures Decimal(n) == t && (t[0] != '0' ==> n > 0)
    decreases |t|
  {
    if |t| == 1 {
      n := Worth(t[0]);
    } else {
      DigitsFront(t);
      hide DigitOf, Worth, IsDigit, AllDigits, Decimal;
      var k := DigitsSpell(t[..|t| - 1]);
      var d := Worth(t[|t| - 1]);
      DecimalMore(k, d);
      n := 10 * k + d;
    }
  }

  /** The texts that pass are the decimal numbers, with or without a minus sign. */
  lemma ValidIntIff(s: string)
    ensures ValidInt(s) <==> exists n: nat :: s == Decimal(n) || s == ['-'] + Decimal(n)
  {
    if ValidInt(s) {
      var t := if s != [] && s[0] == '-' then s[1..] else s;
      var n := DigitsSpell(t);
      assert s == Decimal(n) || s == ['-'] + Decimal(n);
    }
    forall n: nat | s == Decimal(n) || s == ['-'] + Decimal(n) ensures ValidInt(s) {
      DecimalDigits(n);
      assert (['-'] + Decimal(n))[1..] == Decimal(n);
    }
  }

  predicate AllHexDigits(t: string) {
    t != [] && forall i :: 0 <= i < |t| ==> IsHexDigit(t[i])
  }

  predicate ValidHex(s: string) {
    AllHexDigits(if |s| >= 2 && s[0] == '0' && (s[1] == 'x' || s[1] == 'X') then s[2..] else s)
  }

  /** The texts that pass are hexadecimal digits, with or without 0x in front. */
  lemma ValidHexIff(s: string)
    ensures ValidHex(s) <==>
      AllHexDigits(s) || exists t :: AllHexDigits(t) && (s == ['0', 'x'] + t || s == ['0', 'X'] + t)
  {
    if |s| >= 2 && s[0] == '0' && (s[1] == 'x' || s[1] == 'X') {
      assert !IsHexDigit(s[1]) && !AllHexDigits(s);
      var t := s[2..];
      assert s == ['0', 'x'] + t || s == ['0', 'X'] + t;
    }
    forall t | AllHexDigits(t) && (s == ['0', 'x'] + t || s == ['0', 'X'] + t) ensures ValidHex(s) {
      assert s[2..] == t;
    }
  }

  predicate ValidText(kind: Kind, s: string) {
    match kind
    case Int => ValidInt(s)
    case Hex => ValidHex(s)
    case _ => true
  }

  // ----- lines -----

  const Prefix: string := "CONFIG_"
  const Unset: string := " is not set"

  /** The line for a symbol, without its end. */
  function Render(kind: Kind, name: string, v: FileValue): string {
    match v
    case State(t) =>
      if t == NO then "# " + (Prefix + (name + Unset))
      else Prefix + (name + ['='] + (if t == MOD then "m" else "y"))
    case Written(text) =>
      Prefix + (name + ['='] + (if kind.Text? then ['"'] + (Escape(text) + ['"']) else text))
  }

  /** The effect of a comment line. */
  function ReadComment(kinds: map<string, Kind>, line: string, user: UserSettings): UserSettings
    requires |line| >= 2
  {
    var r := Strip(Prefix, line[2..]);
    if r.None? then user
    else
      var cut := Cut(r.value, ' ');
      if cut.Some? && Unset[1..] <= cut.value.1 then SetNo(kinds, cut.value.0, user) else user
  }

  function SetNo(kinds: map<string, Kind>, name: string, user: UserSettings): UserSettings {
    if name in kinds && (kinds[name].Boolean? || kinds[name].ThreeState?) then user[name := State(NO)]
    else user
  }

  /** What a value after the equals sign means for a symbol. */
  function ReadValue(kind: Kind, v: string): Option<FileValue> {
    match kind
    case ThreeState => if v != [] && v[0] == 'm' then Some(State(MOD)) else ReadBoolean(v)
    case Boolean => ReadBoolean(v)
    case Text =>
      if v == [] || v[0] != '"' then None
      else
        var s := Unescape(v[1..]);
        if s.Some? then Some(Written(s.value)) else None
    case _ => if ValidText(kind, v) then Some(Written(v)) else None
  }

  function ReadBoolean(v: string): Option<FileValue> {
    if v != [] && v[0] == 'y' then Some(State(YES))
    else if v != [] && v[0] == 'n' then Some(State(NO))
    else None
  }

  function ReadAssignment(kinds: map<string, Kind>, line: string, user: UserSettings): UserSettings {
    var r := Strip(Prefix, line);
    if r.None? then user
    else
      var cut := Cut(r.value, '=');
      if cut.None? || cut.value.0 !in kinds then user
      else
        var v := ReadValue(kinds[cut.value.0], UpTo(cut.value.1, '\n'));
        if v.Some? then user[cut.value.0 := v.value] else user
  }

  function ReadLine(kinds: map<string, Kind>, line: string, user: UserSettings): UserSettings {
    if line == [] then user
    else if line[0] == '#' then if |line| >= 2 then ReadComment(kinds, line, user) else user
    else if line[0] == 'C' then ReadAssignment(kinds, line, user)
    else user
  }

  // ----- one line there and back -----

  /** Names are made of letters, digits and underscores. */
  predicate GoodName(name: string) {
    Lacks(name, ' ') && Lacks(name, '=') && Lacks(name, '\n')
  }

  /** A value that a symbol of this kind can have and that is on one line. */
  predicate Suits(kind: Kind, v: FileValue) {
    match kind
    case Boolean => v.State? && v.tri != MOD
    case ThreeState => v.State?
    case _ => v.Written? && Lacks(v.text, '\n')
  }

  lemma ReadUnset(kinds: map<string, Kind>, name: string, user: UserSettings)
    requires GoodName(name) && name in kinds && (kinds[name].Boolean? || kinds[name].ThreeState?)
    ensures ReadLine(kinds, "# " + (Prefix + (name + Unset)) + "\n", user) == user[name := State(NO)]
  {
    var body := name + Unset + "\n";
    var line := "# " + (Prefix + (name + Unset)) + "\n";
    assert line == "# " + (Prefix + body);
    assert line[2..] == Prefix + body && line[0] == '#';
    StripOf(Prefix, body);
    var after := Unset[1..] + "\n";
    assert Unset == [' '] + Unset[1..];
    assert body == name + [' '] + after;
    CutAt(name, ' ', after);
    hide Cut, Strip;
    assert Unset[1..] <= after;
  }

  /** An assignment sets exactly what its value means. */
  lemma ReadAssigned(kinds: map<string, Kind>, name: string, text: string, user: UserSettings)
    requires GoodName(name) && name in kinds && Lacks(text, '\n')
    ensures var v := ReadValue(kinds[name], text);
      ReadLine(kinds, Prefix + (name + ['='] + text) + "\n", user)
        == if v.Some? then user[name := v.value] else user
  {
    var line := Prefix + (name + ['='] + text) + "\n";
    var after := text + "\n";
    assert line == Prefix + (name + ['='] + after);
    StripOf(Prefix, name + ['='] + after);
    CutAt(name, '=', after);
    assert after == text + ['\n'] + [];
    CutAt(text, '\n', []);
    assert line[0] == 'C';
    hide Cut, Strip, ReadValue;
  }

  /** A number that is no number, like the empty one, is not read back. */
  predicate Readable(kind: Kind, v: FileValue) {
    v.Written? ==> ValidText(kind, v.text)
  }

  /** A written line restores the value, whatever the string holds. */
  lemma ReadRendered(kinds: map<string, Kind>, name: string, v: FileValue, user: UserSettings)
    requires GoodName(name) && name in kinds && Suits(kinds[name], v)
    ensures ReadLine(kinds, Render(kinds[name], name, v) + "\n", user)
         == if Readable(kinds[name], v) then user[name := v] else user
  {
    var kind := kinds[name];
    if v == State(NO) {
      ReadUnset(kinds, name, user);
    } else if v.State? {
      ReadAssigned(kinds, name, if v.tri == MOD then "m" else "y", user);
    } else if kind.Text? {
      var text := ['"'] + (Escape(v.text) + ['"']);
      EscapeLacks(v.text);
      UnescapeOfEscape(v.text, []);
      assert text[1..] == Escape(v.text) + ['"'] + [];
      ReadAssigned(kinds, name, text, user);
    } else {
      ReadAssigned(kinds, name, v.text, user);
    }
  }

  lemma {:induction false} EscapeLacks(s: string)
    requires Lacks(s, '\n')
    ensures Lacks(Escape(s), '\n')
  {
    if s != [] {
      assert forall i :: 0 <= i < |s| - 1 ==> s[1..][i] == s[i + 1];
      EscapeLacks(s[1..]);
    }
  }

  // ----- files -----

  /** The reader's buffer holds this many characters of a line. */
  const Limit: nat := 1023

  /** How many characters the next read takes: a line, or as much of it as fits. */
  function LineEnd(text: string, limit: nat): (n: nat)
    ensures n <= |text| && n <= limit && (text != [] && limit > 0 ==> n > 0)
    decreases limit
  {
    if text == [] || limit == 0 then 0
    else if text[0] == '\n' then 1
    else 1 + LineEnd(text[1..], limit - 1)
  }

  lemma {:induction false} LineEndAt(body: string, rest: string, limit: nat)
    requires Lacks(body, '\n') && |body| < limit
    ensures LineEnd(body + "\n" + rest, limit) == |body| + 1
    decreases limit
  {
    var text := body + "\n" + rest;
    if body != [] {
      LineEndAt(body[1..], rest, limit - 1);
      assert text[1..] == body[1..] + "\n" + rest;
    }
  }

  function ReadFile(kinds: map<string, Kind>, text: string, user: UserSettings): UserSettings
    decreases |text|
  {
    if text == [] then user
    else
      var n := LineEnd(text, Limit);
      ReadFile(kinds, text[n..], ReadLine(kinds, text[..n], user))
  }

  lemma ReadFirstLine(kinds: map<string, Kind>, body: string, rest: string, user: UserSettings)
    requires Lacks(body, '\n') && |body| < Limit
    ensures ReadFile(kinds, body + "\n" + rest, user) == ReadFile(kinds, rest, ReadLine(kinds, body + "\n", user))
  {
    LineEndAt(body, rest, Limit);
    var text := body + "\n" + rest;
    var n := |body| + 1;
    assert text[..n] == body + "\n" && text[n..] == rest;
    hide ReadLine, LineEnd;
  }

  /** The writer's items: a symbol's value, or the prompt of a menu as a comment. */
  datatype Item = Setting(name: string, value: FileValue) | Heading(prompt: string)

  function WriteItem(kinds: map<string, Kind>, item: Item): string
    requires item.Setting? ==> item.name in kinds
  {
    match item
    case Setting(name, v) => Render(kinds[name], name, v) + "\n"
    case Heading(prompt) => "" + "\n" + ("#" + "\n" + ("# " + prompt + "\n" + ("#" + "\n")))
  }

  /** What reading an item back does. */
  function ReadItem(kinds: map<string, Kind>, item: Item, user: UserSettings): UserSettings
    requires item.Setting? ==> item.name in kinds
  {
    match item
    case Setting(name, v) => if Readable(kinds[name], v) then user[name := v] else user
    case Heading(prompt) => ReadComment(kinds, "# " + prompt + "\n", user)
  }

  /** Names and values as the configuration has them, on lines that fit. */
  predicate Writable(kinds: map<string, Kind>, item: Item) {
    match item
    case Setting(name, v) =>
      && name in kinds && GoodName(name) && Suits(kinds[name], v)
      && |Render(kinds[name], name, v)| < Limit
    case Heading(prompt) => Lacks(prompt, '\n') && |prompt| + 2 < Limit
  }

  lemma RenderLacks(kinds: map<string, Kind>, name: string, v: FileValue)
    requires Writable(kinds, Setting(name, v))
    ensures Lacks(Render(kinds[name], name, v), '\n')
  {
    if v.Written? {
      EscapeLacks(v.text);
    }
  }

  lemma ReadSetting(kinds: map<string, Kind>, name: string, v: FileValue, rest: string, user: UserSettings)
    requires Writable(kinds, Setting(name, v))
    ensures ReadFile(kinds, WriteItem(kinds, Setting(name, v)) + rest, user)
         == ReadFile(kinds, rest, ReadItem(kinds, Setting(name, v), user))
  {
    RenderLacks(kinds, name, v);
    ReadFirstLine(kinds, Render(kinds[name], name, v), rest, user);
    ReadRendered(kinds, name, v, user);
  }

  /** A line and what follows it. */
  function Line(body: string, rest: string): string {
    body + "\n" + rest
  }

  lemma ReadOneLine(kinds: map<string, Kind>, body: string, rest: string, user: UserSettings)
    requires Lacks(body, '\n') && |body| < Limit
    ensures ReadFile(kinds, Line(body, rest), user) == ReadFile(kinds, rest, ReadLine(kinds, body + "\n", user))
  {
    ReadFirstLine(kinds, body, rest, user);
    hide ReadFile, ReadLine;
  }

  lemma HeadingLines(kinds: map<string, Kind>, prompt: string, rest: string)
    ensures WriteItem(kinds, Heading(prompt)) + rest == Line("", Line("#", Line("# " + prompt, Line("#", rest))))
  {
    var title := "# " + prompt + "\n";
    var tail := "#" + "\n";
    assert WriteItem(kinds, Heading(prompt)) == "" + "\n" + ("#" + "\n" + (title + tail));
    Associate("" + "\n", "#" + "\n" + (title + tail), rest);
    Associate("#" + "\n", title + tail, rest);
    Associate(title, tail, rest);
    hide WriteItem;
  }

  lemma Associate(a: string, b: string, c: string)
    ensures a + b + c == a + (b + c)
  {
  }

  lemma ReadHeading(kinds: map<string, Kind>, prompt: string, rest: string, user: UserSettings)
    requires Writable(kinds, Heading(prompt))
    ensures ReadFile(kinds, WriteItem(kinds, Heading(prompt)) + rest, user)
         == ReadFile(kinds, rest, ReadItem(kinds, Heading(prompt), user))
  {
    var after := ReadItem(kinds, Heading(prompt), user);
    HeadingLines(kinds, prompt, rest);
    BareLines(kinds, user);
    BareLines(kinds, after);
    TitleLine(kinds, prompt, user);
    hide ReadFile, ReadLine, ReadItem, WriteItem, Line;
    ReadOneLine(kinds, "", Line("#", Line("# " + prompt, Line("#", rest))), user);
    ReadOneLine(kinds, "#", Line("# " + prompt, Line("#", rest)), user);
    ReadOneLine(kinds, "# " + prompt, Line("#", rest), user);
    ReadOneLine(kinds, "#", rest, after);
  }

  lemma BareLines(kinds: map<string, Kind>, user: UserSettings)
    ensures ReadLine(kinds, "" + "\n", user) == user && ReadLine(kinds, "#" + "\n", user) == user
  {
  }

  lemma TitleLine(kinds: map<string, Kind>, prompt: string, user: UserSettings)
    ensures ReadLine(kinds, "# " + prompt + "\n", user) == ReadItem(kinds, Heading(prompt), user)
  {
    assert ("# " + prompt + "\n")[0] == '#';
  }

  predicate AllWritable(kinds: map<string, Kind>, items: seq<Item>) {
    forall i :: 0 <= i < |items| ==> Writable(kinds, items[i])
  }

  function WriteFile(kinds: map<string, Kind>, items: seq<Item>): string
    requires AllWritable(kinds, items)
  {
    if items == [] then [] else WriteItem(kinds, items[0]) + WriteFile(kinds, items[1..])
  }

  function ReadItems(kinds: map<string, Kind>, items: seq<Item>, user: UserSettings): UserSettings
    requires AllWritable(kinds, items)
    decreases |items|
  {
    if items == [] then user else ReadItems(kinds, items[1..], ReadItem(kinds, items[0], user))
  }

  /** Reading a written file is reading its items in order. */
  lemma {:induction false} ReadOfWrite(kinds: map<string, Kind>, items: seq<Item>, user: UserSettings)
    requires AllWritable(kinds, items)
    ensures ReadFile(kinds, WriteFile(kinds, items), user) == ReadItems(kinds, items, user)
    decreases |items|
  {
    hide ReadFile, WriteItem, ReadItem;
    if items == [] {
      ReadNothing(kinds, user);
    } else {
      var rest := WriteFile(kinds, items[1..]);
      match items[0] {
        case Setting(name, v) => ReadSetting(kinds, name, v, rest, user);
        case Heading(prompt) => ReadHeading(kinds, prompt, rest, user);
      }
      ReadOfWrite(kinds, items[1..], ReadItem(kinds, items[0], user));
    }
  }

  lemma ReadNothing(kinds: map<string, Kind>, user: UserSettings)
    ensures ReadFile(kinds, [], user) == user
  {
  }

  // ----- what comes back -----

  /** The comment of a heading reads like an unset symbol. */
  predicate LooksUnset(kinds: map<string, Kind>, prompt: string, name: string) {
    && name in kinds && (kinds[name].Boolean? || kinds[name].ThreeState?)
    && Lacks(name, ' ') && Prefix + (name + Unset) <= prompt + "\n"
  }

  /** What a map says of a name. */
  function Recorded(user: UserSettings, name: string): Option<FileValue> {
    if name in user then Some(user[name]) else None
  }

  /** What reading an item makes of the value recorded for a name. */
  function Effect(kinds: map<string, Kind>, item: Item, name: string, was: Option<FileValue>): Option<FileValue>
    requires item.Setting? ==> item.name in kinds
  {
    match item
    case Setting(n, v) => if n == name && Readable(kinds[n], v) then Some(v) else was
    case Heading(prompt) => if LooksUnset(kinds, prompt, name) then Some(State(NO)) else was
  }

  function Effects(kinds: map<string, Kind>, items: seq<Item>, name: string, was: Option<FileValue>): Option<FileValue>
    requires AllWritable(kinds, items)
    decreases |items|
  {
    if items == [] then was else Effects(kinds, items[1..], name, Effect(kinds, items[0], name, was))
  }

  lemma {:induction false} CutGives(s: string, c: char)
    requires Cut(s, c).Some?
    ensures var (a, b) := Cut(s, c).value; Lacks(a, c) && s == a + [c] + b
  {
    if s[0] != c {
      CutGives(s[1..], c);
    }
  }

  lemma PromptShape(line: string, name: string, after: string)
    requires Strip(Prefix, line) == Some(name + [' '] + after) && Unset[1..] <= after
    ensures Prefix + (name + Unset) <= line
  {
    hide Prefix;
    assert line == Prefix + (name + [' '] + after);
    assert Unset == [' '] + Unset[1..];
    hide Unset;
    assert after == Unset[1..] + after[|Unset| - 1..];
    assert line == Prefix + (name + ([' '] + Unset[1..])) + after[|Unset| - 1..];
  }

  /** A heading does not change a symbol it does not look like... */
  lemma HeadingTouches(kinds: map<string, Kind>, prompt: string, name: string, user: UserSettings)
    requires !LooksUnset(kinds, prompt, name)
    ensures Recorded(ReadItem(kinds, Heading(prompt), user), name) == Recorded(user, name)
  {
    var line := "# " + prompt + "\n";
    assert line[2..] == prompt + "\n";
    var r := Strip(Prefix, line[2..]);
    if r.Some? && Cut(r.value, ' ').Some? {
      CutGives(r.value, ' ');
      var (n, after) := Cut(r.value, ' ').value;
      hide Cut, Strip;
      if n == name && Unset[1..] <= after {
        PromptShape(line[2..], name, after);
      }
    }
  }

  /** ...and sets one it does look like to n. */
  lemma HeadingOverwrites(kinds: map<string, Kind>, prompt: string, name: string, user: UserSettings)
    requires LooksUnset(kinds, prompt, name)
    ensures ReadItem(kinds, Heading(prompt), user) == user[name := State(NO)]
  {
    var line := "# " + prompt + "\n";
    assert line[2..] == prompt + "\n";
    var t := line[2..][|Prefix + (name + Unset)|..];
    var after := Unset[1..] + t;
    assert Unset == [' '] + Unset[1..];
    assert line[2..] == Prefix + (name + [' '] + after);
    StripOf(Prefix, name + [' '] + after);
    CutAt(name, ' ', after);
    hide Cut, Strip;
    assert Unset[1..] <= after;
  }

  lemma ItemEffect(kinds: map<string, Kind>, item: Item, name: string, user: UserSettings)
    requires Writable(kinds, item)
    ensures Recorded(ReadItem(kinds, item, user), name) == Effect(kinds, item, name, Recorded(user, name))
  {
    if item.Heading? {
      if LooksUnset(kinds, item.prompt, name) {
        HeadingOverwrites(kinds, item.prompt, name, user);
      } else {
        HeadingTouches(kinds, item.prompt, name, user);
      }
      hide ReadItem, LooksUnset;
    }
  }

  lemma {:induction false} ItemsEffect(kinds: map<string, Kind>, items: seq<Item>, name: string, user: UserSettings)
    requires AllWritable(kinds, items)
    ensures Recorded(ReadItems(kinds, items, user), name) == Effects(kinds, items, name, Recorded(user, name))
    decreases |items|
  {
    hide ReadItem, Effect, Recorded;
    if items != [] {
      ItemEffect(kinds, items[0], name, user);
      ItemsEffect(kinds, items[1..], name, ReadItem(kinds, items[0], user));
    }
  }

  predicate IsSettingOf(item: Item, name: string) {
    item.Setting? && item.name == name
  }

  predicate IsUnsetLike(kinds: map<string, Kind>, item: Item, name: string) {
    item.Heading? && LooksUnset(kinds, item.prompt, name)
  }

  /** Items that do not set a name leave it alone unless a heading looks like it. */
  lemma {:induction false} OtherItems(kinds: map<string, Kind>, items: seq<Item>, name: string, was: Option<FileValue>)
    requires AllWritable(kinds, items)
    requires forall i :: 0 <= i < |items| ==> !IsSettingOf(items[i], name)
    ensures Effects(kinds, items, name, was)
         == if exists i :: 0 <= i < |items| && IsUnsetLike(kinds, items[i], name) then Some(State(NO)) else was
    decreases |items|
  {
    hide LooksUnset;
    if items != [] {
      var tail := items[1..];
      assert !IsSettingOf(items[0], name);
      OtherItems(kinds, tail, name, Effect(kinds, items[0], name, was));
      assert forall i :: 0 <= i < |tail| ==> tail[i] == items[i + 1];
      if i :| 0 <= i < |items| && IsUnsetLike(kinds, items[i], name) {
        assert i > 0 ==> IsUnsetLike(kinds, tail[i - 1], name);
      }
    }
  }

  lemma {:induction false} EffectsInTwo(
    kinds: map<string, Kind>, items: seq<Item>, k: nat, name: string, was: Option<FileValue>)
    requires AllWritable(kinds, items) && k <= |items|
    ensures Effects(kinds, items, name, was)
         == Effects(kinds, items[k..], name, Effects(kinds, items[..k], name, was))
    decreases k
  {
    hide Effect;
    if k == 0 {
      assert items[0..] == items;
    } else {
      EffectsInTwo(kinds, items[1..], k - 1, name, Effect(kinds, items[0], name, was));
      assert items[..k][1..] == items[1..][..k - 1] && items[1..][k - 1..] == items[k..];
    }
  }

  /** Only numbers can be unreadable, and no heading looks like a number. */
  lemma UnreadableIsNumber(kinds: map<string, Kind>, name: string, v: FileValue, item: Item)
    requires name in kinds && Suits(kinds[name], v) && !Readable(kinds[name], v)
    ensures !IsUnsetLike(kinds, item, name)
  {
  }

  /** A symbol that is written once comes back with its value if and only if the
      value is n or no later menu prompt reads like the symbol being unset; a text
      that is no number counts as not written. */
  lemma RestoredIff(kinds: map<string, Kind>, items: seq<Item>, k: nat, user: UserSettings)
    requires AllWritable(kinds, items) && k < |items| && items[k].Setting?
    requires forall i :: 0 <= i < |items| && i != k ==> !IsSettingOf(items[i], items[k].name)
    ensures
      var (name, v) := (items[k].name, items[k].value);
      Recorded(ReadFile(kinds, WriteFile(kinds, items), user), name) == Some(v) <==>
        if Readable(kinds[name], v) then
          v == State(NO) || forall i :: k < i < |items| ==> !IsUnsetLike(kinds, items[i], name)
        else Recorded(user, name) == Some(v)
  {
    var was := Recorded(user, items[k].name);
    var (name, v) := (items[k].name, items[k].value);
    ReadOfWrite(kinds, items, user);
    ItemsEffect(kinds, items, name, user);
    hide ReadFile, WriteFile, ReadItems, LooksUnset;
    var front, tail := items[..k], items[k + 1..];
    EffectsInTwo(kinds, items, k, name, was);
    assert items[k..][0] == items[k] && items[k..][1..] == tail;
    var before := Effects(kinds, front, name, was);
    var after := Effect(kinds, items[k], name, before);
    assert Effects(kinds, items, name, was) == Effects(kinds, tail, name, after);
    assert forall i :: 0 <= i < |tail| ==> tail[i] == items[i + k + 1];
    OtherItems(kinds, front, name, was);
    OtherItems(kinds, tail, name, after);
    if Readable(kinds[name], v) {
      RestoredTail(kinds, items, k, name);
    } else {
      forall i | 0 <= i < |items| ensures !IsUnsetLike(kinds, items[i], name) {
        UnreadableIsNumber(kinds, name, v, items[i]);
      }
    }
  }

  lemma RestoredTail(kinds: map<string, Kind>, items: seq<Item>, k: nat, name: string)
    requires k < |items|
    ensures var tail := items[k + 1..];
      (exists i :: 0 <= i < |tail| && IsUnsetLike(kinds, tail[i], name)) <==>
      (exists i :: k < i < |items| && IsUnsetLike(kinds, items[i], name))
  {
    hide IsUnsetLike;
    var tail := items[k + 1..];
    if i :| k < i < |items| && IsUnsetLike(kinds, items[i], name) {
      assert tail[i - k - 1] == items[i];
    }
  }

  /** A heading that looks like a symbol loses the value written before it. */
  lemma HeadingLoses(kinds: map<string, Kind>, name: string, v: FileValue, prompt: string)
    requires Writable(kinds, Setting(name, v)) && Writable(kinds, Heading(prompt))
    requires LooksUnset(kinds, prompt, name)
    ensures var items := [Setting(name, v), Heading(prompt)];
      Recorded(ReadFile(kinds, WriteFile(kinds, items), map[]), name) == Some(State(NO))
  {
    var items := [Setting(name, v), Heading(prompt)];
    hide LooksUnset, ReadFile, WriteFile, ReadItems;
    ReadOfWrite(kinds, items, map[]);
    ItemsEffect(kinds, items, name, map[]);
    var one := Effect(kinds, items[0], name, None);
    assert items[1..] == [Heading(prompt)];
    assert Effects(kinds, [Heading(prompt)], name, one) == Some(State(NO)) by {
      assert [Heading(prompt)][1..] == [];
    }
  }

  lemma FooExample()
    ensures var kinds := map["FOO" := Boolean];
      && Writable(kinds, Setting("FOO", State(YES)))
      && LooksUnset(kinds, "CONFIG_FOO is not set", "FOO")
  {
    assert Prefix + ("FOO" + Unset) == "CONFIG_FOO is not set";
    assert |Render(Boolean, "FOO", State(YES))| == 12;
  }

  /** FOO is y, the menu behind it is called "CONFIG_FOO is not set", and FOO comes
      back as n. */
  lemma PromptOverwrites()
    ensures
      var kinds := map["FOO" := Boolean];
      var items := [Setting("FOO", State(YES)), Heading("CONFIG_FOO is not set")];
      && AllWritable(kinds, items)
      && Recorded(ReadFile(kinds, WriteFile(kinds, items), map[]), "FOO") == Some(State(NO))
  {
    var kinds := map["FOO" := Boolean];
    assert Writable(kinds, Heading("CONFIG_FOO is not set"));
    FooExample();
    hide Writable, LooksUnset, ReadFile, WriteFile, Recorded;
    HeadingLoses(kinds, "FOO", State(YES), "CONFIG_FOO is not set");
  }
}
