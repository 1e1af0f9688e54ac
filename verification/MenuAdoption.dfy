/** Which siblings regrouping takes over, and why they belong where they go. */
module MenuAdoption {
  import opened Options
  import opened Tristate
  import opened Expressions
  import opened Normalize
  import opened Adoption
  import opened MenuTree
  import opened MenuShape

  /** An entry: its symbol if it has one, the condition of its prompt if it has
      one, and its dependency. */
  datatype Entry = Entry(symbol: Option<Symbol>, prompt: Option<Option<Expr>>, dep: Option<Expr>)

  /** The condition under which an entry shows. */
  function Shows(e: Entry): Option<Expr> {
    if e.prompt.Some? then e.prompt.value else e.dep
  }

  function PromptCondition(e: Entry): Option<Expr> {
    if e.prompt.Some? then e.prompt.value else None
  }

  /** What shows the entry mentions the symbol of another in a conjunction. */
  predicate Requires(e: Entry, parent: Entry) {
    parent.symbol.Some? && Shows(e).Some? && DependsSymbol(Shows(e).value, parent.symbol.value)
  }

  function RulesOf(entries: nat -> Entry): Rules {
    Rules(
      (k: nat) => entries(k).symbol.Some?,
      (p: nat, k: nat) => entries(p).symbol.Some?
                && Adopts(entries(p).symbol.value, PromptCondition(entries(p)), Shows(entries(k))),
      (k: nat) => entries(k).prompt.None?)
  }

  /** Wherever an entry that was taken over shows, the symbol above it is on or
      can be set. */
  lemma AdoptedBelong(entries: nat -> Entry, p: nat, f: Forest, k: nat, env: Env)
    requires k in TopLevel(Adopt(RulesOf(entries), p, f).0)
    requires entries(p).symbol.Some? ==> IsTriType(entries(p).symbol.value)
    requires var prompt := PromptCondition(entries(p)); prompt.Some? ==> LeavesAreTri(prompt.value)
    requires var shows := Shows(entries(k)); shows.Some? ==> LeavesAreTri(shows.value)
    requires EvalOption(Shows(entries(k)), env) != NO
    requires Shows(entries(k)).Some? ==> Raised(Shows(entries(k)).value, env) == YES || Requires(entries(k), entries(p))
    ensures entries(p).symbol.Some?
    ensures TriOf(entries(p).symbol.value, env) != NO || EvalOption(PromptCondition(entries(p)), env) != NO
  {
    AdoptedPassed(RulesOf(entries), p, f);
    AdoptionSound(entries(p).symbol.value, PromptCondition(entries(p)), Shows(entries(k)), env);
  }

  /** The same for the finalised menu: an entry that has moved below another one, not
      out of an entry without a prompt, shows only where the symbol above it is on or
      can be set. */
  lemma FinalizedBelong(entries: nat -> Entry, m: Links, n: Links, ids: set<nat>, p: nat, k: nat, env: Env)
    requires Regrouped(RulesOf(entries), m, n, ids) && k in ids && Get(n.parent, k) == Some(p)
    requires Get(m.parent, k) != Some(p) && NotThrough(RulesOf(entries), m, k)
    requires entries(p).symbol.Some? ==> IsTriType(entries(p).symbol.value)
    requires var prompt := PromptCondition(entries(p)); prompt.Some? ==> LeavesAreTri(prompt.value)
    requires var shows := Shows(entries(k)); shows.Some? ==> LeavesAreTri(shows.value)
    requires EvalOption(Shows(entries(k)), env) != NO
    requires Shows(entries(k)).Some? ==> Raised(Shows(entries(k)).value, env) == YES || Requires(entries(k), entries(p))
    ensures entries(p).symbol.Some?
    ensures TriOf(entries(p).symbol.value, env) != NO || EvalOption(PromptCondition(entries(p)), env) != NO
  {
    var rules := RulesOf(entries);
    var c :| Chain(rules, m, c) && c[0] == p && c[|c| - 1] == k;
    assert StepDown(rules, m, c[|c| - 2], c[|c| - 1]);
    assert |c| == 2;
    AdoptionSound(entries(p).symbol.value, PromptCondition(entries(p)), Shows(entries(k)), env);
  }

  /** No entry without a prompt stood above k or took it over. */
  ghost predicate NotThrough(rules: Rules, m: Links, k: nat) {
    forall b :: rules.bare(b) ==> !StepDown(rules, m, b, k)
  }
}
