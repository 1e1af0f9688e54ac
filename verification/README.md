# OpenWrt: Kconfig engine, EAD cryptography and Broadcom driver core, modelled in Dafny

The project models three parts of the OpenWrt tree and proves what they promise.

**The Kconfig engine** (`openwrt/scripts/config`). Dependency expressions have three values, n < m < y.
`Tristate` and `Expressions` give the meaning. `Equality`, `Normalize`, `Joins`, `Spine` and `Dups` are the
rewriting optimiser, including its mutual recursion and its in-place passes over shared trees, and what each
rewrite keeps of the meaning; `DupsExact` says when duplicate elimination keeps all of it, `DupsExamples`
shows when not, and `DupsComplete` says what it leaves nothing of. `Symbols` defines symbol values
recursively, `SymbolMeaning` reads them off the properties, and `SymbolTable` is the memoising evaluator
measured against them; `Choices` and `ChoiceTable` add choices; `DepCheck` is the search for recursive
dependencies and `DepSoundness` what it guarantees to the evaluator. `MenuTree` and `MenuFinalize` are the
regrouping of menu entries, on trees and on the pointers, `MenuShape` says which entries end up below which;
`Adoption` and `MenuAdoption` say why an entry belongs where it goes, and `MenuConditions` what conditions
entries get. `ConfWalk`, `ConfText`, `ConfFile`, `ConfWrite` and `ConfSymbols` write and read the
configuration file; `ConfReload` calculates what was read.

**AES and the messages of the emergency access daemon** (`openwrt/package/ead/src`). `AesTables`, `AesField`,
`AesSpec` and `Aes` prove the table-driven AES-128 against FIPS 197, and `AesExample` is its published
example. `EadMessages`, `EadStream` and `Ead` are padding, hash, initialization vectors, in-place encryption,
and streams with losses.

**The Broadcom driver** (`openwrt/package/broadcom-57xx/src`). `RingQueue` is the ring buffer,
`QueueInterleaving` its lock-free use by two sides, `RxPools` and `RxDriver` the circulation of receive
descriptors, `Autoneg`, `AutonegPoll`, `AutonegWire` and `AutonegExample` the 1000BASE-X auto-negotiation of
section 37.3.1.5 of IEEE 802.3z.

`dafny verify dfyconfig.toml` checks everything.

Where code and documentation disagree the code is followed, and the difference is a lemma:

- the search for recursive dependencies does not follow deselect edges or range bounds (`DepSoundness.SearchMissesDeselect`);
- the second duplicate pass is not exact on m (`DupsExamples.SecondPassMovesMod`);
- the consistency check of auto-negotiation cannot fail (`Autoneg.AckCheckIsVacuous`);
- the entry counter of the ring can be seen below zero (`QueueInterleaving.CounterGoesNegative`);
- the receive window closes for good near the end of the 32-bit range (`EadMessages.AcceptsIvIff`);
- a comment in `ead_set_key` speaks of a 32-byte AES key; the key schedule uses 16 bytes (`Ead.Endpoint.SetKey`);
- the adoption test is wrong at m for a dependency on negated tristates (`Adoption.AdoptionFails`);
- a choice default may name a symbol outside the choice and leave all members at n (`Choices.DefaultOutside`);
- the partner recorded need not be the partner matched (`AutonegExample.PartnerMayDiffer`);
- a menu prompt can read like an unset symbol and overwrite it (`ConfFile.PromptOverwrites`).

## Model

| member | source | states |
|---|---|---|
| `Equality.EliminateYnKeepsValue` | openwrt/scripts/config/expr.c:235-316 | removing y and n operands keeps the exact three-valued value under every valuation |
| `Equality.EliminateOperandsFactors` | openwrt/scripts/config/expr.c:135-166 | one pass of common-operand removal: both inputs are one common part combined with what is left of them, for every valuation, through the three-way mutual recursion with equality |
| `Equality.SingleOperandSettled` | openwrt/scripts/config/expr.c:135-166 | against a single operand the pass changes nothing or reduces that operand to the neutral constant, which is why the two phases of elimination do not interfere |
| `Equality.EliminateEqFactors` | openwrt/scripts/config/expr.c:168-191 | for one connective and one common part c, old e1 = c op new e1 and old e2 = c op new e2 under every valuation, both phases together |
| `Equality.ExprEqSound` | openwrt/scripts/config/expr.c:193-233 | expressions reported equal have equal values under every valuation |
| `DupsComplete.EqualToItself` | openwrt/scripts/config/expr.c:193-233 | every expression without quoted texts among its operands is reported equal to itself, at any depth, through the mutual recursion with elimination |
| `DupsComplete.LiteralCancels` | openwrt/scripts/config/expr.c:135-191 | a literal is cancelled against a conjunction or disjunction that has it as an operand, in either order of the two |
| `DupsComplete.OperandExtracted` | openwrt/scripts/config/expr.c:830-879 | extraction finds an operand in the conjunction or disjunction it stands in |
| `DupsComplete.QuotedNotEqual` | openwrt/scripts/config/expr.c:193-233 | a conjunction of two quoted texts is not reported equal to itself |
| `DupsComplete.NoConstantLeft` | openwrt/scripts/config/expr.c:235-316 | after constant removal no y or n is an operand |
| `Normalize.DeMorganWeight` | openwrt/scripts/config/expr.c:720-737 | pushing a negation inward strictly reduces a weight in which negation doubles, so transforming again after De Morgan ends |
| `Normalize.TransformKeepsValue` | openwrt/scripts/config/expr.c:640-775 | normalisation keeps the exact three-valued value |
| `Normalize.TransformIsNormal` | openwrt/scripts/config/expr.c:640-775 | the result has negations only over non-constant symbols and compares no boolean symbol with y, m or n |
| `Normalize.NormalIffFixed` | openwrt/scripts/config/expr.c:640-775 | an expression is in normal form if and only if normalisation leaves it unchanged |
| `Normalize.TransformIdempotent` | openwrt/scripts/config/expr.c:640-775 | normalising twice is normalising once |
| `Normalize.TransBoolKeepsNo` | openwrt/scripts/config/expr.c:321-345 | on normal forms the rewrite of FOO!=n to FOO keeps whether the value is n, and keeps the normal form |
| `Normalize.TransBoolDone` | openwrt/scripts/config/expr.c:321-345 | no FOO!=n is left for a tristate FOO, and an expression without any is left alone |
| `Normalize.TransBoolUnsoundUnderNegation` | openwrt/scripts/config/expr.c:321-345 | below a negation it does not: the value n becomes m |
| `Normalize.CompareExprSound` | openwrt/scripts/config/expr.c:881-940 | the expression for e=y, e!=y, e=n or e!=n has that truth value and is never m, if nothing negated can be m |
| `Normalize.TransCompareSound` | openwrt/scripts/config/expr.c:881-940 | the same including the missing condition |
| `Normalize.CompareNeverOverclaims` | openwrt/scripts/config/expr.c:881-940 | whatever is negated, the comparison never calls an n expression not n nor a y expression n, and is never m |
| `Normalize.CompareIsRaised` | openwrt/scripts/config/expr.c:881-940 | comparing with n computes exactly the value with every m taken for y |
| `Normalize.CompareRightIff` | openwrt/scripts/config/expr.c:881-940 | so it is right under a valuation if and only if raising m to y does not turn off an expression that is not n |
| `Normalize.CompareUnsoundUnderNegation` | openwrt/scripts/config/expr.c:912-913 | a negated tristate at m is not n but compares as n |
| `Normalize.CompareNegatedIff` | openwrt/scripts/config/expr.c:912-913 | for a negated symbol the comparison with n is right under every valuation if and only if the symbol is not a tristate |
| `Normalize.NegationMayNotMatter` | openwrt/scripts/config/expr.c:912-913 | n && !FOO compares right for every FOO, so no list of negated symbols decides it for whole expressions |
| `Joins.JoinSound` | openwrt/scripts/config/expr.c:350-506 | whenever two operands join, the joined one has the exact three-valued value of the pair |
| `Joins.JoinShape` | openwrt/scripts/config/expr.c:350-506 | a join returns one of the operands or a leaf, so it never grows an expression |
| `DupsComplete.JoinSame` | openwrt/scripts/config/expr.c:350-506 | equal operands join into one of them |
| `Joins.ComparisonsJoinIff` | openwrt/scripts/config/expr.c:350-506 | which two comparisons of a tristate symbol with y, m and n join, in a conjunction and in a disjunction |
| `Joins.SymbolJoinIff` | openwrt/scripts/config/expr.c:350-506 | which comparisons join with the plain symbol |
| `Joins.NegationJoinIff` | openwrt/scripts/config/expr.c:350-506 | a symbol and its negation join in a disjunction of booleans only |
| `Joins.ExtractFactors` | openwrt/scripts/config/expr.c:830-879 | the extracted part is a common factor of both expressions, the rest being the cofactors |
| `Dups.Dups1Keeps` | openwrt/scripts/config/expr.c:508-558 | the first duplicate pass, on two slots of one shared tree (also the same slot twice), is exact on all three values, keeps normal forms, changes nothing unless it counts, and leaves a constant behind when it counts |
| `Dups.Dups2Keeps` | openwrt/scripts/config/expr.c:560-614 | the second pass keeps every y and n; only m may move |
| `DupsExamples.SecondPassMovesMod` | openwrt/scripts/config/expr.c:616-638 | the whole elimination moves m: with a and b at m, (a || b) && !a && !b is m before and n after |
| `Dups.RoundShrinks` | openwrt/scripts/config/expr.c:616-638 | a round that transformed something leaves a strictly smaller expression after constants are removed |
| `Dups.EliminateDupsLoop` | openwrt/scripts/config/expr.c:616-638 | the loop terminates and computes the fixpoint that the other theorems are about |
| `Dups.EliminateDupsKeepsDefinite` | openwrt/scripts/config/expr.c:616-638 | wherever the input is y or n the output is the same, and normal forms stay normal |
| `Dups.EliminateDupsExactOnTwoValues` | openwrt/scripts/config/expr.c:616-638 | under valuations in which no operand is m the value is kept exactly |
| `DupsExact.ExactIfSecondPassIdle` | openwrt/scripts/config/expr.c:560-638 | if the second pass finds nothing in any round, at any depth, the elimination is exact on all three values |
| `DupsExact.ExactIff` | openwrt/scripts/config/expr.c:560-638 | if the second pass finds nothing inside operands, the elimination is exact at a valuation if and only if the expression is not m there or the pass finds nothing at all |
| `DupsExact.TwoLevelsExactIff` | openwrt/scripts/config/expr.c:560-638 | that is the exact condition for every conjunction of disjunctions of literals and every disjunction of conjunctions, whose form both passes and the removal of constants keep |
| `DupsExamples.SecondPassMayNotMatter` | openwrt/scripts/config/expr.c:560-638 | without regard to the valuation the converse fails: with booleans for a and b the pass is at work in (a || b) && !a && !b and the elimination is exact everywhere |
| `Dups.EliminateDupsIdempotent` | openwrt/scripts/config/expr.c:616-638 | eliminating twice is eliminating once |
| `DupsComplete.Dups1Compares` | openwrt/scripts/config/expr.c:508-558 | a first pass that counts nothing has compared every operand with every other one and looked inside each |
| `DupsComplete.Dups2Compares` | openwrt/scripts/config/expr.c:560-614 | a second pass that counts nothing has looked at every operand next to every other place of its connective |
| `DupsComplete.NoDuplicateLeft` | openwrt/scripts/config/expr.c:616-638 | no duplicate survives: in the result, at every connective at any depth, no two operands are the same expression and no two can be joined |
| `DupsComplete.NoContradictionLeft` | openwrt/scripts/config/expr.c:616-638 | nor does an operand whose negation is part of what stands beside it |
| `Adoption.DependsSymbolSound` | openwrt/scripts/config/expr.c:801-828 | an expression that syntactically depends on a symbol is n wherever the symbol is n |
| `Adoption.DependsSymbolIff` | openwrt/scripts/config/expr.c:801-828 | the test is met if and only if some operand of the conjunction is one of the four literals that say the symbol is on |
| `Adoption.SaysOnIff` | openwrt/scripts/config/expr.c:801-828 | of the literals about the symbol and y, m or n, those four forms are exactly the ones that hold only while it is on |
| `DepSoundness.ContainsIffMentions` | openwrt/scripts/config/expr.c:776-799 | an expression contains exactly the symbols that the search for recursive dependencies finds in it |
| `Adoption.DependentAdopted` | openwrt/scripts/config/menu.c:262-266 | an entry that depends on the symbol is adopted whatever the prompt, one that does not mention it never |
| `Adoption.DependsSymbolSoundIff` | openwrt/scripts/config/expr.c:801-828 | that holds for all expressions if and only if the symbol is boolean or tristate |
| `Adoption.VisibleSound` | openwrt/scripts/config/menu.c:257-268 | compare, normalise and eliminate together give y exactly where the condition is not n, and n elsewhere |
| `Adoption.VisibleNeverOverclaims` | openwrt/scripts/config/menu.c:257-268 | without any condition on negations the same steps give y only where the condition is not n, and wherever it is y |
| `Adoption.VisibleIsRaised` | openwrt/scripts/config/menu.c:267-268 | the simplified condition is the condition with every m taken for y |
| `Adoption.AdoptionSound` | openwrt/scripts/config/menu.c:256-281 | where an adopted entry's condition is not n, also with every m taken for y, its new parent is not n, or the parent's prompt condition is not n, according to the test that let it in; prompts may negate anything |
| `Adoption.AdoptionSoundIff` | openwrt/scripts/config/menu.c:256-281 | for a dependency that simplifies to a conjunction of literals this condition is exact: whatever prompt gets the entry adopted shows with it if and only if taking every m for y does not turn the entry off; otherwise one operand of the conjunction is such a prompt and is hidden |
| `Adoption.RaisedWhere` | openwrt/scripts/config/menu.c:256-281 | that covers all valuations at which the entry is y, and all valuations if no negated symbol can be m |
| `Adoption.AdoptionFails` | openwrt/scripts/config/menu.c:264-276 | elsewhere the test goes wrong: behind T with prompt U=n an entry that depends on !U && !T is adopted, and shows at U=m, T=n |
| `MenuShape.AdoptedPassed` | openwrt/scripts/config/menu.c:261-281 | all siblings taken over passed the test and the first one left behind did not |
| `MenuAdoption.AdoptedBelong` | openwrt/scripts/config/menu.c:256-287 | every entry on the level that an entry takes over shows only where the symbol above it is on or its prompt shows |
| `MenuAdoption.FinalizedBelong` | openwrt/scripts/config/menu.c:197-339 | the same for the links of the finalised menu |
| `MenuTree.Flatten` | openwrt/scripts/config/menu.c:288-319 | moving the children of an entry without a prompt up behind it keeps the reading order of all entries |
| `MenuTree.FinalizeFirst` | openwrt/scripts/config/menu.c:197-339 | regrouping an entry and the siblings after it keeps the reading order of all entries |
| `MenuTree.FinalizedFlat` | openwrt/scripts/config/menu.c:288-319 | in the whole regrouped tree no entry without a prompt has children |
| `MenuShape.FirstTakes` | openwrt/scripts/config/menu.c:260-286 | an entry without children takes over its siblings up to the first that does not pass the test; the first that passes is its first child |
| `MenuShape.FirstComplete` | openwrt/scripts/config/menu.c:197-339 | below and behind every entry of the regrouped tree comes no former sibling that it should have taken over |
| `MenuShape.FirstBelong` | openwrt/scripts/config/menu.c:197-339 | every entry has come to its parent by steps from an old parent or a sibling that takes it over, through entries without a prompt only |
| `MenuShape.RootRegrouped` | openwrt/scripts/config/menu.c:197-339 | both said of the pointers of the whole menu before and after |
| `MenuTree.Relink` | openwrt/scripts/config/menu.c:282-286 | pointing the last entry of a level elsewhere relinks exactly that level |
| `MenuFinalize.Menus.Reparent` | openwrt/scripts/config/menu.c:310-314 | gives all children a new parent and finds the last of them; all other links stay |
| `MenuFinalize.Menus.MoveUp` | openwrt/scripts/config/menu.c:309-318 | splices the children of an entry behind it in the pointers |
| `MenuFinalize.Menus.FlattenChildren` | openwrt/scripts/config/menu.c:288-319 | the loop over a growing level computes the flattened level, links included |
| `MenuFinalize.Menus.AdoptSiblings` | openwrt/scripts/config/menu.c:260-286 | the adoption loop, which regroups each sibling before it takes it over, leaves pointers that describe the regrouped tree |
| `MenuFinalize.Menus.FinalizeChildren` | openwrt/scripts/config/menu.c:254-255 | children are regrouped in turn although each may take over the ones after it |
| `MenuFinalize.Menus.Finalize` | openwrt/scripts/config/menu.c:197-339 | the recursive relinking computes the regrouped tree: next, list and parent of every entry are those of the tree, no other entry is touched, and the calls come in reading order |
| `MenuFinalize.Menus.FinalizeRoot` | openwrt/scripts/config/menu.c:197-339 | for the whole menu every entry is regrouped exactly once, the reading order is kept, every parent pointer is the real parent, and no entry without a prompt keeps children; every entry with a prompt has taken over exactly the siblings that pass the test |
| `MenuConditions.InheritedNormal` | openwrt/scripts/config/menu.c:217-227 | whatever dependencies and prompts the entries on a path give, what is inherited below them is in normal form |
| `MenuConditions.ConditionNormal` | openwrt/scripts/config/menu.c:236-241 | so is the condition computed for each property |
| `MenuConditions.CombineMeans` | openwrt/scripts/config/menu.c:217-220 | a combined condition is the conjunction of both, wherever that is not m |
| `MenuConditions.ConditionMeans` | openwrt/scripts/config/menu.c:229-241 | so is the condition of a property, as far as it is n or not; exactly so for a tristate |
| `MenuConditions.InheritedMeans` | openwrt/scripts/config/menu.c:201-227 | where nothing is m, what is inherited below a path of entries is y if all of them let it show, counting from the last choice, and n if not |
| `MenuConditions.MemberPromptsNeedChoice` | openwrt/scripts/config/menu.c:217-241 | every prompt condition computed for an entry below a choice is n wherever the choice is n, whatever it simplifies to |
| `MenuConditions.RewriteKeepsVisibility` | openwrt/scripts/config/menu.c:224-241 | for every path, entry and list of prompt conditions the visibility of a non-tristate symbol is the same with and without the FOO!=n rewrite |
| `Symbols.TransBoolKeepsVisibility` | openwrt/scripts/config/symbol.c:202-209 | the same for any list of normal conditions |
| `Symbols.ValueGivenAgrees` | openwrt/scripts/config/symbol.c:270-363 | the value of a symbol depends only on symbols of smaller rank |
| `SymbolMeaning.DeselectedIsNo` | openwrt/scripts/config/symbol.c:314-315 | a deselected symbol is n |
| `SymbolMeaning.ShownValue` | openwrt/scripts/config/symbol.c:316-325 | a symbol that can be set or is selected has the value nearest to what the user, or else the first default, wants, between what select demands and what the prompts allow |
| `SymbolMeaning.HiddenValue` | openwrt/scripts/config/symbol.c:326-335 | a symbol that can neither be set nor is selected has the value of its first default whose condition is not n, and n without one |
| `SymbolMeaning.StringValue` | openwrt/scripts/config/symbol.c:336-355 | a string is the user's if it can be set, else the text of the symbol the first default names |
| `SymbolMeaning.NumberValue` | openwrt/scripts/config/symbol.c:163-194 | a number is that text, moved to the nearer bound of the first range that applies if it lies outside |
| `SymbolMeaning.RangeBoundIs` | openwrt/scripts/config/symbol.c:147-161 | a bound is the number that its symbol's text says, in the base of that symbol or else of the one in the range |
| `SymbolMeaning.AnyPromptIs` | openwrt/scripts/config/symbol.c:202-209 | visibility is the maximum over the prompts |
| `SymbolMeaning.FirstDefaultIs` | openwrt/scripts/config/symbol.c:123-133 | the default in force is the first whose condition is not n |
| `SymbolMeaning.FirstRangeIs` | openwrt/scripts/config/symbol.c:135-145 | so is the range |
| `SymbolTable.Table.CalcExpr` | openwrt/scripts/config/expr.c:942-981 | evaluating an expression through the memo gives its value under the recursive definition |
| `SymbolTable.Table.CalcVisibility` | openwrt/scripts/config/symbol.c:196-229 | visibility and reverse dependency come out as defined, also when deselected |
| `SymbolTable.Table.CalcValue` | openwrt/scripts/config/symbol.c:270-380 | memo correctness: every symbol flagged valid holds the value of the pure recursive definition for the current settings, in whatever order symbols are calculated |
| `SymbolTable.Table.ClearAllValid` | openwrt/scripts/config/symbol.c:382-392 | clearing all flags and recalculating the modules symbol keeps the memo correct |
| `SymbolTable.Table.SetTristate` | openwrt/scripts/config/symbol.c:414-470 | accepted exactly in range or when nothing changes; an accepted value is exactly what the next calculation gives; the memo stays correct also when no flag is cleared; a refusal changes nothing |
| `SymbolTable.Table.WithinRangeIff` | openwrt/scripts/config/symbol.c:414-430 | the range that the memo gives is the one of the prompts and select, as far as the type has it |
| `SymbolTable.Table.Toggle` | openwrt/scripts/config/symbol.c:472-493 | the loop ends at the nearest value in the cycle n, m, y that the symbol can take |
| `SymbolTable.Table.Run` | openwrt/scripts/config/symbol.c:270-470 | over any run of calculations and settings all valid symbols hold their defined values |
| `SymbolTable.SameSetting` | openwrt/scripts/config/symbol.c:433-470 | setting a symbol to the value it has changes no value anywhere |
| `SymbolTable.SettingTakesEffect` | openwrt/scripts/config/symbol.c:316-335 | a setting within range is the value the symbol gets |
| `SymbolTable.ValuesUnchanged` | openwrt/scripts/config/symbol.c:433-470 | a setting that does not change its own symbol's value changes no other symbol's value |
| `Choices.MemberNeedsChoice` | openwrt/scripts/config/menu.c:217-226 | a member whose prompts are n while its choice is n is not seen unless the choice is y |
| `Choices.MemberIs` | openwrt/scripts/config/symbol.c:308-313 | a member is y exactly if it is the one in force |
| `Choices.RawIs` | openwrt/scripts/config/symbol.c:312-335 | before its members count, a choice has the value nearest to the user's that it can have, and n if it is deselected or can neither be set nor is selected |
| `Choices.PickIs` | openwrt/scripts/config/symbol.c:231-268 | the user's member if it is shown, else the target of the first default that applies and is shown, else the first member that is shown |
| `Choices.ExclusiveIff` | openwrt/scripts/config/symbol.c:231-268 | a choice that comes out y with a member to be seen has exactly one member at y if and only if the user's pick, if shown, or else the first default that applies, is a member |
| `Choices.DefaultOutside` | openwrt/scripts/config/symbol.c:245-254 | a default that names a symbol outside the choice leaves the choice y and its visible member n |
| `Choices.NoneIfOff` | openwrt/scripts/config/symbol.c:308-313 | if the choice is n no member is y |
| `Choices.SettingChoice` | openwrt/scripts/config/symbol.c:316-335 | setting a choice gives it that value if a member can be seen |
| `Choices.SameChoice` | openwrt/scripts/config/symbol.c:433-470 | setting a choice to the value it has does not change the member in force |
| `ChoiceTable.Table.CalcExpr` | openwrt/scripts/config/expr.c:942-981 | evaluating a condition calculates the choice it mentions, and gives the value with the choice at its provisional or final value |
| `ChoiceTable.Table.CalcVisibility` | openwrt/scripts/config/symbol.c:196-219 | the visibility of a member, asked for by itself or by its choice, comes out as defined |
| `ChoiceTable.Table.FindPick` | openwrt/scripts/config/symbol.c:231-268 | finds the user's member, else the first default that is shown, else the first member that is, looking at visibilities on the way; without any the choice falls to n |
| `ChoiceTable.Table.CalcChoice` | openwrt/scripts/config/symbol.c:270-363 | the choice is flagged first and calculated while its members ask for it; all that is valid is right afterwards |
| `ChoiceTable.Table.CalcMember` | openwrt/scripts/config/symbol.c:270-335 | a member calculates its choice first; memo correctness is kept |
| `ChoiceTable.Table.SetMember` | openwrt/scripts/config/symbol.c:414-470 | accepted exactly in range or when nothing changes; setting to y makes the member the one in force, and what stays valid is right also when nothing is forgotten |
| `ChoiceTable.Table.SetChoice` | openwrt/scripts/config/symbol.c:414-470 | the same for the choice itself |
| `ChoiceTable.Table.Run` | openwrt/scripts/config/symbol.c:231-470 | in any order of calculations, settings and outside changes, everything valid has its defined value |
| `ChoiceTable.Table.CalcAll` | openwrt/scripts/config/confdata.c:327-328 | calculates the choice and all members and changes no setting |
| `Choices.MembersInside` | openwrt/scripts/config/symbol.c:245-254 | if every default of a choice names a member, the default that applies is a member under every valuation |
| `ChoiceTable.Table.Exclusive` | openwrt/scripts/config/symbol.c:231-470 | after any run, once all is calculated, in whatever order: if the defaults of the choice name members, exactly one member is y if the choice is y, else none; that the user's pick is a member is kept by every step |
| `DepCheck.Checker.CheckDeps` | openwrt/scripts/config/symbol.c:801-840 | the depth-first search keeps its path as a chain of edges, its finished symbols in dependency order, and reports only real cycles |
| `DepCheck.Checker.CheckAll` | openwrt/scripts/config/symbol.c:771-840 | a recursive dependency is reported if and only if the graph of followed edges has a cycle, no symbol stays marked, and without a report the symbols are left in dependency order |
| `DepCheck.TopologicalNoCycle` | openwrt/scripts/config/symbol.c:771-840 | an order in which everything comes after what it depends on excludes cycles |
| `DepSoundness.SearchFull` | openwrt/scripts/config/symbol.c:771-840 | the same search over everything the evaluator looks at reports nothing if and only if an evaluation order exists |
| `DepSoundness.Search` | openwrt/scripts/config/symbol.c:771-840 | the search as it is reports exactly the cycles it follows; a configuration can be evaluated if and only if the edges to deselecting symbols and range bounds close no cycle either |
| `DepSoundness.ConstantsCloseNoCycle` | openwrt/scripts/config/symbol.c:801-840 | with deselecting symbols and bounds that have no properties, such as numbers, the search as it is finds all cycles |
| `DepSoundness.EvaluableNoCycle` | openwrt/scripts/config/symbol.c:270-363 | an evaluation order excludes cycles among everything the evaluator looks at |
| `DepSoundness.SearchMissesDeselect` | openwrt/scripts/config/symbol.c:801-840 | two symbols that deselect each other pass the search although no evaluation order exists |
| `DepSoundness.FollowedIff` | openwrt/scripts/config/symbol.c:801-830 | the search follows what selects a symbol, the conditions of its prompts, defaults and ranges, and the defaults, and nothing else |
| `DepSoundness.UnfollowedIff` | openwrt/scripts/config/symbol.c:801-830 | the evaluator also looks at what deselects it and at the bounds of its ranges |
| `ConfWalk.Advance` | openwrt/scripts/config/confdata.c:507-519 | from any entry the walk goes on to the entry that is next in reading order, by child, sibling or ancestor's sibling |
| `ConfWalk.Walk` | openwrt/scripts/config/confdata.c:437-520 | the pointer-chasing walk ends and visits every entry once, in recursive preorder |
| `ConfWrite.WriteConfig` | openwrt/scripts/config/confdata.c:437-520 | the walk writes the text of the items of the menu: prompts of visible menus, and each flagged symbol at its first entry |
| `ConfWrite.WrittenOnce` | openwrt/scripts/config/confdata.c:448-452 | each flagged symbol that has an entry is written exactly once, no other is |
| `ConfWrite.EmittedAre` | openwrt/scripts/config/confdata.c:447-514 | what is written is, in menu order, the prompt of every visible menu and the value of every flagged symbol at its first entry |
| `ConfText.WriteEscaped` | openwrt/scripts/config/confdata.c:477-493 | the two inner loops write the string with a backslash before every quote and backslash |
| `ConfText.UnescapeInPlace` | openwrt/scripts/config/confdata.c:187-200 | the in-place loop with memmove computes the unescaped string, and fails exactly if there is no closing quote |
| `ConfText.UnescapeOfEscape` | openwrt/scripts/config/confdata.c:187-200 | every string comes back from its escaped form, whatever quotes and backslashes it holds |
| `ConfFile.ReadRendered` | openwrt/scripts/config/confdata.c:448-505 | a written line sets its symbol to the written value when read; a number is restored if and only if it is a valid number |
| `ConfFile.ValidIntIff` | openwrt/scripts/config/symbol.c:495-525 | a text passes for an integer if and only if it is a decimal number without leading zeros, with or without a minus sign |
| `ConfFile.ValidHexIff` | openwrt/scripts/config/symbol.c:513-521 | and for a hexadecimal number if and only if it is hexadecimal digits, with or without 0x in front |
| `ConfFile.ReadOfWrite` | openwrt/scripts/config/confdata.c:112-242 | reading a written file line by line through the 1024-byte buffer is applying its items in order |
| `ConfFile.RestoredIff` | openwrt/scripts/config/confdata.c:112-242 | a symbol written once comes back with its value if and only if that is n or no later menu prompt reads like the symbol being unset; an invalid number counts as not written |
| `ConfFile.HeadingTouches` | openwrt/scripts/config/confdata.c:120-146 | a menu prompt in a comment leaves a symbol alone unless it reads like that symbol being unset |
| `ConfFile.HeadingOverwrites` | openwrt/scripts/config/confdata.c:120-146 | a menu prompt that reads like an unset symbol sets that symbol to n |
| `ConfFile.PromptOverwrites` | openwrt/scripts/config/confdata.c:439-447 | FOO at y, followed by a menu called CONFIG_FOO is not set, comes back as n |
| `ConfWrite.RoundTrip` | openwrt/scripts/config/confdata.c:437-520 | walk, file and reader together: every flagged symbol with an entry has one position in the file and comes back from there by that condition |
| `ConfWrite.NotWritten` | openwrt/scripts/config/confdata.c:112-242 | a symbol that is not written is left alone unless a prompt reads like it |
| `ConfReload.ClampTwiceIff` | openwrt/scripts/config/symbol.c:163-194 | a number moved into a range stays there when moved again if and only if the bounds are in order |
| `ConfReload.ValuesReload` | openwrt/scripts/config/confdata.c:112-328 | a configuration that is written, read over any earlier settings and calculated again has the value it had for every symbol, numbers and strings included |
| `ConfReload.FileReloads` | openwrt/scripts/config/confdata.c:379-520 | so writing it again gives the same items, hence the same file |
| `ConfSymbols.ConfigRoundTrip` | openwrt/scripts/config/confdata.c:437-520 | the same for the values of a calculated configuration and the write flags that the evaluator sets |
| `ConfSymbols.WrittenIff` | openwrt/scripts/config/symbol.c:312-335 | a boolean or tristate symbol is written if and only if it is not deselected and can be set, is selected, or has a default that applies |
| `ConfSymbols.UnwrittenIsEmpty` | openwrt/scripts/config/symbol.c:312-360 | a symbol that is not written is n, or the empty text |
| `AesField.Te0Entry` | openwrt/package/ead/src/aes.c:71-136 | every entry of the encryption table is the substituted byte times 02, 01, 01, 03 |
| `AesField.Td0Entry` | openwrt/package/ead/src/aes.c:404-469 | every entry of the decryption table is the inversely substituted byte times 0e, 09, 0d, 0b |
| `AesField.SubByteIsSubstitute` | openwrt/package/ead/src/aes.c:71-136 | the S-box in the table is the affine map of the field inverse, section 5.1.1 of FIPS 197 |
| `AesField.SubByteThenBack` | openwrt/package/ead/src/aes.c:742-775 | the inverse S-box undoes the S-box |
| `AesSpec.EqInvCipherUndoesCipher` | openwrt/package/ead/src/aes.c:994-1059 | the equivalent inverse cipher of section 5.3.5 undoes the cipher for every key and block |
| `AesSpec.EqInvCipherIsInvCipher` | openwrt/package/ead/src/aes.c:994-1059 | it computes the inverse cipher of section 5.3 |
| `Aes.RconsArePowers` | openwrt/package/ead/src/aes.c:776-779 | the round constants are the powers of x in the field |
| `Aes.EncColumnIsMix` | openwrt/package/ead/src/aes.c:823-826 | a column of table lookups with rotations is the mixed column of the substituted diagonal plus the key word |
| `Aes.DecColumnIsInvMix` | openwrt/package/ead/src/aes.c:837-840 | the same for the inverse |
| `Aes.NextKeyWordIsExpansion` | openwrt/package/ead/src/aes.c:879-889 | the table form of a key schedule step is that of section 5.2 |
| `Aes.KeySetupEnc` | openwrt/package/ead/src/aes.c:870-890 | the words written are the KeyExpansion of section 5.2 |
| `Aes.InvertOrder` | openwrt/package/ead/src/aes.c:904-910 | the swap loop reverses the round keys |
| `Aes.KeySetupDec` | openwrt/package/ead/src/aes.c:897-922 | the words written are the reversed, inversely mixed round keys of section 5.3.5 |
| `Aes.EncryptState` | openwrt/package/ead/src/aes.c:926-988 | the loop of alternating table rounds computes the Cipher of section 5.1 |
| `Aes.DecryptState` | openwrt/package/ead/src/aes.c:994-1059 | and the Equivalent Inverse Cipher of section 5.3.5 |
| `Aes.Encrypt` | openwrt/package/ead/src/aes.c:926-988 | a block of a byte buffer is encrypted, also in place, and nothing else is changed |
| `Aes.Decrypt` | openwrt/package/ead/src/aes.c:994-1059 | a block of a byte buffer is decrypted, also in place, and nothing else is changed |
| `Aes.RoundTrip` | openwrt/package/ead/src/aes.c:870-1059 | for every key and block, both key setups and both directions in place give the block back |
| `AesExample.PublishedResult` | openwrt/package/ead/src/aes.c:926-988 | the cipher gives the published result for the key and block of FIPS 197, appendix C.1 |
| `Ead.Endpoint.SetKey` | openwrt/package/ead/src/ead-crypt.c:47-69 | both key schedules belong to the first 16 bytes, and both vectors start equal with their highest byte clear |
| `Ead.Endpoint.KeyedIs` | openwrt/package/ead/src/ead-crypt.c:47-69 | key, vectors and step word are the bytes at offsets 0, 33 and 36, the highest byte of the vectors cleared |
| `Ead.Endpoint.CheckRxIv` | openwrt/package/ead/src/ead-crypt.c:72-83 | accepts a vector in the window and remembers it, otherwise changes nothing |
| `EadMessages.AcceptsIvIff` | openwrt/package/ead/src/ead-crypt.c:72-83 | a vector is accepted if and only if it is ahead by at most 128 and the window has not reached the end of the 32-bit range |
| `EadMessages.StepsFromIncrements` | openwrt/package/ead/src/ead-crypt.c:86-96 | the sixteen increments, each between 1 and 4, spell out the step word of the session in base four |
| `EadMessages.AfterSendsIs` | openwrt/package/ead/src/ead-crypt.c:86-96 | after any number of messages the vector has advanced by the increments of that many turns, around and around |
| `Ead.Endpoint.GetTxIv` | openwrt/package/ead/src/ead-crypt.c:86-96 | draws the next vector, going round the 16 increments |
| `Ead.Endpoint.HashMessage` | openwrt/package/ead/src/ead-crypt.c:98-111 | the hash field is cleared and the chained hash over whole 64-byte units is returned |
| `EadMessages.DecryptUndoesEncrypt` | openwrt/package/ead/src/ead-crypt.c:132-155 | block by block decryption undoes encryption of a buffer |
| `Ead.Endpoint.EncryptMessage` | openwrt/package/ead/src/ead-crypt.c:113-137 | the buffer ends up holding the sealed message: padding, vector, hash, all blocks encrypted in place |
| `Ead.Endpoint.DecryptMessage` | openwrt/package/ead/src/ead-crypt.c:139-179 | every path, refusals and negative lengths included: result, buffer and receive vector |
| `EadStream.OpenOfSeal` | openwrt/package/ead/src/ead-crypt.c:113-179 | a sealed message is accepted if and only if its vector is, with its own length and payload |
| `EadStream.AcceptedIsMessage` | openwrt/package/ead/src/ead-crypt.c:139-179 | the converse, for any buffer at all: what is accepted with a length decrypts to the message that is stamped for the payload returned and the vector recorded, with the right hash, and the vector is in the window |
| `EadStream.AlteredNeedsCollision` | openwrt/package/ead/src/ead-crypt.c:139-179 | two accepted buffers with the same hash that decrypt differently contain a collision of the hash step |
| `EadMessages.HashCollision` | openwrt/package/ead/src/ead-crypt.c:98-111 | whole units that differ and hash alike contain a collision of the step |
| `EadStream.UnderstoodIff` | openwrt/package/ead/src/ead-crypt.c:47-179 | with equal keys and in-order delivery, whatever is lost, every message that arrives is accepted and yields its payload if and only if each arriving vector is above the last accepted one by at most 128 and that window ends below 2^32 |
| `EadStream.StreamUnderstood` | openwrt/package/ead/src/ead-crypt.c:47-179 | with equal keys, in-order delivery and fewer than 32 losses in a row, every message that arrives is accepted and yields its payload if and only if the receive window never reaches the end of the 32-bit range |
| `EadStream.WindowClosed` | openwrt/package/ead/src/ead-crypt.c:72-83 | once it does, every message that arrives is refused and the receiver stays as it is |
| `EadStream.FreshKeysUnderstood` | openwrt/package/ead/src/ead-crypt.c:47-179 | after key setup that cannot happen within the first 1069547488 messages |
| `EadStream.NeverRecovers` | openwrt/package/ead/src/ead-crypt.c:72-83 | once the sender is 128 ahead nothing it sends is accepted any more |
| `EadStream.AcceptedIncrease` | openwrt/package/ead/src/ead-crypt.c:139-179 | for any input at all, the vectors of accepted messages strictly increase |
| `EadStream.ReplayRefused` | openwrt/package/ead/src/ead-crypt.c:139-179 | a buffer that was accepted is refused ever after |
| `RingQueue.DistanceIsModular` | openwrt/package/broadcom-57xx/src/queue.h:86-94 | the number of entries is head minus tail modulo the size |
| `RingQueue.Queue.constructor` | openwrt/package/broadcom-57xx/src/queue.h:86-94 | an empty queue with one slot more than its capacity |
| `RingQueue.Queue.PushHead` | openwrt/package/broadcom-57xx/src/queue.h:161-181 | adds at the head of the sequence, or fails exactly when full |
| `RingQueue.Queue.PushTail` | openwrt/package/broadcom-57xx/src/queue.h:192-216 | adds at the tail, or fails exactly when full |
| `RingQueue.Queue.PopHead` | openwrt/package/broadcom-57xx/src/queue.h:225-253 | removes from the head, or gives nothing exactly when empty |
| `RingQueue.Queue.PopTail` | openwrt/package/broadcom-57xx/src/queue.h:262-285 | removes from the tail, or gives nothing exactly when empty |
| `RingQueue.Queue.GetHead` | openwrt/package/broadcom-57xx/src/queue.h:294-315 | the entry at an index counted from the head |
| `RingQueue.Queue.GetTail` | openwrt/package/broadcom-57xx/src/queue.h:324-341 | the entry at an index counted from the tail |
| `RingQueue.Queue.GetEntryCnt` | openwrt/package/broadcom-57xx/src/queue.h:146-150 | the counter is the number of entries |
| `QueueInterleaving.RunKeeps` | openwrt/package/broadcom-57xx/src/queue.h:192-253 | the invariant of ring, counters and both program positions over every schedule of single memory accesses |
| `QueueInterleaving.PoppedIsPrefix` | openwrt/package/broadcom-57xx/src/queue.h:192-253 | under every interleaving of one pushing and one popping side, what came out is a prefix of what went in and no unwritten slot is read |
| `QueueInterleaving.EachTurnIsAtomic` | openwrt/package/broadcom-57xx/src/queue.h:192-253 | each memory access is invisible or one whole operation of a bounded first-in first-out queue |
| `QueueInterleaving.RefusalsAreExact` | openwrt/package/broadcom-57xx/src/queue.h:204-239 | a push gives up exactly when full and a pop exactly when empty at the moment it looks |
| `QueueInterleaving.CounterBounds` | openwrt/package/broadcom-57xx/src/queue.h:146-150 | the counter is never more than one off, and exact if and only if both sides or neither have moved their index without counting |
| `QueueInterleaving.CounterGoesNegative` | openwrt/package/broadcom-57xx/src/queue.h:213-250 | it can be seen at -1 |
| `RxDriver.Driver.InitializeUmPackets` | openwrt/package/broadcom-57xx/src/b57um.c:4468-4503 | looks at each free descriptor once and gives it a buffer or sets it aside |
| `RxDriver.Driver.IndicateRxPackets` | openwrt/package/broadcom-57xx/src/b57um.c:5038-5183 | the loop moves descriptors as specified, with or without a tasklet |
| `RxDriver.Driver.ReplenishRxBuffers` | openwrt/package/broadcom-57xx/src/b57um.c:5222-5271 | the loop with its three exits moves descriptors as specified and reports failure |
| `RxDriver.Driver.QueueRxPackets` | openwrt/package/broadcom-57xx/src/tigon3.c:216-336 | free descriptors go to the hardware ring up to a limit |
| `RxPools.InitializeSound` | openwrt/package/broadcom-57xx/src/b57um.c:4468-4503 | afterwards every free descriptor holds a buffer, whatever allocations failed |
| `RxPools.IndicateKeeps` | openwrt/package/broadcom-57xx/src/b57um.c:5038-5183 | no descriptor is lost or doubled, none stays received, free ones hold buffers |
| `RxPools.IndicateDelivers` | openwrt/package/broadcom-57xx/src/b57um.c:5038-5183 | the good frames go up the stack, each once, in the order of reception |
| `RxPools.IndicateSorts` | openwrt/package/broadcom-57xx/src/b57um.c:5038-5183 | every received descriptor goes to the free queue if it kept its buffer or got a new one, else it waits, in order |
| `RxPools.IndicateBuffers` | openwrt/package/broadcom-57xx/src/b57um.c:5038-5183 | it has a buffer afterwards if and only if its frame was bad or a new one could be had at once |
| `RxPools.ReplenishKeeps` | openwrt/package/broadcom-57xx/src/b57um.c:5222-5271 | no descriptor is lost; failure is reported exactly if one still waits (without a limit), and it keeps its place |
| `RxPools.ReplenishMoves` | openwrt/package/broadcom-57xx/src/b57um.c:5222-5271 | waiting descriptors move to the free queue from the head; no more than the limit are given a buffer, and it ends early only for want of one or at the limit |
| `RxPools.QueueRxIs` | openwrt/package/broadcom-57xx/src/tigon3.c:216-336 | the oldest free descriptors, as many as the limit allows, go to the hardware in order |
| `RxPools.InitializeSorts` | openwrt/package/broadcom-57xx/src/b57um.c:4468-4503 | of the descriptors looked at those with a buffer stay free and the others wait, in order |
| `RxPools.RunConserves` | openwrt/package/broadcom-57xx/src/b57um.c:5038-5271 | over any run with any allocation failures the descriptors are conserved and every free one holds a buffer |
| `Autoneg.UnpackInjective` | openwrt/package/broadcom-57xx/src/autoneg.h:81-138 | the bits of a config word determine its number |
| `Autoneg.MasksMeanBits` | openwrt/package/broadcom-57xx/src/autoneg.h:191-198 | the masks of the number mean the named bits |
| `AutonegPoll.Negotiator.constructor` | openwrt/package/broadcom-57xx/src/autoneg.c:96-112 | default advertisement, everything else cleared |
| `AutonegPoll.Negotiator.Autoneg8023z` | openwrt/package/broadcom-57xx/src/autoneg.c:121-436 | one poll, fall-throughs included, is one step of the machine |
| `AutonegPoll.Negotiator.Negotiate` | openwrt/package/broadcom-57xx/src/tigon3.c:6932-6949 | polling until done, failed or out of time (75000 us or polls); completion implies a full negotiation |
| `Autoneg.Gather` | openwrt/package/broadcom-57xx/src/autoneg.c:121-436 | the stations of a negotiation can be traced in every run with a monotone clock |
| `Autoneg.LinkWasNegotiated` | openwrt/package/broadcom-57xx/src/autoneg.c:121-436 | a link since the last enable took three separate waits of more than 12000 us, three equal non-zero words in a row, a later word with ACK, and partner abilities from a word with clear reserved bits |
| `Autoneg.LinkTakesTime` | openwrt/package/broadcom-57xx/src/autoneg.c:121-436 | hence more than 36000 us from the first poll |
| `AutonegWire.AlwaysSends` | openwrt/package/broadcom-57xx/src/autoneg.c:222-384 | in every run, after every poll: zero words while restarting, then what is advertised, then the same with the acknowledge bit, and idle at the end |
| `AutonegWire.AlwaysRecords` | openwrt/package/broadcom-57xx/src/autoneg.c:317-384 | a page counts as received once the partner's word is taken over, and no link is made if both sides want next pages |
| `AutonegWire.PartnerRestarts` | openwrt/package/broadcom-57xx/src/autoneg.c:288-384 | a partner that sends the zero word three times in a row makes the machine start over from acknowledge detection on |
| `AutonegWire.LinkIsReached` | openwrt/package/broadcom-57xx/src/autoneg.c:121-436 | with a partner that answers, polled further apart than the link timer, the eleventh poll after enabling completes and the partner is recorded |
| `AutonegWire.DisabledForGood` | openwrt/package/broadcom-57xx/src/autoneg.c:200-232 | a machine that is not enabled stays out of negotiation |
| `AutonegWire.StatusIff` | openwrt/package/broadcom-57xx/src/autoneg.c:121-436 | exactly when a poll reports done and failed |
| `Autoneg.AckCheckIsVacuous` | openwrt/package/broadcom-57xx/src/autoneg.c:296-315 | acknowledge detection is left for completion if and only if a word with ACK is received: its consistency check never fails |
| `Autoneg.PartnerAsMatchedIff` | openwrt/package/broadcom-57xx/src/autoneg.c:317-347 | in every run that reaches a link, and with the evidence of its negotiation, the partner is recorded as matched if and only if the word that completes the negotiation advertises the same |
| `AutonegExample.PartnerMayDiffer` | openwrt/package/broadcom-57xx/src/autoneg.c:121-436 | a run from the start to the link in which full duplex is matched and not recorded |

## Left out

- Expression nodes are values. The in-place passes of duplicate elimination work on one tree with paths as slots, so sharing between two slots is modelled; allocation, copying and freeing of nodes are not.
- E_RANGE, E_CHOICE and E_LIST nodes in the rewriter, and comparison with m, are not modelled; expr_print and the Kconfig grammar are not part of this model.
- Symbols.ValueGivenAgrees: the recursive definition covers configurations without choices; `Choices` and `ChoiceTable` treat one boolean choice over given values of the symbols outside it.
- SymbolTable.Table.SetTristate: is called on a calculated boolean or tristate symbol, as the user interfaces do; string setters are not modelled. Change flags, write flags and menu flags are not part of the table.
- Range clamping parses and prints numbers through two parameters instead of strtol and sprintf.
- Adoption.AdoptionSound: where taking m for y turns the entry off the test promises nothing, as `Adoption.AdoptionFails` shows; that the condition is exact is proved for dependencies that simplify to a conjunction of literals.
- DupsExact.ExactIff: where the second pass works inside operands, deeper than two levels, exactness is proved for the case that it finds nothing; a change inside an operand may or may not reach the value of the whole.
- MenuFinalize.Menus.Finalize: takes the outcome of the adoption test and the lack of a prompt as rules; the test is covered by `MenuAdoption` and the conditions by `MenuConditions`; warnings, types of choice values and reverse dependencies are not modelled.
- ConfFile.ReadOfWrite: leaves out the header of the file, the repair of choice values while reading, and file handling; a NUL inside a line is not modelled.
- ConfSymbols.ConfigRoundTrip: choices and their members are not in the configurations it covers.
- ConfReload.ValuesReload: that the file cannot restore what it does not say is excluded by its conditions: symbols with prompts have entries, numbers are numbers in ranges whose bounds are in order and print faithfully, and no menu prompt reads like a set symbol being unset. Marking hidden symbols as new after reading is not modelled; their setting does not count.
- ChoiceTable.Table.Run: conditions inside the group mention no members, members carry no default of their own, and tristate choices are not modelled.
- AES with 192- or 256-bit keys is not in the source. The unrolled variant of the rounds and the big-table variant are not modelled.
- The compression function of SHA-1 and its start value are parameters. Session keys of fewer than 40 bytes are not modelled; the increments are read in big-endian order.
- QueueInterleaving.RunKeeps: memory accesses happen in program order, which is what the barriers in the source are for; weaker memory is not modelled.
- RxDriver.Driver.QueueRxPackets: the ring indices and buffer descriptors of the hardware are abstracted to a sequence and a limit given by the caller, and the branch for a descriptor of an unknown ring, which drops it, is not modelled. Packet contents, checksums, VLAN tags and statistics are not modelled.
- AutonegPoll.Negotiator.Autoneg8023z: leaves out the registers np_loaded and toggle_rx, which nothing reads, the two next-page states, which nothing enters, and state numbers outside the table.
- The user interfaces, the transmit path, firmware, register and GPIO drivers, and network tools of the repository would add only easy members or depend on hardware.
