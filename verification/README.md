# Paraconsistent default logic toolkit, modelled in Dafny

This project models the reasoning core of a small Python toolkit for propositional and default logic:

- **Formulas** (`symbol.py`): an immutable tree of atoms and the connectives `!`, `&`, `|`, `->`, `=)` and `<->`. Equality is structural and class-sensitive, and each formula has a plain rendering.
- **Visitors** (`visitor.py`): atom collection, simultaneous substitution, conjunctive normal form (CNF), negation normal form (NNF), paraconsistent NNF (PNNF), flattening and LaTeX markup.
- **Parser** (`parser.py`): a Pratt (precedence-climbing) parser. It reads formulas and default rules `pre : jus / cons` through a lazy, one-token tokenizer over two symbol tables.
- **Classical clause store** (`CPLogic` in `plogic.py`):
  - a dense atom numbering and integer clauses for a SAT solver;
  - tautologies are dropped;
  - `sat` is scoped to a query and rolls back exactly what the query added.
- **Paraconsistent store** (`SPPLogic` in `plogic.py`): compiles the theory in PNNF under a list of inconsistent atoms, and caches the compiled store.
- **Reiter default logic** (`CPDLogic` in `dlogic.py`): enumerates candidate rule sets by size, filters rules by justification, and runs a closure fixpoint.
  The worked scenarios at the end of `dlogic.py` (tweety the bird, and the two rules that block each other) are derived from Reiter's semantics.
- **Paraconsistent default logic** (`spdl.py`): searches for minimal sets of inconsistent atoms, in two variants:
  - `SPDLogic` reads a candidate through `SPPLogic`;
  - `AnotherSPDLogic` asserts `a <-> !a^-` for every atom outside the candidate.

Modelling choices:

- **Values, not objects.** Every stateful object is an immutable datatype, and every operation returns the new state. `copy()` is therefore the identity.
- **Errors are values.**
  - The parser returns `Result<Node, ParseError>`.
  - Where the source raises on a formula holding `Equiv` (the NNF visitors, `AnotherSPDLogic`), the model returns `None` or requires an `Equiv`-free formula.
- **The SAT solver.** `pycosat.solve` is replaced by `Solver.Solve`, a splitting procedure that `Solver.SolveCorrect` proves equal to the ghost predicate `Solver.Satisfiable`: some valuation satisfies every clause.
- **Semantics.** Every reasoning operation is tied to a semantic reference:
  - classical models of the formulas (`PLogic.Models`);
  - glut models in which an inconsistent atom `a` and its twin `a^-` are independent (`Grounds.ModelOf`);
  - Reiter's fixpoint characterisation of extensions (`DLogic.Generates`);
  - minimality over sets of inconsistent atoms (`MinimalSets.Minimal`).
- **Rules by position.** `DefaultRule` has no `__eq__`, so the source compares rules by identity. The model keeps `D` as a sequence and names rules by their position in it; a candidate is an increasing sequence of positions. Positions and identities agree as long as no rule object is added twice (see "## Left out").

Where the code and its description differ, the model follows the code:

- **`ds` is computed once.** The list of rules whose justification holds (`ds`) is built once, against the candidate's extension (dlogic.py:98-99). It is not re-tested on each pass of the closure loop. Within a pass, a rule that fires is applied at once and is visible to the rules after it (dlogic.py:106-112).
- **First match, not longest.** The tokenizer takes the first symbol-table entry that matches, in registration order (parser.py:172-181), not the longest one. Neither table has an entry that is a proper prefix of a later one, so the two readings agree.
- **`End` is a keyword.** The word `End` is an entry of both symbol tables (parser.py:106). Where it is not followed by an alphanumeric character, it ends the input, and whatever follows is never parsed (`ParserExamples.EndWord`).
- **`eat('End')` reads ahead first.** It reads the next token before `parse` raises "Empty String" or `expression` raises "Ends too early" (parser.py:139-140,147-148,161-165). So a tokenizer error right after an `End` token is reported instead.
- **Negated `Equiv` is not an error in `sat`.** Under NNF and PNNF, `Not(Equiv(..))` reaches no visitor method and yields `None` (visitor.py:9-15). `SPPLogic.sat` then treats such a query as no query at all; `entail` raises on it (`SppLogic.SppSat`, `SppLogic.SppEntail`).

## Model

| member | source | states |
|---|---|---|
| Symbols.FormulaEq | symbol.py:12-16 | Two formulas are equal exactly when they are the same tree: same class and equal child lists, in order. So `And(a, b)` differs from `And(b, a)` and `Imply` from `Implication`, and two atoms are equal exactly when their names are. |
| Symbols.SymbolsDistinct | symbol.py:55-82 | Distinct connectives have distinct plain symbols and distinct markup symbols, so a symbol identifies its connective. |
| Symbols.RenderNegatedOr | plogic.py:177-186 | `Not(Or(B, C))` renders as `!(B \| C)`: the prefix symbol is followed directly by the child, and the infix children are joined by ` \| ` in parentheses. |
| Symbols.RenderEquiv | plogic.py:177-192 | `Equiv(B, Or(P_1, P_2))` renders as `(B <-> (P_1 \| P_2))`. |
| Utils.Subseteq | utils.py:4-11 | True exactly when every element of the first list occurs in the second. Multiplicity is ignored, and an empty first list is always contained. |
| Utils.FlatAppend | utils.py:14-15 | Flattening distributes over concatenation, so the inner lists are concatenated in order. |
| Utils.FlatMembership | utils.py:14-15 | An element is in the flattened list exactly when it is in one of the inner lists. |
| Utils.Update | utils.py:18-24 | The old list is a prefix of the new one, and the count is the number of items appended. Every item of the second list is present afterwards, and no other item is. No appended item was already in the old list, and a list without repeats stays without repeats. |
| Utils.UpdateFirstOccurrences | utils.py:18-24 | Updating a list of first occurrences keeps it the list of first occurrences of everything seen, in order: `update` never reorders and never repeats. |
| Utils.HtmlEscape | utils.py:26-36 | No `"`, `'`, `<` or `>` remains in the result. A text with none of the five escaped characters comes back unchanged, and escaping never shortens the text. |
| Utils.HtmlEscapeRoundTrip | utils.py:26-36 | Decoding the five entities in the escaped text gives the original text back: each character is replaced by its own entity and nothing else changes. |
| Visitor.ChildAtoms | visitor.py:24-29 | The atoms collected from every child of a connector are among the atoms collected from the connector. A negation has exactly its operand's atoms, and a binary connector exactly the atoms of its two operands. |
| Visitor.EvalOnlyOnCollected | visitor.py:24-29 | Two valuations that agree on the collected atoms give the formula the same truth value, so the collection misses no atom. |
| Visitor.SubstAll | visitor.py:41-56 | An atom named in the map becomes its image, verbatim. Any other atom stays as it is. A connector keeps its class and its number of operands. |
| Visitor.SubstAllSemantics | visitor.py:41-56 | The substitution is simultaneous: the substituted formula's value is the original's value under the valuation in which each named atom takes its image's value. No image is substituted into again. |
| Visitor.SubstAllNoMatch | visitor.py:41-56 | When no atom of the formula is named in the map, the result is the formula itself. |
| Visitor.SpliceMembership | visitor.py:242-260 | After flattening, a child is either a child of a flattened `And`/`Or` child of the same class or an unflattened child itself. |
| Visitor.ToPlainFlat | visitor.py:231-260 | After flattening, no `And` sits directly under an `And` and no `Or` directly under an `Or`. Flattening is idempotent. |
| Visitor.ToPlainSemantics | visitor.py:231-260 | Flattening keeps the truth value under every valuation. |
| VisitorExamples.LatexNegatedOr | plogic.py:186-188 | The markup of `Not(Or(B, C))` is `{\lnot{{B}\lor{C}}}`. |
| VisitorExamples.LatexBAndC | visitor.py:59-65 | The markup of `And(B, C)` is `{{B}\land{C}}`: each node is wrapped in braces and the children are joined by the markup symbol. |
| VisitorExamples.LatexOrOfAnd | plogic.py:200-203 | The markup of `Or(A, And(B, C), D)` is `{{A}\lor{{B}\land{C}}\lor{D}}`. |
| VisitorExamples.PlainNestedAnd | visitor.py:231-235 | The documented example: `And(And(A, B), C)` flattens to `And(A, B, C)`. |
| Nnf.NormalizeDefined | visitor.py:9-21 | A formula, and its negation, has a normal form exactly when it holds no `Equiv`. A bare `Equiv` reaches the raising fallback, and a negated one reaches no visitor method. |
| Nnf.NormalizeSemantics | visitor.py:135-228 | The normal form has the formula's truth value, and the normal form of its negation has the opposite value. This holds under every valuation for NNF, and for PNNF wherever each renamed atom's twin `a^-` is false exactly when `a` is true. |
| Nnf.NormalizeShape | visitor.py:135-228 | NNF puts `Not` only on atoms and keeps `Implication` with normalised children. The PNNF modes rewrite `Implication` to `Or(Not(..), ..)` with the outer `Not` left in place, so their output is built only from atoms, `Not`, `And` and `Or`. |
| Nnf.NnfFixpoint | visitor.py:135-173 | A formula already in negation normal form is its own normal form, so `to_NNF` is idempotent. |
| Nnf.NormalizeProper | visitor.py:135-228 | Normalising a formula with no empty `And`/`Or` creates none. |
| Cnf.ClausesTrueFlat | visitor.py:114-116 | The concatenated clause lists of an `And` hold exactly when every child's clause list holds. |
| Cnf.DistributeSound | visitor.py:118-124 | The merged clauses over the Cartesian product of the operands' clause lists hold exactly when some operand's clause list holds. |
| Cnf.ClausesSound | visitor.py:84-132 | The clauses of `f` hold exactly when `f` is true, and the clauses of `Not(f)` hold exactly when `f` is false. This covers every connective, `Equiv` included. |
| Cnf.ToCnfSound | visitor.py:84-132 | `to_CNF(f)` has the truth value of `f` under every valuation. |
| Cnf.ClausesShape | visitor.py:84-132 | Every clause is made of atoms and negated atoms, as the clause store requires (plogic.py:81-86). Without empty `And`/`Or` nodes, no clause is empty. |
| CnfExamples.NegatedOrCnf | plogic.py:186-187 | `to_CNF(!(B \| C))` is `And(Or(!B), Or(!C))`. |
| CnfExamples.EquivCnf | plogic.py:192-195 | `to_CNF(B <-> (P_1 \| P_2))` is `And(Or(!B, P_1, P_2), Or(!P_1, B), Or(!P_2, B))`. |
| CnfExamples.OrOfAndCnf | plogic.py:200-202 | `to_CNF(A \| (B & C) \| D)` is `And(Or(A, B, D), Or(A, C, D))`. |
| CnfExamples.AndOfOrCnf | plogic.py:207-210 | `to_CNF(A & (B \| (D & E)))` is `And(Or(A), Or(B, D), Or(B, E))`. |
| Solver.Split | plogic.py:118 | Splitting on a literal is complete: the clauses have a model exactly when one of the two branches has. |
| Solver.SolveCorrect | plogic.py:118-122 | The solver decides satisfiability: it answers true exactly when some valuation satisfies every clause. |
| PLogic.AddAtom | plogic.py:42-50 | A new name gets the number `len(atoms) + 1` and is reported new. A known name keeps its number. Nothing else changes, and numbers stay exactly `1..n`. |
| PLogic.AddAtoms | plogic.py:21-23 | Registering names keeps every old entry and registers exactly the old and the given names. |
| PLogic.AddAtomsDense | plogic.py:21-23 | Registering names keeps the numbering exactly `1..n`. |
| PLogic.DropLast | plogic.py:74 | Python's `s[:-k]`: for `0 < k <= len(s)` it drops the last `k` items, and for `k == 0` it gives the empty list. |
| PLogic.RollBack | plogic.py:72-76 | Rolling back forgets exactly the given atom names, keeps the formulas, and keeps the clause list when no clause was added. |
| PLogic.GuardNeeded | plogic.py:72-74 | Without the `added_clause > 0` guard, rolling back zero clauses would empty a non-empty clause list. With it, the list is kept. |
| PLogic.TranslateFrame | plogic.py:78-99 | Translating a clause changes only the atom table. It grows by exactly the names reported new, and a tautology hands back no new names. |
| PLogic.TranslateMeaning | plogic.py:78-99 | The translation is either empty, for a tautology (a literal together with its complement), or a clause without repeated or complementary literals holding exactly the numbers of the literals. |
| PLogic.AddClauseMeaning | plogic.py:106-112 | One clause is stored as a clean solver clause with the same meaning, or, being a tautology, is dropped. The numbering stays dense. |
| PLogic.AddClausesFrame | plogic.py:101-113 | `_add` appends the kept clauses after the old ones, and the count is the number appended. The atom table grows by exactly the names it reports. |
| PLogic.AddClausesMeaning | plogic.py:101-113 | The clauses `_add` appends are clean and hold under a variable valuation exactly when the formula clauses hold under the agreeing atom valuation. |
| PLogic.Add | plogic.py:15-19 | `add` records the formula and registers all its atoms, even those whose only clauses are dropped tautologies, and only appends clauses. |
| PLogic.AddRepresents | plogic.py:15-19 | Adding a formula keeps the store's invariant: the stored clauses are equivalent to the recorded formulas. |
| PLogic.FromFormulasRepresents | plogic.py:9-13 | A store built from a list of formulas records them and represents them. |
| PLogic.Sat | plogic.py:115-122 | `sat` leaves the store exactly as it found it: formulas, atom table and clause list. |
| PLogic.SatMeaning | plogic.py:115-122 | `sat` answers whether the formulas and the query, when one is given, have a common model. |
| PLogic.EntailMeaning | plogic.py:124-125 | `entail(f)` holds exactly when every model of the formulas makes `f` true. |
| PLogicExamples.AtomsOfExcludedMiddle | plogic.py:42-50 | Registering `a` twice numbers it once, as `1`. |
| PLogicExamples.ExcludedMiddleClause | plogic.py:91-96 | The clause `a, !a` is a tautology: nothing is stored and no name is reported new. |
| PLogicExamples.TautologyKeepsAtom | plogic.py:15-19 | After `add(a \| !a)`, no clause is stored but `a` stays in the atom table. |
| PLogicExamples.EmptyOrDropped | plogic.py:101-113 | `Or()` has no model, yet its one clause is empty, `_add` keeps no clause for it, and `sat` then answers true. |
| PLogicExamples.ClassicalScenario | plogic.py:225-232 | With `A` and `A -> !B \| (!A & C)` asserted, `D -> B` and `D -> A` are satisfiable, `!B \| E` is entailed, and neither `C` nor `E` is. |
| SppLogic.AddFormula | plogic.py:15-19 | `add` records the formula and registers exactly its atoms, and leaves the inconsistent list and the cache alone. |
| SppLogic.NormalizeAll | plogic.py:152-153 | Every formula has a PNNF exactly when none holds `Equiv`. The list then holds each formula's PNNF, in order. |
| SppLogic.Compile | plogic.py:150-153 | A `CPLogic` over the PNNF forms is built exactly when no formula holds `Equiv`. |
| SppLogic.FreshCacheValid | plogic.py:132-137 | A fresh store's cache is valid. |
| SppLogic.MakeTheoryFresh | plogic.py:146-157 | The cache is transparent: `_make_theory` returns exactly what compiling afresh would, and the cache stays valid. |
| SppLogic.SppSatMeaning | plogic.py:162-167 | `sat` answers exactly when no formula holds `Equiv` and the query either holds none or vanishes. The answer is whether some valuation makes the PNNF forms of the formulas and of the query true. |
| SppLogic.SppEntailMeaning | plogic.py:169-173 | `entail` answers exactly when the formulas and the query hold no `Equiv`. The answer is whether every model of the PNNF forms of the formulas makes the query's PNNF true. |
| SppLogic.NoInconsistentsSat | plogic.py:162-167 | With no inconsistent atom, `SPPLogic.sat` answers as `CPLogic.sat` over the same formulas, for any `Equiv`-free formulas and query. The PNNF keeps every clause of `to_CNF` and every atom, so the compiled store is `CPLogic`'s own. |
| SppLogic.NoInconsistentsEntail | plogic.py:169-173 | With no inconsistent atom, `SPPLogic.entail` answers as `CPLogic.entail` over the same formulas, for any `Equiv`-free formulas and query. |
| SppLogicExamples.ScenarioPnnf | plogic.py:236-242 | With `A` inconsistent, the PNNF of `A -> !B \| (!A & C)` turns `!A` into the atom `A^-`. |
| SppLogicExamples.ScenarioBuilt | plogic.py:234-242 | Two `add` calls and `set_inconsistents(['A'])` give the scenario state. |
| SppLogicExamples.InconsistentSat | plogic.py:242-244 | With `A` inconsistent, `D -> B` and `D -> A` are satisfiable. |
| SppLogicExamples.InconsistentEntail | plogic.py:245-248 | With `A` inconsistent, `A` is entailed, but `!B \| E`, `C` and `E` are not. |
| Grounds.Add | plogic.py:15-19 | `add` on either ground appends the formula, keeps the reading, and keeps a usable ground usable. |
| Grounds.Answers | plogic.py:162-173 | The paraconsistent ground answers every query it accepts without raising. |
| Grounds.SatMeaning | plogic.py:162-167 | `sat` on either ground decides whether the formulas and the query have a common model, in the ground's reading. The paraconsistent `sat` hands its PNNF to the classic `sat` of plogic.py:115-122. |
| Grounds.EntailMeaning | plogic.py:169-173 | `entail` on either ground decides consequence in the ground's reading. The classic `entail` of plogic.py:124-125 is the negated `sat`. |
| Subsets.CombMembership | dlogic.py:120 | `combinations(range(lo, n), k)` yields exactly the increasing position lists of length `k` within `lo..n-1`. |
| Subsets.CombNoDuplicates | dlogic.py:120 | `combinations` yields no position list twice. |
| Subsets.BySizeMembership | dlogic.py:119-120 | The size-by-size enumeration visits every subset of `0..n-1`, as an increasing position list. |
| Subsets.BySizeOrdered | dlogic.py:119-120 | The enumeration never visits a subset twice, nor a smaller subset after a larger one. |
| Subsets.BySizeStartsEmpty | dlogic.py:119-120 | The empty subset comes first. |
| Subsets.Pick | dlogic.py:120 | A chosen position list picks the elements at those positions, in order. |
| Closures.RunPass | dlogic.py:105-112 | A pass moves each rule of `ds` either to the applied rules or to `new_ds`, so the two together grow by exactly the rules of the pass. |
| Closures.RunPassGrows | dlogic.py:105-112 | A pass only appends. It applies only rules of `ds` that are in the candidate, and leaves every rule applied or kept. |
| Closures.RunPassIdle | dlogic.py:113-114 | A pass that applies nothing found no rule of `ds` firing. |
| Closures.CloseGrows | dlogic.py:104-115 | The loop applies only rules of `ds` that are in the candidate. |
| Closures.CloseSaturates | dlogic.py:104-115 | When the loop ends, no unapplied rule of `ds` fires at the applied rules. |
| Closures.CloseLeast | dlogic.py:102-116 | Run from no applied rule, the loop computes the least set closed under the rules of `ds`. When it ends, the applied rules are closed, lie in the candidate, and lie in every closed set. It rejects only a candidate that is not closed. |
| MinimalSets.PickSubset | spdl.py:76-77 | On an atom list without repeats, `subseteq(min_incs, incs)` holds exactly when the chosen positions are contained. |
| MinimalSets.Key | spdl.py:76-92 | A candidate escapes pruning and yields an extension exactly when it is minimal: it yields, and no candidate with strictly fewer of its atoms does. |
| MinimalSets.RunReference | spdl.py:71-94 | The search yields exactly the reference: every minimal candidate in enumeration order, with everything it yields. |
| MinimalSets.RunMeaning | spdl.py:71-94 | An item is yielded for a candidate list exactly when that list is a minimal candidate and the item is among what it yields. |
| MinimalSets.RunOrdered | spdl.py:74-75 | Results of smaller candidate lists come first. |
| MinimalSets.RunStopsAtEmpty | spdl.py:91-94 | When the empty candidate yields, the search yields just its results and tries nothing else. |
| DLogic.Reset | dlogic.py:44-46 | `reset` leaves no rules and a fresh ground of the same kind. |
| DLogic.AddFact | dlogic.py:54-55 | `add_fact` appends the fact to `w` and changes nothing else. |
| DLogic.AddRule | dlogic.py:57-58 | `add_rule` appends the rule to `d` and changes nothing else. |
| DLogic.BuildExtension | dlogic.py:88-92 | The extension holds `w`'s formulas followed by the chosen rules' consequents, in order, in a ground of the same kind and reading. |
| DLogic.ModelLink | dlogic.py:88-92 | The built extension has exactly the models of `w` and the chosen consequents. |
| DLogic.ApplicableMeaning | dlogic.py:94-99 | `ds` holds exactly the rules whose justification is consistent with the candidate's extension. |
| DLogic.FiresMeaning | dlogic.py:102-107 | The loop's test `iter_ext.entail(d.pre)` is consequence of the prerequisite from `w` and the consequents applied so far. |
| DLogic.ClosedLink | dlogic.py:104-112 | Closedness as the loop sees it is closedness in Reiter's sense. |
| DLogic.IsExtensionMeaning | dlogic.py:97-116 | `is_extension` holds exactly when the candidate generates an extension. Its rules are justified beside it, and it is the least set closed under the rules justified beside it. |
| DLogic.GeneratingMeaning | dlogic.py:118-121 | The search keeps exactly the generating rule sets, as increasing position lists. |
| DLogic.GeneratingOrdered | dlogic.py:118-121 | Generating sets come smallest first, each once. |
| DLogic.AllExtensions | dlogic.py:118-122 | One extension per generating set, in the same order, each holding `w` and that set's consequents. |
| DLogic.HasExtensionMeaning | dlogic.py:124-127 | `has_extension` holds exactly when some rule set generates an extension. |
| DLogic.SomeEntails | dlogic.py:66-70 | The loop answers true exactly when some listed extension entails the formula. |
| DLogic.EveryEntails | dlogic.py:72-76 | The loop answers true exactly when every listed extension entails the formula. |
| DLogic.CredulousMeaning | dlogic.py:66-70 | `credulous_entail(f)` holds exactly when `f` follows in some extension. |
| DLogic.SkepticalMeaning | dlogic.py:72-76 | `skeptical_entail(f)` holds exactly when `f` follows in every extension, so it holds when there is none. |
| Spdl.Transform | spdl.py:111-112 | `SPDLogic` stores formulas unchanged. `AnotherSPDLogic` stores their full PNNF and raises exactly on a formula holding `Equiv`. The identity transform is spdl.py:30-31. |
| Spdl.SubstTester | spdl.py:28-37 | Substituting an atom for `p` in the tester `p\|!p =) p&!p` gives that atom's tester. |
| Spdl.TesterNormal | spdl.py:36-37 | In a paraconsistent normal form that renames `a`, the tester's `=)` becomes an `Or` whose first operand keeps its outer `Not`. |
| Spdl.MakeTester | spdl.py:36-37 | The tester, transformed or not, holds no `Equiv` and no empty `And`/`Or`. |
| Spdl.TesterMeaning | spdl.py:28-37 | In both variants, the tester of `a` holds exactly when `a` and its twin `a^-` take the same value, that is, when `a` is not classical. |
| Spdl.MakeAssert | spdl.py:114-119 | The classic assertion of `a` mentions exactly `a` and its twin `a^-`, in that order. |
| Spdl.AssertForm | spdl.py:109-119 | Substituting the transforms of `a` and `!a` into `p <-> !q` at once gives `a <-> !a^-`. |
| Spdl.AssertMeaning | spdl.py:109-119 | The assertion holds exactly when `a` and `a^-` take opposite values. |
| Spdl.TransformSemantics | spdl.py:111-112 | The full PNNF keeps the truth value wherever every twin means the negation of its atom, and uses only atoms, `Not`, `And` and `Or`. |
| Spdl.Fresh | spdl.py:44-47 | A fresh object of either variant has no facts, no rules and no atoms. |
| Spdl.Reset | spdl.py:44-47 | `reset` returns to a fresh object of the same variant. |
| Spdl.AddFact | spdl.py:55-58 | The fact goes to `base` as written and to `cdl` transformed. `atoms` keeps its order and gains exactly the fact's new atoms. `AnotherSPDLogic` raises on a fact holding `Equiv`. |
| Spdl.AddRule | spdl.py:60-65 | The rule goes to `base` as written and to `cdl` with each part transformed. `atoms` gains exactly the new atoms of its prerequisite, justification and consequent. |
| Spdl.BuildAtoms | spdl.py:55-69 | After any sequence of facts and rules, `atoms` lists every atom name they mention, once each, in the order of first occurrence. |
| Spdl.AddAsserts | spdl.py:121-124 | Adding the classic assertions of some names appends exactly those assertions, in order, to `w`. |
| Spdl.MakeCdl | spdl.py:100-124 | `SPDLogic` reads the copy of `cdl` with the candidate's atoms inconsistent. `AnotherSPDLogic` adds the classic assertion of every atom outside the candidate. The rules are unchanged either way. The copy is made at spdl.py:39-42. |
| Spdl.MakeCdlModels | spdl.py:121-124 | The candidate theory of `AnotherSPDLogic` has exactly the models of `cdl` in which every atom outside the candidate is classical. |
| Spdl.Scan | spdl.py:82-90 | The loop over a candidate's extensions yields those, among the ones before the first unsatisfiable extension, that pass every tester. |
| Spdl.ScanMeaning | spdl.py:82-90 | An extension is yielded exactly when it and every extension before it are satisfiable and it passes every tester. |
| Spdl.IsSatMeaning | spdl.py:83-84 | `extension.sat()` holds exactly when the extension has a model. |
| Spdl.TesterSat | spdl.py:85-87 | A tester is satisfiable with an extension exactly when the atom is non-classical in some model of it. The check uses `sat`, not `entail`. |
| Spdl.PassesMeaning | spdl.py:85-89 | An extension passes the testers exactly when each candidate atom is non-classical in some model of it. |
| Spdl.QualifyingMeaning | spdl.py:80-90 | A candidate qualifies exactly those extensions of its candidate theory that, with every extension listed before them, have a model, and in which each candidate atom is non-classical in some model. |
| Spdl.AllExtensions | spdl.py:71-94 | Every extension yielded lives in the variant's ground and can be queried. |
| Spdl.ExtensionsMeaning | spdl.py:71-94 | The extensions are exactly those that some minimal candidate qualifies. |
| Spdl.ExtensionsStopAtEmpty | spdl.py:91-94 | When the classical reading already qualifies an extension, those extensions are all there are. |
| Spdl.QueryNames | spdl.py:130-133 | The atoms of the query that the theory does not mention, in the query's order and each as many times as the query mentions it. |
| Spdl.Query | spdl.py:126-137 | `SPDLogic` asks the formula as written. `AnotherSPDLogic` asks its transform, of a copy of `cdl` that also asserts every new atom of the transform classic. The object itself is left as it was. |
| Spdl.QueryModels | spdl.py:126-137 | The query's copy of `cdl` has the models of `cdl` in which every new atom of the query is classical. |
| Spdl.AnyEntails | dlogic.py:66-70 | True exactly when some extension entails the query. |
| Spdl.EveryEntails | dlogic.py:72-76 | True exactly when every extension entails the query. |
| Spdl.CredulousEntail | spdl.py:126-141 | `credulous_entail` holds exactly when some extension of the query's theory entails the query. |
| Spdl.SkepticalEntail | spdl.py:126-145 | `skeptical_entail` holds exactly when every extension of the query's theory entails the query. |
| Spdl.CredulousMeaning | spdl.py:126-141 | Credulous entailment is consequence in some extension, in its own reading. |
| Spdl.SkepticalMeaning | spdl.py:126-145 | Skeptical entailment is consequence in every extension, in its own reading. |
| Parser.SkipSpaceStops | parser.py:190-192 | `skip_space` passes only whitespace, and stops at the end or at a character that is not whitespace. |
| Parser.MatchSymbol | parser.py:172-181 | A symbol found is a table entry that starts at the position and is not cut out of a word: an entry ending in an alphanumeric character is skipped before an alphanumeric character. |
| Parser.MatchSymbolFirst | parser.py:172-181 | No table entry before the one found matches: the first match in table order wins. |
| Parser.MatchSymbolNone | parser.py:172-181 | When no symbol is found, no table entry matches. |
| Parser.LetterRunMaximal | parser.py:128 | The letter run is maximal: letters up to its end and no letter right after it. |
| Parser.AtomLengthLongest | parser.py:182-187 | The atom read is a whole match of `\\?[a-zA-Z]+(_[0-9])?` and the longest one. A length of 0 means no text matches there. The pattern is the one at parser.py:128. |
| Parser.Excerpt | parser.py:194-199 | The excerpt in an error is the input from the position on, cut to at most 7 characters. The length 7 is `error_length` at parser.py:129. |
| Parser.Next | parser.py:167-188 | Reading never moves back. It moves forward past every token but the end marker, and a failure is a syntax error located in the input. |
| Parser.ScanSymbol | parser.py:172-181 | Where a table entry matches and no earlier one does, the token is that entry's and reading moves past its text. |
| Parser.ScanAtom | parser.py:182-188 | Where no table entry matches, the token is the longest atom there. With none, the error is "Unknown symbol!" at the position, and no text there matches the atom pattern. |
| Parser.Advance | parser.py:157-165 | `advance(name)` succeeds only on the expected token. Otherwise it reports "Expect symbol" at the current position. The error text is built at parser.py:194-199. |
| Parser.Expression | parser.py:145-155 | An expression consumes at least one token, and it stops at a token that binds no tighter than `rbp`. Every error is located in the input. |
| Parser.Prefix | parser.py:44-91 | The prefix use of a token never moves back, and every error it reports is located. |
| Parser.Loop | parser.py:151-155 | The infix loop stops at a token that binds no tighter than `rbp`. |
| Parser.Infix | parser.py:68-102 | The infix use of a token never moves back, and every error it reports is located. |
| Parser.ParseTokens | parser.py:131-143 | Every error of a parse is located in the input. |
| Parser.Parse | parser.py:131-143 | Every error of `parse` is located in the input. |
| Parser.ParseBlank | parser.py:138-140 | An empty or all-whitespace input is the empty string error. |
| Parser.AsFormula | parser.py:68-83 | A parse result denotes a formula exactly when it holds no default rule. That formula has no empty `And`/`Or`. |
| Parser.AsRule | parser.py:94-102 | A parse result denotes a default rule exactly when it is a rule node whose three parts hold no rule. The rule's parts are those formulas. |
| Parser.Build | parser.py:68-83 | A binary node becomes the connective it names, with its two operands in order. The connectives come from `OP_LIST` at parser.py:111-118. |
| ParserLaws.TwoOps | parser.py:111-121 | For tokens `a c1 b c2 d`, `c2` takes `b` as its left operand exactly when it binds tighter than `c1`'s right power. So `&` and `\|` bind tighter than `->`, `=)` and `<->`; `&`, `\|` and `<->` group left; and `->` and `=)` group right. The left and right powers come from `infix` and `infix_r` at parser.py:68-77. |
| ParserLaws.NotFirst | parser.py:80-83 | In `! a c b` the negation covers only `a`, since every infix connective binds more loosely than `!`. The power 50 of `!` is set at parser.py:112. |
| ParserLaws.Grouped | parser.py:86-91 | In `a c1 ( b c2 d )`, the parentheses group the right operand whatever the two binding powers. |
| ParserLaws.RuleOf | parser.py:94-102 | `a : b / d` parses to a default rule. |
| ParserLaws.RuleWithoutSlash | parser.py:98-100 | `a : b d` fails with "Expect symbol: /" just past `d`. The failure comes from `advance` at parser.py:157-159. |
| ParserLaws.Leftover | parser.py:141-142 | `a b` fails with "Expect symbol: End" just past `b`. The failure comes from `advance` at parser.py:157-159. |
| ParserLaws.EndsEarly | parser.py:145-148 | `a c` with nothing after the connective ends too early. |
| ParserLaws.BadSecondToken | parser.py:167-188 | A reading failure right after the first atom is the parse's failure. The read happens at parser.py:149. |
| ParserLaws.LeadingEnd | parser.py:138-140 | An input whose first token is `End` is the empty string error. |
| ParserLaws.EndKeyword | parser.py:141-143 | `a End t` parses to `a`: the text after `End` is never parsed. `End` is a keyword by parser.py:106. |
| ParserExamples.AndThenOr | parser.py:113-114 | `p & q \| r` parses to `(p & q) \| r`. |
| ParserExamples.ImplyChain | parser.py:74-77 | `p -> q -> r` parses to `p -> (q -> r)`. `->` is right-grouping by parser.py:115. |
| ParserExamples.UnknownCharacter | parser.py:182-199 | `p ? q` fails with "Unknown symbol!" at position 2, quoting `? q`. |
| ParserExamples.EndWord | parser.py:172-181 | `p End q` parses to `p`. `End` is a keyword by parser.py:106. |
| DLogicExamples.EmptyTheory | dlogic.py:26-32 | `CPDLogic()` is the classical theory with no facts and no rules. |
| DLogicExamples.ResetEmpty | dlogic.py:44-46 | `reset` on a classical theory gives the theory with no facts and no rules. |
| DLogicExamples.FactTheory | dlogic.py:54-55 | Adding a fact to the theory with facts `fs` gives the theory with facts `fs` followed by that fact, with the rules unchanged. |
| DLogicExamples.RuleTheory | dlogic.py:57-58 | Adding a rule appends it to the rules and keeps the facts. |
| DLogicExamples.TheoryBuilt | dlogic.py:133-137 | A theory built from proper facts keeps them in order, in a store that represents them. |
| DLogicExamples.FlierGenerates | dlogic.py:133-137 | With the facts `tweety`, `tweety->bird`, `penguin->!fly` and the rule `bird:fly/fly`, exactly the set holding the rule generates an extension. |
| DLogicExamples.FlierScenario | dlogic.py:133-139 | That theory has an extension, and `fly` is skeptically entailed. |
| DLogicExamples.CaughtModels | dlogic.py:140-141 | Once `tweety->penguin` is added, `fly` is false in every model of the facts and any chosen consequents. |
| DLogicExamples.CaughtGenerates | dlogic.py:140-141 | Then the fly rule is never justified, and only the empty set generates an extension. |
| DLogicExamples.CaughtScenario | dlogic.py:140-141 | Then `fly` is not credulously entailed. |
| DLogicExamples.WinglessModels | dlogic.py:143-148 | The bird facts with `!bird` have no model, whatever rules are chosen. |
| DLogicExamples.WinglessGenerates | dlogic.py:143-149 | Then only the empty set generates an extension. |
| DLogicExamples.WinglessScenario | dlogic.py:143-150 | Then the theory has an extension and skeptically entails the unrelated atom `hahaha`. |
| DLogicExamples.ConflictGenerates | dlogic.py:152-158 | With both `bird:fly/fly` and `tweety:fly/!fly`, no set of rules generates an extension. |
| DLogicExamples.ConflictScenario | dlogic.py:152-160 | That theory has no extension, does not credulously entail `bird`, and skeptically entails `hahaha`. |
| DLogicExamples.ChoicesFacts | dlogic.py:162-165 | With the fact `T` and the rules `T:!p/q` and `T:!q/p`, each rule is blocked once the other is chosen and admitted while it is not. |
| DLogicExamples.ChoicesGenerates | dlogic.py:162-165 | Exactly the two single-rule sets generate an extension. |
| DLogicExamples.ChoicesCredulous | dlogic.py:162-167 | Both `p` and `q` are credulously entailed. |
| DLogicExamples.ChoicesSkeptical | dlogic.py:162-169 | Neither `p` nor `q` is skeptically entailed. |
| DLogicExamples.ChoicesCount | dlogic.py:162-170 | The search yields exactly two extensions. |

## Left out

- An empty `And()` or `Or()` gives an empty clause, and `_add` keeps only non-empty clauses (plogic.py:109). The store then reads `Or()` as true although it has no model (`PLogicExamples.EmptyOrDropped`). The meaning lemmas below are therefore stated for formulas without an empty `And`/`Or` (`Proper`, and `DLogic.WellFormed` and the healthy grounds, which ask for it):
- PLogic.AddRepresents: needs a `Proper` formula, because an empty clause is dropped and the store stops representing its formulas.
- PLogic.FromFormulasRepresents: needs `Proper` formulas, for the same reason.
- PLogic.SatMeaning: needs a `Proper` theory and query. On `Or()` the source answers true with no model.
- PLogic.EntailMeaning: needs a `Proper` theory and query, for the same reason.
- SppLogic.SppSatMeaning: needs `Proper` formulas and query, since it rests on `PLogic.SatMeaning`.
- SppLogic.SppEntailMeaning: needs `Proper` formulas and query, since it rests on `PLogic.EntailMeaning`.
- Grounds.AddHealthy: keeps a ground healthy only for a `Proper` formula.
- Grounds.SatMeaning: needs a healthy ground and a `Proper` query, for either reading.
- Grounds.EntailMeaning: needs a healthy ground and a `Proper` query, for either reading.
- DLogic.ApplicableMeaning: stated under `DLogic.WellFormed`, that is, `Proper` facts and rule parts.
- DLogic.FiresMeaning: stated under `DLogic.WellFormed`.
- DLogic.ClosedLink: stated under `DLogic.WellFormed`.
- DLogic.HasExtensionMeaning: stated under `DLogic.WellFormed`.
- DLogic.CredulousMeaning: stated under `DLogic.WellFormed`, for a `Proper` query.
- DLogic.SkepticalMeaning: stated under `DLogic.WellFormed`, for a `Proper` query.
- Spdl.IsSatMeaning: stated for a healthy extension ground.
- Spdl.TesterSat: stated for a healthy extension ground.
- Spdl.PassesMeaning: stated for a healthy extension ground.
- Spdl.QualifyingMeaning: stated under `DLogic.WellFormed` for the candidate theory.
- Spdl.CredulousMeaning: stated under `DLogic.WellFormed`, for a `Proper` query.
- Spdl.SkepticalMeaning: stated under `DLogic.WellFormed`, for a `Proper` query.
- DLogic.IsExtension: rules are named by position, and the source tests `d not in rules` by object identity (dlogic.py:108). The two agree only when no rule object is added twice. With one rule object `r` added twice, the source accepts `(r,)` at both positions as well as `(r, r)`, while the model accepts only both positions together.
- DLogic.IsExtensionMeaning: characterises the position-based `IsExtension`, so it carries the same restriction on a rule object added twice.
- DLogic.GeneratingMeaning: lists generating position lists. With a rule object added twice, the source's list also holds each single position. `has_extension` and the entailment answers agree either way. The Spdl reasoning is unaffected, since it reasons over the classical theory, which gets a fresh rule object on every `add_rule` (spdl.py:60-65).
- `copy()` (plogic.py:29-33,67-70; dlogic.py:48-52; spdl.py:49-53): states are immutable values, so a copy is the value itself, and changes to a copy never reach the original.
- `pycosat.solve` is a foreign call. `Solver.Solve` stands in for it and is proved to decide satisfiability. Its `UNKNOWN` outcome (plogic.py:122) is assumed not to arise.
- Sharing of the `SPPLogic` cache between copies (plogic.py:137,143) and the `_use_cache` switch: the cache is modelled as always on, with a lemma that a hit equals a fresh compilation.
- Grounds.Sat: does not return the updated `SPPLogic` cache, because a valid cache never changes an answer (`SppLogic.MakeTheoryFresh`).
- `SPDLogicSkeleton.has_extension` (spdl.py:96-97) returns true unconditionally. It carries no property and is not modelled.
- The search of `spdl.py` and `dlogic.py` is modelled as the list a generator would yield. Laziness is not modelled: a caller that stops early sees a prefix of that list.
- The paraconsistent reasoners (`SPPLogic`, `AnotherSPDLogic`) are modelled on `Equiv`-free input, where the source does not raise. A formula holding `Equiv` is an error value (`None`) or excluded by a precondition.
- The round trip `to_plain(parse(str(f))) == to_plain(f)` (plogic.py:218-223) is not proved. Parser results are characterised by the laws in `ParserLaws` and the concrete cases in `ParserExamples` instead.
- Non-ASCII alphanumerics: the test after a symbol that ends in a letter or digit is ASCII only, whereas Python's `str.isalnum` also accepts non-ASCII letters and digits.
- Parsing in the LaTeX format (`SYMBOLS['latex']`) shares the modelled table and parser, but has no concrete examples.
- The worked scenarios of dlogic.py:133-170 are stated for every classical theory built from their facts and rules in order, not for the concrete store `CPLogic` would hold. `DLogicExamples.FactTheory` and its neighbours show that the calls build such a theory.
- The scenario of plogic.py:249-268 (with `=)` and later additions) is not stated as a concrete case. plogic.py:234-248 is.
- `__repr__` strings, the `set_atom_renamer` hook (visitor.py:189-190), the `__main__` blocks (used only as scenarios), and the LaTeX rendering of theories (visitor.py:71-81, modelled as functions without properties).
- `DefaultRule.__str__` (dlogic.py:22-23) is modelled by `Rules.RenderRule` without a property.
- dataset.py, gui.py and the JavaScript interface: file I/O and user interface.
