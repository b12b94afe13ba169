# cobrapy reaction network and ME-model core, in Dafny

This project models the referential-integrity core of cobrapy's reaction network and states
properties of that model. The core covers:

- a `Reaction` with its metabolite→coefficient map, its gene set, and the `_reaction`
  back-references that metabolites and genes keep to it;
- the enzyme objects of the ME extension (`Modification`, `Complex`, `Catalyst`, `Subunit`), whose
  ids are computed from their composition and which stay keyed by that id in their model's
  collections;
- the compilation of a reaction's gene rule into complexes (`CatalyzedReaction`), with the rule
  tokenizer `split_logical_string`;
- the conversion of a model into an `ME_Model`, its `__setstate__` re-pointing, and the staged
  guided copy of its enzymes;
- the MetaNetX reaction signatures, with the two id normalisations that go with them.

Objects whose fields cobrapy updates in place are Dafny classes, all in the module `Graph`
(graph.dfy). They reference each other cyclically, so they share one module. A `DictList` is a
sequence: of objects where keys never change, and of `Entry(key, item)` pairs where an object's id
can change under its key. The operations live in one module per source file. Pure queries are
functions with lemmas. Code that changes objects step by step is a method with loop invariants,
proved against a specification function.

| file | module | models |
|---|---|---|
| graph.dfy | Graph | the entity classes, `DictList` lookups and removal |
| stoichiometry.dfy | Stoichiometry | metabolite maps seen by id: the merge of `add_metabolites`, zero removal, scaling, sides, `boundary`, `get_coefficient` |
| reactions.dfy | Reactions | the state-changing operations of `Reaction` |
| reaction_algebra.dfy | ReactionAlgebra | `__add__` / `__sub__` on reaction values |
| reaction_string.dfy | ReactionStrings | `build_reaction_string` |
| mass_balance.dfy | MassBalance | `check_mass_balance` |
| gene_rules.dfy | GeneRules | the gene-id scraper of `parse_gene_association` |
| logic.dfy | LogicStrings | `_update_logic` and `split_logical_string` |
| enzyme.dfy | Enzyme | `Modification`, `Complex`, `Catalyst`, `Subunit` |
| catalyzed_reaction.dfy | CatalyzedReactions | conversion of a `Reaction`, rule compilation, `guided_copy` |
| me_model.dfy | MeModel | `ME_Model.__init__` and `__setstate__` |
| me_copy.dfy | MeCopy | the enzyme stages of `ME_Model.copy` |
| metanetx.dfy | MetaNetX | reaction signatures, bigg id normalisation, compartment-suffix strip |
| text.dfy, wrappers.dfy | Text, Wrappers | string helpers; `Option` and `Result` |

## Model

| member | source | states |
|---|---|---|
| Graph.Reaction.constructor | cobra/core/Reaction.py:27-52 | a new reaction has an empty rule, no metabolites and no genes, and bounds 0 and 1000, so it is irreversible |
| Graph.Modification.constructor | cobra/core/me/Enzyme.py:11-15 | the default modification is `Empty_Modification` with an empty composition and no logic |
| Graph.Complex.constructor | cobra/core/me/Enzyme.py:82-99 | a new complex has no subunits, catalysts, modifications or links, and no model |
| Graph.Catalyst.FromComplex | cobra/core/me/Enzyme.py:294-312 | a catalyst built from a complex is named `Catalyst` plus the complex id with its leading characters from {C,o,m,p,l,e,x} stripped, and points to that complex |
| Graph.Catalyst.FromId | cobra/core/me/Enzyme.py:294-312 | a catalyst built from a string takes that id and has no complex |
| Graph.Model.AddMetabolites | cobra/core/Reaction.py:411-412 | the model gains exactly the metabolites whose ids it does not hold yet |
| Graph.FirstHolding | cobra/core/Reaction.py:104 | the index of the first entry holding the object, or the length when none does |
| Graph.RemoveEntry | cobra/core/me/Enzyme.py:183 | `DictList.remove` raises `ValueError` exactly when no entry holds the object; otherwise the list is one entry shorter |
| Graph.RemoveItemAt | cobra/core/me/Enzyme.py:183 | removing an object from a `DictList` raises exactly when no entry holds it; otherwise it drops exactly the first entry holding it and keeps the order of the rest |
| Graph.RemoveItemUnique | cobra/core/me/Enzyme.py:179-193 | removal keeps a list without repeated objects free of repeats, and removes every entry of that object |
| Graph.AppendUnique | cobra/core/me/Enzyme.py:179-193 | appending an object not yet listed keeps the list free of repeats |
| Graph.LookupKey | cobra/core/me/CatalyzedReaction.py:168-177 | a key lookup finds an entry with that key, or there is none |
| Stoichiometry.IdIndex | cobra/core/Reaction.py:386-387 | the id→metabolite index covers exactly the ids of the map and sends each id to its metabolite |
| Stoichiometry.IdView | cobra/core/Reaction.py:386-402 | the map seen by id holds every metabolite's coefficient under its id |
| Stoichiometry.Introduced | cobra/core/Reaction.py:396-399 | the metabolites `add_metabolites` inserts are taken from the delta |
| Stoichiometry.IntroducedAreNew | cobra/core/Reaction.py:390-399 | an inserted metabolite matches no existing id |
| Stoichiometry.IntroducedCovers | cobra/core/Reaction.py:390-399 | every delta entry whose id is not yet present is inserted |
| Stoichiometry.FoldById | cobra/core/Reaction.py:386-402 | the per-entry loop, seen by id, is the combine-or-replace merge of the two maps, and keeps every old key object |
| Stoichiometry.DropZeros | cobra/core/Reaction.py:403-408 | no zero coefficient is left, and every non-zero entry is kept unchanged |
| Stoichiometry.DropZerosView | cobra/core/Reaction.py:403-408 | seen by id, removing the zero entries is filtering out zero values |
| Stoichiometry.WithoutZeros | cobra/core/Reaction.py:403-408 | popping the metabolites found at 0 is removing the zeros |
| Stoichiometry.AddedById | cobra/core/Reaction.py:386-408 | `add_metabolites` on the map, seen by id, is `Merge`: sum or overwrite per id, then drop zeros |
| Stoichiometry.NegateItemsView | cobra/core/Reaction.py:429-431 | negating the delta entry by entry negates its by-id view |
| Stoichiometry.AddThenRemoveRestores | cobra/core/Reaction.py:386-408 | adding `c` of an id and then `-c` restores a zero-free map |
| Stoichiometry.SubtractSelfEmpty | cobra/core/Reaction.py:415-432 | subtracting a map from itself leaves nothing |
| Stoichiometry.DifferenceThenSumRestores | cobra/core/Reaction.py:415-432 | subtracting `b` and then adding `b` restores a zero-free map |
| Stoichiometry.SumCommutes | cobra/core/Reaction.py:386-408 | combining merges commute |
| Stoichiometry.ReplaceIdempotent | cobra/core/Reaction.py:400-402 | replacing with `combine=False` twice equals once |
| Stoichiometry.MergeIntoEmpty | cobra/core/Reaction.py:386-408 | adding into an empty reaction keeps the non-zero entries |
| Stoichiometry.Abs | cobra/core/Reaction.py:448 | the absolute value is non-negative, 0 only at 0, and is `x` or `-x` |
| Stoichiometry.Scale | cobra/core/Reaction.py:251-267 | scaling keeps the same metabolites |
| Stoichiometry.ScaleInverse | cobra/core/Reaction.py:251-267 | multiplying by `k` and then by `1/k` restores the map |
| Stoichiometry.ScaleKeepsNoZeros | cobra/core/Reaction.py:251-267 | a zero-free map stays zero-free exactly when `k` is not 0 or the map is empty |
| Stoichiometry.Reactants | cobra/core/Reaction.py:328-334 | reactants are metabolites of the reaction |
| Stoichiometry.Products | cobra/core/Reaction.py:320-326 | products are metabolites of the reaction |
| Stoichiometry.ReactantsProductsPartition | cobra/core/Reaction.py:320-334 | in a zero-free map, reactants and products are disjoint and cover all metabolites |
| Stoichiometry.ReverseSwapsSides | cobra/core/Reaction.py:251-267 | multiplying by -1 swaps reactants and products |
| Stoichiometry.Boundary | cobra/core/Reaction.py:66-76 | `boundary` fails exactly on an empty reaction, where `min` has no argument |
| Stoichiometry.BoundaryOneSided | cobra/core/Reaction.py:66-76 | on a non-empty reaction, `boundary` is `system_boundary` iff there is one metabolite or one side is empty |
| Stoichiometry.GetCoefficient | cobra/core/Reaction.py:347-359 | the coefficient is found iff some metabolite has that id, and it is that metabolite's coefficient |
| Reactions.AddMetabolites | cobra/core/Reaction.py:370-412 | the new map is the combine-or-replace merge without zeros, and the reaction stays consistent with its back-references. A metabolite that drops out loses the reaction, and an inserted one gains it unless it dropped out again. Delta metabolites matched by id are untouched. Only inserted metabolites are forwarded to the model |
| Reactions.ForwardToModel | cobra/core/Reaction.py:411-412 | with a model and `add_to_container_model`, the model gains the inserted metabolites it lacks |
| Reactions.UpdateMetabolites | cobra/core/Reaction.py:386-408 | merge and zero sweep together: the new map and the back-reference changes of old, inserted and matched metabolites |
| Reactions.MergeDelta | cobra/core/Reaction.py:386-402 | the loop over the delta computes the per-entry fold, and each delta metabolite gains the reaction iff its id was new |
| Reactions.MergeOne | cobra/core/Reaction.py:389-402 | one loop step: matched ids update the existing key object, new ids are inserted and learn the reaction |
| Reactions.SweepZeros | cobra/core/Reaction.py:403-408 | the zero entries are popped and exactly those metabolites lose the reaction |
| Reactions.PopAll | cobra/core/Reaction.py:403-408 | popping a set of metabolites removes them, and each loses the reaction |
| Reactions.Pop | cobra/core/Reaction.py:199-209 | an absent metabolite is an error with nothing changed. A present one is removed and loses the reaction, and its coefficient is returned iff it knew the reaction. On a consistent reaction, success is exactly presence |
| Reactions.AddGene | cobra/core/Reaction.py:529-544 | the gene is added, learns the reaction, and takes the reaction's model |
| Reactions.RemoveGene | cobra/core/Reaction.py:512-527 | the gene is removed and forgets the reaction if it was there |
| Reactions.Delete | cobra/core/Reaction.py:119-133 | the reaction ends with no model, metabolites or genes, and all its old metabolites and genes forget it |
| Reactions.RemoveFirst | cobra/core/Reaction.py:104 | `list.remove` drops one occurrence: one element shorter, same multiset less that element |
| Reactions.CopyMetabolites | cobra/core/Reaction.py:113-117 | deep copies of the metabolites: fresh, with no back-references, and the same coefficients by id |
| Reactions.CopyItems | cobra/core/Reaction.py:113-117 | copies entry by entry keep ids, coefficients and order, are fresh and pairwise distinct |
| Reactions.Multiply | cobra/core/Reaction.py:251-267 | `*=` and `*` scale every coefficient by the factor, keep zero entries, and keep the reaction consistent |
| Reactions.SubtractMetabolites | cobra/core/Reaction.py:415-432 | seen by id, the new map is the old one merged with the negated delta. Old metabolites that reach 0 lose the reaction, the inserted ones are fresh copies for ids not yet present, and these are forwarded to the model |
| Reactions.RemoveFromModel | cobra/core/Reaction.py:88-117 | succeeds iff the reaction is in its model and any given model is that one; otherwise nothing changes, including the back-references of its metabolites and genes. On success the model's list loses one occurrence, the old metabolites and genes forget the reaction, and it is rebuilt on fresh copies with the same non-zero coefficients and gene ids. Only the reaction's model, metabolites and genes may change; its id, name, rule, bounds, objective and enzyme fields stay |
| Reactions.Remove | cobra/core/Reaction.py:102-117 | the success path of `remove_from_model`: the reaction leaves its model's list and its model, the old metabolites and genes forget it, and it is rebuilt on fresh copies with the same non-zero coefficients and gene ids; its other fields stay |
| Reactions.Detach | cobra/core/Reaction.py:102-111 | the reaction leaves the model's list and the model, every old metabolite and gene forgets it, and its maps are emptied after deep copies of its metabolites are taken with the same coefficients by id; its other fields stay |
| Reactions.Rebuild | cobra/core/Reaction.py:113-117 | re-adding the copies and fresh genes yields a consistent reaction with the copies' non-zero coefficients and the same gene ids |
| Reactions.RebuildMetabolites | cobra/core/Reaction.py:113-116 | re-adding the copied metabolites to an empty reaction |
| Reactions.RebuiltView | cobra/core/Reaction.py:113-116 | adding entries into an empty map gives their non-zero view |
| Reactions.AddGeneCopies | cobra/core/Reaction.py:116-117 | the reaction gains one fresh gene per old gene id, each knowing the reaction |
| Reactions.ParseGeneAssociation | cobra/core/Reaction.py:270-281 | for kind `gene`, the genes are replaced by fresh ones whose ids are exactly the rule's gene ids, each knowing the reaction. Any other kind changes nothing |
| Reactions.NewGenes | cobra/core/Reaction.py:276-281 | one fresh gene per id, all knowing the reaction |
| Reactions.Repoint | cobra/core/Reaction.py:185-187 | each coefficient moves to the table's metabolite of the same id |
| Reactions.RepointById | cobra/core/Reaction.py:185-187 | re-pointing through an id table keeps the map seen by id |
| Reactions.CopiedGenes | cobra/core/Reaction.py:185-187 | the copy's genes have the same ids; without a gene table they are the original genes |
| Reactions.CopyAttributes | cobra/core/Reaction.py:169-184 | the copy is fresh, keeps id, attributes and enzyme fields, and takes the given model, metabolites and genes |
| Reactions.GuidedCopy | cobra/core/Reaction.py:169-197 | the copy is fresh, keeps id, bounds, rule and name, points to the given model, uses the table's metabolites and genes, and every one of them learns the copy |
| Reactions.Introduce | cobra/core/Reaction.py:78-84 | `_update_awareness`: all metabolites and genes of the reaction learn it |
| ReactionAlgebra.SumAddsCoefficients | cobra/core/Reaction.py:211-233 | `a + b` holds the sum of the coefficients of each id, and no zero |
| ReactionAlgebra.DifferenceSubtractsCoefficients | cobra/core/Reaction.py:235-249 | `a - b` holds the difference of the coefficients of each id, and no zero |
| ReactionAlgebra.SelfDifferenceIsEmpty | cobra/core/Reaction.py:235-249 | `r - r` has no metabolites and id `r.id + '_' + r.id` |
| ReactionAlgebra.SumThenDifference | cobra/core/Reaction.py:211-249 | `(a + b) - b` has the metabolites of `a` |
| ReactionAlgebra.SumCommutesOnContents | cobra/core/Reaction.py:211-233 | `a + b` and `b + a` have the same coefficients and genes |
| ReactionAlgebra.SumKeepsRuleGenes | cobra/core/Reaction.py:221-232 | when each operand's genes are its rule's, the sum's genes are those of the combined `'ra and rb'` rule |
| ReactionAlgebra.CoefficientsDetermine | cobra/core/Reaction.py:347-359 | zero-free maps with equal coefficients everywhere are equal |
| ReactionStrings.Arrow | cobra/core/Reaction.py:453-459 | `<=>` iff reversible (`lower < 0 < upper`), `<-` iff `lower < 0` and `upper <= 0`, `->` iff `lower >= 0` |
| ReactionStrings.Ordered | cobra/core/Reaction.py:442-443 | each side lists its metabolites once each, sorted; the model sorts by id where the source sorts the Metabolite objects |
| ReactionStrings.BuildReactionString | cobra/core/Reaction.py:436-471 | the string is the sorted reactant terms (sorted by id in this model), then the arrow for the bounds, then the product terms. Each term is `repr(coefficient) id`, with the reactant coefficients made positive. The whole string is stripped of `' + '` characters at both ends |
| ReactionStrings.AppendSide | cobra/core/Reaction.py:444-452 | the loop over one side appends `' + '` and one term per metabolite |
| ReactionStrings.ReactionStringAsWritten | cobra/core/Reaction.py:469-470 | with both sides non-empty, the string keeps a `' + '` right after the arrow |
| ReactionStrings.SideJoin | cobra/core/Reaction.py:444-452 | stripping one accumulated side gives its terms joined by `' + '` |
| ReactionStrings.IntendedReactionStringSides | cobra/core/Reaction.py:436-471 | stripping each side on its own gives reactant terms, arrow, product terms, with no `' + '` next to the arrow |
| MassBalance.TermsOf | cobra/core/Reaction.py:480-484 | every metabolite contributes its coefficient and formula |
| MassBalance.Weighted | cobra/core/Reaction.py:482-484 | a formula weighted by a coefficient multiplies every element count |
| MassBalance.ElementsOf | cobra/core/Reaction.py:480-484 | the elements are exactly those in some metabolite's formula |
| MassBalance.Residuals | cobra/core/Reaction.py:480-484 | each element's residual is its coefficient-weighted atom sum |
| MassBalance.CheckMassBalance | cobra/core/Reaction.py:474-488 | the report is empty for a balanced reaction, otherwise the reaction id and the residual of every element |
| MassBalance.ElementSums | cobra/core/Reaction.py:480-484 | the loop over metabolites computes the residual of every element |
| MassBalance.AddFormula | cobra/core/Reaction.py:482-484 | one loop step adds a weighted formula element by element |
| MassBalance.AbsTotal | cobra/core/Reaction.py:485 | the loop sums the absolute residuals |
| MassBalance.BalancedIff | cobra/core/Reaction.py:474-488 | the result is `[]` iff every element's weighted sum is 0 |
| MassBalance.UnbalancedReport | cobra/core/Reaction.py:485-488 | otherwise it carries the reaction id and residuals over all elements, and some residual is non-zero |
| MassBalance.NoFormulaIgnored | cobra/core/Reaction.py:481 | metabolites without a formula do not change the residuals |
| GeneRules.Scrub | cobra/core/Reaction.py:276-278 | scrubbing never lengthens the rule |
| GeneRules.Collapse | cobra/core/Reaction.py:278 | collapsing spaces never lengthens the rule |
| GeneRules.GeneIdsAreWords | cobra/core/Reaction.py:276-281 | every gene id found is non-empty and has no space, parenthesis or `+` |
| GeneRules.ScrubAlternating | cobra/core/Reaction.py:276-278 | on a rule alternating gene terms and `and`/`or`, scrubbing leaves the terms separated by single spaces |
| GeneRules.GeneIdsOfAlternating | cobra/core/Reaction.py:276-281 | so such a rule yields exactly its gene terms |
| GeneRules.WordsCollapse | cobra/core/Reaction.py:278 | collapsing runs of spaces does not change the words |
| GeneRules.GeneIdsConjunction | cobra/core/Reaction.py:227-232 | the genes of `'ra and rb'` are the genes of `ra` and of `rb` |
| GeneRules.GeneIdsEmpty | cobra/core/Reaction.py:276-281 | an empty rule has no genes |
| LogicStrings.Terms | cobra/core/me/Enzyme.py:433-434 | one `id(n)` term per key |
| LogicStrings.TermsAt | cobra/core/me/Enzyme.py:433-434 | the i-th term is the i-th id followed by its integer in parentheses |
| LogicStrings.UpdateLogic | cobra/core/me/Enzyme.py:425-435 | the logic string is absent exactly for an empty composition |
| LogicStrings.ParseAtom | cobra/core/me/tools.py:18-32 | an atom without `(` maps to 1, a parsed key has no `(`, and more than one `(` is an error |
| LogicStrings.SplitLogicalString | cobra/core/me/tools.py:4-35 | each ` AND `-separated atom `id(n)` maps id to n, a bare atom to 1, a later atom overwrites an earlier one, and an atom with more than one `(` or a non-integer count is an error |
| LogicStrings.CollectSucceeds | cobra/core/me/tools.py:16-33 | parsing succeeds iff every atom parses |
| LogicStrings.CollectKeys | cobra/core/me/tools.py:16-33 | the keys are exactly the atoms' names |
| LogicStrings.CollectLastWins | cobra/core/me/tools.py:16-33 | a repeated key keeps the value of its last atom |
| LogicStrings.TermParses | cobra/core/me/tools.py:18-32 | an `id(n)` term parses back to `(id, n)` |
| LogicStrings.LogicAtoms | cobra/core/me/tools.py:12-13 | splitting a logic string on ` AND ` gives back its terms |
| LogicStrings.LogicRoundTrip | cobra/core/me/tools.py:4-35 | `split_logical_string` inverts `_update_logic` for plain ids |
| Enzyme.IdViewKeys | cobra/core/me/Enzyme.py:49-52 | a composition seen by id has exactly its members' ids |
| Enzyme.IdViewEmpty | cobra/core/me/Enzyme.py:45-48 | a composition seen by id is empty iff the composition is |
| Enzyme.ComposeId | cobra/core/me/Enzyme.py:173-190 | the loop appends the sorted `__{v}_{id}` terms to the prefix |
| Enzyme.AppendTerms | cobra/core/me/Enzyme.py:186-190 | one term appended per key, in the given order |
| Enzyme.IdTermsEmpty | cobra/core/me/Enzyme.py:186-190 | the suffix is empty iff there are no keys, and otherwise starts with `__` |
| Enzyme.SuffixEmpty | cobra/core/me/Enzyme.py:45-52 | the id suffix is empty exactly for an empty composition, and a single pair gives one term |
| Enzyme.UpdateModificationId | cobra/core/me/Enzyme.py:39-53 | `Empty_Modification` for an empty composition, else `Modification` plus the sorted terms; the logic is updated iff the composition is non-empty |
| Enzyme.AddSpecies | cobra/core/me/Enzyme.py:27-38 | a species is recorded with its stoichiometry and the id and logic recomputed; a non-species is rejected with nothing changed |
| Enzyme.UpdateComplexId | cobra/core/me/Enzyme.py:173-193 | a complex in a model that does not list it stops at the `ValueError` of `remove` with nothing changed; otherwise the id is `Complex` plus the sorted subunit terms, and in a model the complex is moved to the end of `complexes` under its new id, or left out of it when it has no subunits and `_update_logic` raises |
| Enzyme.RenameComplex | cobra/core/me/Enzyme.py:181-190 | the id is recomputed from the subunits, and the logic too when there are any |
| Enzyme.RelistKeepsKeysCurrent | cobra/core/me/Enzyme.py:179-193 | removing and re-appending under the new id keeps every key equal to its object's id |
| Enzyme.RecordSubunit | cobra/core/me/Enzyme.py:131-145 | a subunit already present is left alone; a new one gets its stoichiometry, goes to the polypeptide or RNA set by its kind, and learns the complex only when awareness is asked |
| Enzyme.AddSubunit | cobra/core/me/Enzyme.py:113-146 | as above; then a complex its model does not list stops at the `ValueError` of `_update_id`, with id, logic and the model's list unchanged, and any other complex has its id and logic recomputed and is re-keyed in its model |
| Enzyme.RecordSubunits | cobra/core/me/Enzyme.py:124-129 | flattening a complex adds each inner subunit with its stoichiometry times the outer one |
| Enzyme.AddSubcomplex | cobra/core/me/Enzyme.py:124-129 | adding a complex flattens it, records the sub/supercomplex link both ways, and renames and re-keys when the subcomplex has subunits; for a complex its model does not list, one subunit is recorded, the `ValueError` stops the loop, and no link or id changes |
| Enzyme.Link | cobra/core/me/Enzyme.py:127-128 | the sub/supercomplex link is recorded both ways |
| Enzyme.CloseSubcomplex | cobra/core/me/Enzyme.py:124-129 | the links are recorded, the subunits are untouched, and the id is recomputed and re-keyed exactly when the subcomplex has subunits, even ones the complex already had |
| Enzyme.UpdateSubunitStoichiometry | cobra/core/me/Enzyme.py:148-170 | the stoichiometries are overwritten; each catalyst is renamed from the ids of its own modifications and re-keyed in `model.catalysts`; then the complex is renamed from its new subunits and re-keyed, which fails with the `ValueError` of `remove` when its model does not list it |
| Enzyme.Rekey | cobra/core/me/Enzyme.py:179-193 | for a complex with subunits, `_update_id` raises `ValueError` with nothing changed exactly when its model does not list it; otherwise the id and logic are recomputed from the subunits, and the complex moves to the end of `model.complexes` under its new id |
| Enzyme.RelistAsWritten | cobra/core/me/Enzyme.py:159-168 | as written, the catalyst loop raises `AttributeError` exactly when the complex is in a model, has a catalyst, and the attribute read is not one of the model's enzyme lists; otherwise it re-keys every catalyst |
| Enzyme.CatalystTypoRaises | cobra/core/me/Enzyme.py:166-168 | with the attribute `catalyst` the loop fails for any complex in a model with a catalyst, and with `catalysts` it re-keys them all |
| Enzyme.UpdateCatalysts | cobra/core/me/Enzyme.py:158-169 | catalysts are renamed and re-keyed in `model.catalysts`, keeping keys current |
| Enzyme.RefreshCatalyst | cobra/core/me/Enzyme.py:160-169 | one catalyst: renamed and re-keyed in the model when its names are non-empty |
| Enzyme.RekeyCatalyst | cobra/core/me/Enzyme.py:164-168 | the catalyst moves to the end of `model.catalysts` under its current id, keeping keys current |
| Enzyme.RefreshCatalysts | cobra/core/me/Enzyme.py:158-169 | every catalyst of the complex is renamed from its modifications exactly when the update dict `d` and that catalyst's modifications are non-empty, and the catalyst keys stay current |
| Enzyme.RenameCatalyst | cobra/core/me/Enzyme.py:160-163 | the catalyst id is `Catalyst` plus the sorted modification terms, and the logic follows the modifications or, without any, the update dict `d` |
| Enzyme.UpdateCatalystId | cobra/core/me/Enzyme.py:351-362 | the id is the prefix plus the sorted modification terms; the logic is updated iff there are any |
| Enzyme.Applied | cobra/core/me/Enzyme.py:341-344 | a repeated modification keeps its stoichiometry, a new one gets the given one |
| Enzyme.Modify | cobra/core/me/Enzyme.py:333-349 | a non-modification changes nothing; otherwise the map is updated and the id extended with the terms of the updated map |
| Enzyme.ModKey | cobra/core/me/Enzyme.py:222-223 | the key of the modification map is absent exactly for a missing modification |
| Enzyme.CreateCatalyst | cobra/core/me/Enzyme.py:197-229 | with a known modification, it returns the recorded catalyst and creates nothing; otherwise it makes one fresh catalyst with the stated id, logic and modifications, records it, and registers it in the model; the model's keys stay current |
| Enzyme.NewCatalyst | cobra/core/me/Enzyme.py:207-229 | the creation path of `create_catalyst` |
| Enzyme.ModifiedCatalyst | cobra/core/me/Enzyme.py:217-219 | a fresh catalyst of the complex, modified once with stoichiometry 1 |
| Enzyme.BuildCatalyst | cobra/core/me/Enzyme.py:212-219 | the new catalyst is fresh and uses the model's modification of the same id if there is one, which the model gains otherwise, keeping its keys current |
| Enzyme.ResolveModification | cobra/core/me/Enzyme.py:209-216 | a modification known to the model by id is replaced by the model's, otherwise it is added |
| Enzyme.Register | cobra/core/me/Enzyme.py:220-229 | the catalyst is recorded in the complex and appended to the model |
| Enzyme.NewSubunit | cobra/core/me/Enzyme.py:374-392 | a fresh subunit from an id, with no complexes |
| Enzyme.SubunitOf | cobra/core/me/Enzyme.py:374-392 | a subunit made from a gene copies it and its model; from a subunit it keeps pid and kind; complexes are reset |
| CatalyzedReactions.ParseClauses | cobra/core/me/CatalyzedReaction.py:142-155 | a parse of the clauses gives one composition per clause |
| CatalyzedReactions.TrimClauseParens | cobra/core/me/CatalyzedReaction.py:146-155 | trimming removes a `(` iff the clause starts with one, and a `)` iff it ends with one after a leading `(` or when `)` outnumbers `(` |
| CatalyzedReactions.TrimClauseWrapped | cobra/core/me/CatalyzedReaction.py:146-152 | a wrapped clause loses both parentheses |
| CatalyzedReactions.TrimClausePlain | cobra/core/me/CatalyzedReaction.py:146-155 | a clause without parentheses is unchanged |
| CatalyzedReactions.StripOuterParensBalanced | cobra/core/me/CatalyzedReaction.py:53-61 | stripping the outer parentheses keeps a balanced rule balanced |
| CatalyzedReactions.StripOuterParensWrapped | cobra/core/me/CatalyzedReaction.py:53-61 | a balanced rule wrapped in parentheses loses them |
| CatalyzedReactions.ClauseRoundTrip | cobra/core/me/CatalyzedReaction.py:146-158 | a complex's logic in parentheses parses back to its composition |
| CatalyzedReactions.LogicUnblank | cobra/core/me/CatalyzedReaction.py:145 | the `strip()` of a clause has no effect on a logic string |
| CatalyzedReactions.ChosenIds | cobra/core/me/CatalyzedReaction.py:158-161 | the subunits picked for a clause have exactly its ids and stoichiometries |
| CatalyzedReactions.AddClauseSubunits | cobra/core/me/CatalyzedReaction.py:158-164 | the loop adds the clause's subunits, or reports a gene id with no subunit |
| CatalyzedReactions.ClauseComplex | cobra/core/me/CatalyzedReaction.py:158-167 | a clause complex is built iff all its gene ids have subunits, with exactly the clause's composition and its composition id |
| CatalyzedReactions.ClauseSubunits | cobra/core/me/CatalyzedReaction.py:158-164 | the subunits are added iff every id of the clause has a subunit, giving exactly the clause's composition with the indexed subunits; otherwise a missing id is reported |
| CatalyzedReactions.NameClauseComplex | cobra/core/me/CatalyzedReaction.py:158-167 | the new complex takes the id of its composition |
| CatalyzedReactions.PlaceComplex | cobra/core/me/CatalyzedReaction.py:168-177 | an existing complex of the same id is reused and nothing is registered; otherwise the new one is appended and its subunits learn it |
| CatalyzedReactions.ClauseComplexOf | cobra/core/me/CatalyzedReaction.py:146-167 | a clause yields a complex iff it parses and names only known genes; the error says which |
| CatalyzedReactions.AttachComplex | cobra/core/me/CatalyzedReaction.py:168-179 | the reaction gains the complex (new or reused) and the complex learns the reaction |
| CatalyzedReactions.ClauseFails | cobra/core/me/CatalyzedReaction.py:142-167 | one failing clause makes the whole rule fail |
| CatalyzedReactions.NextClause | cobra/core/me/CatalyzedReaction.py:145-179 | one loop step over clauses |
| CatalyzedReactions.BuildComplexes | cobra/core/me/CatalyzedReaction.py:142-179 | succeeds iff every clause parses and names known genes; then each clause has attached a complex with its composition id |
| CatalyzedReactions.BuiltIds | cobra/core/me/CatalyzedReaction.py:142-179 | after the loop, the reaction's complex ids are the old ones plus one per clause, and each new complex knows the reaction |
| CatalyzedReactions.FindGene | cobra/core/me/CatalyzedReaction.py:130-133 | the lookup by id in `model.subunits` |
| CatalyzedReactions.SubunitFor | cobra/core/me/CatalyzedReaction.py:126-137 | a gene becomes its model's subunit of that id if there is one, else itself if already a subunit, else a fresh subunit; whichever is used is appended to the model when the model lacks that id, and nothing is appended without a model |
| CatalyzedReactions.PickedAsWritten | cobra/core/me/CatalyzedReaction.py:126-137 | as written, the loop fails with `NameError` exactly when the first gene is already a Subunit; otherwise it picks one id per gene, each plain gene's own |
| CatalyzedReactions.StaleSubunitPicked | cobra/core/me/CatalyzedReaction.py:128-129 | genes `b` then Subunit `a` pick `b` twice, and a Subunit first fails |
| CatalyzedReactions.NextGene | cobra/core/me/CatalyzedReaction.py:126-137 | one loop step over genes |
| CatalyzedReactions.EachGene | cobra/core/me/CatalyzedReaction.py:126-137 | every gene is mapped by its id to its subunit; genes that are neither subunits nor in the model get fresh subunits, and the model only gains fresh subunits or the genes themselves |
| CatalyzedReactions.SubunitsFor | cobra/core/me/CatalyzedReaction.py:126-139 | the reaction's genes become one subunit per gene id, each knowing the reaction |
| CatalyzedReactions.FirstWithId | cobra/core/me/CatalyzedReaction.py:105-111 | the first index with a given id |
| CatalyzedReactions.FindReaction | cobra/core/me/CatalyzedReaction.py:105-111 | a reaction of that id is found iff the model has one |
| CatalyzedReactions.ReplaceOnId | cobra/core/me/CatalyzedReaction.py:105-111 | replacing by id keeps the length and every other reaction |
| CatalyzedReactions.ReplaceInModel | cobra/core/me/CatalyzedReaction.py:105-119 | succeeds iff the model has a reaction of that id; it is replaced and deleted, and the enzyme collections exist afterwards |
| CatalyzedReactions.SubunitsAndComplexes | cobra/core/me/CatalyzedReaction.py:124-179 | the genes become subunits, and the complexes are built iff the rule compiles |
| CatalyzedReactions.LinkMetabolites | cobra/core/me/CatalyzedReaction.py:38-52 | the metabolites are re-added through `add_metabolites`, so they point to the new reaction |
| CatalyzedReactions.CopyParent | cobra/core/me/CatalyzedReaction.py:31-45 | the new reaction is fresh, catalyzed, and keeps id, model and attributes, with no metabolites, genes or logic yet |
| CatalyzedReactions.CopyWithGenes | cobra/core/me/CatalyzedReaction.py:50-61 | the new reaction keeps the genes, which learn it, and takes the rule without its outer parentheses as its logic |
| CatalyzedReactions.Prepare | cobra/core/me/CatalyzedReaction.py:11-61 | the new reaction copies the source's attributes, its non-zero metabolites and genes, which learn it, and the stripped rule |
| CatalyzedReactions.CreateCatalytic | cobra/core/me/CatalyzedReaction.py:86-179 | succeeds iff the reaction is in its model and the rule compiles (or there are no genes); then it replaces the old reaction and gains subunits and complexes; no catalyst is created |
| CatalyzedReactions.Convert | cobra/core/me/CatalyzedReaction.py:11-68 | converting a reaction gives a fresh catalyzed reaction with the same id, attributes and non-zero metabolites that point to it; its subunits have the gene ids and its complexes one per clause |
| CatalyzedReactions.AttachCopy | cobra/core/me/CatalyzedReaction.py:205-214 | one copied complex is attached together with its catalysts and subunits, all learning the copy |
| CatalyzedReactions.CopyComplexes | cobra/core/me/CatalyzedReaction.py:205-216 | the copy holds the table's complexes for the source's, with their catalysts and subunits, all knowing it |
| CatalyzedReactions.AttachCatalysts | cobra/core/me/CatalyzedReaction.py:209-211 | the copy gains the catalysts and each learns it |
| CatalyzedReactions.AttachGenes | cobra/core/me/CatalyzedReaction.py:218-220 | the copy gains the subunits and each learns it |
| CatalyzedReactions.GuidedCopy | cobra/core/me/CatalyzedReaction.py:182-221 | the copy is fresh, points to the given model, keeps id and logic, re-points metabolites and complexes through the tables, and is consistent; the table's subunits for the source's genes keep the copy as a back-reference even when no copied complex holds them |
| CatalyzedReactions.MappedIds | cobra/core/me/CatalyzedReaction.py:205-214 | mapping complexes through the id table keeps their ids |
| MeModel.ReplaceOnIdAt | cobra/core/me/ME_Model.py:34-35 | with distinct ids, replacing by id is replacing at the one index of that id |
| MeModel.PointReactions | cobra/core/me/ME_Model.py:24-25 | every reaction points to the model |
| MeModel.PointMetabolites | cobra/core/me/ME_Model.py:24-25 | every metabolite points to the model |
| MeModel.PointGenes | cobra/core/me/ME_Model.py:24-25 | every gene points to the model |
| MeModel.PointComplexes | cobra/core/me/ME_Model.py:48-50 | every complex points to the model |
| MeModel.SetState | cobra/core/me/ME_Model.py:39-50 | complexes, subunits, metabolites and reactions all point to the model |
| MeModel.ConvertInModel | cobra/core/me/ME_Model.py:34-35 | one reaction converted in place: succeeds iff its rule compiles, replacing exactly that index |
| MeModel.ConvertAt | cobra/core/me/ME_Model.py:34-35 | one loop step: succeeds iff this reaction's rule compiles, then the reaction at that index is fresh and the earlier ones are unchanged |
| MeModel.ConvertAll | cobra/core/me/ME_Model.py:34-35 | the loop succeeds iff every reaction converts; then every reaction is a fresh catalyzed one of the same id, in the same order |
| MeModel.FromModel | cobra/core/me/ME_Model.py:19-37 | genes and metabolites point to the ME model, every reaction is converted in order, and `genes` equals `subunits` |
| MeModel.PointAndReset | cobra/core/me/ME_Model.py:20-31 | reactions, genes and metabolites point to the model, and the enzyme collections start empty |
| MeCopy.RepointSpeciesIds | cobra/core/me/Enzyme.py:56-66 | re-pointing a composition through the id table keeps it seen by id |
| MeCopy.CopyModification | cobra/core/me/Enzyme.py:56-66 | the copy is fresh, uses the table's species, keeps the composition by id, and keeps the id when it was derived from the composition |
| MeCopy.RepointSubunitsIds | cobra/core/me/Enzyme.py:251-274 | re-pointing subunits through the table keeps their ids and stoichiometries |
| MeCopy.CopyComplex | cobra/core/me/Enzyme.py:251-274 | the copy is fresh, uses the table's subunits with the same stoichiometries, keeps a derived id, carries the table's modifications, and has a catalyst for each; `model.complexes` is left to `ME_Model.copy` (the corrected subunit stage of the finding below) |
| MeCopy.CopiedShell | cobra/core/me/Enzyme.py:262-266 | the subunit stage as intended: the subunits are added before the copy joins the model, so the copy has the table's subunits, the id and logic of their composition, every subunit learns of it, and `model.complexes` is untouched |
| MeCopy.CopiedShellAsWritten | cobra/core/me/Enzyme.py:262-266 | the subunit stage as written fails with the `ValueError` of `DictList.remove` exactly when the copy is in a model and has subunits, after recording one subunit; the model's list is unchanged |
| MeCopy.ApplyCopiedModifications | cobra/core/me/Enzyme.py:267-273 | the modification stage: a catalyst for every modification, none when there are no modifications |
| MeCopy.CreateEach | cobra/core/me/Enzyme.py:267-273 | the loop of `create_catalyst` calls adds at most one catalyst per modification |
| MeCopy.RecordedCatalysts | cobra/core/me/ME_Model.py:91-95 | one catalyst per recorded modification, or an error for a missing record |
| MeCopy.CopyCatalysts | cobra/core/me/ME_Model.py:84-95 | for distinct complexes, succeeds iff every modification has its catalyst, and the count is one per unmodified complex plus one per modification |
| MeCopy.CatalystsFor | cobra/core/me/ME_Model.py:86-95 | an unmodified complex gets exactly one catalyst through the empty modification |
| MeCopy.CatalystCountUnmodified | cobra/core/me/ME_Model.py:87-90 | a model without modifications copies to one catalyst per complex |
| MeCopy.CatalystCountAtLeast | cobra/core/me/ME_Model.py:85-95 | there are never fewer catalysts than complexes |
| MetaNetX.SortBagIsSort | cobra/curation/metanetx.py:1019 | `sort` gives the one sorted arrangement of the terms |
| MetaNetX.SignatureNone | cobra/curation/metanetx.py:999-1026 | the signature is `None` iff the ids are uninformative (all promiscuous or all `None`) or there are no terms |
| MetaNetX.InformativeTerm | cobra/curation/metanetx.py:1004-1026 | an informative reaction with terms has a present term |
| MetaNetX.SignatureOrderFree | cobra/curation/metanetx.py:976-1026 | the signature does not depend on the order of the metabolites |
| MetaNetX.SignatureScaleFree | cobra/curation/metanetx.py:1010-1016 | without stoichiometry, scaling by a positive factor keeps the signature |
| MetaNetX.SignatureReversal | cobra/curation/metanetx.py:1004-1009 | without directionality, reversing the reaction keeps the signature |
| MetaNetX.MnxSignature | cobra/curation/metanetx.py:976-1026 | the signature is one term per metabolite, sorted and joined by `_`, where a metabolite without an MNX id contributes the text `None`; terms are signed by side when directionality counts and weighted when stoichiometry counts; the signature is `None` for uninformative ids or no terms |
| MetaNetX.AnyOrder | cobra/curation/metanetx.py:976-1026 | any enumeration of the metabolites gives that signature |
| MetaNetX.GroupBySignatures | cobra/curation/metanetx.py:1029-1044 | each signature lists every object once per reaction of it carrying that signature, in input order, and no group is empty |
| MetaNetX.MappingId | cobra/curation/metanetx.py:622-625 | the suffix `_{compartment}` is removed iff present, leaving a prefix of the id |
| MetaNetX.MappingIdStrips | cobra/curation/metanetx.py:622-625 | `id + '_' + c` maps back to `id` |
| MetaNetX.BiggNormal | cobra/curation/metanetx.py:675-676 | a normalised bigg id has no `__` and no `_DASH_` |
| MetaNetX.BiggUnchanged | cobra/curation/metanetx.py:675-676 | an id with neither is unchanged |
| MetaNetX.BiggIdempotent | cobra/curation/metanetx.py:675-676 | normalising twice equals once |
| MetaNetX.XrefKey | cobra/curation/metanetx.py:669-677 | the lookup key is the lower-cased source, `:`, and the id, normalised for bigg |
| MetaNetX.XrefKeySpellings | cobra/curation/metanetx.py:674-677 | both bigg spellings of an id give the same key |
| MetaNetX.ObjectXrefKeyBare | cobra/curation/metanetx.py:622-677 | an object id with its compartment suffix looks up the same key as the bare id |

## Left out

- Warnings, `print_values`, `get_compartments`, `save_complexes`, and the deprecated getters of `Reaction` are not modelled. They only print, write files or forward to modelled members.
- The source files of `Metabolite`, `Gene`, `Species`, `Object`, `Model`, `DictList` and `Formula` are not part of this model. Their classes keep only the fields this core uses. A `DictList` is a sequence, and a formula is an element→int map.
- `Reaction.__setstate__`, `Reaction.copy`, `CatalyzedReaction.__setstate__`, `Complex.__setstate__` and `Subunit.__getstate__` are pickle and deepcopy mechanics and are not modelled. `deepcopy` is modelled as fresh objects with cleared back-references (Reactions.CopyMetabolites, CopyGene).
- The `remove_from_model` methods of `Modification`, `Complex` and `Subunit`, `Subunit.guided_copy` and `Catalyst.add_reaction` are not modelled. They lie outside the conversion and copy paths.
- `Model.add_metabolites` is abstracted as `Graph.NewById`: the model appends the metabolites whose ids it does not hold.
- Python floats are `real`, so rounding is not modelled. `repr` of a coefficient in reaction strings and signatures is the parameter `fmt`. Stoichiometries inside enzyme ids are integers.
- Python 2 sorts `(object, value)` pairs at Enzyme.py:49-50, 186-188, 358-359 and 433-434, and Metabolite objects at Reaction.py:442-443; the model sorts by id string instead.
- ReactionStrings.Ordered: sorts by id, where Reaction.py:442-443 sorts the Metabolite objects; their comparison (`Object`, `Metabolite`) is not part of this model. It also requires the reaction's metabolites to have distinct ids, which `add_metabolites` keeps by merging on id.
- ReactionStrings.BuildReactionString: the order of the terms on each side is the id order of ReactionStrings.Ordered, not the source's object order, and it requires distinct metabolite ids for the same reason.
- Stoichiometry.GetCoefficient: requires the reaction's metabolites to have distinct ids, which `add_metabolites` keeps by merging on id (Reaction.py:386-399); the source never checks it.
- MetaNetX.MnxSignature: each metabolite contributes its own coefficient. The source looks coefficients up by id (`get_coefficients`), so the two agree only when the metabolites have distinct ids, which `add_metabolites` keeps; with a shared id the source gives every such metabolite the coefficient of the one its id table kept.
- `str(k)` in logic strings is taken to be the id.
- `_update_logic` on an empty composition makes `reduce` fail; the model returns no logic string.
- LogicStrings.SplitLogicalString: the `ValueError` of `int()` is a `NotAnInteger` error, and `int()`'s whitespace and sign rules are reduced to an optional sign plus digits.
- Reversibility is only a predicate (Stoichiometry.Reversible), specified through ReactionStrings.Arrow.
- `__add__` and `__sub__` are modelled on reaction values (ReactionAlgebra), so the back-reference updates of the new genes at Reaction.py:224-226 are not.
- Reactions.AddMetabolites: requires the reaction's back-references to be consistent and the delta's metabolites to have distinct ids; the source assumes both.
- Reactions.SubtractMetabolites: requires the reaction's back-references to be consistent and the delta's metabolites to have distinct ids; the source assumes both.
- Reactions.GuidedCopy: requires the id tables to cover every metabolite and gene; the source raises `KeyError` otherwise.
- CatalyzedReactions.GuidedCopy: requires the id tables to cover every metabolite, gene and complex; the source raises `KeyError` otherwise.
- Enzyme.AddSubunit: requires the subunits to have distinct ids, which the source never checks; a complex is identified by its subunit ids.
- Enzyme.AddSubcomplex: requires the subunits to have distinct ids, which the source never checks; a complex is identified by its subunit ids.
- Enzyme.UpdateSubunitStoichiometry: requires the subunits to have distinct ids, which the source never checks; a complex is identified by its subunit ids.
- Enzyme.UpdateComplexId: requires the subunits to have distinct ids, which the source never checks; a complex is identified by its subunit ids.
- Enzyme.CloseSubcomplex: requires the complex to be in its model's list, or to have no model, when the subcomplex has subunits. It is the step after a flattening loop that got through every `_update_id`; the failing loop is stated on Enzyme.AddSubcomplex.
- Enzyme.UpdateSubunitStoichiometry: requires the complex's catalysts to be in `model.catalysts`, the list it re-keys them in; the source's `model.catalyst` is a finding below.
- Enzyme.AddSpecies: requires the species of the modification to have distinct ids.
- Enzyme.Modify: requires the modifications of the catalyst to have distinct ids.
- Enzyme.AddSpecies: the rejection is a `false` result; the message of Enzyme.py:37 is malformed and raises a `TypeError` while being built.
- CatalyzedReactions.Convert: requires distinct metabolite and gene ids, current `complexes` keys in the model, and only subunits in `model.subunits`; the source assumes all three.
- CatalyzedReactions.CreateCatalytic: requires distinct gene ids, current `complexes` keys in the model, and only subunits in `model.subunits`; the source assumes all three.
- CatalyzedReactions.ClauseComplex: adds the clause's subunits in the order of its composition's keys, where the source uses dict order; only the resulting map is stated.
- The model path's `_replace_on_id` and `delete` (CatalyzedReaction.py:105-111) are an abstract replace-by-id (CatalyzedReactions.ReplaceOnId).
- MeModel.FromModel: requires distinct reaction ids, and distinct metabolite and gene ids in each reaction. The `deepcopy` and `_copy_parent_attributes` of ME_Model.py:20-21 happen before it. `genes = subunits` is stated as equal contents, not as one shared object.
- MeModel.ConvertAll: requires distinct reaction ids, and distinct metabolite and gene ids in each reaction; the source assumes both.
- MeModel.FromModel: the state of catalysts and modifications after conversion is not stated.
- MeCopy.CopyComplex: the `KeyError` paths of missing table entries are excluded by requires.
- MeCopy.CopyComplex: uses the corrected subunit stage (MeCopy.CopiedShell); as written, any complex with subunits raises `ValueError` when copied into a model (MeCopy.CopiedShellAsWritten, under Findings).
- `DictList.remove` is taken to raise `ValueError` like `list.remove` when no entry holds the object (Graph.RemoveEntry); its source is not part of this model.
- MeCopy.CopyModification: the `KeyError` paths of missing table entries are excluded by requires.
- MeCopy.CreateEach: does not state that the new catalysts are fresh.
- `ME_Model.copy` is modelled through its enzyme stages only. Not modelled: the guided copies of Object, metabolites, genes and subunits (ME_Model.py:65-72), the compartments deepcopy, the reaction stage as one loop (98-103), and the `DictList` assembly (105-109). The appended empty modification is modelled as the `empty` parameter of MeCopy.CopyCatalysts.
- MetaNetX.MnxSignature: the dict iteration order of the reaction's metabolites is abstract (MetaNetX.Enumeration); AnyOrder shows any order gives the same signature.
- metanetx.py: PyTables/h5 access, file parsing, the `_metanetx_wrapper` plumbing, the DB lookups and the attribute matching are not modelled; only their key construction is (MetaNetX.XrefKey).

## Findings

| source | as written | input that shows it | evidently intended | confidence | as-written member | corrected member |
|---|---|---|---|---|---|---|
| cobra/core/Reaction.py:469-470 | `lstrip(' + ')` and `rstrip(' + ')` act on the whole string, so the `' + '` that starts the product side stays after the arrow | a reaction `A -> B` with coefficients -1 and 1: the loops build `' + 1.0 A -> '` and then `' + 1.0 B'`, so the string is `1.0 A ->  + 1.0 B` | each side stripped on its own: `1.0 A -> 1.0 B` | not executed | ReactionStrings.ReactionStringAsWritten | ReactionStrings.IntendedReactionStringSides |
| cobra/core/me/Enzyme.py:166-168 | the loop re-keys each catalyst in `self.model.catalyst`, an attribute an `ME_Model` does not have (it has `catalysts`) | a complex in an `ME_Model` with one catalyst, given any stoichiometry update: `AttributeError` | remove and re-append the catalyst in `model.catalysts` | not executed | Enzyme.RelistAsWritten | Enzyme.UpdateSubunitStoichiometry |
| cobra/core/me/Enzyme.py:262-266 | the copy is already in `model` (from `Species.guided_copy`) when its subunits are added, so the first `add_subunit` reaches `_update_id`, whose `self.model.complexes.remove(self)` (Enzyme.py:183) looks for a complex that no list holds yet | any complex with one subunit, copied by `ME_Model.copy` (ME_Model.py:81) into the new model: `ValueError` from `DictList.remove` | the subunits are added before the copy joins the model, and `ME_Model.copy` lists the copies itself (`the_copy.complexes = the_complexes`, ME_Model.py:108) | not executed; `Species.guided_copy` and `DictList.remove` are not part of this model and are taken to set the model and to raise like `list.remove` | MeCopy.CopiedShellAsWritten | MeCopy.CopiedShell |
| cobra/core/me/CatalyzedReaction.py:128-129 | `the_subunit` is only assigned for a gene that is not yet a `Subunit`, so a gene that already is one is replaced by the previous pass's subunit | genes iterated as plain gene `b` then Subunit `a`: the reaction's subunits are just `b`, and `a` is lost; with `a` first, `NameError` | a gene that is already a `Subunit` is used as itself | not executed | CatalyzedReactions.PickedAsWritten | CatalyzedReactions.SubunitFor |
