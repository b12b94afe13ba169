/** A cobra.me ME_Model: a Model whose reactions are CatalyzedReactions, whose genes are its
    Subunits, and which also keeps the Complexes, Catalysts and Modifications of those
    reactions. */
module MeModel {
  import opened Wrappers
  import opened Graph
  import opened Enzyme
  import opened CatalyzedReactions
  import Reactions
  import Stoichiometry

  // ---------------------------------------------------------------------------
  // The reaction list
  // ---------------------------------------------------------------------------

  /** No two reactions of the list share an id, as a DictList keeps them. */
  predicate DistinctReactionIds(rs: seq<Reaction>)
  {
    forall i, j :: 0 <= i < j < |rs| ==> rs[i].id != rs[j].id
  }

  /** In a list without repeated ids, the reaction holding `x`'s id is the one at its own
      index, so replacing on `x`'s id replaces exactly that reaction, and the ids stay distinct. */
  lemma {:induction false} ReplaceOnIdAt(rs: seq<Reaction>, i: nat, x: Reaction)
    requires DistinctReactionIds(rs) && i < |rs| && x.id == rs[i].id
    ensures FirstWithId(rs, x.id) == i
    ensures ReplaceOnId(rs, x) == rs[i := x]
    ensures DistinctReactionIds(rs[i := x])
  {
    assert FirstWithId(rs, x.id) <= i;
  }

  // ---------------------------------------------------------------------------
  // `__setstate__`
  // ---------------------------------------------------------------------------

  /** Every reaction of `rs` belongs to `me`. */
  method PointReactions(rs: seq<Reaction>, me: Model)
    modifies (set r | r in rs)`model
    ensures forall r :: r in rs ==> r.model == me
  {
    for i := 0 to |rs|
      invariant forall j :: 0 <= j < i ==> rs[j].model == me
    {
      rs[i].model := me;
    }
  }

  /** Every metabolite of `ms` belongs to `me`. */
  method PointMetabolites(ms: seq<Metabolite>, me: Model)
    modifies (set m | m in ms)`model
    ensures forall m :: m in ms ==> m.model == me
  {
    for i := 0 to |ms|
      invariant forall j :: 0 <= j < i ==> ms[j].model == me
    {
      ms[i].model := me;
    }
  }

  /** Every gene (or subunit) of `gs` belongs to `me`. */
  method PointGenes(gs: seq<Gene>, me: Model)
    modifies (set g | g in gs)`model
    ensures forall g :: g in gs ==> g.model == me
  {
    for i := 0 to |gs|
      invariant forall j :: 0 <= j < i ==> gs[j].model == me
    {
      gs[i].model := me;
    }
  }

  /** Every complex of the entries `es` belongs to `me`. */
  method PointComplexes(es: seq<Entry<Complex>>, me: Model)
    modifies ComplexItems(es)`model
    ensures forall x :: x in ComplexItems(es) ==> x.model == me
  {
    for i := 0 to |es|
      invariant forall j :: 0 <= j < i ==> es[j].item.model == me
    {
      es[i].item.model := me;
    }
  }

  /** The complexes, subunits, metabolites and reactions of `me` belong to `me`. */
  ghost predicate PointsHere(me: Model)
    reads me, ComplexItems(me.complexes), set g | g in me.subunits, set m | m in me.metabolites
    reads set r | r in me.reactions
  {
    && (forall x :: x in ComplexItems(me.complexes) ==> x.model == me)
    && (forall g :: g in me.subunits ==> g.model == me)
    && (forall m :: m in me.metabolites ==> m.model == me)
    && (forall r :: r in me.reactions ==> r.model == me)
  }

  /** `ME_Model.__setstate__`, once the attributes are restored: the complexes, subunits,
      metabolites and reactions are made to point to the model. The catalysts and
      modifications are left as they are. */
  method SetState(me: Model)
    modifies ComplexItems(me.complexes)`model, (set g | g in me.subunits)`model
    modifies (set m | m in me.metabolites)`model, (set r | r in me.reactions)`model
    ensures PointsHere(me)
  {
    PointComplexes(me.complexes, me);
    PointGenes(me.subunits, me);
    PointMetabolites(me.metabolites, me);
    PointReactions(me.reactions, me);
  }

  // ---------------------------------------------------------------------------
  // `__init__`
  // ---------------------------------------------------------------------------

  /** What the conversion of a reaction with gene rule `rule` and genes `genes` needs to
      succeed: no genes, or a rule whose clauses all read and name only those genes. */
  predicate Convertible(rule: string, genes: set<Gene>)
  {
    genes == {} || Compiles(Clauses(StripOuterParens(rule)), GeneIdSet(genes))
  }

  /** The reactions from `i` on are still the originals `R0`, belong to `me`, and keep the rules,
      genes and metabolites they had (`rules`, `genes`, `mets`). */
  ghost predicate Pending(me: Model, R0: seq<Reaction>, i: nat, rules: seq<string>, genes: seq<set<Gene>>,
                          mets: seq<set<Metabolite>>)
    reads me, set r | r in R0
  {
    && |me.reactions| == |R0| == |rules| == |genes| == |mets| && i <= |R0|
    && DistinctReactionIds(me.reactions)
    && forall j :: i <= j < |R0| ==>
      && me.reactions[j] == R0[j] && R0[j].model == me
      && R0[j].rule == rules[j] && R0[j].genes == genes[j] && R0[j].metabolites.Keys == mets[j]
      && DistinctMetaboliteIds(mets[j]) && DistinctGeneIds(genes[j])
  }

  /** The reactions before `i` are the catalysed conversions of the originals `R0`, in place. */
  ghost predicate Converted(me: Model, R0: seq<Reaction>, i: nat, rules: seq<string>)
    reads me, set r | r in me.reactions
  {
    && i <= |me.reactions| <= |R0| && i <= |rules|
    && forall j :: 0 <= j < i ==>
      && me.reactions[j].catalyzed && me.reactions[j].id == R0[j].id && me.reactions[j].model == me
      && me.reactions[j].logic == Some(StripOuterParens(rules[j]))
  }

  /** `CatalyzedReaction(k)` for the reaction `k` at index `i` of its model: on success the
      converted reaction takes `k`'s place in the reaction list; the subunits and complexes the
      model gains are `k`'s genes or new objects. */
  method ConvertInModel(me: Model, i: nat) returns (res: Result<Reaction, ConversionError>)
    requires i < |me.reactions| && DistinctReactionIds(me.reactions) && Tidy(me)
    requires me.reactions[i].model == me
    requires DistinctMetaboliteIds(me.reactions[i].metabolites.Keys) && DistinctGeneIds(me.reactions[i].genes)
    modifies me, me.reactions[i], me.reactions[i].metabolites.Keys`reactions
    modifies me.reactions[i].genes`reactions, me.reactions[i].genes`complexes
    modifies ModelSubunits(me)`reactions, ModelSubunits(me)`complexes, ModelComplexes(me)`reactions
    ensures res.Success? <==> old(Convertible(me.reactions[i].rule, me.reactions[i].genes))
    ensures NewParts(me, old(me.subunits), old(me.complexes), old(me.reactions[i].genes))
    ensures res.Success? ==>
      && fresh(res.value) && res.value.catalyzed && res.value.id == old(me.reactions[i].id) && res.value.model == me
      && res.value.logic == Some(StripOuterParens(old(me.reactions[i].rule)))
      && me.reactions == old(me.reactions)[i := res.value] && Tidy(me)
  {
    var src := me.reactions[i];
    ghost var before := me.reactions;
    assert Previous(me, src.id) == {src} by { ReplaceOnIdAt(me.reactions, i, src); }
    assert InModel(me, src.id) by { assert src in me.reactions; }
    ghost var index, made;
    res, index, made := Convert(src);
    if res.Success? {
      ReplaceOnIdAt(before, i, res.value);
    }
  }

  /** The gene rules of the reactions, in order. */
  ghost function RulesOf(rs: seq<Reaction>): (r: seq<string>)
    reads set x | x in rs
    ensures |r| == |rs| && forall j :: 0 <= j < |rs| ==> r[j] == rs[j].rule
  {
    if rs == [] then [] else RulesOf(rs[..|rs| - 1]) + [rs[|rs| - 1].rule]
  }

  /** The gene sets of the reactions, in order. */
  ghost function GenesOf(rs: seq<Reaction>): (r: seq<set<Gene>>)
    reads set x | x in rs
    ensures |r| == |rs| && forall j :: 0 <= j < |rs| ==> r[j] == rs[j].genes
  {
    if rs == [] then [] else GenesOf(rs[..|rs| - 1]) + [rs[|rs| - 1].genes]
  }

  /** The metabolites of the reactions, in order. */
  ghost function MetabolitesOf(rs: seq<Reaction>): (r: seq<set<Metabolite>>)
    reads set x | x in rs
    ensures |r| == |rs| && forall j :: 0 <= j < |rs| ==> r[j] == rs[j].metabolites.Keys
  {
    if rs == [] then [] else MetabolitesOf(rs[..|rs| - 1]) + [rs[|rs| - 1].metabolites.Keys]
  }

  /** What the loop of `ConvertAll` keeps before the reaction at `i`: the reactions from `i` on
      are pending, those before are converted and were convertible, the model is tidy, and the
      pending reactions use only metabolites of `M0` and genes of `G0`. */
  ghost predicate Progress(me: Model, R0: seq<Reaction>, i: nat, rules: seq<string>, genes: seq<set<Gene>>,
                           mets: seq<set<Metabolite>>, M0: set<Metabolite>, G0: set<Gene>)
    reads me, (set r | r in R0), (set r | r in me.reactions), ComplexItems(me.complexes), (set x | x in me.subunits)
  {
    && Pending(me, R0, i, rules, genes, mets) && Converted(me, R0, i, rules) && Tidy(me)
    && (forall j :: 0 <= j < i ==> Convertible(rules[j], genes[j]))
    && (forall j :: i <= j < |R0| ==> genes[j] <= G0 && mets[j] <= M0)
  }

  /** The conversion of the reaction at `i`, as one pass of the loop of `ConvertAll` sees it. */
  method ConvertAt(me: Model, ghost R0: seq<Reaction>, i: nat, ghost rules: seq<string>, ghost genes: seq<set<Gene>>,
                   ghost mets: seq<set<Metabolite>>, ghost M0: set<Metabolite>, ghost G0: set<Gene>)
    returns (res: Result<(), ConversionError>)
    requires i < |R0| && Progress(me, R0, i, rules, genes, mets, M0, G0)
    modifies me, R0[i], mets[i]`reactions, genes[i]`reactions, genes[i]`complexes
    modifies ModelSubunits(me)`reactions, ModelSubunits(me)`complexes, ModelComplexes(me)`reactions
    ensures NewParts(me, old(me.subunits), old(me.complexes), G0)
    ensures res.Success? <==> Convertible(rules[i], genes[i])
    ensures res.Success? ==>
      && Progress(me, R0, i + 1, rules, genes, mets, M0, G0)
      && fresh(me.reactions[i]) && forall j :: 0 <= j < i ==> me.reactions[j] == old(me.reactions[j])
  {
    ghost var before := me.reactions;
    var c := ConvertInModel(me, i);
    if c.Failure? {
      return Failure(c.error);
    }
    forall j | 0 <= j < i
      ensures before[j] != R0[i]
    {
      assert before[j].id != before[i].id;
    }
    res := Success(());
  }

  /** The `CatalyzedReaction(k)` for each reaction `k` of the model, in order, as `__init__`
      runs them: each replaces the reaction of its id in the model, and the first that raises
      stops the construction. */
  method ConvertAll(me: Model, ghost R0: seq<Reaction>, ghost M0: set<Metabolite>, ghost G0: set<Gene>)
    returns (res: Result<(), ConversionError>)
    requires me.reactions == R0 && DistinctReactionIds(R0)
    requires forall r :: r in R0 ==> r.model == me && DistinctMetaboliteIds(r.metabolites.Keys) && DistinctGeneIds(r.genes)
    requires forall r :: r in R0 ==> r.metabolites.Keys <= M0 && r.genes <= G0
    requires me.subunits == [] && me.complexes == []
    modifies me, (set r | r in R0), M0`reactions, G0`reactions, G0`complexes
    ensures res.Success? <==> forall j :: 0 <= j < |R0| ==> old(Convertible(R0[j].rule, R0[j].genes))
    ensures res.Success? ==> |me.reactions| == |R0| && DistinctReactionIds(me.reactions)
    ensures res.Success? ==> forall j :: 0 <= j < |R0| ==>
      && fresh(me.reactions[j]) && me.reactions[j].catalyzed && me.reactions[j].id == R0[j].id
      && me.reactions[j].model == me && me.reactions[j].logic == Some(StripOuterParens(old(R0[j].rule)))
    ensures res.Success? ==> Tidy(me)
  {
    ghost var rules, genes, mets := RulesOf(R0), GenesOf(R0), MetabolitesOf(R0);
    var n := |me.reactions|;
    for i := 0 to n
      invariant Progress(me, R0, i, rules, genes, mets, M0, G0)
      invariant i <= |me.reactions|
      invariant forall j :: 0 <= j < i ==> fresh(me.reactions[j])
      invariant forall x :: x in me.subunits ==> x in G0 || fresh(x)
      invariant forall e :: e in me.complexes ==> fresh(e.item)
    {
      ghost var before, s0, c0 := me.reactions, me.subunits, me.complexes;
      var ok := ConvertAt(me, R0, i, rules, genes, mets, M0, G0);
      if ok.Failure? {
        return Failure(ok.error);
      }
      forall j | 0 <= j <= i
        ensures fresh(me.reactions[j])
      {
        if j < i {
          assert me.reactions[j] == before[j];
        }
      }
      assert forall x :: x in me.subunits ==> x in s0 || x in G0 || fresh(x);
      assert forall e :: e in me.complexes ==> e in c0 || fresh(e.item);
    }
    res := Success(());
  }

  /** `ME_Model(model)` once `deepcopy` has made the model's objects: its reactions, genes and
      metabolites are made to point to the ME model, the enzyme collections start empty, every
      reaction is converted in order, and the genes become the subunits. */
  method FromModel(me: Model, ghost M0: set<Metabolite>, ghost G0: set<Gene>) returns (res: Result<(), ConversionError>)
    requires DistinctReactionIds(me.reactions)
    requires forall r :: r in me.reactions ==> DistinctMetaboliteIds(r.metabolites.Keys) && DistinctGeneIds(r.genes)
    requires forall r :: r in me.reactions ==> r.metabolites.Keys <= M0 && r.genes <= G0
    modifies me, (set r | r in me.reactions), (set g | g in me.genes)`model, (set m | m in me.metabolites)`model
    modifies M0`reactions, G0`reactions, G0`complexes
    ensures forall g :: g in old(me.genes) ==> g.model == me
    ensures forall m :: m in old(me.metabolites) ==> m.model == me
    ensures res.Success? <==>
      forall j :: 0 <= j < |old(me.reactions)| ==> old(Convertible(me.reactions[j].rule, me.reactions[j].genes))
    ensures res.Success? ==> |me.reactions| == |old(me.reactions)| && DistinctReactionIds(me.reactions)
    ensures res.Success? ==> forall j :: 0 <= j < |me.reactions| ==>
      && fresh(me.reactions[j]) && me.reactions[j].catalyzed && me.reactions[j].id == old(me.reactions[j].id)
      && me.reactions[j].model == me && me.reactions[j].logic == Some(StripOuterParens(old(me.reactions[j].rule)))
    ensures res.Success? ==> me.genes == me.subunits && Tidy(me)
  {
    ghost var R0 := me.reactions;
    ghost var rules, genes := RulesOf(R0), GenesOf(R0);
    PointAndReset(me);
    assert RulesOf(R0) == rules && GenesOf(R0) == genes;
    res := ConvertAll(me, R0, M0, G0);
    if res.Success? {
      me.genes := me.subunits;
    }
  }

  /** The start of `ME_Model(model)`: the reactions, genes and metabolites point to `me`, and
      the enzyme collections are new and empty. */
  method PointAndReset(me: Model)
    modifies me, (set r | r in me.reactions)`model, (set g | g in me.genes)`model, (set m | m in me.metabolites)`model
    ensures me.reactions == old(me.reactions) && me.genes == old(me.genes) && me.metabolites == old(me.metabolites)
    ensures forall r :: r in me.reactions ==> r.model == me
    ensures forall g :: g in me.genes ==> g.model == me
    ensures forall m :: m in me.metabolites ==> m.model == me
    ensures me.hasEnzymeCollections && me.hasModifications
    ensures me.subunits == [] && me.complexes == [] && me.catalysts == [] && me.modifications == []
  {
    PointReactions(me.reactions, me);
    PointGenes(me.genes, me);
    PointMetabolites(me.metabolites, me);
    me.hasEnzymeCollections, me.hasModifications := true, true;
    me.subunits, me.complexes, me.catalysts, me.modifications := [], [], [], [];
  }
}
