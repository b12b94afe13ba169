/** `Reaction.__add__` and `Reaction.__sub__`. Both start from a deep copy of the left operand,
    so the new reaction shares no object with either operand; what they compute is described
    here on the values they carry: the id, the coefficients by metabolite id, the gene ids, the
    gene rule and the bounds. */
module ReactionAlgebra {
  import opened Graph
  import opened Stoichiometry
  import Text
  import GeneRules

  datatype ReactionValue = ReactionValue(
    id: string,
    stoich: ById,
    genes: set<string>,
    rule: string,
    lowerBound: real,
    upperBound: real)

  /** The value of a reaction object. */
  function ValueOf(r: Reaction): ReactionValue
    requires DistinctMetaboliteIds(r.metabolites.Keys)
    reads r
  {
    ReactionValue(r.id, IdView(r.metabolites), GeneIdSet(r.genes), r.rule, r.lowerBound, r.upperBound)
  }

  /** The coefficient of a metabolite id, 0 when the reaction does not use it. */
  function Coefficient(v: ById, k: string): real
  {
    if k in v then v[k] else 0.0
  }

  /** The gene rule of a sum: both rules joined by `and` when both are non-empty, otherwise the
      non-empty one (the left one when both are empty). */
  function CombinedRule(ra: string, rb: string): string
  {
    if ra != "" && rb != "" then ra + " and " + rb
    else if rb != "" then rb
    else ra
  }

  /** `a + b`: id `a.id_b.id`, the coefficients of `b` added to those of `a` (zeros dropped),
      the genes of both, the combined rule and the bounds of `a`. */
  function Sum(a: ReactionValue, b: ReactionValue): ReactionValue
  {
    ReactionValue(a.id + "_" + b.id, Merge(a.stoich, b.stoich, true), a.genes + b.genes,
                  CombinedRule(a.rule, b.rule), a.lowerBound, a.upperBound)
  }

  /** `a - b`: id `a.id_b.id`, the coefficients of `b` subtracted from those of `a` (zeros
      dropped), and the genes, rule and bounds of `a`. */
  function Difference(a: ReactionValue, b: ReactionValue): ReactionValue
  {
    ReactionValue(a.id + "_" + b.id, Merge(a.stoich, Negated(b.stoich), true), a.genes,
                  a.rule, a.lowerBound, a.upperBound)
  }

  /** Two zero-free stoichiometries with the same coefficient for every id are equal. */
  lemma {:induction false} CoefficientsDetermine(x: ById, y: ById)
    requires NoZeroValues(x) && NoZeroValues(y)
    requires forall k :: Coefficient(x, k) == Coefficient(y, k)
    ensures x == y
  {
    forall k | k in x
      ensures k in y && x[k] == y[k]
    {
      assert Coefficient(x, k) == Coefficient(y, k);
    }
    forall k | k in y
      ensures k in x
    {
      assert Coefficient(x, k) == Coefficient(y, k);
    }
  }

  /** The coefficients of a sum are the sums of the coefficients, and none of them is 0. */
  lemma {:induction false} SumAddsCoefficients(a: ReactionValue, b: ReactionValue)
    ensures NoZeroValues(Sum(a, b).stoich)
    ensures forall k :: Coefficient(Sum(a, b).stoich, k) == Coefficient(a.stoich, k) + Coefficient(b.stoich, k)
  {
  }

  /** The coefficients of a difference are the differences of the coefficients. */
  lemma {:induction false} DifferenceSubtractsCoefficients(a: ReactionValue, b: ReactionValue)
    ensures NoZeroValues(Difference(a, b).stoich)
    ensures forall k :: Coefficient(Difference(a, b).stoich, k) == Coefficient(a.stoich, k) - Coefficient(b.stoich, k)
  {
  }

  /** `r - r` has no metabolites and the id `r.id_r.id`. */
  lemma {:induction false} SelfDifferenceIsEmpty(a: ReactionValue)
    ensures Difference(a, a).stoich == map[]
    ensures Difference(a, a).id == a.id + "_" + a.id
  {
    SubtractSelfEmpty(a.stoich);
  }

  /** Adding `b` and then subtracting it again gives back the stoichiometry of a zero-free `a`. */
  lemma {:induction false} SumThenDifference(a: ReactionValue, b: ReactionValue)
    requires NoZeroValues(a.stoich)
    ensures Difference(Sum(a, b), b).stoich == a.stoich
  {
    var d := Difference(Sum(a, b), b);
    SumAddsCoefficients(a, b);
    DifferenceSubtractsCoefficients(Sum(a, b), b);
    CoefficientsDetermine(d.stoich, a.stoich);
  }

  /** Addition of reactions is commutative in its coefficients and genes. */
  lemma {:induction false} SumCommutesOnContents(a: ReactionValue, b: ReactionValue)
    ensures Sum(a, b).stoich == Sum(b, a).stoich
    ensures Sum(a, b).genes == Sum(b, a).genes
  {
    SumCommutes(a.stoich, b.stoich);
  }

  /** When each operand's genes are the genes its rule mentions, so are the sum's, provided the
      right rule does not begin with the letters of an operator (the scraper's patterns have no
      word boundary, so a right rule `andx` would lose its first three letters). */
  lemma {:induction false} SumKeepsRuleGenes(a: ReactionValue, b: ReactionValue)
    requires a.genes == GeneRules.GeneIds(a.rule) && b.genes == GeneRules.GeneIds(b.rule)
    requires !Text.StartsWith(b.rule, "and") && !Text.StartsWith(b.rule, "or")
    ensures Sum(a, b).genes == GeneRules.GeneIds(Sum(a, b).rule)
  {
    GeneRules.GeneIdsEmpty();
    if a.rule != "" && b.rule != "" {
      GeneRules.GeneIdsConjunction(a.rule, b.rule);
    }
  }
}
