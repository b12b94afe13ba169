/** The operations of a cobra Reaction on its metabolite map, its gene set and the
    `_reaction` back-references of the metabolites and genes it uses. */
module Reactions {
  import opened Wrappers
  import opened Graph
  import opened Stoichiometry
  import GeneRules

  /** `add_metabolites(d, combine, add_to_container_model)`.
      Returns the metabolites it inserted (`new_metabolites`), which are the ones forwarded to the
      container model. */
  method AddMetabolites(r: Reaction, d: Items, combine: bool, addToContainerModel: bool)
    returns (introduced: seq<Metabolite>)
    requires r.Valid() && DistinctItems(d)
    modifies r`metabolites, r.metabolites.Keys`reactions, ItemObjects(d)`reactions
    modifies (if r.model == null then {} else {r.model})`metabolites
    ensures old(r.model) != null && addToContainerModel ==>
      old(r.model).metabolites == old(r.model.metabolites) + NewById(old(r.model.metabolites), introduced)
    ensures r.metabolites == Added(old(r.metabolites), d, combine)
    ensures introduced == Introduced(old(r.metabolites), d)
    ensures r.Valid()
    // a metabolite knows the reaction exactly while it takes part
    ensures forall m :: m in old(r.metabolites) ==>
      m.reactions == if m in r.metabolites then old(m.reactions) else old(m.reactions) - {r}
    ensures forall m :: m in introduced ==>
      m.reactions == if m in r.metabolites then old(m.reactions) + {r} else old(m.reactions) - {r}
    // a delta metabolite matched by id to one the reaction already uses is left alone
    ensures forall m :: m in ItemObjects(d) && m !in old(r.metabolites) && m !in introduced ==>
      m.reactions == old(m.reactions)
  {
    ghost var s0 := r.metabolites;
    introduced := UpdateMetabolites(r, d, combine);
    assert forall g :: g in r.genes ==> r in g.reactions;
    forall m | m in r.metabolites
      ensures r in m.reactions
    {
      FoldKeys(s0, d, combine);
    }
    AddedById(s0, d, combine);
    ForwardToModel(r.model, introduced, addToContainerModel);
  }

  /** `add_metabolites(d)` on a reaction that holds no metabolites yet: it ends up with the
      nonzero entries of `d` and no two metabolites of one id, each metabolite knowing the
      reaction. */
  method AddToEmpty(r: Reaction, d: Items)
    requires r.metabolites == map[] && r.Valid() && DistinctItems(d)
    modifies r`metabolites, ItemObjects(d)`reactions
    modifies (if r.model == null then {} else {r.model})`metabolites
    ensures DistinctMetaboliteIds(r.metabolites.Keys)
    ensures IdView(r.metabolites) == NonZero(ItemsView(d))
    ensures forall m :: m in r.metabolites ==> m in ItemObjects(d) && r in m.reactions
  {
    ghost var e := r.metabolites;
    var introduced := AddMetabolites(r, d, true, true);
    RebuiltView(e, r.metabolites, d);
    RebuiltKeys(e, r.metabolites, d, introduced);
  }

  /** The last step of `add_metabolites`: hand the inserted metabolites to the container model,
      if asked to and if the reaction belongs to one. */
  method ForwardToModel(model: Model?, introduced: seq<Metabolite>, addToContainerModel: bool)
    modifies (if model == null then {} else {model})`metabolites
    ensures model != null && addToContainerModel ==>
      model.metabolites == old(model.metabolites) + NewById(old(model.metabolites), introduced)
  {
    if addToContainerModel && model != null {
      model.AddMetabolites(introduced);
    }
  }

  /** The two loops of `add_metabolites`, on the reaction and the back-references. */
  method UpdateMetabolites(r: Reaction, d: Items, combine: bool) returns (introduced: seq<Metabolite>)
    requires r.Valid() && DistinctItems(d)
    modifies r`metabolites, r.metabolites.Keys`reactions, ItemObjects(d)`reactions
    ensures r.metabolites == Added(old(r.metabolites), d, combine)
    ensures introduced == Introduced(old(r.metabolites), d)
    ensures r.genes == old(r.genes) && r.model == old(r.model)
    // a metabolite knows the reaction exactly while it takes part
    ensures forall m :: m in old(r.metabolites) ==>
      m.reactions == if m in r.metabolites then old(m.reactions) else old(m.reactions) - {r}
    ensures forall m :: m in introduced ==>
      m.reactions == if m in r.metabolites then old(m.reactions) + {r} else old(m.reactions) - {r}
    ensures forall m :: m in ItemObjects(d) && m !in old(r.metabolites) && m !in introduced ==>
      m.reactions == old(m.reactions)
  {
    ghost var s0 := r.metabolites;
    introduced := MergeLinked(r, d, combine);
    FoldKeys(s0, d, combine);
    IntroducedAreNew(s0, d);
    ghost var f := r.metabolites;
    SweepZeros(r);
    forall m | m in s0
      ensures m.reactions == if m in r.metabolites then old(m.reactions) else old(m.reactions) - {r}
    {
      assert m in f && m !in introduced;
    }
    forall m | m in introduced
      ensures m.reactions == if m in r.metabolites then old(m.reactions) + {r} else old(m.reactions) - {r}
    {
      assert m in f;
    }
  }

  /** The first loop of `add_metabolites`, per metabolite: the reaction's own metabolites keep
      their back-references, the inserted ones gain `r`. */
  method MergeLinked(r: Reaction, d: Items, combine: bool) returns (introduced: seq<Metabolite>)
    requires DistinctMetaboliteIds(r.metabolites.Keys) && DistinctItems(d)
    modifies r`metabolites, ItemObjects(d)`reactions
    ensures r.metabolites == Fold(old(r.metabolites), IdIndex(old(r.metabolites)), d, combine)
    ensures introduced == Introduced(old(r.metabolites), d)
    ensures forall m :: m in old(r.metabolites) ==> m.reactions == old(m.reactions)
    ensures forall m :: m in introduced ==> m.reactions == old(m.reactions) + {r}
    ensures forall m :: m in ItemObjects(d) && m !in old(r.metabolites) && m !in introduced ==>
      m.reactions == old(m.reactions)
  {
    ghost var s0 := r.metabolites;
    introduced := MergeDelta(r, d, combine);
    IntroducedAreNew(s0, d);
    forall m | m in s0
      ensures m.reactions == old(m.reactions)
    {
      if m in ItemObjects(d) {
        var j :| 0 <= j < |d| && d[j].0 == m;
      }
    }
    forall m | m in introduced
      ensures m.reactions == old(m.reactions) + {r}
    {
      var j :| 0 <= j < |d| && d[j].0 == m;
    }
    IntroducedCovers(s0, d);
    forall m | m in ItemObjects(d) && m !in s0 && m !in introduced
      ensures m.reactions == old(m.reactions)
    {
      var j :| 0 <= j < |d| && d[j].0 == m;
    }
  }

  /** The first loop of `add_metabolites`: match each delta metabolite by id against the table
      built before the loop, combine or overwrite, or insert it and make it aware of `r`. */
  method MergeDelta(r: Reaction, d: Items, combine: bool) returns (introduced: seq<Metabolite>)
    requires DistinctMetaboliteIds(r.metabolites.Keys) && DistinctItems(d)
    modifies r`metabolites, ItemObjects(d)`reactions
    ensures r.metabolites == Fold(old(r.metabolites), IdIndex(old(r.metabolites)), d, combine)
    ensures introduced == Introduced(old(r.metabolites), d)
    ensures forall j :: 0 <= j < |d| ==>
      d[j].0.reactions == if d[j].0.id in IdIndex(old(r.metabolites)) then old(d[j].0.reactions) else old(d[j].0.reactions) + {r}
  {
    var index := IdIndex(r.metabolites);
    ghost var s0 := r.metabolites;
    introduced := [];
    var i := 0;
    while i < |d|
      invariant 0 <= i <= |d|
      invariant r.metabolites == Fold(s0, index, d[..i], combine)
      invariant introduced == Introduced(s0, d[..i])
      invariant forall j :: 0 <= j < |d| ==>
        d[j].0.reactions == if j < i && d[j].0.id !in index then old(d[j].0.reactions) + {r} else old(d[j].0.reactions)
    {
      assert d[i].0 in ItemObjects(d);
      introduced := MergeOne(r, index, d, i, combine, s0, introduced);
      i := i + 1;
    }
    assert d[..i] == d;
  }

  /** One pass of the first loop, on the pair `d[i]`: combine into or overwrite the entry of the
      metabolite with the same id, or insert the metabolite and make it aware of `r`. */
  method MergeOne(r: Reaction, index: map<string, Metabolite>, d: Items, i: nat, combine: bool,
                  ghost s0: Stoich, introduced: seq<Metabolite>)
    returns (introduced': seq<Metabolite>)
    requires i < |d| && DistinctMetaboliteIds(s0.Keys) && index == IdIndex(s0) && DistinctItems(d)
    requires r.metabolites == Fold(s0, index, d[..i], combine)
    requires introduced == Introduced(s0, d[..i])
    modifies r`metabolites, {d[i].0}`reactions
    ensures r.metabolites == Fold(s0, index, d[..i + 1], combine)
    ensures introduced' == Introduced(s0, d[..i + 1])
    ensures d[i].0.reactions == if d[i].0.id in index then old(d[i].0.reactions) else old(d[i].0.reactions) + {r}
    ensures forall j :: 0 <= j < |d| && j != i ==> d[j].0.reactions == old(d[j].0.reactions)
  {
    var m, c := d[i].0, d[i].1;
    FoldNext(s0, index, d, i, combine);
    IntroducedNext(s0, d, i);
    r.metabolites := Step(r.metabolites, index, m, c, combine);
    introduced' := introduced;
    if m.id !in index {
      m.reactions := m.reactions + {r};
      introduced' := introduced + [m];
    }
  }

  /** The second loop of `add_metabolites`: pop each entry whose coefficient is 0 and remove
      `r` from that metabolite's back-references (which hold `r` whenever `r` is valid, so the
      `remove` there never fails). */
  method SweepZeros(r: Reaction)
    modifies r`metabolites, r.metabolites.Keys`reactions
    ensures r.metabolites == DropZeros(old(r.metabolites))
    ensures forall m :: m in old(r.metabolites) ==>
      m.reactions == if m in r.metabolites then old(m.reactions) else old(m.reactions) - {r}
  {
    var zeros: set<Metabolite> := set m | m in r.metabolites && r.metabolites[m] == 0.0;
    WithoutZeros(r.metabolites, zeros);
    PopAll(r, zeros);
  }

  /** Pops the given metabolites one at a time, each forgetting `r`. */
  method PopAll(r: Reaction, zeros: set<Metabolite>)
    modifies r`metabolites, zeros`reactions
    ensures r.metabolites == Without(old(r.metabolites), zeros)
    ensures forall m :: m in zeros ==> m.reactions == old(m.reactions) - {r}
  {
    ghost var f := r.metabolites;
    var todo := zeros;
    while todo != {}
      invariant todo <= zeros
      invariant r.metabolites == Without(f, zeros - todo)
      invariant forall m :: m in todo ==> m.reactions == old(m.reactions)
      invariant forall m :: m in zeros && m !in todo ==> m.reactions == old(m.reactions) - {r}
      decreases |todo|
    {
      var m :| m in todo;
      WithoutOneMore(f, zeros - todo, m);
      assert zeros - (todo - {m}) == (zeros - todo) + {m};
      m.reactions := m.reactions - {r};
      r.metabolites := r.metabolites - {m};
      todo := todo - {m};
    }
  }

  /** `pop(m)`: take `m` out of the reaction and return its coefficient. A metabolite the
      reaction does not use is a KeyError and changes nothing; a used metabolite that does not
      know the reaction is taken out and then the removal of its back-reference raises. */
  method Pop(r: Reaction, m: Metabolite) returns (res: Result<real, string>)
    modifies r`metabolites, m`reactions
    ensures m !in old(r.metabolites) ==>
      res.Failure? && r.metabolites == old(r.metabolites) && m.reactions == old(m.reactions)
    ensures m in old(r.metabolites) ==>
      r.metabolites == old(r.metabolites) - {m} && m.reactions == old(m.reactions) - {r}
    ensures m in old(r.metabolites) ==>
      (res.Success? <==> r in old(m.reactions)) && (res.Success? ==> res.value == old(r.metabolites)[m])
    ensures old(r.Valid()) ==> r.Valid() && (res.Success? <==> m in old(r.metabolites))
  {
    if m !in r.metabolites {
      return Failure("KeyError: metabolite not in reaction");
    }
    var c := r.metabolites[m];
    r.metabolites := r.metabolites - {m};
    if r !in m.reactions {
      return Failure("KeyError: reaction not in metabolite._reaction");
    }
    m.reactions := m.reactions - {r};
    res := Success(c);
  }

  /** `add_gene(g)`: the reaction uses `g`, `g` knows the reaction and joins its model. */
  method AddGene(r: Reaction, g: Gene)
    modifies r`genes, g`reactions, g`model
    ensures r.genes == old(r.genes) + {g}
    ensures g.reactions == old(g.reactions) + {r} && g.model == r.model
    ensures old(r.Valid()) ==> r.Valid()
  {
    r.genes := r.genes + {g};
    g.reactions := g.reactions + {r};
    g.model := r.model;
  }

  /** `remove_gene(g)`: a gene the reaction uses is dropped and forgets the reaction; any other
      gene is ignored (the KeyError is swallowed). */
  method RemoveGene(r: Reaction, g: Gene)
    modifies r`genes, g`reactions
    ensures r.genes == old(r.genes) - {g}
    ensures g.reactions == if g in old(r.genes) then old(g.reactions) - {r} else old(g.reactions)
    ensures old(r.Valid()) ==> r.Valid()
  {
    if g in r.genes {
      r.genes := r.genes - {g};
      g.reactions := g.reactions - {r};
    }
  }

  /** `delete()`: the reaction leaves its model, every metabolite and gene it used forgets it,
      and it is left with no metabolites and no genes. */
  method Delete(r: Reaction)
    modifies r`model, r`metabolites, r`genes, r.metabolites.Keys`reactions, r.genes`reactions
    ensures r.model == null && r.metabolites == map[] && r.genes == {}
    ensures forall m :: m in old(r.metabolites) ==> m.reactions == old(m.reactions) - {r}
    ensures forall g :: g in old(r.genes) ==> g.reactions == old(g.reactions) - {r}
    ensures r.Valid()
  {
    r.model := null;
    ForgetInMetabolites(r, r.metabolites.Keys);
    ForgetInGenes(r, r.genes);
    r.metabolites := map[];
    r.genes := {};
  }

  /** Removes `r` from the back-references of each of `ms`. */
  method ForgetInMetabolites(r: Reaction, ms: set<Metabolite>)
    modifies ms`reactions
    ensures forall m :: m in ms ==> m.reactions == old(m.reactions) - {r}
  {
    var todo := ms;
    while todo != {}
      invariant todo <= ms
      invariant forall m :: m in todo ==> m.reactions == old(m.reactions)
      invariant forall m :: m in ms && m !in todo ==> m.reactions == old(m.reactions) - {r}
      decreases |todo|
    {
      var m :| m in todo;
      m.reactions := m.reactions - {r};
      todo := todo - {m};
    }
  }

  /** Removes `r` from the back-references of each of `gs`. */
  method ForgetInGenes(r: Reaction, gs: set<Gene>)
    modifies gs`reactions
    ensures forall g :: g in gs ==> g.reactions == old(g.reactions) - {r}
  {
    var todo := gs;
    while todo != {}
      invariant todo <= gs
      invariant forall g :: g in todo ==> g.reactions == old(g.reactions)
      invariant forall g :: g in gs && g !in todo ==> g.reactions == old(g.reactions) - {r}
      decreases |todo|
    {
      var g :| g in todo;
      g.reactions := g.reactions - {r};
      todo := todo - {g};
    }
  }

  /** `list.remove(x)`: the sequence without the first occurrence of `x`. */
  function RemoveFirst<T(==)>(s: seq<T>, x: T): (r: seq<T>)
    requires x in s
    ensures |r| == |s| - 1
    ensures multiset(r) == multiset(s) - multiset{x}
    decreases |s|
  {
    assert s == [s[0]] + s[1..];
    if s[0] == x then s[1..]
    else
      var rest := RemoveFirst(s[1..], x);
      assert s == [s[0]] + s[1..];
      [s[0]] + rest
  }

  /** Records `r` in the back-references of each of `ms`. */
  method JoinInMetabolites(r: Reaction, ms: set<Metabolite>)
    modifies ms`reactions
    ensures forall m :: m in ms ==> m.reactions == old(m.reactions) + {r}
  {
    var todo := ms;
    while todo != {}
      invariant todo <= ms
      invariant forall m :: m in todo ==> m.reactions == old(m.reactions)
      invariant forall m :: m in ms && m !in todo ==> m.reactions == old(m.reactions) + {r}
      decreases |todo|
    {
      var m :| m in todo;
      m.reactions := m.reactions + {r};
      todo := todo - {m};
    }
  }

  /** Records `r` in the back-references of each of `gs`. */
  method JoinInGenes(r: Reaction, gs: set<Gene>)
    modifies gs`reactions
    ensures forall g :: g in gs ==> g.reactions == old(g.reactions) + {r}
  {
    var todo := gs;
    while todo != {}
      invariant todo <= gs
      invariant forall g :: g in todo ==> g.reactions == old(g.reactions)
      invariant forall g :: g in gs && g !in todo ==> g.reactions == old(g.reactions) + {r}
      decreases |todo|
    {
      var g :| g in todo;
      g.reactions := g.reactions + {r};
      todo := todo - {g};
    }
  }

  /** The plain attributes a copy of a reaction carries over unchanged. */
  datatype Attributes = Attributes(name: string, rule: string, lowerBound: real, upperBound: real,
                                   objectiveCoefficient: real)

  function AttributesOf(r: Reaction): Attributes
    reads r`name, r`rule, r`lowerBound, r`upperBound, r`objectiveCoefficient
  {
    Attributes(r.name, r.rule, r.lowerBound, r.upperBound, r.objectiveCoefficient)
  }

  /** `deepcopy` of a metabolite, as far as this model sees it: a new metabolite with the same
      attributes that belongs to no reaction and no model. */
  method CopyMetabolite(m: Metabolite) returns (c: Metabolite)
    ensures fresh(c)
    ensures c.id == m.id && c.name == m.name && c.formula == m.formula
    ensures c.compartment == m.compartment && c.mnxId == m.mnxId
    ensures c.reactions == {} && c.model == null
  {
    c := new Metabolite(m.id, m.name, m.formula, m.compartment);
    c.mnxId := m.mnxId;
  }

  /** `deepcopy` of a gene, in the same sense. */
  method CopyGene(g: Gene) returns (c: Gene)
    ensures fresh(c)
    ensures c.id == g.id && c.isSubunit == g.isSubunit && c.name == g.name
    ensures c.pid == g.pid && c.isPolypeptide == g.isPolypeptide
    ensures c.reactions == {} && c.complexes == {} && c.model == null
  {
    c := new Gene(g.id, g.isSubunit, g.pid, g.isPolypeptide);
    c.name := g.name;
  }

  /** The (metabolite, coefficient) pairs of a metabolite map, each once. */
  method EntriesOf(s: Stoich) returns (d: Items)
    requires DistinctMetaboliteIds(s.Keys)
    ensures ItemObjects(d) == s.Keys && DistinctItems(d)
    ensures forall i :: 0 <= i < |d| ==> d[i].1 == s[d[i].0]
    ensures ItemsView(d) == IdView(s)
  {
    d := [];
    var todo := s.Keys;
    while todo != {}
      invariant todo <= s.Keys
      invariant ItemObjects(d) == s.Keys - todo && DistinctItems(d)
      invariant forall i :: 0 <= i < |d| ==> d[i].0 in s && d[i].1 == s[d[i].0]
      decreases |todo|
    {
      var m :| m in todo;
      AppendItem(d, m, s[m]);
      d := d + [(m, s[m])];
      todo := todo - {m};
    }
    ItemsViewOfEntries(d, s);
  }

  /** Appending a pair whose metabolite has a new id keeps the ids of a delta distinct. */
  lemma {:induction false} AppendItem(d: Items, m: Metabolite, c: real)
    requires DistinctItems(d) && m !in ItemObjects(d)
    requires DistinctMetaboliteIds(ItemObjects(d) + {m})
    ensures ItemObjects(d + [(m, c)]) == ItemObjects(d) + {m}
    ensures DistinctItems(d + [(m, c)])
  {
    var e := d + [(m, c)];
    assert forall i :: 0 <= i < |d| ==> e[i] == d[i];
    assert e[|d|].0 == m;
    forall x | x in ItemObjects(e)
      ensures x in ItemObjects(d) + {m}
    {
      var i :| 0 <= i < |e| && e[i].0 == x;
      if i < |d| {
        assert d[i].0 == x;
      }
    }
    forall i | 0 <= i < |d|
      ensures d[i].0.id != m.id
    {
      assert d[i].0 in ItemObjects(d);
    }
  }

  /** `deepcopy(self._metabolites)`, as the pairs `add_metabolites` will iterate. */
  method CopyMetabolites(s: Stoich) returns (copies: Items)
    requires DistinctMetaboliteIds(s.Keys)
    ensures DistinctItems(copies) && ItemsView(copies) == IdView(s)
    ensures forall m :: m in ItemObjects(copies) ==> fresh(m) && m.reactions == {}
  {
    var entries := EntriesOf(s);
    copies := CopyItems(entries);
  }

  /** `deepcopy` of a metabolite dict: the same pairs with each metabolite replaced by a copy. */
  method CopyItems(d: Items) returns (c: Items)
    ensures |c| == |d|
    ensures forall i :: 0 <= i < |d| ==>
      fresh(c[i].0) && c[i].0.id == d[i].0.id && c[i].1 == d[i].1 && c[i].0.reactions == {}
    ensures forall i, j :: 0 <= i < j < |c| ==> c[i].0 != c[j].0
    ensures forall m :: m in ItemObjects(c) ==> fresh(m) && m.reactions == {}
    ensures ItemsView(c) == ItemsView(d)
    ensures DistinctItems(d) ==> DistinctItems(c)
  {
    c := [];
    var i := 0;
    while i < |d|
      invariant 0 <= i <= |d| && |c| == i
      invariant forall j :: 0 <= j < i ==>
        fresh(c[j].0) && c[j].0.id == d[j].0.id && c[j].1 == d[j].1 && c[j].0.reactions == {}
      invariant forall j, k :: 0 <= j < k < i ==> c[j].0 != c[k].0
    {
      var m := CopyMetabolite(d[i].0);
      c := c + [(m, d[i].1)];
      i := i + 1;
    }
    ItemsViewByIds(c, d);
  }

  /** `__imul__` and `__mul__` (both scale the reaction itself): every coefficient is multiplied
      by `k`; coefficients that become 0 stay in the map. */
  method Multiply(r: Reaction, k: real)
    modifies r`metabolites
    ensures r.metabolites == Stoichiometry.Scale(old(r.metabolites), k)
    ensures old(r.Valid()) ==> r.Valid()
  {
    ghost var s := r.metabolites;
    var todo := r.metabolites.Keys;
    while todo != {}
      invariant todo <= s.Keys
      invariant r.metabolites.Keys == s.Keys
      invariant forall m :: m in s ==> r.metabolites[m] == if m in todo then s[m] else k * s[m]
      decreases |todo|
    {
      var m :| m in todo;
      r.metabolites := r.metabolites[m := k * r.metabolites[m]];
      todo := todo - {m};
    }
    ghost var t := Stoichiometry.Scale(s, k);
    forall m | m in s
      ensures r.metabolites[m] == t[m]
    {
      assert m !in todo && t[m] == k * s[m];
    }
    assert r.metabolites.Keys == t.Keys;
  }

  /** `subtract_metabolites(d)`: add a copy of `d` with every coefficient negated. */
  method SubtractMetabolites(r: Reaction, d: Items) returns (ghost introduced: seq<Metabolite>)
    requires r.Valid() && DistinctItems(d)
    modifies r`metabolites, r.metabolites.Keys`reactions
    modifies (if r.model == null then {} else {r.model})`metabolites
    ensures r.Valid()
    ensures IdView(r.metabolites) == Merge(IdView(old(r.metabolites)), Negated(ItemsView(d)), true)
    ensures forall m :: m in r.metabolites ==> m in old(r.metabolites) || fresh(m)
    // a metabolite of the reaction whose coefficient reaches 0 leaves it and forgets it
    ensures forall m :: m in old(r.metabolites) ==>
      m.reactions == if m in r.metabolites then old(m.reactions) else old(m.reactions) - {r}
    // the inserted metabolites are new copies, one for each id of `d` the reaction lacked,
    // and they are what the container model is handed
    ensures forall m :: m in introduced ==> fresh(m) && m.id in ItemsView(d) && m.id !in IdIndex(old(r.metabolites))
    ensures forall k :: k in ItemsView(d) && k !in IdIndex(old(r.metabolites)) ==>
      exists m :: m in introduced && m.id == k
    ensures old(r.model) != null ==>
      old(r.model).metabolites == old(r.model.metabolites) + NewById(old(r.model.metabolites), introduced)
  {
    var c := CopyItems(d);
    var n := NegateItems(c);
    assert DistinctItems(n);
    ghost var s0 := r.metabolites;
    introduced := AddMetabolites(r, n, true, true);
    IntroducedAreNew(s0, n);
    IntroducedIds(s0, n);
    IntroducedCovers(s0, n);
    NegateItemsObjects(c);
    forall k | k in ItemsView(d) && k !in IdIndex(s0)
      ensures exists m :: m in introduced && m.id == k
    {
      ItemsViewHas(d, k);
      var i :| 0 <= i < |d| && d[i].0.id == k;
      assert n[i].0.id == k;
    }
    assert ItemsView(n) == Negated(ItemsView(d)) by { NegateItemsView(c); }
    forall m | m in introduced
      ensures m.id in ItemsView(d)
    {
      assert m.id in Negated(ItemsView(d));
    }
    NegateItemsView(c);
    AddedById(s0, n, true);
    FoldKeys(s0, n, true);
    NegateItemsObjects(c);
    forall m | m in r.metabolites
      ensures m in s0 || fresh(m)
    {
      if m !in s0 {
        assert m in ItemObjects(c);
      }
    }
  }

  /** `remove_from_model(model)`: a reaction can only be removed from its own model (`model`
      may also be omitted) and must be in that model's reaction list; otherwise an exception is
      raised and nothing changes. On success the reaction leaves the list and the model, every
      metabolite and gene it used forgets it, and it is rebuilt from copies of its metabolites
      (through `add_metabolites`) and copies of its genes (through `add_gene`). */
  method RemoveFromModel(r: Reaction, model: Model?) returns (res: Result<(), string>)
    requires r.Valid()
    modifies r`model, r`metabolites, r`genes, r.metabolites.Keys`reactions, r.genes`reactions
    modifies (if r.model == null then {} else {r.model})`reactions
    ensures r.Valid()
    ensures res.Success? <==>
      (model == null || model == old(r.model)) && old(r.model) != null && r in old(r.model.reactions)
    ensures res.Failure? ==>
      r.model == old(r.model) && r.metabolites == old(r.metabolites) && r.genes == old(r.genes)
    ensures res.Failure? ==> forall m :: m in old(r.metabolites) ==> m.reactions == old(m.reactions)
    ensures res.Failure? ==> forall g :: g in old(r.genes) ==> g.reactions == old(g.reactions)
    ensures res.Failure? && old(r.model) != null ==> old(r.model).reactions == old(r.model.reactions)
    ensures res.Success? ==> old(r.model).reactions == RemoveFirst(old(r.model.reactions), r)
    ensures res.Success? ==> r.model == null
    ensures res.Success? ==> forall m :: m in old(r.metabolites) ==> m.reactions == old(m.reactions) - {r}
    ensures res.Success? ==> forall g :: g in old(r.genes) ==> g.reactions == old(g.reactions) - {r}
    ensures res.Success? ==> IdView(r.metabolites) == NonZero(IdView(old(r.metabolites)))
    ensures res.Success? ==> forall m :: m in r.metabolites ==> fresh(m) && m.reactions == {r}
    ensures res.Success? ==> GeneIdSet(r.genes) == GeneIdSet(old(r.genes))
    ensures res.Success? ==> forall g :: g in r.genes ==> fresh(g) && g.reactions == {r} && g.model == null
  {
    if model != null && model != r.model {
      return Failure("reaction not in model ergo it cannot be removed");
    }
    if r.model == null {
      return Failure("AttributeError: 'NoneType' object has no attribute 'reactions'");
    }
    if r !in r.model.reactions {
      return Failure("ValueError: list.remove(x): x not in list");
    }
    Remove(r);
    res := Success(());
  }

  /** `remove_from_model` once the checks have passed. */
  method Remove(r: Reaction)
    requires r.Valid() && r.model != null && r in r.model.reactions
    modifies r`model, r`metabolites, r`genes, r.metabolites.Keys`reactions, r.genes`reactions, r.model`reactions
    ensures r.Valid()
    ensures old(r.model).reactions == RemoveFirst(old(r.model.reactions), r)
    ensures r.model == null
    ensures forall m :: m in old(r.metabolites) ==> m.reactions == old(m.reactions) - {r}
    ensures forall g :: g in old(r.genes) ==> g.reactions == old(g.reactions) - {r}
    ensures IdView(r.metabolites) == NonZero(IdView(old(r.metabolites)))
    ensures forall m :: m in r.metabolites ==> fresh(m) && m.reactions == {r}
    ensures GeneIdSet(r.genes) == GeneIdSet(old(r.genes))
    ensures forall g :: g in r.genes ==> fresh(g) && g.reactions == {r} && g.model == null
  {
    var copies, oldGenes := Detach(r);
    Rebuild(r, copies, oldGenes);
  }

  /** The first half of `remove_from_model`: copy the metabolites and genes, leave the model's
      list and the model, and let go of every metabolite and gene. */
  method Detach(r: Reaction) returns (copies: Items, oldGenes: set<Gene>)
    requires r.Valid() && r.model != null && r in r.model.reactions
    modifies r`model, r`metabolites, r`genes, r.metabolites.Keys`reactions, r.genes`reactions, r.model`reactions
    ensures old(r.model).reactions == RemoveFirst(old(r.model.reactions), r)
    ensures r.model == null && r.metabolites == map[] && r.genes == {}
    ensures forall m :: m in old(r.metabolites) ==> m.reactions == old(m.reactions) - {r}
    ensures forall g :: g in old(r.genes) ==> g.reactions == old(g.reactions) - {r}
    ensures oldGenes == old(r.genes)
    ensures DistinctItems(copies) && ItemsView(copies) == IdView(old(r.metabolites))
    ensures forall m :: m in ItemObjects(copies) ==> fresh(m) && m.reactions == {}
  {
    copies := CopyMetabolites(r.metabolites);
    oldGenes := r.genes;
    var container := r.model;
    container.reactions := RemoveFirst(container.reactions, r);
    // model := None and the removal of every back-reference (each is present, since the
    // reaction is valid), then the emptied metabolite map and gene set
    Delete(r);
  }

  /** The second half of `remove_from_model`: `add_metabolites` with the copied metabolites and
      `add_gene` with a copy of each former gene, on a reaction that has neither. */
  method Rebuild(r: Reaction, copies: Items, gs: set<Gene>)
    requires r.metabolites == map[] && r.genes == {} && r.model == null && DistinctItems(copies)
    requires forall m :: m in ItemObjects(copies) ==> m.reactions == {}
    modifies r`metabolites, r`genes, ItemObjects(copies)`reactions
    ensures r.Valid()
    ensures IdView(r.metabolites) == NonZero(ItemsView(copies))
    ensures forall m :: m in r.metabolites ==> m in ItemObjects(copies) && m.reactions == {r}
    ensures GeneIdSet(r.genes) == GeneIdSet(gs)
    ensures forall g :: g in r.genes ==> fresh(g) && g.reactions == {r} && g.model == null
  {
    RebuildMetabolites(r, copies);
    AddGeneCopies(r, gs);
  }

  /** The `add_metabolites` half of `Rebuild`. */
  method RebuildMetabolites(r: Reaction, copies: Items)
    requires r.metabolites == map[] && r.genes == {} && r.model == null && DistinctItems(copies)
    requires forall m :: m in ItemObjects(copies) ==> m.reactions == {}
    modifies r`metabolites, ItemObjects(copies)`reactions
    ensures r.Valid() && r.genes == {} && r.model == null
    ensures IdView(r.metabolites) == NonZero(ItemsView(copies))
    ensures forall m :: m in r.metabolites ==> m in ItemObjects(copies) && m.reactions == {r}
  {
    ghost var empty := r.metabolites;
    var introduced := AddMetabolites(r, copies, true, true);
    RebuiltView(empty, r.metabolites, copies);
    RebuiltKeys(empty, r.metabolites, copies, introduced);
  }

  /** What re-adding the copied metabolites to an emptied reaction leaves: the non-zero
      coefficients of the copies, by id. */
  lemma {:induction false} RebuiltView(e: Stoich, s: Stoich, copies: Items)
    requires e == map[] && DistinctItems(copies)
    requires s == Added(e, copies, true)
    ensures DistinctMetaboliteIds(s.Keys)
    ensures IdView(s) == NonZero(ItemsView(copies))
  {
    AddedById(e, copies, true);
    EmptyView(e);
    MergeIntoEmpty(ItemsView(copies));
  }

  lemma {:induction false} EmptyView(e: Stoich)
    requires e == map[]
    ensures IdView(e) == map[]
  {
    assert IdView(e).Keys == {};
  }

  /** ... and every metabolite left is one of the copies, inserted by the call. */
  lemma {:induction false} RebuiltKeys(e: Stoich, s: Stoich, copies: Items, introduced: seq<Metabolite>)
    requires e == map[] && DistinctItems(copies)
    requires s == Added(e, copies, true) && introduced == Introduced(e, copies)
    ensures forall m :: m in s ==> m in introduced && m in ItemObjects(copies)
  {
    FoldKeys(e, copies, true);
  }

  /** The ids of a set of genes grow by the id of a gene added to it. */
  lemma {:induction false} GeneIdsInsert(a: set<Gene>, g: Gene)
    ensures GeneIdSet(a + {g}) == GeneIdSet(a) + {g.id}
  {
  }

  /** A gene whose id is new keeps the ids of a set distinct. */
  lemma DistinctGeneInsert(a: set<Gene>, g: Gene)
    requires DistinctGeneIds(a) && g.id !in GeneIdSet(a)
    ensures DistinctGeneIds(a + {g})
  {
    forall y | y in a
      ensures y.id != g.id
    {
      assert y.id in GeneIdSet(a);
    }
  }

  /** The end of `remove_from_model`: `add_gene` with a copy of each former gene. */
  method AddGeneCopies(r: Reaction, gs: set<Gene>)
    requires r.genes == {} && r.Valid()
    modifies r`genes
    ensures GeneIdSet(r.genes) == GeneIdSet(gs)
    ensures forall g :: g in r.genes ==> fresh(g) && g.reactions == {r} && g.model == r.model
    ensures r.Valid()
    ensures r.metabolites == old(r.metabolites)
    ensures forall m {:trigger m.reactions} :: m in r.metabolites ==> m.reactions == old(m.reactions)
  {
    var todo := gs;
    while todo != {}
      invariant todo <= gs
      invariant GeneIdSet(r.genes) == GeneIdSet(gs - todo)
      invariant forall g :: g in r.genes ==> fresh(g) && g.reactions == {r} && g.model == r.model
      invariant r.Valid()
      decreases |todo|
    {
      var g :| g in todo;
      ghost var before := r.genes;
      var c := AddGeneCopy(r, g);
      GeneIdsInsert(before, c);
      assert gs - (todo - {g}) == (gs - todo) + {g};
      GeneIdsInsert(gs - todo, g);
      todo := todo - {g};
    }
  }

  /** `add_gene(copy(g))` for one former gene. */
  method AddGeneCopy(r: Reaction, g: Gene) returns (c: Gene)
    requires r.Valid()
    modifies r`genes
    ensures fresh(c) && c.id == g.id && c.reactions == {r} && c.model == r.model
    ensures r.genes == old(r.genes) + {c}
    ensures r.Valid()
  {
    c := CopyGene(g);
    AddGene(r, c);
  }

  /** `parse_gene_association(kind)`: for kind `gene`, the gene set is replaced by new genes,
      one per id the rule's text mentions, each of which knows the reaction. The genes it
      replaces are not told. Any other kind changes nothing. */
  method ParseGeneAssociation(r: Reaction, kind: string)
    modifies r`genes
    ensures kind != "gene" ==> r.genes == old(r.genes)
    ensures kind == "gene" ==> GeneIdSet(r.genes) == GeneRules.GeneIds(r.rule)
    ensures kind == "gene" ==> DistinctGeneIds(r.genes)
    ensures kind == "gene" ==> forall g :: g in r.genes ==> fresh(g) && g.reactions == {r} && !g.isSubunit
    ensures old(r.Valid()) ==> r.Valid()
  {
    if kind == "gene" {
      var genes := NewGenes(r, GeneRules.GeneIds(r.rule));
      r.genes := genes;
    }
  }

  /** `Gene(id)` that knows the reaction `r`. */
  method NewGene(r: Reaction, id: string) returns (g: Gene)
    ensures fresh(g) && g.id == id && g.reactions == {r} && !g.isSubunit
  {
    g := new Gene(id, false, None, false);
    g.reactions := {r};
  }

  /** `set(map(Gene, ids))` followed by making each new gene aware of `r`. */
  method NewGenes(r: Reaction, ids: set<string>) returns (genes: set<Gene>)
    ensures GeneIdSet(genes) == ids
    ensures DistinctGeneIds(genes)
    ensures forall g :: g in genes ==> fresh(g) && g.reactions == {r} && !g.isSubunit
  {
    genes := {};
    var todo := ids;
    while todo != {}
      invariant todo <= ids
      invariant GeneIdSet(genes) == ids - todo
      invariant DistinctGeneIds(genes)
      invariant forall g :: g in genes ==> fresh(g)
      invariant forall g :: g in genes ==> g.reactions == {r} && !g.isSubunit
      decreases |todo|
    {
      var id :| id in todo;
      var g := NewGene(r, id);
      GeneIdsInsert(genes, g);
      DistinctGeneInsert(genes, g);
      assert ids - (todo - {id}) == (ids - todo) + {id};
      genes := genes + {g};
      todo := todo - {id};
    }
  }

  // ----- guided_copy -----

  /** An id table of the copy procedure: each metabolite stored under its own id. */
  ghost predicate MetaboliteTable(t: map<string, Metabolite>)
  {
    forall k :: k in t ==> t[k].id == k
  }

  /** An id table of the copy procedure: each gene stored under its own id. */
  ghost predicate GeneTable(t: map<string, Gene>)
  {
    forall k :: k in t ==> t[k].id == k
  }

  /** A metabolite map with each metabolite replaced by the table's metabolite of its id. */
  function Repoint(s: Stoich, t: map<string, Metabolite>): (r: Stoich)
    requires DistinctMetaboliteIds(s.Keys) && MetaboliteTable(t)
    requires forall m :: m in s ==> m.id in t
    ensures forall m :: m in s ==> t[m.id] in r && r[t[m.id]] == s[m]
    ensures r.Keys <= t.Values
  {
    var ix := IdIndex(s);
    map x | x in t.Values && x.id in ix :: s[ix[x.id]]
  }

  /** Re-pointing keeps the ids distinct ... */
  lemma {:induction false} RepointDistinct(s: Stoich, t: map<string, Metabolite>)
    requires DistinctMetaboliteIds(s.Keys) && MetaboliteTable(t)
    requires forall m :: m in s ==> m.id in t
    ensures DistinctMetaboliteIds(Repoint(s, t).Keys)
  {
    var r := Repoint(s, t);
    forall a, b | a in r && b in r && a.id == b.id
      ensures a == b
    {
      assert a == t[a.id] && b == t[b.id];
    }
  }

  /** ... and the coefficients by id. */
  lemma {:induction false} RepointById(s: Stoich, t: map<string, Metabolite>)
    requires DistinctMetaboliteIds(s.Keys) && MetaboliteTable(t)
    requires forall m :: m in s ==> m.id in t
    ensures DistinctMetaboliteIds(Repoint(s, t).Keys)
    ensures IdView(Repoint(s, t)) == IdView(s)
  {
    RepointDistinct(s, t);
    var r, ix := Repoint(s, t), IdIndex(s);
    var u, v := IdView(r), IdView(s);
    forall k | k in u
      ensures k in v && u[k] == v[k]
    {
      var x :| x in r && x.id == k;
      assert x.id in ix;
    }
    forall k | k in v
      ensures k in u
    {
      var m :| m in s && m.id == k;
      assert t[m.id] in r;
    }
    SameById(u, v);
  }

  /** Two id views that hold each other's ids and agree on them are equal. */
  lemma {:induction false} SameById(u: ById, v: ById)
    requires forall k :: k in u ==> k in v && u[k] == v[k]
    requires forall k :: k in v ==> k in u
    ensures u == v
  {
    assert u.Keys == v.Keys;
  }

  /** The genes of a copy: those of the table with the same ids, or the same genes when the
      table is empty (`if gene_dict:`). */
  function CopiedGenes(gs: set<Gene>, t: map<string, Gene>): (r: set<Gene>)
    requires GeneTable(t) && (t != map[] ==> forall g :: g in gs ==> g.id in t)
    ensures GeneIdSet(r) == GeneIdSet(gs)
    ensures t == map[] ==> r == gs
    ensures t != map[] ==> r <= t.Values
  {
    if t == map[] then gs else set g | g in gs :: t[g.id]
  }

  /** The copy `Object.guided_copy` starts from: the same attributes, in `model`, with the
      given metabolites and genes, known to none of them yet. */
  method CopyAttributes(src: Reaction, model: Model?, ms: Stoich, gs: set<Gene>) returns (c: Reaction)
    ensures fresh(c) && c.id == src.id && AttributesOf(c) == AttributesOf(src) && c.model == model
    ensures c.catalysts == src.catalysts && c.catalyzed == src.catalyzed && c.complexes == src.complexes && c.logic == src.logic
    ensures c.metabolites == ms && c.genes == gs
  {
    c := new Reaction.Copy(src.id, src.name, src.rule, src.lowerBound, src.upperBound, src.objectiveCoefficient,
                           ms, gs, model, src.catalyzed, src.catalysts, src.complexes, src.logic);
  }

  /** `Reaction.guided_copy(model, metabolite_dict, gene_dict)`: a copy of the attributes of
      `src`, in `model`, whose metabolites and genes are the tables' objects of the same ids,
      each of which learns of the copy. */
  method GuidedCopy(src: Reaction, model: Model?, metabolites: map<string, Metabolite>, genes: map<string, Gene>)
    returns (c: Reaction)
    requires DistinctMetaboliteIds(src.metabolites.Keys) && MetaboliteTable(metabolites)
    requires forall m :: m in src.metabolites ==> m.id in metabolites
    requires GeneTable(genes) && (genes != map[] ==> forall g :: g in src.genes ==> g.id in genes)
    modifies Repoint(src.metabolites, metabolites).Keys`reactions, CopiedGenes(src.genes, genes)`reactions
    ensures fresh(c) && c.id == src.id && AttributesOf(c) == old(AttributesOf(src)) && c.model == model
    ensures c.catalysts == old(src.catalysts) && c.catalyzed == old(src.catalyzed) && c.complexes == old(src.complexes) && c.logic == old(src.logic)
    ensures c.metabolites == old(Repoint(src.metabolites, metabolites))
    ensures c.genes == old(CopiedGenes(src.genes, genes))
    ensures c.Valid()
    ensures forall m :: m in c.metabolites ==> m.reactions == old(m.reactions) + {c}
    ensures forall g :: g in c.genes ==> g.reactions == old(g.reactions) + {c}
  {
    var ms, gs := Repoint(src.metabolites, metabolites), CopiedGenes(src.genes, genes);
    RepointDistinct(src.metabolites, metabolites);
    c := CopyAttributes(src, model, ms, gs);
    Introduce(c);
  }

  /** The end of `guided_copy`: each gene and metabolite of `c` learns of it. */
  method Introduce(c: Reaction)
    requires DistinctMetaboliteIds(c.metabolites.Keys)
    modifies c.metabolites.Keys`reactions, c.genes`reactions
    ensures c.Valid()
    ensures forall m :: m in c.metabolites ==> m.reactions == old(m.reactions) + {c}
    ensures forall g :: g in c.genes ==> g.reactions == old(g.reactions) + {c}
  {
    JoinInGenes(c, c.genes);
    JoinInMetabolites(c, c.metabolites.Keys);
  }
}
