/** `ME_Model.copy` and the `guided_copy` methods of the enzyme objects it calls: new
    modifications and complexes wired through id tables of the objects copied before them, and
    one catalyst per complex (or per modification of a complex). */
module MeCopy {
  import opened Wrappers
  import opened Graph
  import opened Enzyme
  import Reactions
  import opened LogicStrings

  // ---------------------------------------------------------------------------
  // Modification.guided_copy
  // ---------------------------------------------------------------------------

  /** A species composition with each species replaced by the table's species of its id:
      `dict([(species_dict[k.id], v) for k, v in d.iteritems()])`. */
  function RepointSpecies(d: map<Metabolite, int>, t: map<string, Metabolite>): (r: map<Metabolite, int>)
    requires DistinctMetaboliteIds(d.Keys) && Reactions.MetaboliteTable(t)
    requires forall m :: m in d ==> m.id in t
    ensures forall m :: m in d ==> t[m.id] in r && r[t[m.id]] == d[m]
    ensures forall x :: x in r ==> exists m :: m in d && t[m.id] == x
  {
    map m | m in d :: t[m.id] := d[m]
  }

  /** The repointed composition keeps the species ids distinct ... */
  lemma {:induction false} RepointSpeciesDistinct(d: map<Metabolite, int>, t: map<string, Metabolite>)
    requires DistinctMetaboliteIds(d.Keys) && Reactions.MetaboliteTable(t)
    requires forall m :: m in d ==> m.id in t
    ensures DistinctMetaboliteIds(RepointSpecies(d, t).Keys)
  {
    var r := RepointSpecies(d, t);
    forall a, b | a in r && b in r && a.id == b.id
      ensures a == b
    {
      var x :| x in d && t[x.id] == a;
      var y :| y in d && t[y.id] == b;
    }
  }

  /** ... and holds the same ids with the same stoichiometries. */
  lemma {:induction false} RepointSpeciesIds(d: map<Metabolite, int>, t: map<string, Metabolite>)
    requires DistinctMetaboliteIds(d.Keys) && Reactions.MetaboliteTable(t)
    requires forall m :: m in d ==> m.id in t
    ensures DistinctMetaboliteIds(RepointSpecies(d, t).Keys)
    ensures SpeciesIds(RepointSpecies(d, t)) == SpeciesIds(d)
  {
    var r := RepointSpecies(d, t);
    RepointSpeciesDistinct(d, t);
    var u, v := SpeciesIds(r), SpeciesIds(d);
    forall k | k in u
      ensures k in v && u[k] == v[k]
    {
      RepointedAt(d, t, r, k);
    }
    forall k | k in v
      ensures k in u
    {
      RepointedHas(d, t, r, k);
    }
    SameViews(u, v);
  }

  /** An id of the repointed view `r` is one of the source's, with the same stoichiometry. */
  lemma {:induction false} RepointedAt(d: map<Metabolite, int>, t: map<string, Metabolite>, r: map<Metabolite, int>, k: string)
    requires DistinctMetaboliteIds(d.Keys) && Reactions.MetaboliteTable(t) && DistinctMetaboliteIds(r.Keys)
    requires forall m :: m in d ==> m.id in t && t[m.id] in r && r[t[m.id]] == d[m]
    requires forall x :: x in r ==> exists m :: m in d && t[m.id] == x
    requires k in SpeciesIds(r)
    ensures k in SpeciesIds(d) && SpeciesIds(d)[k] == SpeciesIds(r)[k]
  {
    IdViewKeys(r, MetaboliteNames(r.Keys));
    var a :| a in r && MetaboliteNames(r.Keys)[a] == k;
    var m :| m in d && t[m.id] == a;
    SpeciesIdsAt(r, a);
    SpeciesIdsAt(d, m);
  }

  /** An id of the source's view is one of the repointed view's `r`. */
  lemma {:induction false} RepointedHas(d: map<Metabolite, int>, t: map<string, Metabolite>, r: map<Metabolite, int>, k: string)
    requires DistinctMetaboliteIds(d.Keys) && Reactions.MetaboliteTable(t) && DistinctMetaboliteIds(r.Keys)
    requires forall m :: m in d ==> m.id in t && t[m.id] in r
    requires k in SpeciesIds(d)
    ensures k in SpeciesIds(r)
  {
    IdViewKeys(d, MetaboliteNames(d.Keys));
    var m :| m in d && MetaboliteNames(d.Keys)[m] == k;
    SpeciesIdsAt(r, t[m.id]);
  }

  /** Two compositions by id that hold each other's ids and agree on them are equal. */
  lemma {:induction false} SameViews(u: map<string, int>, v: map<string, int>)
    requires forall k :: k in u ==> k in v && u[k] == v[k]
    requires forall k :: k in v ==> k in u
    ensures u == v
  {
    assert u.Keys == v.Keys;
  }

  /** The id `__update_id` gives a modification of composition `c` (by id). */
  function ModificationIdOf(c: map<string, int>): string
  {
    (if c == map[] then "Empty_Modification" else "Modification") + Suffix(c)
  }

  /** `Modification.guided_copy(species_dict)`: a new modification with the attributes of `src`
      (`Object.guided_copy`) whose species are the table's species of the same ids; when it has
      species its id and logic are recomputed, from the source's composition, which has the same
      ids. A source whose id is the one its composition gives passes that id on. */
  method CopyModification(src: Modification, species: map<string, Metabolite>) returns (c: Modification)
    requires DistinctMetaboliteIds(src.composition.Keys) && Reactions.MetaboliteTable(species)
    requires forall m :: m in src.composition ==> m.id in species
    ensures fresh(c)
    ensures c.composition == RepointSpecies(src.composition, species)
    ensures DistinctMetaboliteIds(c.composition.Keys) && SpeciesIds(c.composition) == SpeciesIds(src.composition)
    ensures src.composition == map[] ==> c.id == src.id && c.logic == src.logic
    ensures src.composition != map[] ==>
      c.id == ModificationIdOf(SpeciesIds(c.composition)) && c.logic == UpdateLogic(SpeciesIds(c.composition))
    ensures src.id == ModificationIdOf(SpeciesIds(src.composition)) ==> c.id == src.id
  {
    var comp, ids := RepointSpecies(src.composition, species), SpeciesIds(src.composition);
    RepointSpeciesIds(src.composition, species);
    IdViewEmpty(src.composition, MetaboliteNames(src.composition.Keys));
    c := Recomputed(src.id, src.logic, comp, ids);
  }

  /** A new modification of composition `comp` with the attributes `id` and `logic`, whose id
      and logic are then recomputed from `ids` unless it is empty. */
  method Recomputed(id: string, logic: Option<string>, comp: map<Metabolite, int>, ids: map<string, int>)
    returns (c: Modification)
    ensures fresh(c) && c.composition == comp
    ensures ids == map[] ==> c.id == id && c.logic == logic
    ensures ids != map[] ==> c.id == ModificationIdOf(ids) && c.logic == UpdateLogic(ids)
  {
    c := new Modification();
    c.id, c.logic, c.composition := id, logic, comp;
    if ids != map[] {
      var ok := UpdateModificationId(c, ids);
    }
  }

  // ---------------------------------------------------------------------------
  // Complex.guided_copy
  // ---------------------------------------------------------------------------

  /** A subunit composition with each subunit replaced by the table's subunit of its id. */
  function RepointSubunits(d: map<Gene, int>, t: map<string, Gene>): (r: map<Gene, int>)
    requires DistinctGeneIds(d.Keys) && Reactions.GeneTable(t)
    requires forall g :: g in d ==> g.id in t
    ensures forall g :: g in d ==> t[g.id] in r && r[t[g.id]] == d[g]
    ensures forall x :: x in r ==> exists g :: g in d && t[g.id] == x
  {
    GeneTableInjective(d, t);
    map g | g in d :: t[g.id] := d[g]
  }

  /** Subunits of distinct ids have distinct subunits in the table. */
  lemma {:induction false} GeneTableInjective(d: map<Gene, int>, t: map<string, Gene>)
    requires DistinctGeneIds(d.Keys) && Reactions.GeneTable(t)
    requires forall g :: g in d ==> g.id in t
    ensures forall a, b :: a in d && b in d && t[a.id] == t[b.id] ==> a == b
  {
    forall a, b | a in d && b in d && t[a.id] == t[b.id]
      ensures a == b
    {
      assert SameGeneId(a, b);
    }
  }

  /** The repointed subunits keep their ids distinct ... */
  lemma {:induction false} RepointSubunitsDistinct(d: map<Gene, int>, t: map<string, Gene>)
    requires DistinctGeneIds(d.Keys) && Reactions.GeneTable(t)
    requires forall g :: g in d ==> g.id in t
    ensures DistinctGeneIds(RepointSubunits(d, t).Keys)
  {
    var r := RepointSubunits(d, t);
    forall a, b | a in r && b in r && SameGeneId(a, b)
      ensures a == b
    {
      var x :| x in d && t[x.id] == a;
      var y :| y in d && t[y.id] == b;
      assert SameGeneId(x, y);
    }
  }

  /** ... and the same ids with the same stoichiometries. */
  lemma {:induction false} RepointSubunitsIds(d: map<Gene, int>, t: map<string, Gene>)
    requires DistinctGeneIds(d.Keys) && Reactions.GeneTable(t)
    requires forall g :: g in d ==> g.id in t
    ensures DistinctGeneIds(RepointSubunits(d, t).Keys)
    ensures SubunitIds(RepointSubunits(d, t)) == SubunitIds(d)
  {
    var r := RepointSubunits(d, t);
    RepointSubunitsDistinct(d, t);
    var u, v := SubunitIds(r), SubunitIds(d);
    forall k | k in u
      ensures k in v && u[k] == v[k]
    {
      SubunitRepointedAt(d, t, r, k);
    }
    forall k | k in v
      ensures k in u
    {
      SubunitRepointedHas(d, t, r, k);
    }
    SameViews(u, v);
  }

  /** An id of the repointed subunits `r` is one of the source's, with the same stoichiometry. */
  lemma {:induction false} SubunitRepointedAt(d: map<Gene, int>, t: map<string, Gene>, r: map<Gene, int>, k: string)
    requires DistinctGeneIds(d.Keys) && Reactions.GeneTable(t) && DistinctGeneIds(r.Keys)
    requires forall g :: g in d ==> g.id in t && t[g.id] in r && r[t[g.id]] == d[g]
    requires forall x :: x in r ==> exists g :: g in d && t[g.id] == x
    requires k in SubunitIds(r)
    ensures k in SubunitIds(d) && SubunitIds(d)[k] == SubunitIds(r)[k]
  {
    GeneNamesInjective(r.Keys);
    IdViewKeys(r, GeneNames(r.Keys));
    var a :| a in r && GeneNames(r.Keys)[a] == k;
    var g :| g in d && t[g.id] == a;
    SubunitIdsAt(r, a);
    SubunitIdsAt(d, g);
  }

  /** An id of the source's subunits is one of the repointed subunits' `r`. */
  lemma {:induction false} SubunitRepointedHas(d: map<Gene, int>, t: map<string, Gene>, r: map<Gene, int>, k: string)
    requires DistinctGeneIds(d.Keys) && Reactions.GeneTable(t) && DistinctGeneIds(r.Keys)
    requires forall g :: g in d ==> g.id in t && t[g.id] in r
    requires k in SubunitIds(d)
    ensures k in SubunitIds(r)
  {
    GeneNamesInjective(d.Keys);
    IdViewKeys(d, GeneNames(d.Keys));
    var g :| g in d && GeneNames(d.Keys)[g] == k;
    SubunitIdsAt(r, t[g.id]);
  }

  /** `{modification_dict[k.id] for k in ms}`. */
  function RepointModifications(ms: set<Modification?>, t: map<string, Modification>): (r: set<Modification?>)
    requires forall m :: m in ms ==> m != null && m.id in t
    reads ms
    ensures forall m :: m in ms ==> t[m.id] in r
    ensures forall x :: x in r ==> exists m :: m in ms && t[m.id] == x
  {
    set m | m in ms :: t[m.id]
  }

  /** What `Species.guided_copy(self, model)`, which is not part of this model, is taken to
      give: a new complex with the attributes of `src`, in `model`, with no reactions. */
  method NewComplexCopy(src: Complex, model: Model?) returns (c: Complex)
    ensures fresh(c) && c.id == src.id && c.model == model && c.reactions == {}
    ensures c.subunits == map[] && c.polypeptideSubunits == src.polypeptideSubunits
    ensures c.rnaSubunits == src.rnaSubunits && c.pids == src.pids && c.logic == src.logic
    ensures c.modifications == src.modifications && c.catalysts == src.catalysts
    ensures c.modificationToCatalyst == src.modificationToCatalyst
    ensures c.subcomplexes == src.subcomplexes && c.supercomplexes == src.supercomplexes
  {
    c := new Complex(src.id);
    c.polypeptideSubunits, c.rnaSubunits, c.pids, c.logic := src.polypeptideSubunits, src.rnaSubunits, src.pids, src.logic;
    c.modifications, c.catalysts, c.modificationToCatalyst := src.modifications, src.catalysts, src.modificationToCatalyst;
    c.subcomplexes, c.supercomplexes := src.subcomplexes, src.supercomplexes;
    c.model := model;
  }

  /** The `add_subunit` loop of `Complex.guided_copy` on a copy without subunits and not yet in
      a model: each subunit of `inner` is added with its stoichiometry and learns of the copy;
      unless `inner` is empty the id and logic are then those of the new composition. */
  method AddCopiedSubunits(c: Complex, inner: map<Gene, int>)
    requires c.model == null && c.subunits == map[] && DistinctGeneIds(inner.Keys)
    modifies c`subunits, c`polypeptideSubunits, c`rnaSubunits, c`pids, c`id, c`logic, inner.Keys`complexes
    ensures c.subunits == inner
    ensures c.polypeptideSubunits == old(c.polypeptideSubunits) + NewOfKind(inner, map[], true)
    ensures c.rnaSubunits == old(c.rnaSubunits) + NewOfKind(inner, map[], false)
    ensures c.pids == old(c.pids) + PidsIn(inner)
    ensures forall g {:trigger g.complexes} :: g in inner ==> g.complexes == old(g.complexes) + {c}
    ensures inner == map[] ==> c.id == old(c.id) && c.logic == old(c.logic)
    ensures inner != map[] ==>
      c.id == "Complex" + Suffix(SubunitIds(c.subunits)) && c.logic == UpdateLogic(SubunitIds(c.subunits))
  {
    RecordSubunits(c, inner, 1);
    assert c.subunits == inner;
    var ok := RecomputeIfAdded(c, null, inner);
  }

  /** `create_catalyst` keeps the key of the modification it is asked for: the modification it
      applies is that one or the model's modification of the same id. */
  lemma {:induction false} ResolvedKey(model: Model?, ms: seq<Entry<Modification>>, k: Modification?)
    requires ModificationKeysCurrent(ms)
    ensures ModKey(Resolved(model, ms, k)) == ModKey(k)
  {
    if k != null && model != null && model.hasModifications {
      match LookupKey(ms, k.id)
      case Some(m) =>
        var e :| e in ms && e.key == k.id && e.item == m;
        var i :| 0 <= i < |ms| && ms[i] == e;
      case None =>
    }
  }

  /** One `create_catalyst(k)` of the copy: it either records a catalyst under the key of `k`
      (adding at most one catalyst) or hits the KeyError of a modification the complex holds
      without a catalyst. */
  method CreateOne(cx: Complex, model: Model?, k: Modification?) returns (ok: bool)
    requires cx.model == model
    requires model != null && model.hasModifications ==> ModificationKeysCurrent(model.modifications)
    modifies cx`catalysts, cx`modifications, cx`modificationToCatalyst
    modifies (if model == null then {} else {model})`modifications, (if model == null then {} else {model})`catalysts
    ensures model != null && model.hasModifications ==> ModificationKeysCurrent(model.modifications)
    ensures old(cx.modifications) <= cx.modifications
    ensures old(cx.modificationToCatalyst.Keys) <= cx.modificationToCatalyst.Keys
    ensures old(cx.catalysts) <= cx.catalysts && |cx.catalysts| <= |old(cx.catalysts)| + 1
    ensures ok <==> ModKey(k) in cx.modificationToCatalyst
    ensures !ok ==> k in cx.modifications
  {
    ghost var ms := ModelModifications(model);
    var r, used := CreateCatalyst(cx, model, k);
    ResolvedKey(model, ms, k);
    ok := r.Some?;
  }

  /** `[the_copy.create_catalyst(k) for k in ks]`, stopped by the KeyError of a modification the
      complex already holds without a catalyst. Each new catalyst is built from the complex, and
      once all are through the complex records a catalyst under the key of each of `ks`. */
  method CreateEach(cx: Complex, model: Model?, ks: set<Modification?>) returns (ok: bool)
    requires cx.model == model
    requires model != null && model.hasModifications ==> ModificationKeysCurrent(model.modifications)
    modifies cx`catalysts, cx`modifications, cx`modificationToCatalyst
    modifies (if model == null then {} else {model})`modifications, (if model == null then {} else {model})`catalysts
    ensures model != null && model.hasModifications ==> ModificationKeysCurrent(model.modifications)
    ensures old(cx.modifications) <= cx.modifications
    ensures old(cx.modificationToCatalyst.Keys) <= cx.modificationToCatalyst.Keys
    ensures old(cx.catalysts) <= cx.catalysts && |cx.catalysts| <= |old(cx.catalysts)| + |ks|
    ensures ok ==> forall k :: k in ks ==> ModKey(k) in cx.modificationToCatalyst
    ensures !ok ==> exists k :: k in ks && k in cx.modifications && ModKey(k) !in cx.modificationToCatalyst
  {
    var todo := ks;
    while todo != {}
      invariant todo <= ks
      invariant model != null && model.hasModifications ==> ModificationKeysCurrent(model.modifications)
      invariant old(cx.modifications) <= cx.modifications
      invariant old(cx.modificationToCatalyst.Keys) <= cx.modificationToCatalyst.Keys
      invariant old(cx.catalysts) <= cx.catalysts && |cx.catalysts| + |todo| <= |old(cx.catalysts)| + |ks|
      invariant forall k :: k in ks - todo ==> ModKey(k) in cx.modificationToCatalyst
      decreases |todo|
    {
      var k :| k in todo;
      var created := CreateOne(cx, model, k);
      if !created {
        return false;
      }
      todo := todo - {k};
    }
    ok := true;
  }

  /** `Complex.guided_copy(model, modification_dict, subunit_dict)`: a new complex with the
      attributes of `src` in `model` and no reactions (see `CopiedShell`), whose modifications
      are the table's modifications of the same ids; when it has any, a catalyst is created for
      each modification of the source (`ok` false for the KeyError that stops it). */
  method CopyComplex(src: Complex, model: Model?, mods: map<string, Modification>, subunits: map<string, Gene>)
    returns (c: Complex, ok: bool)
    requires DistinctGeneIds(src.subunits.Keys) && Reactions.GeneTable(subunits)
    requires forall g :: g in src.subunits ==> g.id in subunits
    requires forall m :: m in src.modifications ==> m != null && m.id in mods
    requires model != null && model.hasModifications ==> ModificationKeysCurrent(model.modifications)
    modifies subunits.Values`complexes
    modifies (if model == null then {} else {model})`modifications, (if model == null then {} else {model})`catalysts
    ensures fresh(c) && c.model == model && c.reactions == {}
    ensures c.subunits == RepointSubunits(src.subunits, subunits)
    ensures SubunitIds(c.subunits) == SubunitIds(src.subunits)
    ensures src.subunits == map[] || src.id == "Complex" + Suffix(SubunitIds(src.subunits)) ==> c.id == src.id
    ensures old(RepointModifications(src.modifications, mods)) <= c.modifications
    ensures old(src.modifications) == {} ==> c.modifications == {} && c.catalysts == old(src.catalysts) && ok
    ensures ok ==> forall k :: k in old(src.modifications) ==> ModKey(k) in c.modificationToCatalyst
  {
    var ms := src.modifications;
    var rs := RepointModifications(ms, mods);
    c := CopiedShell(src, model, subunits);
    ok := ApplyCopiedModifications(c, model, ms, rs);
  }

  /** The first part of `Complex.guided_copy`, as intended: a new complex with the attributes of
      `src` and no reactions (see `NewComplexCopy`), whose subunits are the table's subunits of
      the same ids, added one at a time with `add_subunit` before the copy is put in `model`.
      The copy's composition has the source's ids, so a source whose id is the one its
      composition gives passes that id on. `model.complexes` is left to `ME_Model.copy`, which
      lists the copies itself; the frame leaves it unchanged. */
  method CopiedShell(src: Complex, model: Model?, subunits: map<string, Gene>) returns (c: Complex)
    requires DistinctGeneIds(src.subunits.Keys) && Reactions.GeneTable(subunits)
    requires forall g :: g in src.subunits ==> g.id in subunits
    modifies subunits.Values`complexes
    ensures fresh(c) && c.model == model && c.reactions == {}
    ensures c.modifications == src.modifications && c.catalysts == src.catalysts
    ensures c.subunits == RepointSubunits(src.subunits, subunits)
    ensures DistinctGeneIds(c.subunits.Keys) && SubunitIds(c.subunits) == SubunitIds(src.subunits)
    ensures src.subunits == map[] ==> c.id == src.id
    ensures src.subunits != map[] ==>
      c.id == "Complex" + Suffix(SubunitIds(c.subunits)) && c.logic == UpdateLogic(SubunitIds(c.subunits))
    ensures src.subunits == map[] || src.id == "Complex" + Suffix(SubunitIds(src.subunits)) ==> c.id == src.id
    ensures forall g {:trigger g.complexes} :: g in c.subunits ==> g.complexes == old(g.complexes) + {c}
  {
    var inner := RepointSubunits(src.subunits, subunits);
    RepointSubunitsIds(src.subunits, subunits);
    assert inner.Keys <= subunits.Values;
    assert inner == map[] <==> src.subunits == map[];
    c := ShellWith(src, model, inner);
  }

  /** `CopiedShell` once the subunits of the copy, `inner`, are known. */
  method ShellWith(src: Complex, model: Model?, inner: map<Gene, int>) returns (c: Complex)
    requires DistinctGeneIds(inner.Keys)
    modifies inner.Keys`complexes
    ensures fresh(c) && c.model == model && c.reactions == {}
    ensures c.modifications == src.modifications && c.catalysts == src.catalysts
    ensures c.subunits == inner
    ensures inner == map[] ==> c.id == src.id
    ensures inner != map[] ==>
      c.id == "Complex" + Suffix(SubunitIds(inner)) && c.logic == UpdateLogic(SubunitIds(inner))
    ensures forall g {:trigger g.complexes} :: g in inner ==> g.complexes == old(g.complexes) + {c}
  {
    c := NewComplexCopy(src, null);
    AddCopiedSubunits(c, inner);
    c.model := model;
  }

  /** The first part of `Complex.guided_copy` as written: the copy is in `model` before its
      first `add_subunit`, whose `_update_id` removes it from `model.complexes`. No list holds
      a complex made a moment ago, so `DictList.remove` raises `ValueError` (`ok` false) once
      that first subunit is recorded: in a model, only a complex without subunits is copied. */
  method CopiedShellAsWritten(src: Complex, model: Model?, subunits: map<string, Gene>) returns (c: Complex, ok: bool)
    requires DistinctGeneIds(src.subunits.Keys) && Reactions.GeneTable(subunits)
    requires forall g :: g in src.subunits ==> g.id in subunits
    modifies subunits.Values`complexes
    modifies (if model == null then {} else {model})`complexes
    ensures fresh(c) && c.model == model && c.reactions == {}
    ensures ok <==> model == null || src.subunits == map[]
    ensures ok ==> c.subunits == RepointSubunits(src.subunits, subunits)
    ensures !ok ==> |c.subunits| == 1 && c.subunits.Keys <= subunits.Values && c.id == src.id
    ensures model != null ==> model.complexes == old(model.complexes)
  {
    var inner := RepointSubunits(src.subunits, subunits);
    RepointSubunitsIds(src.subunits, subunits);
    assert inner.Keys <= subunits.Values;
    assert inner == map[] <==> src.subunits == map[];
    if model == null || inner == map[] {
      c := ShellWith(src, model, inner);
      ok := true;
    } else {
      c, ok := FirstSubunitRaises(src, model, inner);
    }
  }

  /** A new copy of `src` in `model` and its first `add_subunit`: one subunit of `inner` is
      recorded, then `_update_id` raises, since `model.complexes` cannot hold the new copy. */
  method FirstSubunitRaises(src: Complex, model: Model, inner: map<Gene, int>) returns (c: Complex, ok: bool)
    requires inner != map[] && DistinctGeneIds(inner.Keys)
    modifies inner.Keys`complexes, model`complexes
    ensures fresh(c) && c.model == model && c.reactions == {}
    ensures !ok && |c.subunits| == 1 && c.subunits.Keys <= inner.Keys && c.id == src.id
    ensures model.complexes == old(model.complexes)
  {
    c := NewComplexCopy(src, model);
    assert c !in ComplexItems(model.complexes);
    var g :| g in inner;
    ok := AddSubunit(c, model, g, inner[g], true);
    assert c.subunits == map[g := inner[g]] && c.subunits.Keys == {g};
  }

  /** The end of `Complex.guided_copy`: the copy's modifications become `rs`, the table's
      modifications of the ids of `ms`, then, unless there are none, a catalyst is created for
      each of `ms`. */
  method ApplyCopiedModifications(c: Complex, model: Model?, ms: set<Modification?>, rs: set<Modification?>)
    returns (ok: bool)
    requires ms == {} <==> rs == {}
    requires c.model == model
    requires model != null && model.hasModifications ==> ModificationKeysCurrent(model.modifications)
    modifies c`catalysts, c`modifications, c`modificationToCatalyst
    modifies (if model == null then {} else {model})`modifications, (if model == null then {} else {model})`catalysts
    ensures rs <= c.modifications
    ensures ms == {} ==> c.modifications == {} && c.catalysts == old(c.catalysts) && ok
    ensures ok ==> forall k :: k in ms ==> ModKey(k) in c.modificationToCatalyst
  {
    c.modifications := rs;
    ok := true;
    if c.modifications != {} {
      ok := CreateEach(c, model, ms);
    }
  }

  // ---------------------------------------------------------------------------
  // The catalysts of ME_Model.copy
  // ---------------------------------------------------------------------------

  /** No complex is listed twice. */
  predicate DistinctComplexes(cxs: seq<Complex>)
  {
    forall i, j :: 0 <= i < j < |cxs| ==> cxs[i] != cxs[j]
  }

  /** The modifications of each complex, in order. */
  ghost function ModificationsOf(cxs: seq<Complex>): (r: seq<set<Modification?>>)
    reads set x | x in cxs
    ensures |r| == |cxs| && forall i :: 0 <= i < |cxs| ==> r[i] == cxs[i].modifications
  {
    seq(|cxs|, i requires 0 <= i < |cxs| reads set x | x in cxs => cxs[i].modifications)
  }

  /** How many catalysts the copy collects for complexes whose modifications are `ms`: one for a
      complex without modifications, one per modification otherwise. */
  function CatalystCount(ms: seq<set<Modification?>>): nat
  {
    if |ms| == 0 then 0
    else CatalystCount(ms[..|ms| - 1]) + (if ms[|ms| - 1] == {} then 1 else |ms[|ms| - 1]|)
  }

  /** Complexes without modifications give one catalyst each: a model whose complexes carry no
      modifications copies to as many catalysts as complexes. */
  lemma {:induction false} CatalystCountUnmodified(ms: seq<set<Modification?>>)
    requires forall i :: 0 <= i < |ms| ==> ms[i] == {}
    ensures CatalystCount(ms) == |ms|
  {
    if |ms| > 0 {
      CatalystCountUnmodified(ms[..|ms| - 1]);
    }
  }

  /** Every complex gives at least one catalyst. */
  lemma {:induction false} CatalystCountAtLeast(ms: seq<set<Modification?>>)
    ensures CatalystCount(ms) >= |ms|
  {
    if |ms| > 0 {
      CatalystCountAtLeast(ms[..|ms| - 1]);
    }
  }

  /** Each modification of the complex has a catalyst recorded under its key. */
  ghost predicate Recorded(cx: Complex)
    reads cx, set m | m in cx.modifications && m != null :: m
  {
    forall m :: m in cx.modifications ==> ModKey(m) in cx.modificationToCatalyst
  }

  /** `[cx._modification_to_catalyst[m.id] for m in cx._modifications]`, the KeyError of a
      modification without a catalyst ending it. */
  method RecordedCatalysts(cx: Complex) returns (res: Result<seq<Catalyst>, string>)
    ensures res.Success? <==> forall m :: m in cx.modifications ==> ModKey(m) in cx.modificationToCatalyst
    ensures res.Success? ==> |res.value| == |cx.modifications|
    ensures res.Success? ==> forall c :: c in res.value ==>
      exists m :: m in cx.modifications && ModKey(m) in cx.modificationToCatalyst && cx.modificationToCatalyst[ModKey(m)] == c
  {
    var cats: seq<Catalyst> := [];
    var todo := cx.modifications;
    while todo != {}
      invariant todo <= cx.modifications && |cats| + |todo| == |cx.modifications|
      invariant forall m :: m in cx.modifications - todo ==> ModKey(m) in cx.modificationToCatalyst
      invariant forall c :: c in cats ==>
        exists m :: m in cx.modifications && ModKey(m) in cx.modificationToCatalyst && cx.modificationToCatalyst[ModKey(m)] == c
      decreases |todo|
    {
      var m :| m in todo;
      var k := ModKey(m);
      if k !in cx.modificationToCatalyst {
        return Failure("KeyError");
      }
      cats := cats + [cx.modificationToCatalyst[k]];
      todo := todo - {m};
    }
    res := Success(cats);
  }

  /** The catalyst loop of `ME_Model.copy`: a complex without modifications gets a new catalyst
      from `create_catalyst` with the empty modification (the stoichiometry 0 it passes is never
      used); a complex with modifications gives the catalyst it records for each of them, since
      `create_catalyst` of a modification the complex already holds only looks it up. The
      KeyError of a modification without a catalyst ends the copy. For distinct complexes this
      succeeds exactly when every modification has its catalyst, and collects `CatalystCount`
      catalysts. */
  method CopyCatalysts(cxs: seq<Complex>, me: Model?, empty: Modification) returns (res: Result<seq<Catalyst>, string>)
    requires forall x :: x in cxs ==> x.model == me
    requires me != null && me.hasModifications ==> ModificationKeysCurrent(me.modifications)
    modifies (set x | x in cxs)`catalysts, (set x | x in cxs)`modifications, (set x | x in cxs)`modificationToCatalyst
    modifies (if me == null then {} else {me})`modifications, (if me == null then {} else {me})`catalysts
    ensures DistinctComplexes(cxs) ==> (res.Success? <==> old(forall i :: 0 <= i < |cxs| ==> Recorded(cxs[i])))
    ensures DistinctComplexes(cxs) && res.Success? ==> |res.value| == CatalystCount(old(ModificationsOf(cxs)))
  {
    ghost var M0 := ModificationsOf(cxs);
    var cats: seq<Catalyst> := [];
    for i := 0 to |cxs|
      invariant me != null && me.hasModifications ==> ModificationKeysCurrent(me.modifications)
      invariant forall x :: x in cxs ==> x.model == me
      invariant DistinctComplexes(cxs) ==> forall j :: i <= j < |cxs| ==>
        cxs[j].modifications == old(cxs[j].modifications) &&
        cxs[j].modificationToCatalyst == old(cxs[j].modificationToCatalyst)
      invariant DistinctComplexes(cxs) ==> |cats| == CatalystCount(M0[..i])
      invariant DistinctComplexes(cxs) ==> forall j :: 0 <= j < i ==> old(Recorded(cxs[j]))
    {
      var cx := cxs[i];
      ghost var now := Recorded(cx);
      assert DistinctComplexes(cxs) ==> now == old(Recorded(cxs[i]));
      var found := CatalystsFor(cx, me, empty);
      if found.Failure? {
        return Failure(found.error);
      }
      cats := cats + found.value;
      if DistinctComplexes(cxs) {
        CountStep(M0, i);
      }
    }
    assert M0[..|cxs|] == M0;
    res := Success(cats);
  }

  /** One complex of the catalyst loop of `ME_Model.copy`. */
  method CatalystsFor(cx: Complex, me: Model?, empty: Modification) returns (res: Result<seq<Catalyst>, string>)
    requires cx.model == me
    requires me != null && me.hasModifications ==> ModificationKeysCurrent(me.modifications)
    modifies cx`catalysts, cx`modifications, cx`modificationToCatalyst
    modifies (if me == null then {} else {me})`modifications, (if me == null then {} else {me})`catalysts
    ensures me != null && me.hasModifications ==> ModificationKeysCurrent(me.modifications)
    ensures old(cx.modifications) == {} ==> res.Success? && |res.value| == 1 && Recorded(cx)
    ensures old(cx.modifications) != {} ==>
      && cx.modifications == old(cx.modifications) && cx.modificationToCatalyst == old(cx.modificationToCatalyst)
      && (res.Success? <==> Recorded(cx))
      && (res.Success? ==> |res.value| == |cx.modifications|)
  {
    if cx.modifications == {} {
      var r, used := CreateCatalyst(cx, me, empty);
      res := Success([r.value]);
    } else {
      res := RecordedCatalysts(cx);
    }
  }

  /** The count of one more complex. */
  lemma {:induction false} CountStep(ms: seq<set<Modification?>>, i: nat)
    requires i < |ms|
    ensures CatalystCount(ms[..i + 1]) == CatalystCount(ms[..i]) + (if ms[i] == {} then 1 else |ms[i]|)
  {
    assert ms[..i + 1][..i] == ms[..i];
  }
}
