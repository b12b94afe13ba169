/** The enzyme composition objects of cobra.me: Modification, Complex, Catalyst and Subunit.
    Their ids are computed from their composition: a prefix followed by one `__{v}_{k.id}` term
    per (member, stoichiometry) pair in sorted order, and their `logic` is the `AND` string of
    the same pairs. A complex that belongs to a model is taken out of `model.complexes` and put
    back under its new id whenever its id is recomputed. */
module Enzyme {
  import opened Wrappers
  import opened Graph
  import opened Text
  import opened LogicStrings

  // ---------------------------------------------------------------------------
  // Compositions by id
  // ---------------------------------------------------------------------------

  /** `names` tells the members of `s` apart. */
  predicate Injective<T>(s: set<T>, names: map<T, string>)
    requires s <= names.Keys
  {
    forall a, b :: a in s && b in s && names[a] == names[b] ==> a == b
  }

  /** `x` is the member of `s` with the least name. */
  predicate LeastName<T>(x: T, s: set<T>, names: map<T, string>)
    requires s <= names.Keys
  {
    x in s && forall y :: y in s ==> y == x || Below(names[x], names[y])
  }

  lemma {:induction false} LeastNameExists<T>(s: set<T>, names: map<T, string>)
    requires s != {} && s <= names.Keys && Injective(s, names)
    ensures exists x :: LeastName(x, s, names)
  {
    var ids := set x | x in s :: names[x];
    var y :| y in s;
    assert names[y] in ids;
    MinimumExists(ids);
    var m :| IsLeast(m, ids);
    var x :| x in s && names[x] == m;
    forall y | y in s
      ensures y == x || Below(names[x], names[y])
    {
      assert names[y] in ids;
    }
    assert LeastName(x, s, names);
  }

  lemma {:induction false} LeastNameUnique<T>(s: set<T>, names: map<T, string>)
    requires s <= names.Keys
    ensures forall x, y :: LeastName(x, s, names) && LeastName(y, s, names) ==> x == y
  {
    forall x, y | LeastName(x, s, names) && LeastName(y, s, names)
      ensures x == y
    {
      if x != y {
        BelowAsymmetric(names[x], names[y]);
      }
    }
  }

  /**
   * A composition seen through the names of its members: `{k.id: v for k, v in d.items()}`.
   * Built one member at a time, least name first, so that the solver unfolds it only on
   * demand; `IdViewAt` and `IdViewKeys` say what it holds.
   */
  function IdView<T>(d: map<T, int>, names: map<T, string>): map<string, int>
    requires d.Keys <= names.Keys && Injective(d.Keys, names)
    decreases |d|
  {
    if d == map[] then map[]
    else
      LeastNameExists(d.Keys, names);
      LeastNameUnique(d.Keys, names);
      var x :| LeastName(x, d.Keys, names);
      IdView(d - {x}, names)[names[x] := d[x]]
  }

  lemma {:induction false} IdViewUnfold<T>(d: map<T, int>, names: map<T, string>, x: T)
    requires d.Keys <= names.Keys && Injective(d.Keys, names)
    requires LeastName(x, d.Keys, names)
    ensures IdView(d, names) == IdView(d - {x}, names)[names[x] := d[x]]
  {
    LeastNameUnique(d.Keys, names);
  }

  /** Every member's name carries the member's stoichiometry. */
  lemma {:induction false} IdViewAt<T>(d: map<T, int>, names: map<T, string>, x: T)
    requires d.Keys <= names.Keys && Injective(d.Keys, names) && x in d
    ensures names[x] in IdView(d, names) && IdView(d, names)[names[x]] == d[x]
    decreases |d|
  {
    LeastNameExists(d.Keys, names);
    var y :| LeastName(y, d.Keys, names);
    IdViewUnfold(d, names, y);
    if x != y {
      IdViewAt(d - {y}, names, x);
    }
  }

  /** The view holds the names of the members and nothing else. */
  lemma {:induction false} IdViewKeys<T>(d: map<T, int>, names: map<T, string>)
    requires d.Keys <= names.Keys && Injective(d.Keys, names)
    ensures forall k :: k in IdView(d, names) <==> exists x :: x in d && names[x] == k
    decreases |d|
  {
    if d != map[] {
      LeastNameExists(d.Keys, names);
      var y :| LeastName(y, d.Keys, names);
      IdViewUnfold(d, names, y);
      IdViewKeys(d - {y}, names);
      forall k | k in IdView(d, names)
        ensures exists x :: x in d && names[x] == k
      {
        if k != names[y] {
          var x :| x in d - {y} && names[x] == k;
        }
      }
    }
  }

  /** The view is empty exactly when the composition is. */
  lemma {:induction false} IdViewEmpty<T>(d: map<T, int>, names: map<T, string>)
    requires d.Keys <= names.Keys && Injective(d.Keys, names)
    ensures IdView(d, names) == map[] <==> d == map[]
  {
    if d != map[] {
      var x :| x in d;
      IdViewAt(d, names, x);
    }
  }

  function GeneNames(s: set<Gene>): (names: map<Gene, string>)
    ensures names.Keys == s
  {
    map g | g in s :: g.id
  }

  function MetaboliteNames(s: set<Metabolite>): (names: map<Metabolite, string>)
    ensures names.Keys == s
  {
    map m | m in s :: m.id
  }

  function ModificationNames(s: set<Modification>): (names: map<Modification, string>)
    reads s
    ensures names.Keys == s
  {
    map m | m in s :: m.id
  }

  /** Subunits with distinct ids are told apart by their ids. */
  lemma {:induction false} GeneNamesInjective(gs: set<Gene>)
    requires DistinctGeneIds(gs)
    ensures Injective(gs, GeneNames(gs))
  {
    forall a, b | a in gs && b in gs && GeneNames(gs)[a] == GeneNames(gs)[b]
      ensures a == b
    {
      assert SameGeneId(a, b);
    }
  }

  /** A subunit composition seen through the ids of its subunits. */
  function SubunitIds(d: map<Gene, int>): map<string, int>
    requires DistinctGeneIds(d.Keys)
  {
    GeneNamesInjective(d.Keys);
    IdView(d, GeneNames(d.Keys))
  }

  /** A species composition seen through the ids of its species. */
  function SpeciesIds(d: map<Metabolite, int>): map<string, int>
    requires DistinctMetaboliteIds(d.Keys)
  {
    IdView(d, MetaboliteNames(d.Keys))
  }

  /** `a` and `b` carry the same id. */
  predicate SameModificationId(a: Modification, b: Modification)
    reads a, b
  {
    a.id == b.id
  }

  /** No two of the modifications share an id; the quantifier fires only on a
      `SameModificationId` term. */
  ghost predicate DistinctModificationIds(ms: set<Modification>)
    reads ms
  {
    forall a, b {:trigger SameModificationId(a, b)} :: a in ms && b in ms && SameModificationId(a, b) ==> a == b
  }

  /** A modification composition seen through the current ids of its modifications. */
  function ModificationIds(d: map<Modification, int>): map<string, int>
    requires DistinctModificationIds(d.Keys)
    reads d.Keys
  {
    ModificationNamesInjective(d.Keys);
    IdView(d, ModificationNames(d.Keys))
  }

  /** Modifications with distinct ids are told apart by their ids. */
  lemma {:induction false} ModificationNamesInjective(ms: set<Modification>)
    requires DistinctModificationIds(ms)
    ensures Injective(ms, ModificationNames(ms))
  {
    forall a, b | a in ms && b in ms && ModificationNames(ms)[a] == ModificationNames(ms)[b]
      ensures a == b
    {
      assert SameModificationId(a, b);
    }
  }

  lemma {:induction false} ModificationIdsAt(d: map<Modification, int>, m: Modification)
    requires DistinctModificationIds(d.Keys) && m in d
    ensures m.id in ModificationIds(d) && ModificationIds(d)[m.id] == d[m]
  {
    ModificationNamesInjective(d.Keys);
    IdViewAt(d, ModificationNames(d.Keys), m);
  }

  lemma {:induction false} SubunitIdsAt(d: map<Gene, int>, g: Gene)
    requires DistinctGeneIds(d.Keys) && g in d
    ensures g.id in SubunitIds(d) && SubunitIds(d)[g.id] == d[g]
  {
    GeneNamesInjective(d.Keys);
    IdViewAt(d, GeneNames(d.Keys), g);
  }

  lemma {:induction false} SpeciesIdsAt(d: map<Metabolite, int>, m: Metabolite)
    requires DistinctMetaboliteIds(d.Keys) && m in d
    ensures m.id in SpeciesIds(d) && SpeciesIds(d)[m.id] == d[m]
  {
    IdViewAt(d, MetaboliteNames(d.Keys), m);
  }

  /** `'__%s_%s' % (repr(v), k.id)`. */
  function IdTerm(k: string, v: int): string
  {
    "__" + IntToString(v) + "_" + k
  }

  /** The terms of the keys `ks`, in that order. */
  function IdTerms(ks: seq<string>, c: map<string, int>): string
    requires forall k :: k in ks ==> k in c
    decreases |ks|
  {
    if |ks| == 0 then "" else IdTerms(ks[..|ks| - 1], c) + IdTerm(ks[|ks| - 1], c[ks[|ks| - 1]])
  }

  /** What `_update_id` appends to its prefix: the terms of the composition in key order. */
  function Suffix(c: map<string, int>): string
  {
    SortedSetElements(c.Keys);
    IdTerms(SortedSet(c.Keys), c)
  }

  /** `_update_id`'s id: the prefix, then the `+=` loop over the sorted items. */
  method ComposeId(prefix: string, c: map<string, int>) returns (id: string)
    ensures id == prefix + Suffix(c)
  {
    SortedSetElements(c.Keys);
    id := AppendTerms(prefix, SortedSet(c.Keys), c);
  }

  /** The `+=` loop: the term of each key in turn. */
  method AppendTerms(prefix: string, ks: seq<string>, c: map<string, int>) returns (id: string)
    requires forall k :: k in ks ==> k in c
    ensures id == prefix + IdTerms(ks, c)
  {
    id := prefix;
    for i := 0 to |ks|
      invariant id == prefix + IdTerms(ks[..i], c)
    {
      var t := IdTerm(ks[i], c[ks[i]]);
      IdTermsSnoc(ks, i, c);
      AppendAssoc(prefix, IdTerms(ks[..i], c), t);
      id := id + t;
    }
    assert ks[..|ks|] == ks;
  }

  /** One more key adds its term at the end. */
  lemma {:induction false} IdTermsSnoc(ks: seq<string>, i: nat, c: map<string, int>)
    requires i < |ks| && forall k :: k in ks ==> k in c
    ensures IdTerms(ks[..i + 1], c) == IdTerms(ks[..i], c) + IdTerm(ks[i], c[ks[i]])
  {
    assert ks[..i + 1][..i] == ks[..i];
  }

  /** Every term starts with `__`, so a non-empty composition always adds to the prefix, and
      the empty one adds nothing. */
  lemma {:induction false} IdTermsEmpty(ks: seq<string>, c: map<string, int>)
    requires forall k :: k in ks ==> k in c
    ensures IdTerms(ks, c) == "" <==> |ks| == 0
    ensures |ks| > 0 ==> |IdTerms(ks, c)| >= 2 && IdTerms(ks, c)[..2] == "__"
    decreases |ks|
  {
    if |ks| > 0 {
      var init := ks[..|ks| - 1];
      assert forall k :: k in init ==> k in ks;
      IdTermsEmpty(init, c);
      var t := IdTerm(ks[|ks| - 1], c[ks[|ks| - 1]]);
      assert t[..2] == "__";
      if |init| > 0 {
        assert (IdTerms(init, c) + t)[..2] == IdTerms(init, c)[..2];
      } else {
        assert IdTerms(init, c) + t == t;
      }
    }
  }

  /** The suffix is empty exactly for the empty composition; a one-entry composition has one term. */
  lemma {:induction false} SuffixEmpty(c: map<string, int>)
    ensures Suffix(c) == "" <==> c == map[]
    ensures forall k, v :: c == map[k := v] ==> Suffix(c) == IdTerm(k, v)
  {
    var ks := SortedSet(c.Keys);
    SortedSetElements(c.Keys);
    IdTermsEmpty(ks, c);
    if c != map[] {
      var k :| k in c;
      assert k in ks;
    }
    forall k, v | c == map[k := v]
      ensures Suffix(c) == IdTerm(k, v)
    {
      assert k in ks;
      assert ks == [k];
      assert ks[..0] == [];
    }
  }

  // ---------------------------------------------------------------------------
  // Modification
  // ---------------------------------------------------------------------------

  /** `Modification.__update_id(d)`: `Empty_Modification` or `Modification` followed by the
      terms of `d`, then the logic of `d`. `ok` is false when `_update_logic` raises on an empty
      dictionary; the id has been set by then. */
  method UpdateModificationId(mo: Modification, c: map<string, int>) returns (ok: bool)
    modifies mo`id, mo`logic
    ensures ok <==> c != map[]
    ensures mo.id == (if c == map[] then "Empty_Modification" else "Modification") + Suffix(c)
    ensures mo.logic == if ok then UpdateLogic(c) else old(mo.logic)
  {
    var prefix := if |c| == 0 then "Empty_Modification" else "Modification";
    mo.id := ComposeId(prefix, c);
    ok := c != map[];
    if ok {
      mo.logic := UpdateLogic(c);
    }
  }

  /** `Modification.add_species(species, v)`. `null` stands for an argument that is not a
      Species, which raises before anything changes (`ok` false). */
  method AddSpecies(mo: Modification, species: Metabolite?, v: int) returns (ok: bool)
    requires species != null ==> DistinctMetaboliteIds(mo.composition.Keys + {species})
    modifies mo
    ensures ok <==> species != null
    ensures !ok ==> mo.composition == old(mo.composition) && mo.id == old(mo.id) && mo.logic == old(mo.logic)
    ensures ok ==> mo.composition == old(mo.composition)[species := v]
    ensures ok ==> DistinctMetaboliteIds(mo.composition.Keys)
    ensures ok ==> mo.id == "Modification" + Suffix(SpeciesIds(mo.composition))
    ensures ok ==> mo.logic == UpdateLogic(SpeciesIds(mo.composition))
  {
    if species == null {
      return false;
    }
    mo.composition := mo.composition[species := v];
    assert mo.composition.Keys == old(mo.composition.Keys) + {species};
    SpeciesIdsAt(mo.composition, species);
    ok := UpdateModificationId(mo, SpeciesIds(mo.composition));
  }

  // ---------------------------------------------------------------------------
  // Complex
  // ---------------------------------------------------------------------------

  /** A complex without a model, or one that its model's `complexes` holds: the complexes
      whose `_update_id` gets past `self.model.complexes.remove(self)`. */
  predicate InModelList(cx: Complex, model: Model?)
    reads model
  {
    model == null || cx in ComplexItems(model.complexes)
  }

  /** `Complex._update_id(d)`: out of `model.complexes`, id `Complex` followed by the terms of
      `d`, logic of `d`, back into `model.complexes` under the new id. A complex in a model that
      does not list it stops at the `remove`, with the `ValueError` of `DictList.remove` and
      nothing changed. When `d` is empty `_update_logic` raises after the id is set and before
      the complex is put back. `ok` is false for either error. That a list keyed by current ids,
      without duplicates, stays so is `RelistKeepsKeysCurrent`. */
  method UpdateComplexId(cx: Complex, model: Model?) returns (ok: bool)
    requires cx.model == model
    requires DistinctGeneIds(cx.subunits.Keys)
    modifies cx`id, cx`logic, (if model == null then {} else {model})`complexes
    ensures ok <==> old(InModelList(cx, model)) && cx.subunits != map[]
    ensures !old(InModelList(cx, model)) ==>
      model.complexes == old(model.complexes) && cx.id == old(cx.id) && cx.logic == old(cx.logic)
    ensures old(InModelList(cx, model)) && model != null ==>
      model.complexes == RemoveItem(old(model.complexes), cx) + (if ok then [Entry(cx.id, cx)] else [])
    ensures old(InModelList(cx, model)) ==> cx.id == "Complex" + Suffix(SubunitIds(cx.subunits))
    ensures old(InModelList(cx, model)) ==>
      cx.logic == if ok then UpdateLogic(SubunitIds(cx.subunits)) else old(cx.logic)
  {
    if model != null {
      var rest := RemoveEntry(model.complexes, cx);
      if rest.Failure? {
        return false;
      }
      model.complexes := rest.value;
    }
    ok := RenameComplex(cx);
    if ok && model != null {
      model.complexes := model.complexes + [Entry(cx.id, cx)];
    }
  }

  /** The id and logic that `_update_id` gives a complex: id `Complex` followed by the terms of
      its subunits, logic of its subunits, the logic left alone when there are none. */
  method RenameComplex(cx: Complex) returns (ok: bool)
    requires DistinctGeneIds(cx.subunits.Keys)
    modifies cx`id, cx`logic
    ensures ok <==> cx.subunits != map[]
    ensures cx.id == "Complex" + Suffix(SubunitIds(cx.subunits))
    ensures cx.logic == if ok then UpdateLogic(SubunitIds(cx.subunits)) else old(cx.logic)
  {
    var c := SubunitIds(cx.subunits);
    SubunitIdsEmpty(cx.subunits);
    cx.id := ComposeId("Complex", c);
    ok := c != map[];
    if ok {
      cx.logic := UpdateLogic(c);
    }
  }

  /** Every entry of the list except those holding `cx` is keyed by the current id of its
      complex: what is left of a list keyed by current ids once `cx` has a new id. */
  ghost predicate ComplexKeysCurrentBut(es: seq<Entry<Complex>>, cx: Complex)
    reads ComplexItems(es)`id
  {
    forall i :: 0 <= i < |es| && es[i].item != cx ==> es[i].key == es[i].item.id
  }

  /** What the `remove` and `append` of `_update_id` are for: a list without duplicates whose
      only stale key is that of `cx` is, once `cx` is taken out and put back under its current
      id, again without duplicates and keyed by current ids. */
  lemma {:induction false} RelistKeepsKeysCurrent(es: seq<Entry<Complex>>, cx: Complex)
    requires UniqueItems(es) && ComplexKeysCurrentBut(es, cx)
    ensures UniqueItems(RemoveItem(es, cx) + [Entry(cx.id, cx)])
    ensures ComplexKeysCurrent(RemoveItem(es, cx) + [Entry(cx.id, cx)])
  {
    var rest := RemoveItem(es, cx);
    RemoveItemSubset(es, cx);
    RemoveItemUnique(es, cx);
    forall i | 0 <= i < |rest|
      ensures rest[i].key == rest[i].item.id && rest[i].item != cx
    {
      assert rest[i] in rest;
      var j :| 0 <= j < |es| && es[j] == rest[i];
    }
    AppendUnique(rest, Entry(cx.id, cx));
  }

  /** The bookkeeping part of `add_subunit` for a subunit: a subunit already present keeps its
      stoichiometry (the source only warns); a new one is recorded with `v`, learns the complex
      when `aware`, and joins the polypeptide or RNA set. Its pid is recorded either way. */
  method RecordSubunit(cx: Complex, su: Gene, v: int, aware: bool)
    modifies cx`subunits, cx`polypeptideSubunits, cx`rnaSubunits, cx`pids, (if aware then {su} else {})`complexes
    ensures cx.subunits == if su in old(cx.subunits) then old(cx.subunits) else old(cx.subunits)[su := v]
    ensures su.complexes == if su !in old(cx.subunits) && aware then old(su.complexes) + {cx} else old(su.complexes)
    ensures cx.polypeptideSubunits ==
      if su !in old(cx.subunits) && su.isPolypeptide then old(cx.polypeptideSubunits) + {su} else old(cx.polypeptideSubunits)
    ensures cx.rnaSubunits ==
      if su !in old(cx.subunits) && !su.isPolypeptide then old(cx.rnaSubunits) + {su} else old(cx.rnaSubunits)
    ensures cx.pids == old(cx.pids) + {su.pid}
  {
    if su !in cx.subunits {
      cx.subunits := cx.subunits[su := v];
      if aware {
        su.complexes := su.complexes + {cx};
      }
      if su.isPolypeptide {
        cx.polypeptideSubunits := cx.polypeptideSubunits + {su};
      } else {
        cx.rnaSubunits := cx.rnaSubunits + {su};
      }
    }
    cx.pids := cx.pids + {su.pid};
  }

  /** `Complex.add_subunit(subunit, v, update_subunit_awareness)` for a subunit: the bookkeeping
      of `RecordSubunit`, then the id, logic and model key recomputed from the new composition.
      A complex whose model does not list it keeps the bookkeeping and stops (`ok` false) at the
      `ValueError` of `_update_id`, with its id, logic and the model's list unchanged. */
  method AddSubunit(cx: Complex, model: Model?, su: Gene, v: int, aware: bool) returns (ok: bool)
    requires cx.model == model
    requires DistinctGeneIds(cx.subunits.Keys + {su})
    modifies cx`subunits, cx`polypeptideSubunits, cx`rnaSubunits, cx`pids, cx`id, cx`logic
    modifies (if aware then {su} else {})`complexes, (if model == null then {} else {model})`complexes
    ensures cx.subunits == if su in old(cx.subunits) then old(cx.subunits) else old(cx.subunits)[su := v]
    ensures su.complexes == if su !in old(cx.subunits) && aware then old(su.complexes) + {cx} else old(su.complexes)
    ensures cx.polypeptideSubunits ==
      if su !in old(cx.subunits) && su.isPolypeptide then old(cx.polypeptideSubunits) + {su} else old(cx.polypeptideSubunits)
    ensures cx.rnaSubunits ==
      if su !in old(cx.subunits) && !su.isPolypeptide then old(cx.rnaSubunits) + {su} else old(cx.rnaSubunits)
    ensures cx.pids == old(cx.pids) + {su.pid}
    ensures DistinctGeneIds(cx.subunits.Keys)
    ensures ok <==> old(InModelList(cx, model))
    ensures !ok ==> model.complexes == old(model.complexes) && cx.id == old(cx.id) && cx.logic == old(cx.logic)
    ensures ok ==> cx.id == "Complex" + Suffix(SubunitIds(cx.subunits))
    ensures ok ==> cx.logic == UpdateLogic(SubunitIds(cx.subunits))
    ensures ok && model != null ==>
      model.complexes == RemoveItem(old(model.complexes), cx) + [Entry(cx.id, cx)]
  {
    RecordSubunit(cx, su, v, aware);
    assert su in cx.subunits && cx.subunits.Keys <= old(cx.subunits.Keys) + {su};
    ok := Rekey(cx, model);
  }

  /** `_update_id` for a complex that has subunits, so that only the `ValueError` of a complex
      its model does not list can stop it (`ok` false, nothing changed). */
  method Rekey(cx: Complex, model: Model?) returns (ok: bool)
    requires cx.model == model && cx.subunits != map[]
    requires DistinctGeneIds(cx.subunits.Keys)
    modifies cx`id, cx`logic, (if model == null then {} else {model})`complexes
    ensures ok <==> old(InModelList(cx, model))
    ensures !ok ==> model.complexes == old(model.complexes) && cx.id == old(cx.id) && cx.logic == old(cx.logic)
    ensures ok && model != null ==> model.complexes == RemoveItem(old(model.complexes), cx) + [Entry(cx.id, cx)]
    ensures ok ==> cx.id == "Complex" + Suffix(SubunitIds(cx.subunits))
    ensures ok ==> cx.logic == UpdateLogic(SubunitIds(cx.subunits))
  {
    ok := UpdateComplexId(cx, model);
  }

  /** The subunits of `base` after the subunits of `inner` are added with stoichiometries
      multiplied by `v`: a subunit already in `base` keeps its stoichiometry. */
  ghost function Flattened(base: map<Gene, int>, inner: map<Gene, int>, v: int): map<Gene, int>
  {
    map g | g in base.Keys + inner.Keys :: if g in base then base[g] else v * inner[g]
  }

  /** The subunits of `inner` that are not in `base` and are polypeptides (or RNAs). */
  ghost function NewOfKind(inner: map<Gene, int>, base: map<Gene, int>, polypeptide: bool): set<Gene>
  {
    set g | g in inner && g !in base && g.isPolypeptide == polypeptide
  }

  /** The pids of the subunits of `inner`. */
  ghost function PidsIn(inner: map<Gene, int>): set<Option<int>>
  {
    set g | g in inner :: g.pid
  }

  /** The members of a sequence, as a set built from the back. */
  ghost function Elems(s: seq<Gene>): set<Gene>
  {
    if s == [] then {} else Elems(s[..|s| - 1]) + {s[|s| - 1]}
  }

  /** `start` plus the subunits of `s` that are new to `base` and of the given kind, added one
      at a time. */
  ghost function FreshOf(start: set<Gene>, s: seq<Gene>, base: map<Gene, int>, polypeptide: bool): set<Gene>
  {
    if s == [] then start
    else
      var g := s[|s| - 1];
      var before := FreshOf(start, s[..|s| - 1], base, polypeptide);
      if g !in base && g.isPolypeptide == polypeptide then before + {g} else before
  }

  /** `start` plus the pids of `s`, added one at a time. */
  ghost function PidsOf(start: set<Option<int>>, s: seq<Gene>): set<Option<int>>
  {
    if s == [] then start else PidsOf(start, s[..|s| - 1]) + {s[|s| - 1].pid}
  }

  /** `base` after the subunits of `s` are added one at a time, each with its stoichiometry in
      `inner` times `v`, a subunit already present keeping its own. */
  ghost function FlatOf(base: map<Gene, int>, inner: map<Gene, int>, s: seq<Gene>, v: int): map<Gene, int>
    requires Elems(s) <= inner.Keys
  {
    if s == [] then base
    else
      var g := s[|s| - 1];
      var m := FlatOf(base, inner, s[..|s| - 1], v);
      if g in m then m else m[g := v * inner[g]]
  }

  /** A subunit is in the flattened composition exactly when it was there before or has been added. */
  lemma {:induction false} FlatKeys(base: map<Gene, int>, inner: map<Gene, int>, s: seq<Gene>, v: int, x: Gene)
    requires Elems(s) <= inner.Keys
    ensures x in FlatOf(base, inner, s, v) <==> x in base || x in Elems(s)
  {
    if s != [] {
      FlatKeys(base, inner, s[..|s| - 1], v, x);
    }
  }

  /** Adding the subunits one at a time, in any order, gives the flattened composition of those added. */
  lemma {:induction false} FlatAll(base: map<Gene, int>, inner: map<Gene, int>, s: seq<Gene>, v: int)
    requires Elems(s) <= inner.Keys
    ensures FlatOf(base, inner, s, v) == Flattened(base, inner - (inner.Keys - Elems(s)), v)
  {
    if s != [] {
      FlatAll(base, inner, s[..|s| - 1], v);
    }
  }

  /** The kind sets grow by exactly the new subunits of that kind, whatever the order. */
  lemma {:induction false} FreshAll(start: set<Gene>, s: seq<Gene>, base: map<Gene, int>, polypeptide: bool)
    ensures FreshOf(start, s, base, polypeptide) ==
      start + set x | x in Elems(s) && x !in base && x.isPolypeptide == polypeptide
  {
    if s != [] {
      FreshAll(start, s[..|s| - 1], base, polypeptide);
    }
  }

  /** The pids grow by exactly the pids of the subunits added, whatever the order. */
  lemma {:induction false} PidsAll(start: set<Option<int>>, s: seq<Gene>)
    ensures PidsOf(start, s) == start + set x | x in Elems(s) :: x.pid
  {
    if s != [] {
      PidsAll(start, s[..|s| - 1]);
    }
  }

  /** Once every subunit of `inner` has been added, the step-by-step state is the flattened one. */
  lemma {:induction false} Finish(base: map<Gene, int>, inner: map<Gene, int>, s: seq<Gene>, v: int,
               p0: set<Gene>, r0: set<Gene>, q0: set<Option<int>>)
    requires Elems(s) == inner.Keys
    ensures FlatOf(base, inner, s, v) == Flattened(base, inner, v)
    ensures FreshOf(p0, s, base, true) == p0 + NewOfKind(inner, base, true)
    ensures FreshOf(r0, s, base, false) == r0 + NewOfKind(inner, base, false)
    ensures PidsOf(q0, s) == q0 + PidsIn(inner)
  {
    FlatAll(base, inner, s, v);
    assert inner - (inner.Keys - Elems(s)) == inner;
    FreshAll(p0, s, base, true);
    FreshAll(r0, s, base, false);
    PidsAll(q0, s);
  }

  /** The subunit bookkeeping of a complex went from `s0`, `p0`, `r0`, `q0` (subunits,
      polypeptide and RNA subunits, pids) to `s1`, `p1`, `r1`, `q1` by adding the subunits of
      `inner` with stoichiometries multiplied by `v`: a subunit already present keeps its
      stoichiometry, a new one joins the polypeptide or RNA set, every pid is recorded. */
  ghost predicate Recorded(s0: map<Gene, int>, s1: map<Gene, int>, p0: set<Gene>, p1: set<Gene>,
                           r0: set<Gene>, r1: set<Gene>, q0: set<Option<int>>, q1: set<Option<int>>,
                           inner: map<Gene, int>, v: int)
  {
    && s1 == Flattened(s0, inner, v)
    && p1 == p0 + NewOfKind(inner, s0, true)
    && r1 == r0 + NewOfKind(inner, s0, false)
    && q1 == q0 + PidsIn(inner)
  }

  /** The state of the loop of `RecordSubunits` once the subunits `order` have been recorded
      and `todo` are left: the composition started as `base`, the kind sets as `p0` and `r0`,
      the pids as `q0`, and `c0` holds each subunit's `_complex` set at the start. */
  ghost predicate Recording(cx: Complex, inner: map<Gene, int>, v: int, base: map<Gene, int>,
                            c0: map<Gene, set<Complex>>, p0: set<Gene>, r0: set<Gene>,
                            q0: set<Option<int>>, order: seq<Gene>, todo: set<Gene>)
    reads cx, inner.Keys
  {
    && todo <= inner.Keys && inner.Keys <= c0.Keys && Elems(order) == inner.Keys - todo
    && cx.subunits == FlatOf(base, inner, order, v)
    && (forall x {:trigger x.complexes} :: x in inner ==>
          x.complexes == if x !in todo && x !in base then c0[x] + {cx} else c0[x])
    && cx.polypeptideSubunits == FreshOf(p0, order, base, true)
    && cx.rnaSubunits == FreshOf(r0, order, base, false)
    && cx.pids == PidsOf(q0, order)
  }

  /** One subunit `g` of `inner` recorded, the body of the loop of `RecordSubunits`. */
  method RecordNext(cx: Complex, inner: map<Gene, int>, v: int, g: Gene, ghost base: map<Gene, int>,
                    ghost c0: map<Gene, set<Complex>>, ghost p0: set<Gene>, ghost r0: set<Gene>,
                    ghost q0: set<Option<int>>, ghost order: seq<Gene>, ghost todo: set<Gene>)
    requires Recording(cx, inner, v, base, c0, p0, r0, q0, order, todo) && g in todo
    modifies cx`subunits, cx`polypeptideSubunits, cx`rnaSubunits, cx`pids, g`complexes
    ensures Recording(cx, inner, v, base, c0, p0, r0, q0, order + [g], todo - {g})
  {
    ghost var order' := order + [g];
    assert order'[..|order'| - 1] == order;
    assert g in cx.subunits <==> g in base by { FlatKeys(base, inner, order, v, g); }
    RecordSubunit(cx, g, v * inner[g], true);
  }

  /** The bookkeeping of `add_subunit` for every subunit of `inner`, one at a time; a new
      subunit learns of `cx`. */
  method RecordSubunits(cx: Complex, inner: map<Gene, int>, v: int)
    modifies cx`subunits, cx`polypeptideSubunits, cx`rnaSubunits, cx`pids, inner.Keys`complexes
    ensures Recorded(old(cx.subunits), cx.subunits, old(cx.polypeptideSubunits), cx.polypeptideSubunits,
                     old(cx.rnaSubunits), cx.rnaSubunits, old(cx.pids), cx.pids, inner, v)
    ensures forall g {:trigger g.complexes} :: g in inner ==>
      g.complexes == if g in old(cx.subunits) then old(g.complexes) else old(g.complexes) + {cx}
  {
    var todo := inner.Keys;
    ghost var base := cx.subunits;
    ghost var c0 := map x | x in inner :: x.complexes;
    ghost var p0, r0, q0 := cx.polypeptideSubunits, cx.rnaSubunits, cx.pids;
    ghost var order: seq<Gene> := [];
    while todo != {}
      invariant Recording(cx, inner, v, base, c0, p0, r0, q0, order, todo)
      decreases todo
    {
      var g :| g in todo;
      RecordNext(cx, inner, v, g, base, c0, p0, r0, q0, order, todo);
      todo := todo - {g};
      order := order + [g];
    }
    Finish(base, inner, order, v, p0, r0, q0);
  }

  /** Once `cx` has been taken out of a list, taking it out of that list with `cx` appended
      gives the list back: recomputing the id twice leaves the model's list as recomputing it
      once does. */
  lemma {:induction false} RemoveAppended(rest: seq<Entry<Complex>>, k: string, cx: Complex)
    requires forall i :: 0 <= i < |rest| ==> rest[i].item != cx
    ensures RemoveItem(rest + [Entry(k, cx)], cx) == rest
  {
    var es := rest + [Entry(k, cx)];
    assert forall i :: 0 <= i < |rest| ==> es[i] == rest[i];
    assert es[|rest|].item == cx;
    assert FirstHolding(es, cx) == |rest|;
    assert es[..|rest|] == rest;
  }

  /** What closes `add_subunit` for a complex `sub` whose subunits `inner` were recorded:
      the id, logic and model key recomputed unless `inner` is empty, then `sub` and `cx`
      recording each other as sub- and supercomplex. Every inner `add_subunit` got through its
      `_update_id`, so `cx` has no model, is listed in it, or `inner` is empty. */
  method CloseSubcomplex(cx: Complex, model: Model?, sub: Complex, inner: map<Gene, int>)
    requires cx.model == model
    requires DistinctGeneIds(cx.subunits.Keys) && inner.Keys <= cx.subunits.Keys
    requires inner == map[] || InModelList(cx, model)
    modifies cx`id, cx`logic, cx`subcomplexes, sub`supercomplexes, (if model == null then {} else {model})`complexes
    ensures DistinctGeneIds(cx.subunits.Keys)
    ensures cx.subunits == old(cx.subunits) && cx.polypeptideSubunits == old(cx.polypeptideSubunits)
    ensures cx.rnaSubunits == old(cx.rnaSubunits) && cx.pids == old(cx.pids)
    ensures forall g {:trigger g.complexes} :: g in cx.subunits ==> g.complexes == old(g.complexes)
    ensures cx.subcomplexes == old(cx.subcomplexes) + {sub}
    ensures sub.supercomplexes == old(sub.supercomplexes) + {cx}
    ensures inner == map[] ==> cx.id == old(cx.id) && cx.logic == old(cx.logic)
    ensures inner == map[] && model != null ==> model.complexes == old(model.complexes)
    ensures inner != map[] ==>
      cx.id == "Complex" + Suffix(SubunitIds(cx.subunits)) && cx.logic == UpdateLogic(SubunitIds(cx.subunits))
    ensures inner != map[] && model != null ==>
      model.complexes == RemoveItem(old(model.complexes), cx) + [Entry(cx.id, cx)]
  {
    var ok := RecomputeIfAdded(cx, model, inner);
    Link(cx, sub);
  }

  /** The `_update_id(self._subunits)` that closes each `add_subunit` for a subunit, after the
      subunits of `inner` went through it: none when `inner` is empty, and otherwise the last
      one, which overwrites what the earlier ones set. It raises (`ok` false, nothing changed)
      for a complex its model does not list. */
  method RecomputeIfAdded(cx: Complex, model: Model?, inner: map<Gene, int>) returns (ok: bool)
    requires cx.model == model
    requires DistinctGeneIds(cx.subunits.Keys) && inner.Keys <= cx.subunits.Keys
    modifies cx`id, cx`logic, (if model == null then {} else {model})`complexes
    ensures ok <==> inner == map[] || old(InModelList(cx, model))
    ensures !ok || inner == map[] ==> cx.id == old(cx.id) && cx.logic == old(cx.logic)
    ensures (!ok || inner == map[]) && model != null ==> model.complexes == old(model.complexes)
    ensures ok && inner != map[] ==>
      cx.id == "Complex" + Suffix(SubunitIds(cx.subunits)) && cx.logic == UpdateLogic(SubunitIds(cx.subunits))
    ensures ok && inner != map[] && model != null ==>
      model.complexes == RemoveItem(old(model.complexes), cx) + [Entry(cx.id, cx)]
  {
    ok := true;
    if inner != map[] {
      var g :| g in inner;
      assert g in cx.subunits;
      ok := UpdateComplexId(cx, model);
    }
  }

  /** `sub` and `cx` record each other as sub- and supercomplex. */
  method Link(cx: Complex, sub: Complex)
    modifies cx`subcomplexes, sub`supercomplexes
    ensures cx.subcomplexes == old(cx.subcomplexes) + {sub}
    ensures sub.supercomplexes == old(sub.supercomplexes) + {cx}
  {
    cx.subcomplexes := cx.subcomplexes + {sub};
    sub.supercomplexes := sub.supercomplexes + {cx};
  }

  /** `Complex.add_subunit(sub, v)` for a complex `sub`: every subunit of `sub` is added with
      its stoichiometry multiplied by `v` and learns of `cx`, the id, logic and model key are
      recomputed (unless `sub` has no subunits, when `add_subunit` is never called), then `sub`
      and `cx` record each other as sub- and supercomplex. For a complex its model does not
      list, the first inner `add_subunit` records one subunit and raises at its `_update_id`
      (`ok` false): nothing else changes and no link is recorded. */
  method AddSubcomplex(cx: Complex, model: Model?, sub: Complex, v: int) returns (ok: bool)
    requires cx.model == model
    requires DistinctGeneIds(cx.subunits.Keys + sub.subunits.Keys)
    modifies cx`subunits, cx`polypeptideSubunits, cx`rnaSubunits, cx`pids, cx`id, cx`logic, cx`subcomplexes
    modifies sub`supercomplexes, sub.subunits.Keys`complexes
    modifies (if model == null then {} else {model})`complexes
    ensures ok <==> old(sub.subunits) == map[] || old(InModelList(cx, model))
    ensures DistinctGeneIds(cx.subunits.Keys)
    ensures ok ==> Recorded(old(cx.subunits), cx.subunits, old(cx.polypeptideSubunits), cx.polypeptideSubunits,
                            old(cx.rnaSubunits), cx.rnaSubunits, old(cx.pids), cx.pids, old(sub.subunits), v)
    ensures ok ==> forall g {:trigger g.complexes} :: g in old(sub.subunits) ==>
      g.complexes == if g in old(cx.subunits) then old(g.complexes) else old(g.complexes) + {cx}
    ensures ok ==> cx.subcomplexes == old(cx.subcomplexes) + {sub}
    ensures ok ==> sub.supercomplexes == old(sub.supercomplexes) + {cx}
    ensures old(sub.subunits) == map[] ==> cx.id == old(cx.id) && cx.logic == old(cx.logic)
    ensures old(sub.subunits) == map[] && model != null ==> model.complexes == old(model.complexes)
    ensures ok && old(sub.subunits) != map[] ==>
      cx.id == "Complex" + Suffix(SubunitIds(cx.subunits)) && cx.logic == UpdateLogic(SubunitIds(cx.subunits))
    ensures ok && old(sub.subunits) != map[] && model != null ==>
      model.complexes == RemoveItem(old(model.complexes), cx) + [Entry(cx.id, cx)]
    ensures !ok ==>
      exists g :: g in old(sub.subunits) &&
        Recorded(old(cx.subunits), cx.subunits, old(cx.polypeptideSubunits), cx.polypeptideSubunits,
                 old(cx.rnaSubunits), cx.rnaSubunits, old(cx.pids), cx.pids, map[g := old(sub.subunits)[g]], v)
    ensures !ok ==> cx.id == old(cx.id) && cx.logic == old(cx.logic) && model.complexes == old(model.complexes)
    ensures !ok ==> cx.subcomplexes == old(cx.subcomplexes) && sub.supercomplexes == old(sub.supercomplexes)
  {
    var inner := sub.subunits;
    if model != null && inner != map[] && cx !in ComplexItems(model.complexes) {
      ok := FirstInnerRaises(cx, model, inner, v);
      return;
    }
    RecordSubunits(cx, inner, v);
    assert cx.subunits.Keys == old(cx.subunits.Keys) + inner.Keys;
    CloseSubcomplex(cx, model, sub, inner);
    ok := true;
  }

  /** The first `add_subunit` of the flattening loop for a complex its model does not list: one
      subunit of `inner` is recorded, then its `_update_id` raises. */
  method FirstInnerRaises(cx: Complex, model: Model, inner: map<Gene, int>, v: int) returns (ok: bool)
    requires cx.model == model && cx !in ComplexItems(model.complexes) && inner != map[]
    requires DistinctGeneIds(cx.subunits.Keys + inner.Keys)
    modifies cx`subunits, cx`polypeptideSubunits, cx`rnaSubunits, cx`pids, cx`id, cx`logic, inner.Keys`complexes
    modifies model`complexes
    ensures !ok && DistinctGeneIds(cx.subunits.Keys)
    ensures exists g :: g in inner &&
                        Recorded(old(cx.subunits), cx.subunits, old(cx.polypeptideSubunits), cx.polypeptideSubunits,
                                 old(cx.rnaSubunits), cx.rnaSubunits, old(cx.pids), cx.pids, map[g := inner[g]], v)
    ensures cx.id == old(cx.id) && cx.logic == old(cx.logic) && model.complexes == old(model.complexes)
  {
    var g :| g in inner;
    ok := AddSubunit(cx, model, g, v * inner[g], true);
    RecordedOne(old(cx.subunits), old(cx.polypeptideSubunits), old(cx.rnaSubunits), old(cx.pids), g, inner[g], v);
  }

  /** Adding one subunit `g` of a subcomplex, with stoichiometry `w` times `v`, is recording the
      subunits of `{g: w}`. */
  lemma {:induction false} RecordedOne(s0: map<Gene, int>, p0: set<Gene>, r0: set<Gene>, q0: set<Option<int>>,
                                       g: Gene, w: int, v: int)
    ensures Recorded(s0, if g in s0 then s0 else s0[g := v * w],
                     p0, if g !in s0 && g.isPolypeptide then p0 + {g} else p0,
                     r0, if g !in s0 && !g.isPolypeptide then r0 + {g} else r0,
                     q0, q0 + {g.pid}, map[g := w], v)
  {
    var one := map[g := w];
    assert one.Keys == {g};
    var s1 := if g in s0 then s0 else s0[g := v * w];
    assert s1 == Flattened(s0, one, v);
  }

  /** The attributes of an `ME_Model` that hold its enzyme lists (ME_Model.py:27-30). */
  const EnzymeLists: set<string> := {"subunits", "complexes", "catalysts", "modifications"}

  /** The catalyst loop of `update_subunit_stoichiometry` as written, counting the catalysts it
      re-keys: with a model, every pass reads the model attribute `attr` (`catalyst` in the
      source), and Python raises `AttributeError` on an attribute the model does not have. */
  function RelistAsWritten(attr: string, inModel: bool, catalysts: nat): (r: Result<nat, string>)
    ensures r.Success? <==> catalysts == 0 || !inModel || attr in EnzymeLists
    ensures r.Success? ==> r.value == (if inModel then catalysts else 0)
  {
    if catalysts == 0 then Success(0)
    else if inModel && attr !in EnzymeLists then
      Result<nat, string>.Failure("AttributeError: 'ME_Model' object has no attribute '" + attr + "'")
    else
      Success((if inModel then 1 else 0) + RelistAsWritten(attr, inModel, catalysts - 1).value)
  }

  /** As written, a complex of a model that has any catalyst cannot update its stoichiometry;
      the list the comments name, `catalysts`, re-keys every catalyst. */
  lemma CatalystTypoRaises(n: nat)
    requires n > 0
    ensures RelistAsWritten("catalyst", true, n).Failure?
    ensures RelistAsWritten("catalysts", true, n) == Success(n)
  {
  }

  /** `Complex.update_subunit_stoichiometry(d)`: the stoichiometries of `d` overwrite those of
      the complex, every catalyst of the complex has its id recomputed (see `RefreshCatalysts`)
      from the ids its modifications have, then the complex's own id, logic and model key are
      recomputed. `ok` is false when an `_update_logic` raises on an empty dictionary (`d` is
      empty while the complex has catalysts, a catalyst has no modifications, or the complex
      ends up without subunits) or when the final `_update_id` raises the `ValueError` of a
      complex its model does not list. The polypeptide, RNA and pid sets and the subunits' `_complex`
      sets are left as they were. That the model's catalysts stay keyed by current ids is stated
      on `UpdateCatalysts`, the step that rekeys them. */
  method UpdateSubunitStoichiometry(cx: Complex, model: Model?, d: map<Gene, int>) returns (ok: bool)
    requires cx.model == model
    requires DistinctGeneIds(cx.subunits.Keys + d.Keys)
    requires forall ca :: ca in cx.catalysts ==> DistinctModificationIds(ca.modifications.Keys)
    requires model != null ==> cx.catalysts <= CatalystItems(model.catalysts)
    modifies cx`subunits, cx`id, cx`logic, cx.catalysts`id, cx.catalysts`logic
    modifies (if model == null then {} else {model})`complexes, (if model == null then {} else {model})`catalysts
    ensures cx.subunits == old(cx.subunits) + d
    ensures DistinctGeneIds(cx.subunits.Keys)
    ensures ok <==>
      && old(forall ca :: ca in cx.catalysts ==> d != map[] && ca.modifications != map[])
      && cx.subunits != map[] && old(InModelList(cx, model))
    ensures ok ==> forall ca :: ca in cx.catalysts ==> Renamed(ca, old(ModificationIds(ca.modifications)))
    ensures ok ==> cx.id == "Complex" + Suffix(SubunitIds(cx.subunits)) && cx.logic == UpdateLogic(SubunitIds(cx.subunits))
    ensures ok && model != null ==> model.complexes == RemoveItem(old(model.complexes), cx) + [Entry(cx.id, cx)]
  {
    ghost var listed := InModelList(cx, model);
    ok := UpdateCatalysts(cx, model, d);
    assert cx.subunits.Keys == old(cx.subunits.Keys) + d.Keys;
    assert InModelList(cx, model) == listed;
    if ok {
      ok := UpdateComplexId(cx, model);
    }
  }

  /** The first part of `update_subunit_stoichiometry`: the new stoichiometries, then the loop
      over the catalysts. */
  method UpdateCatalysts(cx: Complex, model: Model?, d: map<Gene, int>) returns (ok: bool)
    requires DistinctGeneIds(cx.subunits.Keys + d.Keys)
    requires forall ca :: ca in cx.catalysts ==> DistinctModificationIds(ca.modifications.Keys)
    modifies cx`subunits, cx.catalysts`id, cx.catalysts`logic, (if model == null then {} else {model})`catalysts
    ensures cx.subunits == old(cx.subunits) + d
    ensures ok <==> old(forall ca :: ca in cx.catalysts ==> d != map[] && ca.modifications != map[])
    ensures ok ==> forall ca :: ca in cx.catalysts ==> Renamed(ca, old(ModificationIds(ca.modifications)))
    ensures ok && model != null && old(UniqueItems(model.catalysts) && CatalystKeysCurrent(model.catalysts)) ==>
      UniqueItems(model.catalysts) && CatalystKeysCurrent(model.catalysts)
  {
    var mids := map ca | ca in cx.catalysts :: ModificationIds(ca.modifications);
    forall ca | ca in cx.catalysts
      ensures mids[ca] == map[] <==> ca.modifications == map[]
    {
      ModificationIdsEmpty(ca.modifications);
    }
    assert DistinctGeneIds(d.Keys);
    var c := SubunitIds(d);
    SubunitIdsEmpty(d);
    cx.subunits := cx.subunits + d;
    ok := RefreshCatalysts(cx.catalysts, c, mids, model);
  }

  /** A single modification is seen under its id. */
  lemma {:induction false} ModificationIdsSingle(m: Modification, v: int)
    ensures DistinctModificationIds({m})
    ensures ModificationIds(map[m := v]) == map[m.id := v]
  {
    var d := map[m := v];
    assert d.Keys == {m};
    ModificationIdsAt(d, m);
    ModificationIdsKeys(d);
    var r := ModificationIds(d);
    forall k | k in r
      ensures k == m.id
    {
      var x :| x in d && x.id == k;
    }
    assert r.Keys == {m.id};
  }

  /** The view holds the ids of the modifications and nothing else. */
  lemma {:induction false} ModificationIdsKeys(d: map<Modification, int>)
    requires DistinctModificationIds(d.Keys)
    ensures forall k :: k in ModificationIds(d) ==> exists x :: x in d && x.id == k
  {
    ModificationNamesInjective(d.Keys);
    IdViewKeys(d, ModificationNames(d.Keys));
  }

  /** The view by ids is empty exactly when the composition is. */
  lemma {:induction false} SubunitIdsEmpty(d: map<Gene, int>)
    requires DistinctGeneIds(d.Keys)
    ensures SubunitIds(d) == map[] <==> d == map[]
  {
    GeneNamesInjective(d.Keys);
    IdViewEmpty(d, GeneNames(d.Keys));
  }

  lemma {:induction false} ModificationIdsEmpty(d: map<Modification, int>)
    requires DistinctModificationIds(d.Keys)
    ensures ModificationIds(d) == map[] <==> d == map[]
  {
    ModificationNamesInjective(d.Keys);
    IdViewEmpty(d, ModificationNames(d.Keys));
  }

  /** The loop of `update_subunit_stoichiometry` over the catalysts of the complex, in any order,
      stopping at the first one whose `_update_id` raises: one catalyst, then the rest. `c` is the subunit composition `d`
      by ids and `mids[ca]` the modifications of `ca` by ids, which nothing here changes. */
  method RefreshCatalysts(cats: set<Catalyst>, c: map<string, int>, mids: map<Catalyst, map<string, int>>,
                          model: Model?) returns (ok: bool)
    requires cats <= mids.Keys
    modifies cats`id, cats`logic, (if model == null then {} else {model})`catalysts
    ensures ok <==> forall ca :: ca in cats ==> c != map[] && mids[ca] != map[]
    ensures ok ==> forall ca :: ca in cats ==> Renamed(ca, mids[ca])
    ensures ok && model != null && old(UniqueItems(model.catalysts) && CatalystKeysCurrent(model.catalysts)) ==>
      UniqueItems(model.catalysts) && CatalystKeysCurrent(model.catalysts)
    decreases cats
  {
    if cats == {} {
      return true;
    }
    var ca :| ca in cats;
    ok := RefreshCatalyst(ca, c, mids[ca], model);
    if ok {
      ok := RefreshCatalysts(cats - {ca}, c, mids, model);
    }
  }

  /** The id and logic of a catalyst recomputed from the modification ids `m`. */
  ghost predicate Renamed(ca: Catalyst, m: map<string, int>)
    reads ca`id, ca`logic
  {
    ca.id == "Catalyst" + Suffix(m) && ca.logic == UpdateLogic(m)
  }

  /** One catalyst in `update_subunit_stoichiometry`: `_update_id(d)` (`c` is `d` by ids), then
      `_update_id(_modifications)` (`m` is the modifications by ids), each under the prefix
      `Catalyst`, then out of the model's catalysts and back in under the new id. The second
      id overwrites the first, and neither says anything about the complex. */
  method RefreshCatalyst(ca: Catalyst, c: map<string, int>, m: map<string, int>, model: Model?) returns (ok: bool)
    modifies ca`id, ca`logic, (if model == null then {} else {model})`catalysts
    ensures ok <==> c != map[] && m != map[]
    ensures ca.id == "Catalyst" + (if c == map[] then "" else Suffix(m))
    ensures ok ==> ca.logic == UpdateLogic(m)
    ensures c != map[] && m == map[] ==> ca.logic == UpdateLogic(c)
    ensures c == map[] ==> ca.logic == old(ca.logic)
    ensures ok && model != null ==> model.catalysts == RemoveItem(old(model.catalysts), ca) + [Entry(ca.id, ca)]
    ensures !ok && model != null ==> model.catalysts == old(model.catalysts)
    ensures ok && model != null && old(UniqueItems(model.catalysts) && CatalystKeysCurrent(model.catalysts)) ==>
      UniqueItems(model.catalysts) && CatalystKeysCurrent(model.catalysts)
  {
    ghost var current := model != null && UniqueItems(model.catalysts) && CatalystKeysCurrent(model.catalysts);
    ghost var es := if model == null then [] else model.catalysts;
    assert current ==> KeysCurrentBut(es, ca);
    ok := RenameCatalyst(ca, c, m);
    if ok && model != null {
      RekeyCatalyst(model, ca, current);
    }
  }

  /** The two `_update_id` calls of one catalyst in `update_subunit_stoichiometry`. */
  method RenameCatalyst(ca: Catalyst, c: map<string, int>, m: map<string, int>) returns (ok: bool)
    modifies ca`id, ca`logic
    ensures ok <==> c != map[] && m != map[]
    ensures ca.id == "Catalyst" + (if c == map[] then "" else Suffix(m))
    ensures ok ==> ca.logic == UpdateLogic(m)
    ensures c != map[] && m == map[] ==> ca.logic == UpdateLogic(c)
    ensures c == map[] ==> ca.logic == old(ca.logic)
  {
    SuffixEmpty(c);
    ok := UpdateCatalystId(ca, "Catalyst", c);
    if ok {
      ok := UpdateCatalystId(ca, "Catalyst", m);
    }
  }

  /** Every entry but those holding `ca` is keyed by its item's current id. */
  ghost predicate KeysCurrentBut(es: seq<Entry<Catalyst>>, ca: Catalyst)
    reads (CatalystItems(es) - {ca})`id
  {
    forall i :: 0 <= i < |es| && es[i].item != ca ==> es[i].key == es[i].item.id
  }

  /** The catalyst taken out of the model's catalysts and put back under its current id. */
  method RekeyCatalyst(model: Model, ca: Catalyst, ghost current: bool)
    requires current ==> UniqueItems(model.catalysts) && KeysCurrentBut(model.catalysts, ca)
    modifies model`catalysts
    ensures model.catalysts == RemoveItem(old(model.catalysts), ca) + [Entry(ca.id, ca)]
    ensures current ==> UniqueItems(model.catalysts) && CatalystKeysCurrent(model.catalysts)
  {
    ghost var before := model.catalysts;
    var rest := RemoveItem(model.catalysts, ca);
    if current {
      RemoveItemSubset(before, ca);
      RemoveItemUnique(before, ca);
      forall i | 0 <= i < |rest|
        ensures rest[i].key == rest[i].item.id && rest[i].item != ca
      {
        assert rest[i] in rest;
        var j :| 0 <= j < |before| && before[j] == rest[i];
      }
      AppendUnique(rest, Entry(ca.id, ca));
    }
    model.catalysts := rest + [Entry(ca.id, ca)];
  }

  // ---------------------------------------------------------------------------
  // Catalyst
  // ---------------------------------------------------------------------------

  /** `Catalyst._update_id(d, prefix)`: id `prefix` followed by the terms of `d`, then the logic
      of `d`. `ok` is false when `_update_logic` raises on an empty `d`; the id is set by then. */
  method UpdateCatalystId(ca: Catalyst, prefix: string, c: map<string, int>) returns (ok: bool)
    modifies ca`id, ca`logic
    ensures ok <==> c != map[]
    ensures ca.id == prefix + Suffix(c)
    ensures ca.logic == if ok then UpdateLogic(c) else old(ca.logic)
  {
    ca.id := ComposeId(prefix, c);
    ok := c != map[];
    if ok {
      ca.logic := UpdateLogic(c);
    }
  }

  /** The modifications of a catalyst after `modify(mod, v)`: a modification already present
      keeps its stoichiometry (the source only warns). */
  function Applied(ms: map<Modification, int>, mod: Modification, v: int): (r: map<Modification, int>)
    ensures r.Keys == ms.Keys + {mod}
    ensures forall x :: x in ms ==> r[x] == ms[x]
    ensures mod !in ms ==> r[mod] == v
  {
    if mod in ms then ms else ms[mod := v]
  }

  /** `Catalyst.modify(mod, v)`. `null` stands for an argument that is not a Modification, which
      is ignored. Otherwise the id is recomputed with the CURRENT id as prefix, followed by the
      terms of all the modifications under the ids they had at the call, so every call appends
      those terms again. */
  method Modify(ca: Catalyst, mod: Modification?, v: int)
    requires mod != null ==> DistinctModificationIds(ca.modifications.Keys + {mod})
    modifies ca`modifications, ca`id, ca`logic
    ensures mod == null ==> ca.modifications == old(ca.modifications) && ca.id == old(ca.id) && ca.logic == old(ca.logic)
    ensures mod != null ==> ca.modifications == Applied(old(ca.modifications), mod, v)
    ensures mod != null ==> ca.id == old(ca.id) + Suffix(old(ModificationIds(Applied(ca.modifications, mod, v))))
    ensures mod != null ==> ca.logic == UpdateLogic(old(ModificationIds(Applied(ca.modifications, mod, v))))
  {
    if mod == null {
      return;
    }
    var applied := Applied(ca.modifications, mod, v);
    var c := ModificationIds(applied);
    ModificationNamesInjective(applied.Keys);
    IdViewAt<Modification>(applied, ModificationNames(applied.Keys), mod);
    assert c != map[];
    ca.modifications := Applied(ca.modifications, mod, v);
    var ok := UpdateCatalystId(ca, ca.id, c);
  }

  /** The key of `_modification_to_catalyst` for a modification: its current id, `None` for no
      modification. */
  function ModKey(mod: Modification?): (k: Option<string>)
    reads mod
    ensures k.None? <==> mod == null
  {
    if mod == null then None else Some(mod.id)
  }

  /** `Complex.create_catalyst(mod)`.
      A modification already applied to the complex gives back the catalyst recorded for it and
      changes nothing (`None` for the KeyError when the modification's id changed since).
      Otherwise a new catalyst is built from the complex; a modification is first swapped for
      the model's modification of the same id, or appended to the model's modifications when
      it has none; the catalyst is modified with it (stoichiometry 1: the `stoichiometry`
      argument is never used), recorded under its key, and appended to the model's catalysts.
      `used` is the modification that ends up recorded; asking again with `used` returns the
      same catalyst. */
  method CreateCatalyst(cx: Complex, model: Model?, mod: Modification?) returns (r: Option<Catalyst>, used: Modification?)
    requires cx.model == model
    requires model != null && model.hasModifications ==> ModificationKeysCurrent(model.modifications)
    modifies cx`catalysts, cx`modifications, cx`modificationToCatalyst
    modifies (if model == null then {} else {model})`modifications, (if model == null then {} else {model})`catalysts
    ensures mod in old(cx.modifications) ==>
      r == (if ModKey(mod) in cx.modificationToCatalyst then Some(cx.modificationToCatalyst[ModKey(mod)]) else None)
    ensures mod in old(cx.modifications) ==>
      used == mod && cx.catalysts == old(cx.catalysts) && cx.modifications == old(cx.modifications) &&
      cx.modificationToCatalyst == old(cx.modificationToCatalyst)
    ensures mod in old(cx.modifications) && model != null ==>
      model.modifications == old(model.modifications) && model.catalysts == old(model.catalysts)
    ensures mod !in old(cx.modifications) ==> r.Some? && fresh(r.value)
    ensures mod !in old(cx.modifications) ==> used == Resolved(model, old(ModelModifications(model)), mod)
    ensures mod !in old(cx.modifications) ==>
      cx.catalysts == old(cx.catalysts) + {r.value} &&
      cx.modifications == old(cx.modifications) + {used} &&
      cx.modificationToCatalyst == old(cx.modificationToCatalyst)[ModKey(used) := r.value]
    ensures mod !in old(cx.modifications) ==>
      r.value.complex == cx && r.value.reactions == {} && r.value.model == null &&
      r.value.modifications == (if used == null then map[] else map[used := 1]) &&
      r.value.id == "Catalyst" + LStripChars(cx.id, ComplexChars) +
        (if used == null then "" else IdTerm(used.id, 1))
    ensures mod !in old(cx.modifications) ==>
      r.value.logic == (if used == null then None else UpdateLogic(map[used.id := 1]))
    ensures mod !in old(cx.modifications) && model != null ==>
      model.modifications ==
        old(model.modifications) + (if mod != null && model.hasModifications && LookupKey(old(model.modifications), mod.id).None?
                                    then [Entry<Modification>.Entry(mod.id, mod)] else [])
    ensures mod !in old(cx.modifications) && model != null ==>
      model.catalysts == old(model.catalysts) + (if model.hasEnzymeCollections then [Entry(r.value.id, r.value)] else [])
    ensures model != null && model.hasModifications ==> ModificationKeysCurrent(model.modifications)
    ensures model != null && old(CatalystKeysCurrent(model.catalysts)) ==> CatalystKeysCurrent(model.catalysts)
    ensures r.Some? ==>
      used in cx.modifications && ModKey(used) in cx.modificationToCatalyst &&
      cx.modificationToCatalyst[ModKey(used)] == r.value
  {
    if mod in cx.modifications {
      used := mod;
      var k := ModKey(mod);
      r := if k in cx.modificationToCatalyst then Some(cx.modificationToCatalyst[k]) else None;
      return;
    }
    var ca;
    ca, used := NewCatalyst(cx, model, mod);
    r := Some(ca);
  }

  /** The modifications a model keeps, none when it keeps no list of them. */
  function ModelModifications(model: Model?): seq<Entry<Modification>>
    reads model
  {
    if model == null || !model.hasModifications then [] else model.modifications
  }

  /** The modification `create_catalyst` ends up applying for `mod`: the model's modification of
      the same id when the model keeps modifications and has one under that id, otherwise `mod`. */
  function Resolved(model: Model?, ms: seq<Entry<Modification>>, mod: Modification?): Modification?
    reads model, mod
  {
    if mod == null || model == null || !model.hasModifications then mod
    else match LookupKey(ms, mod.id)
      case Some(m) => m
      case None => mod
  }

  /** The part of `create_catalyst` for a modification not yet applied: a new catalyst with the
      resolved modification, recorded in the complex and in the model. */
  method NewCatalyst(cx: Complex, model: Model?, mod: Modification?) returns (ca: Catalyst, used: Modification?)
    requires cx.model == model
    requires model != null && model.hasModifications ==> ModificationKeysCurrent(model.modifications)
    modifies cx`catalysts, cx`modifications, cx`modificationToCatalyst
    modifies (if model == null then {} else {model})`modifications, (if model == null then {} else {model})`catalysts
    ensures fresh(ca)
    ensures used == Resolved(model, old(ModelModifications(model)), mod)
    ensures cx.catalysts == old(cx.catalysts) + {ca}
    ensures cx.modifications == old(cx.modifications) + {used}
    ensures cx.modificationToCatalyst == old(cx.modificationToCatalyst)[ModKey(used) := ca]
    ensures ca.complex == cx && ca.reactions == {} && ca.model == null
    ensures ca.modifications == (if used == null then map[] else map[used := 1])
    ensures ca.id == "Catalyst" + LStripChars(cx.id, ComplexChars) + (if used == null then "" else IdTerm(used.id, 1))
    ensures ca.logic == (if used == null then None else UpdateLogic(map[used.id := 1]))
    ensures model != null ==>
      model.modifications ==
        old(model.modifications) + (if mod != null && model.hasModifications && LookupKey(old(model.modifications), mod.id).None?
                                    then [Entry<Modification>.Entry(mod.id, mod)] else [])
    ensures model != null ==>
      model.catalysts == old(model.catalysts) + (if model.hasEnzymeCollections then [Entry(ca.id, ca)] else [])
    ensures model != null && model.hasModifications ==> ModificationKeysCurrent(model.modifications)
    ensures model != null && old(CatalystKeysCurrent(model.catalysts)) ==> CatalystKeysCurrent(model.catalysts)
  {
    ca, used := BuildCatalyst(cx, model, mod);
    Register(cx, model, ca, used);
  }

  /** `Catalyst(self)` followed, for a modification, by its resolution against the model and
      `catalyst.modify(modification)`. */
  method BuildCatalyst(cx: Complex, model: Model?, mod: Modification?) returns (ca: Catalyst, used: Modification?)
    requires model != null && model.hasModifications ==> ModificationKeysCurrent(model.modifications)
    modifies (if model == null then {} else {model})`modifications
    ensures fresh(ca)
    ensures used == Resolved(model, old(ModelModifications(model)), mod)
    ensures ca.complex == cx && ca.reactions == {} && ca.model == null
    ensures ca.modifications == (if used == null then map[] else map[used := 1])
    ensures ca.id == "Catalyst" + LStripChars(cx.id, ComplexChars) + (if used == null then "" else IdTerm(used.id, 1))
    ensures ca.logic == (if used == null then None else UpdateLogic(map[used.id := 1]))
    ensures model != null ==>
      model.modifications ==
        old(model.modifications) + (if mod != null && model.hasModifications && LookupKey(old(model.modifications), mod.id).None?
                                    then [Entry<Modification>.Entry(mod.id, mod)] else [])
    ensures model != null && model.hasModifications ==> ModificationKeysCurrent(model.modifications)
  {
    used := mod;
    if mod != null {
      used := ResolveModification(model, mod);
    }
    ca := ModifiedCatalyst(cx, used);
  }

  /** `Catalyst(complex)` with `modify(mod)` applied once, for a modification already resolved. */
  method ModifiedCatalyst(cx: Complex, mod: Modification?) returns (ca: Catalyst)
    ensures fresh(ca)
    ensures ca.complex == cx && ca.reactions == {} && ca.model == null
    ensures ca.modifications == (if mod == null then map[] else map[mod := 1])
    ensures ca.id == "Catalyst" + LStripChars(cx.id, ComplexChars) + (if mod == null then "" else IdTerm(mod.id, 1))
    ensures ca.logic == (if mod == null then None else UpdateLogic(map[mod.id := 1]))
  {
    ca := new Catalyst.FromComplex(cx);
    if mod != null {
      ModificationIdsSingle(mod, 1);
      SuffixEmpty(map[mod.id := 1]);
      Modify(ca, mod, 1);
    }
  }

  /** The model's modification of the same id when the model keeps modifications and has one;
      otherwise `mod` itself, appended to the model's modifications when it keeps them. */
  method ResolveModification(model: Model?, mod: Modification) returns (used: Modification)
    requires model != null && model.hasModifications ==> ModificationKeysCurrent(model.modifications)
    modifies (if model == null then {} else {model})`modifications
    ensures used == Resolved(model, old(ModelModifications(model)), mod)
    ensures model != null ==>
      model.modifications ==
        old(model.modifications) + (if model.hasModifications && used == mod && LookupKey(old(model.modifications), mod.id).None?
                                    then [Entry(mod.id, mod)] else [])
    ensures model != null && model.hasModifications ==> ModificationKeysCurrent(model.modifications)
  {
    used := mod;
    if model != null && model.hasModifications {
      match LookupKey(model.modifications, mod.id)
      case Some(m) =>
        used := m;
      case None =>
        model.modifications := model.modifications + [Entry(mod.id, mod)];
    }
  }

  /** The last steps of `create_catalyst` for a new catalyst. */
  method Register(cx: Complex, model: Model?, ca: Catalyst, used: Modification?)
    requires ca !in CatalystItems(if model == null then [] else model.catalysts)
    modifies cx`catalysts, cx`modifications, cx`modificationToCatalyst
    modifies (if model == null then {} else {model})`catalysts
    ensures cx.catalysts == old(cx.catalysts) + {ca}
    ensures cx.modifications == old(cx.modifications) + {used}
    ensures cx.modificationToCatalyst == old(cx.modificationToCatalyst)[ModKey(used) := ca]
    ensures model != null ==>
      model.catalysts == old(model.catalysts) + (if model.hasEnzymeCollections then [Entry(ca.id, ca)] else [])
    ensures model != null && old(CatalystKeysCurrent(model.catalysts)) ==> CatalystKeysCurrent(model.catalysts)
  {
    cx.modificationToCatalyst := cx.modificationToCatalyst[ModKey(used) := ca];
    cx.catalysts := cx.catalysts + {ca};
    cx.modifications := cx.modifications + {used};
    if model != null && model.hasEnzymeCollections {
      model.catalysts := model.catalysts + [Entry(ca.id, ca)];
    }
  }

  // ---------------------------------------------------------------------------
  // Subunit
  // ---------------------------------------------------------------------------

  /** `Subunit(id, name, pid, is_polypeptide)` from an id string: a new subunit that belongs to
      no complex. */
  method NewSubunit(id: string, name: string, pid: Option<int>, isPolypeptide: bool) returns (s: Gene)
    ensures fresh(s) && s.isSubunit && s.id == id && s.name == name
    ensures s.pid == pid && s.isPolypeptide == isPolypeptide
    ensures s.reactions == {} && s.model == null && s.complexes == {}
  {
    s := new Gene(id, true, pid, isPolypeptide);
    s.name := name;
  }

  /** `Subunit(g, pid=..., is_polypeptide=...)` from a gene or a subunit: the attributes of `g`
      are copied, a plain gene takes `pid` and `is_polypeptide` from the arguments (a subunit
      keeps its own), and the new subunit belongs to no complex. */
  method SubunitOf(g: Gene, pid: Option<int>, isPolypeptide: bool) returns (s: Gene)
    ensures fresh(s) && s.isSubunit && s.id == g.id && s.name == g.name
    ensures s.reactions == g.reactions && s.model == g.model && s.complexes == {}
    ensures s.pid == (if g.isSubunit then g.pid else pid)
    ensures s.isPolypeptide == (if g.isSubunit then g.isPolypeptide else isPolypeptide)
  {
    s := new Gene(g.id, true, if g.isSubunit then g.pid else pid,
                  if g.isSubunit then g.isPolypeptide else isPolypeptide);
    s.name := g.name;
    s.reactions := g.reactions;
    s.model := g.model;
  }
}
