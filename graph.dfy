/** The entities of the reaction network and their awareness links.

    Every Python class of the core becomes a Dafny class with the same fields:
    a Gene and a Subunit share the class `Gene` (a Subunit has `isSubunit`), a Reaction and a
    CatalyzedReaction share the class `Reaction` (a CatalyzedReaction has `catalyzed`), and
    `Model` carries both the plain container collections and the ME collections.
    The classes refer to one another in both directions, so they live in one module; the
    operations of each source file are the methods of the modules that import this one.

    A `DictList` is a sequence. For entities whose ids never change it is a sequence of the
    entities; for complexes, catalysts and modifications, whose ids are recomputed from their
    composition, it is a sequence of (key, entity) entries, the key being the id the entity
    had when it was appended, so that a stale key can be observed. */
module Graph {
  import opened Wrappers
  import Text

  /** Chemical element symbol -> number of atoms. */
  type Formula = map<string, int>

  /** An entry of a DictList keyed by the id its item had when it was appended. */
  datatype Entry<T> = Entry(key: string, item: T)

  class Metabolite {
    const id: string
    var name: string
    const formula: Option<Formula>
    var compartment: string
    var mnxId: Option<string>
    /** `_reaction`: the reactions that use this metabolite. */
    var reactions: set<Reaction>
    var model: Model?

    constructor (id: string, name: string, formula: Option<Formula>, compartment: string)
      ensures this.id == id && this.name == name && this.formula == formula
      ensures this.compartment == compartment && mnxId == None
      ensures reactions == {} && model == null
    {
      this.id := id;
      this.name := name;
      this.formula := formula;
      this.compartment := compartment;
      mnxId := None;
      reactions := {};
      model := null;
    }
  }

  /** A cobra Gene, or (when `isSubunit`) a cobra.me Subunit. */
  class Gene {
    const id: string
    const isSubunit: bool
    var name: string
    /** `_reaction`: the reactions whose gene set holds this gene. */
    var reactions: set<Reaction>
    var model: Model?
    const pid: Option<int>
    const isPolypeptide: bool
    /** `_complex` of a Subunit: the complexes that use it. */
    var complexes: set<Complex>

    constructor (id: string, isSubunit: bool, pid: Option<int>, isPolypeptide: bool)
      ensures this.id == id && this.isSubunit == isSubunit && name == id
      ensures this.pid == pid && this.isPolypeptide == isPolypeptide
      ensures reactions == {} && complexes == {} && model == null
    {
      this.id := id;
      this.isSubunit := isSubunit;
      name := id;
      reactions := {};
      model := null;
      this.pid := pid;
      this.isPolypeptide := isPolypeptide;
      complexes := {};
    }
  }

  /** A cobra Reaction, or (when `catalyzed`) a cobra.me CatalyzedReaction. */
  class Reaction {
    const id: string
    var name: string
    /** `gene_reaction_rule`. */
    var rule: string
    var lowerBound: real
    var upperBound: real
    var objectiveCoefficient: real
    /** `_metabolites`: metabolite -> stoichiometric coefficient. */
    var metabolites: map<Metabolite, real>
    /** `_genes`. */
    var genes: set<Gene>
    var model: Model?
    var catalyzed: bool
    /** `_catalyst` of a CatalyzedReaction. */
    var catalysts: set<Catalyst>
    /** `_complex` of a CatalyzedReaction. */
    var complexes: set<Complex>
    var logic: Option<string>

    /** `Reaction(name)`: the id is the name, the bounds are 0 and 1000, nothing is attached. */
    constructor (id: string)
      ensures this.id == id && name == id && rule == ""
      ensures lowerBound == 0.0 && upperBound == 1000.0 && objectiveCoefficient == 0.0
      ensures metabolites == map[] && genes == {} && model == null
      ensures !catalyzed && catalysts == {} && complexes == {} && logic == None
    {
      this.id := id;
      name := id;
      rule := "";
      lowerBound := 0.0;
      upperBound := 1000.0;
      objectiveCoefficient := 0.0;
      metabolites := map[];
      genes := {};
      model := null;
      catalyzed := false;
      catalysts := {};
      complexes := {};
      logic := None;
    }

    /** A reaction with the given attributes, as a copy procedure builds one. */
    constructor Copy(id: string, name: string, rule: string, lowerBound: real, upperBound: real,
                     objectiveCoefficient: real, metabolites: map<Metabolite, real>, genes: set<Gene>,
                     model: Model?, catalyzed: bool, catalysts: set<Catalyst>, complexes: set<Complex>,
                     logic: Option<string>)
      ensures this.id == id && this.name == name && this.rule == rule
      ensures this.lowerBound == lowerBound && this.upperBound == upperBound
      ensures this.objectiveCoefficient == objectiveCoefficient
      ensures this.metabolites == metabolites && this.genes == genes && this.model == model
      ensures this.catalyzed == catalyzed && this.catalysts == catalysts && this.complexes == complexes
      ensures this.logic == logic
    {
      this.id := id;
      this.name := name;
      this.rule := rule;
      this.lowerBound := lowerBound;
      this.upperBound := upperBound;
      this.objectiveCoefficient := objectiveCoefficient;
      this.metabolites := metabolites;
      this.genes := genes;
      this.model := model;
      this.catalyzed := catalyzed;
      this.catalysts := catalysts;
      this.complexes := complexes;
      this.logic := logic;
    }

    /** Bidirectional consistency seen from the reaction: every metabolite and gene it uses
        knows it, and no two of its metabolites share an id. */
    ghost predicate Valid()
      reads this, metabolites.Keys, genes
    {
      && (forall m :: m in metabolites ==> this in m.reactions)
      && (forall g :: g in genes ==> this in g.reactions)
      && DistinctMetaboliteIds(metabolites.Keys)
    }
  }

  class Modification {
    var id: string
    /** `_modification_dict`: species -> stoichiometry. */
    var composition: map<Metabolite, int>
    var logic: Option<string>

    /** `Modification()`: the empty modification. */
    constructor ()
      ensures id == "Empty_Modification" && composition == map[] && logic == None
    {
      id := "Empty_Modification";
      composition := map[];
      logic := None;
    }
  }

  class Complex {
    var id: string
    /** `_subunits`: subunit -> stoichiometry. */
    var subunits: map<Gene, int>
    var rnaSubunits: set<Gene>
    var polypeptideSubunits: set<Gene>
    /** `_modifications`; `null` stands for Python's `None`. */
    var modifications: set<Modification?>
    var catalysts: set<Catalyst>
    /** `_modification_to_catalyst`, keyed by modification id (`None` for no modification). */
    var modificationToCatalyst: map<Option<string>, Catalyst>
    var subcomplexes: set<Complex>
    var supercomplexes: set<Complex>
    var pids: set<Option<int>>
    var logic: Option<string>
    /** `_reaction` inherited from Species. */
    var reactions: set<Reaction>
    var model: Model?

    constructor (id: string)
      ensures this.id == id && subunits == map[] && rnaSubunits == {} && polypeptideSubunits == {}
      ensures modifications == {} && catalysts == {} && modificationToCatalyst == map[]
      ensures subcomplexes == {} && supercomplexes == {} && pids == {} && logic == None
      ensures reactions == {} && model == null
    {
      this.id := id;
      subunits := map[];
      rnaSubunits := {};
      polypeptideSubunits := {};
      modifications := {};
      catalysts := {};
      modificationToCatalyst := map[];
      subcomplexes := {};
      supercomplexes := {};
      pids := {};
      logic := None;
      reactions := {};
      model := null;
    }
  }

  /** The characters `str.lstrip('Complex')` removes. */
  const ComplexChars: set<char> := {'C', 'o', 'm', 'p', 'l', 'e', 'x'}

  class Catalyst {
    var id: string
    /** `_complex`: the complex this catalyst activates, if built from one. */
    var complex: Complex?
    var reactions: set<Reaction>
    /** `_modifications`: modification -> stoichiometry. */
    var modifications: map<Modification, int>
    var logic: Option<string>
    var model: Model?

    /** `Catalyst(complex)`: the id is 'Catalyst' followed by the complex id with its leading
        characters from {C,o,m,p,l,e,x} removed. */
    constructor FromComplex(cx: Complex)
      ensures id == "Catalyst" + Text.LStripChars(cx.id, ComplexChars) && complex == cx
      ensures reactions == {} && modifications == map[] && logic == None && model == null
    {
      id := "Catalyst" + Text.LStripChars(cx.id, ComplexChars);
      complex := cx;
      reactions := {};
      modifications := map[];
      logic := None;
      model := null;
    }

    /** `Catalyst(id_string)`. */
    constructor FromId(id: string)
      ensures this.id == id && complex == null
      ensures reactions == {} && modifications == map[] && logic == None && model == null
    {
      this.id := id;
      complex := null;
      reactions := {};
      modifications := map[];
      logic := None;
      model := null;
    }
  }

  /** A cobra Model, with the collections an ME_Model adds.
      `hasEnzymeCollections` says whether `subunits`, `complexes` and `catalysts` exist
      (`hasattr(model, 'subunits')`), `hasModifications` whether `modifications` does. */
  class Model {
    const id: string
    var reactions: seq<Reaction>
    var metabolites: seq<Metabolite>
    var genes: seq<Gene>
    var hasEnzymeCollections: bool
    var hasModifications: bool
    var subunits: seq<Gene>
    var complexes: seq<Entry<Complex>>
    var catalysts: seq<Entry<Catalyst>>
    var modifications: seq<Entry<Modification>>

    constructor (id: string)
      ensures this.id == id && reactions == [] && metabolites == [] && genes == []
      ensures !hasEnzymeCollections && !hasModifications
      ensures subunits == [] && complexes == [] && catalysts == [] && modifications == []
    {
      this.id := id;
      reactions := [];
      metabolites := [];
      genes := [];
      hasEnzymeCollections := false;
      hasModifications := false;
      subunits := [];
      complexes := [];
      catalysts := [];
      modifications := [];
    }

    /** `Model.add_metabolites`, which is not part of this model, as far as a reaction relies
        on it: the metabolites whose ids the model does not hold yet are appended. */
    method AddMetabolites(ms: seq<Metabolite>)
      modifies this`metabolites
      ensures metabolites == old(metabolites) + NewById(old(metabolites), ms)
    {
      metabolites := metabolites + NewById(metabolites, ms);
    }
  }

  /** The metabolites of `ms` whose ids are not already held in `have`. */
  function NewById(have: seq<Metabolite>, ms: seq<Metabolite>): (r: seq<Metabolite>)
    ensures forall m :: m in r ==> m in ms
    decreases |ms|
  {
    if |ms| == 0 then []
    else
      var rest := NewById(have, ms[1..]);
      if exists h :: h in have && h.id == ms[0].id then rest else [ms[0]] + rest
  }

  /** The ids of a set of genes. */
  function GeneIdSet(gs: set<Gene>): set<string>
  {
    set g | g in gs :: g.id
  }

  function ComplexItems(es: seq<Entry<Complex>>): set<Complex>
  {
    set i | 0 <= i < |es| :: es[i].item
  }

  function CatalystItems(es: seq<Entry<Catalyst>>): set<Catalyst>
  {
    set i | 0 <= i < |es| :: es[i].item
  }

  function ModificationItems(es: seq<Entry<Modification>>): set<Modification>
  {
    set i | 0 <= i < |es| :: es[i].item
  }

  ghost predicate ComplexKeysCurrent(es: seq<Entry<Complex>>)
    reads ComplexItems(es)`id
  {
    forall i :: 0 <= i < |es| ==> es[i].key == es[i].item.id
  }

  ghost predicate CatalystKeysCurrent(es: seq<Entry<Catalyst>>)
    reads CatalystItems(es)`id
  {
    forall i :: 0 <= i < |es| ==> es[i].key == es[i].item.id
  }

  ghost predicate ModificationKeysCurrent(es: seq<Entry<Modification>>)
    reads ModificationItems(es)`id
  {
    forall i :: 0 <= i < |es| ==> es[i].key == es[i].item.id
  }

  /** The entries at `i` and `j` hold the same object. */
  predicate SameItem<T(==)>(es: seq<Entry<T>>, i: int, j: int)
  {
    0 <= i < |es| && 0 <= j < |es| && es[i].item == es[j].item
  }

  /** No object is held twice. The quantifier fires only on a `SameItem` term, so that a long
      list does not pair each of its entries with every other. */
  predicate UniqueItems<T(==)>(es: seq<Entry<T>>)
  {
    forall i, j {:trigger SameItem(es, i, j)} :: 0 <= i < j < |es| ==> !SameItem(es, i, j)
  }

  /** The index of the first entry that holds `x`, `|es|` when there is none. */
  function FirstHolding<T(==)>(es: seq<Entry<T>>, x: T): (j: nat)
    ensures j <= |es|
    ensures forall i :: 0 <= i < j ==> es[i].item != x
    ensures j < |es| ==> es[j].item == x
    decreases |es|
  {
    if |es| == 0 then 0
    else if es[0].item == x then 0
    else
      var j := FirstHolding(es[1..], x);
      assert forall i :: 1 <= i < j + 1 ==> es[i] == es[1..][i - 1];
      1 + j
  }

  /** The list without the first entry that holds `x`; the list itself when no entry holds
      `x`, which is where `DictList.remove` raises instead (see `RemoveEntry`). */
  function RemoveItem<T(==)>(es: seq<Entry<T>>, x: T): (r: seq<Entry<T>>)
  {
    var j := FirstHolding(es, x);
    if j == |es| then es else es[..j] + es[j + 1..]
  }

  /** `DictList.remove(x)`: a `ValueError` when no entry holds `x`, as `list.remove` raises;
      otherwise the first entry that holds `x` is dropped. */
  function RemoveEntry<T(==)>(es: seq<Entry<T>>, x: T): (r: Result<seq<Entry<T>>, string>)
    ensures r.Failure? <==> forall e :: e in es ==> e.item != x
    ensures r.Success? ==> |r.value| == |es| - 1 && r.value == RemoveItem(es, x)
  {
    var j := FirstHolding(es, x);
    if j == |es| then Failure("ValueError: list.remove(x): x not in list")
    else
      assert es[j] in es;
      Success(RemoveItem(es, x))
  }

  /** Removal raises exactly when no entry holds `x`, and otherwise shifts the entries after the
      first one holding `x` down by one. */
  lemma {:induction false} RemoveItemAt<T>(es: seq<Entry<T>>, x: T)
    ensures RemoveEntry(es, x).Failure? <==> FirstHolding(es, x) == |es|
    ensures FirstHolding(es, x) == |es| ==> RemoveItem(es, x) == es
    ensures FirstHolding(es, x) < |es| ==>
      |RemoveItem(es, x)| == |es| - 1 &&
      forall i :: 0 <= i < |es| - 1 ==>
        RemoveItem(es, x)[i] == if i < FirstHolding(es, x) then es[i] else es[i + 1]
  {
  }

  /** Removal keeps only entries of the list, one fewer when some entry holds `x`. */
  lemma {:induction false} RemoveItemSubset<T>(es: seq<Entry<T>>, x: T)
    ensures forall e :: e in RemoveItem(es, x) ==> e in es
    ensures (exists e :: e in es && e.item == x) ==> |RemoveItem(es, x)| == |es| - 1
  {
    var j := FirstHolding(es, x);
    var r := RemoveItem(es, x);
    RemoveItemAt(es, x);
    if j < |es| {
      forall e | e in r
        ensures e in es
      {
        var i :| 0 <= i < |r| && r[i] == e;
      }
    } else {
      forall e | e in es
        ensures e.item != x
      {
        var i :| 0 <= i < |es| && es[i] == e;
      }
    }
  }

  /** From a list without duplicates, removal drops exactly the one entry that holds `x`. */
  lemma {:induction false} RemoveItemUnique<T>(es: seq<Entry<T>>, x: T)
    requires UniqueItems(es)
    ensures UniqueItems(RemoveItem(es, x))
    ensures forall e :: e in RemoveItem(es, x) ==> e.item != x
    ensures forall e :: e in es && e.item != x ==> e in RemoveItem(es, x)
  {
    var j := FirstHolding(es, x);
    var r := RemoveItem(es, x);
    RemoveItemAt(es, x);
    if j < |es| {
      forall a, b | 0 <= a < b < |r|
        ensures !SameItem(r, a, b)
      {
        var a', b' := if a < j then a else a + 1, if b < j then b else b + 1;
        assert r[a] == es[a'] && r[b] == es[b'];
        assert !SameItem(es, a', b');
      }
      forall e | e in r
        ensures e.item != x
      {
        var i :| 0 <= i < |r| && r[i] == e;
        assert e == es[if i < j then i else i + 1];
        if i < j {
          assert !SameItem(es, i, j);
        } else {
          assert !SameItem(es, j, i + 1);
        }
      }
      forall e | e in es && e.item != x
        ensures e in r
      {
        var i :| 0 <= i < |es| && es[i] == e;
        if i < j {
          assert r[i] == e;
        } else {
          assert r[i - 1] == e;
        }
      }
    } else {
      forall e | e in es
        ensures e.item != x
      {
        var i :| 0 <= i < |es| && es[i] == e;
      }
    }
  }

  /** Appending an entry whose object the list does not hold keeps the list without duplicates. */
  lemma {:induction false} AppendUnique<T>(es: seq<Entry<T>>, e: Entry<T>)
    requires UniqueItems(es)
    requires forall i :: 0 <= i < |es| ==> es[i].item != e.item
    ensures UniqueItems(es + [e])
  {
    forall a, b | 0 <= a < b < |es| + 1
      ensures !SameItem(es + [e], a, b)
    {
      if b < |es| {
        assert !SameItem(es, a, b);
      }
    }
  }

  /** `DictList.get_by_id(k)`: the item of the entry stored under `k`, `None` for a KeyError. */
  function LookupKey<T>(es: seq<Entry<T>>, k: string): (r: Option<T>)
    ensures r.Some? ==> exists e :: e in es && e.key == k && e.item == r.value
    ensures r.None? ==> forall e :: e in es ==> e.key != k
    decreases |es|
  {
    if |es| == 0 then None
    else if es[0].key == k then Some(es[0].item)
    else LookupKey(es[1..], k)
  }

  /** No two of the metabolites share an id (entities are identified by id). */
  ghost predicate DistinctMetaboliteIds(ms: set<Metabolite>)
  {
    forall a, b :: a in ms && b in ms && a.id == b.id ==> a == b
  }

  /** `a` and `b` carry the same id. */
  predicate SameGeneId(a: Gene, b: Gene)
  {
    a.id == b.id
  }

  /** No two of the genes share an id. The quantifier fires only on a `SameGeneId` term, so
      that a set with many members does not pair each of them with every other. */
  ghost predicate DistinctGeneIds(gs: set<Gene>)
  {
    forall a, b {:trigger SameGeneId(a, b)} :: a in gs && b in gs && SameGeneId(a, b) ==> a == b
  }
}
