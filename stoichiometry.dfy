/** A reaction's metabolite -> coefficient map as a value, and what adding a dict of
    metabolites to it means, first on the metabolite objects (as `add_metabolites` walks them)
    and then one metabolite id at a time. */
module Stoichiometry {
  import opened Wrappers
  import opened Graph

  type Stoich = map<Metabolite, real>

  /** A dict of metabolites to coefficients, as the (key, value) pairs Python iterates. */
  type Items = seq<(Metabolite, real)>

  /** Coefficients keyed by metabolite id. */
  type ById = map<string, real>

  /** The metabolites of a delta dict have pairwise distinct ids. */
  ghost predicate DistinctItems(d: Items)
  {
    forall i, j :: 0 <= i < |d| && 0 <= j < |d| && i != j ==> d[i].0.id != d[j].0.id
  }

  /** The metabolites named by a delta dict. */
  function ItemObjects(d: Items): set<Metabolite>
  {
    set i | 0 <= i < |d| :: d[i].0
  }

  predicate NoZeros(s: Stoich)
  {
    forall m :: m in s ==> s[m] != 0.0
  }

  predicate NoZeroValues(a: ById)
  {
    forall k :: k in a ==> a[k] != 0.0
  }

  /** The table `dict((x.id, x) for x in self._metabolites)`. */
  function IdIndex(s: Stoich): (r: map<string, Metabolite>)
    requires DistinctMetaboliteIds(s.Keys)
    ensures r.Keys == set m | m in s :: m.id
    ensures forall m :: m in s ==> r[m.id] == m
    ensures forall k :: k in r ==> r[k] in s && r[k].id == k
  {
    map m | m in s :: m.id := m
  }

  /** The coefficients of `s` keyed by metabolite id. */
  function IdView(s: Stoich): (r: ById)
    requires DistinctMetaboliteIds(s.Keys)
    ensures r.Keys == set m | m in s :: m.id
    ensures forall m :: m in s ==> r[m.id] == s[m]
  {
    map m | m in s :: m.id := s[m]
  }

  /** The coefficients of a delta keyed by metabolite id (a later pair overrides an earlier one). */
  function ItemsView(d: Items): ById
    decreases |d|
  {
    if |d| == 0 then map[]
    else ItemsView(d[..|d| - 1])[d[|d| - 1].0.id := d[|d| - 1].1]
  }

  /** An id with a coefficient in the view is carried by some pair of the delta. */
  lemma {:induction false} ItemsViewHas(d: Items, k: string)
    ensures k in ItemsView(d) ==> exists i :: 0 <= i < |d| && d[i].0.id == k
    decreases |d|
  {
    if |d| > 0 {
      var n := |d| - 1;
      ItemsViewHas(d[..n], k);
      assert forall i :: 0 <= i < n ==> d[..n][i] == d[i];
    }
  }

  /** An id no pair of the delta carries has no coefficient in its view. */
  lemma {:induction false} ItemsViewMissing(d: Items, k: string)
    requires forall i :: 0 <= i < |d| ==> d[i].0.id != k
    ensures k !in ItemsView(d)
    decreases |d|
  {
    if |d| > 0 {
      var n := |d| - 1;
      assert forall i :: 0 <= i < n ==> d[..n][i] == d[i];
      ItemsViewMissing(d[..n], k);
    }
  }

  /** One iteration of the first loop of `add_metabolites`: a metabolite whose id is in the
      table adds to (or replaces) the coefficient of the reaction's own object with that id;
      any other metabolite is inserted with its coefficient. */
  function Step(s: Stoich, index: map<string, Metabolite>, m: Metabolite, c: real, combine: bool): Stoich
  {
    if m.id in index && index[m.id] in s then
      var k := index[m.id];
      s[k := if combine then s[k] + c else c]
    else
      s[m := c]
  }

  /** The first loop of `add_metabolites` over the pairs of `d`, with the id table built
      before the loop. */
  function Fold(s: Stoich, index: map<string, Metabolite>, d: Items, combine: bool): Stoich
    decreases |d|
  {
    if |d| == 0 then s
    else Step(Fold(s, index, d[..|d| - 1], combine), index, d[|d| - 1].0, d[|d| - 1].1, combine)
  }

  /** The first loop never removes a key. */
  lemma {:induction false} FoldKeepsKeys(s: Stoich, index: map<string, Metabolite>, d: Items, combine: bool)
    ensures s.Keys <= Fold(s, index, d, combine).Keys
    decreases |d|
  {
    if |d| > 0 {
      FoldKeepsKeys(s, index, d[..|d| - 1], combine);
    }
  }

  /** The metabolites `add_metabolites` inserts, in delta order: those whose id the reaction
      did not hold when the call began. */
  function Introduced(s: Stoich, d: Items): (r: seq<Metabolite>)
    requires DistinctMetaboliteIds(s.Keys)
    ensures forall x :: x in r ==> x in ItemObjects(d)
    decreases |d|
  {
    if |d| == 0 then []
    else
      var n := |d| - 1;
      var p := Introduced(s, d[..n]);
      if d[n].0.id in IdIndex(s) then p else p + [d[n].0]
  }

  /** An inserted metabolite's id was not the id of any of the reaction's metabolites. */
  lemma {:induction false} IntroducedAreNew(s: Stoich, d: Items)
    requires DistinctMetaboliteIds(s.Keys)
    ensures forall x :: x in Introduced(s, d) ==> x !in s && x.id !in IdIndex(s)
    decreases |d|
  {
    if |d| > 0 {
      IntroducedAreNew(s, d[..|d| - 1]);
    }
  }

  /** Every inserted metabolite comes from the delta, so its id is one of the delta's ids. */
  lemma {:induction false} IntroducedIds(s: Stoich, d: Items)
    requires DistinctMetaboliteIds(s.Keys)
    ensures forall x :: x in Introduced(s, d) ==> x.id in ItemsView(d)
    decreases |d|
  {
    if |d| > 0 {
      var n := |d| - 1;
      IntroducedIds(s, d[..n]);
      assert forall i :: 0 <= i < n ==> d[..n][i] == d[i];
    }
  }

  /** Every delta metabolite whose id the reaction did not hold is inserted. */
  lemma {:induction false} IntroducedCovers(s: Stoich, d: Items)
    requires DistinctMetaboliteIds(s.Keys)
    ensures forall i :: 0 <= i < |d| && d[i].0.id !in IdIndex(s) ==> d[i].0 in Introduced(s, d)
    decreases |d|
  {
    if |d| > 0 {
      var n := |d| - 1;
      IntroducedCovers(s, d[..n]);
      assert forall i :: 0 <= i < n ==> d[..n][i] == d[i];
    }
  }

  /** A delta metabolite whose id is new is not inserted twice. */
  lemma {:induction false} NotYetIntroduced(s: Stoich, d: Items, i: nat)
    requires DistinctMetaboliteIds(s.Keys) && DistinctItems(d) && i < |d|
    ensures d[i].0 !in Introduced(s, d[..i])
  {
    IntroducedIds(s, d[..i]);
  }

  lemma {:induction false} FoldNext(s: Stoich, index: map<string, Metabolite>, d: Items, i: nat, combine: bool)
    requires i < |d|
    ensures Fold(s, index, d[..i + 1], combine) == Step(Fold(s, index, d[..i], combine), index, d[i].0, d[i].1, combine)
  {
    var e := d[..i + 1];
    assert e[..i] == d[..i] && e[i] == d[i];
  }

  lemma {:induction false} IntroducedNext(s: Stoich, d: Items, i: nat)
    requires DistinctMetaboliteIds(s.Keys) && i < |d|
    ensures Introduced(s, d[..i + 1]) == Introduced(s, d[..i]) + (if d[i].0.id in IdIndex(s) then [] else [d[i].0])
  {
    var e := d[..i + 1];
    assert e[..i] == d[..i] && e[i] == d[i];
  }

  /** The first loop adds exactly the inserted metabolites as keys. */
  lemma {:induction false} FoldKeys(s: Stoich, d: Items, combine: bool)
    requires DistinctMetaboliteIds(s.Keys)
    ensures Fold(s, IdIndex(s), d, combine).Keys == s.Keys + set x | x in Introduced(s, d)
    decreases |d|
  {
    if |d| > 0 {
      var n := |d| - 1;
      FoldKeys(s, d[..n], combine);
    }
  }

  /** The second loop of `add_metabolites`: every entry equal to 0 is popped. */
  function DropZeros(s: Stoich): (r: Stoich)
    ensures NoZeros(r)
    ensures forall m :: m in s && s[m] != 0.0 ==> m in r && r[m] == s[m]
    ensures r.Keys <= s.Keys
  {
    map m | m in s && s[m] != 0.0 :: s[m]
  }

  /** `f` with the entries of `gone` popped. */
  function Without(f: Stoich, gone: set<Metabolite>): Stoich
  {
    map m | m in f && m !in gone :: f[m]
  }

  lemma {:induction false} WithoutOneMore(f: Stoich, gone: set<Metabolite>, m: Metabolite)
    ensures Without(f, gone) - {m} == Without(f, gone + {m})
  {
  }

  /** Popping exactly the zero entries drops the zeros. */
  lemma {:induction false} WithoutZeros(f: Stoich, z: set<Metabolite>)
    requires z == set m | m in f && f[m] == 0.0
    ensures Without(f, z) == DropZeros(f)
  {
  }

  /** The metabolite map `add_metabolites(d, combine)` leaves behind. */
  function Added(s: Stoich, d: Items, combine: bool): Stoich
    requires DistinctMetaboliteIds(s.Keys)
  {
    DropZeros(Fold(s, IdIndex(s), d, combine))
  }

  /** The delta with every coefficient negated, as `subtract_metabolites` builds it. */
  function NegateItems(d: Items): (r: Items)
    ensures |r| == |d|
    ensures forall i :: 0 <= i < |d| ==> r[i] == (d[i].0, -d[i].1)
  {
    seq(|d|, i requires 0 <= i < |d| => (d[i].0, -d[i].1))
  }

  /** Negating the coefficients keeps the same metabolite objects. */
  lemma {:induction false} NegateItemsObjects(d: Items)
    ensures ItemObjects(NegateItems(d)) == ItemObjects(d)
  {
    var n := NegateItems(d);
    forall m | m in ItemObjects(d)
      ensures m in ItemObjects(n)
    {
      var i :| 0 <= i < |d| && d[i].0 == m;
      assert n[i].0 == m;
    }
  }

  // ----- The same addition, one id at a time -----

  /** The coefficient id `k` ends up with when `b` is added to `a`. */
  function MergedValue(a: ById, b: ById, combine: bool, k: string): real
    requires k in a || k in b
  {
    if k !in b then a[k]
    else if k in a && combine then a[k] + b[k]
    else b[k]
  }

  /** Adding `b` to `a` id by id, before zeros are dropped. */
  function RawMerge(a: ById, b: ById, combine: bool): ById
  {
    map k | k in a.Keys + b.Keys :: MergedValue(a, b, combine, k)
  }

  /** Reference meaning of `add_metabolites`: an id of `b` already in `a` takes the sum (when
      combining) or the new coefficient; an id only in `b` takes its coefficient; an id only in
      `a` keeps its own; then every id whose coefficient is 0 disappears. */
  function Merge(a: ById, b: ById, combine: bool): ById
  {
    map k | k in a.Keys + b.Keys && MergedValue(a, b, combine, k) != 0.0 :: MergedValue(a, b, combine, k)
  }

  function Negated(a: ById): (r: ById)
    ensures r.Keys == a.Keys
  {
    map k | k in a :: -a[k]
  }

  lemma {:induction false} NegatedUpdate(a: ById, k: string, v: real)
    ensures Negated(a)[k := -v] == Negated(a[k := v])
  {
    var l, r := Negated(a)[k := -v], Negated(a[k := v]);
    assert l.Keys == r.Keys;
    forall j | j in l
      ensures l[j] == r[j]
    {
    }
  }

  lemma {:induction false} IdViewUpdate(s: Stoich, m: Metabolite, v: real)
    requires DistinctMetaboliteIds(s.Keys)
    requires m in s || m.id !in IdView(s)
    ensures DistinctMetaboliteIds(s[m := v].Keys)
    ensures IdView(s[m := v]) == IdView(s)[m.id := v]
  {
    var t := s[m := v];
    assert DistinctMetaboliteIds(t.Keys);
    var l, r := IdView(t), IdView(s)[m.id := v];
    assert l.Keys == r.Keys;
    forall k | k in l
      ensures l[k] == r[k]
    {
      var x :| x in t && x.id == k;
    }
  }

  lemma {:induction false} NegateItemsView(d: Items)
    ensures ItemsView(NegateItems(d)) == Negated(ItemsView(d))
    decreases |d|
  {
    if |d| > 0 {
      var n := |d| - 1;
      var p := d[..n];
      NegateItemsView(p);
      assert NegateItems(d)[..n] == NegateItems(p);
      var e := NegateItems(d);
      assert e[n] == (d[n].0, -d[n].1);
      calc {
        ItemsView(e);
        ItemsView(e[..n])[d[n].0.id := -d[n].1];
        Negated(ItemsView(p))[d[n].0.id := -d[n].1];
        { NegatedUpdate(ItemsView(p), d[n].0.id, d[n].1); }
        Negated(ItemsView(p)[d[n].0.id := d[n].1]);
        Negated(ItemsView(d));
      }
    }
  }

  lemma {:induction false} ItemsViewLast(d: Items, i: nat)
    requires DistinctItems(d) && i < |d|
    ensures d[i].0.id in ItemsView(d) && ItemsView(d)[d[i].0.id] == d[i].1
    decreases |d|
  {
    var n := |d| - 1;
    if i < n {
      var p := d[..n];
      assert p[i] == d[i];
      assert DistinctItems(p);
      ItemsViewLast(p, i);
    }
  }

  /** Every id of a delta's view is carried by one of its pairs. */
  lemma {:induction false} ItemsViewKeys(d: Items)
    ensures forall k :: k in ItemsView(d) ==> exists i :: 0 <= i < |d| && d[i].0.id == k
    decreases |d|
  {
    if |d| > 0 {
      var n := |d| - 1;
      ItemsViewKeys(d[..n]);
      forall k | k in ItemsView(d)
        ensures exists i :: 0 <= i < |d| && d[i].0.id == k
      {
        if k != d[n].0.id {
          assert k in ItemsView(d[..n]);
          var i :| 0 <= i < n && d[..n][i].0.id == k;
          assert d[i].0.id == k;
        }
      }
    }
  }

  /** The view of a delta only depends on the ids and coefficients of its pairs. */
  lemma {:induction false} ItemsViewByIds(d: Items, e: Items)
    requires |d| == |e|
    requires forall i :: 0 <= i < |d| ==> d[i].0.id == e[i].0.id && d[i].1 == e[i].1
    ensures ItemsView(d) == ItemsView(e)
    decreases |d|
  {
    if |d| > 0 {
      ItemsViewByIds(d[..|d| - 1], e[..|e| - 1]);
    }
  }

  /** The view of a delta that lists the entries of `s` once each is the view of `s`. */
  lemma {:induction false} ItemsViewOfEntries(d: Items, s: Stoich)
    requires DistinctMetaboliteIds(s.Keys) && DistinctItems(d) && ItemObjects(d) == s.Keys
    requires forall i :: 0 <= i < |d| ==> d[i].1 == s[d[i].0]
    ensures ItemsView(d) == IdView(s)
  {
    var l, g := ItemsView(d), IdView(s);
    EntriesCovered(d, s);
    EntriesWithin(d, s);
    assert l.Keys == g.Keys;
  }

  lemma {:induction false} EntriesCovered(d: Items, s: Stoich)
    requires DistinctMetaboliteIds(s.Keys) && DistinctItems(d) && ItemObjects(d) == s.Keys
    requires forall i :: 0 <= i < |d| ==> d[i].1 == s[d[i].0]
    ensures forall k :: k in IdView(s) ==> k in ItemsView(d) && ItemsView(d)[k] == IdView(s)[k]
  {
    forall k | k in IdView(s)
      ensures k in ItemsView(d) && ItemsView(d)[k] == IdView(s)[k]
    {
      var m :| m in s && m.id == k;
      assert m in ItemObjects(d);
      var i :| 0 <= i < |d| && d[i].0 == m;
      ItemsViewLast(d, i);
    }
  }

  lemma {:induction false} EntriesWithin(d: Items, s: Stoich)
    requires DistinctMetaboliteIds(s.Keys) && ItemObjects(d) == s.Keys
    ensures forall k :: k in ItemsView(d) ==> k in IdView(s)
  {
    ItemsViewKeys(d);
    forall k | k in ItemsView(d)
      ensures k in IdView(s)
    {
      var i :| 0 <= i < |d| && d[i].0.id == k;
      assert d[i].0 in ItemObjects(d);
    }
  }

  /** One iteration of the first loop, seen one id at a time. */
  lemma {:induction false} StepById(a: ById, b: ById, f: Stoich, idx: map<string, Metabolite>, m: Metabolite, c: real, combine: bool)
    requires DistinctMetaboliteIds(f.Keys)
    requires IdView(f) == RawMerge(a, b, combine)
    requires idx.Keys == a.Keys
    requires forall k :: k in idx ==> idx[k] in f && idx[k].id == k
    requires m.id !in b
    ensures DistinctMetaboliteIds(Step(f, idx, m, c, combine).Keys)
    ensures IdView(Step(f, idx, m, c, combine)) == RawMerge(a, b[m.id := c], combine)
    ensures f.Keys <= Step(f, idx, m, c, combine).Keys
  {
    var v := MergedValue(a, b[m.id := c], combine, m.id);
    RawMergeExtend(a, b, m.id, c, combine);
    var k := if m.id in idx then idx[m.id] else m;
    StepAsUpdate(a, b, f, idx, m, c, combine);
    assert k in f || k.id !in IdView(f) by {
      if m.id !in idx {
        assert m.id !in RawMerge(a, b, combine);
      }
    }
    IdViewUpdate(f, k, v);
    calc {
      IdView(Step(f, idx, m, c, combine));
      IdView(f[k := v]);
      IdView(f)[m.id := v];
      RawMerge(a, b[m.id := c], combine);
    }
  }

  /** One iteration writes the merged value under the matched (or new) metabolite. */
  lemma {:induction false} StepAsUpdate(a: ById, b: ById, f: Stoich, idx: map<string, Metabolite>, m: Metabolite, c: real, combine: bool)
    requires DistinctMetaboliteIds(f.Keys)
    requires IdView(f) == RawMerge(a, b, combine)
    requires idx.Keys == a.Keys
    requires forall k :: k in idx ==> idx[k] in f && idx[k].id == k
    requires m.id !in b
    ensures Step(f, idx, m, c, combine) ==
      f[(if m.id in idx then idx[m.id] else m) := MergedValue(a, b[m.id := c], combine, m.id)]
  {
    if m.id in idx {
      var k := idx[m.id];
      assert f[k] == a[m.id] by {
        assert IdView(f)[k.id] == f[k];
        assert RawMerge(a, b, combine)[m.id] == a[m.id];
      }
      assert MergedValue(a, b[m.id := c], combine, m.id) == if combine then f[k] + c else c;
    }
  }

  lemma {:induction false} RawMergeExtend(a: ById, b: ById, k: string, c: real, combine: bool)
    requires k !in b
    ensures RawMerge(a, b[k := c], combine) == RawMerge(a, b, combine)[k := MergedValue(a, b[k := c], combine, k)]
  {
    var l, r := RawMerge(a, b[k := c], combine), RawMerge(a, b, combine)[k := MergedValue(a, b[k := c], combine, k)];
    assert l.Keys == r.Keys;
    forall j | j in l
      ensures l[j] == r[j]
    {
      if j != k {
        assert MergedValue(a, b[k := c], combine, j) == MergedValue(a, b, combine, j);
      }
    }
  }

  lemma {:induction false} RawMergeEmpty(a: ById, combine: bool)
    ensures RawMerge(a, map[], combine) == a
  {
    var l := RawMerge(a, map[], combine);
    assert l.Keys == a.Keys;
    forall k | k in l
      ensures l[k] == a[k]
    {
    }
  }

  /** The first loop, seen one id at a time: it adds the delta to the id view without dropping
      zeros, and the reaction's own objects stay keys. */
  lemma {:induction false} FoldById(s: Stoich, d: Items, combine: bool)
    requires DistinctMetaboliteIds(s.Keys) && DistinctItems(d)
    ensures DistinctMetaboliteIds(Fold(s, IdIndex(s), d, combine).Keys)
    ensures IdView(Fold(s, IdIndex(s), d, combine)) == RawMerge(IdView(s), ItemsView(d), combine)
    ensures s.Keys <= Fold(s, IdIndex(s), d, combine).Keys
    decreases |d|
  {
    var idx := IdIndex(s);
    if |d| == 0 {
      RawMergeEmpty(IdView(s), combine);
    } else {
      var n := |d| - 1;
      var p := d[..n];
      assert forall i :: 0 <= i < n ==> p[i] == d[i];
      assert DistinctItems(p);
      FoldById(s, p, combine);
      var m, c := d[n].0, d[n].1;
      ItemsViewMissing(p, m.id);
      StepById(IdView(s), ItemsView(p), Fold(s, idx, p, combine), idx, m, c, combine);
    }
  }

  /** Only the non-zero entries of an id view. */
  function NonZero(a: ById): (r: ById)
    ensures NoZeroValues(r)
  {
    map k | k in a && a[k] != 0.0 :: a[k]
  }

  lemma {:induction false} DropZerosView(f: Stoich)
    requires DistinctMetaboliteIds(f.Keys)
    ensures DistinctMetaboliteIds(DropZeros(f).Keys)
    ensures IdView(DropZeros(f)) == NonZero(IdView(f))
  {
    var t := DropZeros(f);
    assert DistinctMetaboliteIds(t.Keys);
    var l, g := IdView(t), NonZero(IdView(f));
    forall k | k in l
      ensures k in g && l[k] == g[k]
    {
      var x :| x in t && x.id == k;
      assert l[k] == t[x] == f[x];
      assert IdView(f)[k] == f[x];
    }
    forall k | k in g
      ensures k in l
    {
      assert k in IdView(f);
      var x :| x in f && x.id == k;
      assert f[x] == IdView(f)[k];
      assert x in t;
    }
    assert l.Keys == g.Keys;
  }

  lemma {:induction false} MergeIsNonZeroRaw(a: ById, b: ById, combine: bool)
    ensures Merge(a, b, combine) == NonZero(RawMerge(a, b, combine))
  {
  }

  /** Adding a delta to an empty reaction keeps the delta's non-zero entries. */
  lemma {:induction false} MergeIntoEmpty(b: ById)
    ensures Merge(map[], b, true) == NonZero(b)
  {
  }

  /** `add_metabolites` on the objects agrees with `Merge` on the ids, and keeps ids distinct. */
  lemma {:induction false} AddedById(s: Stoich, d: Items, combine: bool)
    requires DistinctMetaboliteIds(s.Keys) && DistinctItems(d)
    ensures DistinctMetaboliteIds(Added(s, d, combine).Keys)
    ensures IdView(Added(s, d, combine)) == Merge(IdView(s), ItemsView(d), combine)
  {
    FoldById(s, d, combine);
    DropZerosView(Fold(s, IdIndex(s), d, combine));
    MergeIsNonZeroRaw(IdView(s), ItemsView(d), combine);
  }

  // ----- Properties of the addition -----

  /** Adding `{m: c}` and then `{m: -c}` restores a zero-free reaction. */
  lemma {:induction false} AddThenRemoveRestores(a: ById, k: string, c: real)
    requires NoZeroValues(a)
    ensures Merge(Merge(a, map[k := c], true), map[k := -c], true) == a
  {
    var l := Merge(Merge(a, map[k := c], true), map[k := -c], true);
    assert forall j :: j in a ==> j in l;
  }

  /** Subtracting a reaction from itself leaves nothing. */
  lemma {:induction false} SubtractSelfEmpty(a: ById)
    ensures Merge(a, Negated(a), true) == map[]
  {
  }

  /** `(a - b) + b` has the stoichiometry of a zero-free `a`. */
  lemma {:induction false} DifferenceThenSumRestores(a: ById, b: ById)
    requires NoZeroValues(a)
    ensures Merge(Merge(a, Negated(b), true), b, true) == a
  {
    var l := Merge(Merge(a, Negated(b), true), b, true);
    assert forall j :: j in a ==> j in l;
  }

  /** Adding reactions is commutative, one id at a time. */
  lemma {:induction false} SumCommutes(a: ById, b: ById)
    ensures Merge(a, b, true) == Merge(b, a, true)
  {
  }

  /** Replacing coefficients (`combine=False`) twice with the same delta changes nothing more. */
  lemma {:induction false} ReplaceIdempotent(a: ById, b: ById)
    ensures Merge(Merge(a, b, false), b, false) == Merge(a, b, false)
  {
    var once := Merge(a, b, false);
    var twice := Merge(once, b, false);
    assert forall j :: j in once ==> j in twice;
  }

  // ----- Scaling (`*` and `*=`) -----

  /** `abs` on a coefficient. */
  function Abs(x: real): (r: real)
    ensures r >= 0.0 && (r == 0.0 <==> x == 0.0)
    ensures r == x || r == -x
  {
    if x < 0.0 then -x else x
  }

  /** Every coefficient multiplied by `k`; entries that become 0 are kept. */
  function Scale(s: Stoich, k: real): (r: Stoich)
    ensures r.Keys == s.Keys
  {
    map m | m in s :: k * s[m]
  }

  /** Scaling by a non-zero factor is undone by its reciprocal. */
  lemma {:induction false} ScaleInverse(s: Stoich, k: real)
    requires k != 0.0
    ensures Scale(Scale(s, k), 1.0 / k) == s
  {
    var t := Scale(Scale(s, k), 1.0 / k);
    forall m | m in s
      ensures t[m] == s[m]
    {
      assert m in Scale(s, k) && Scale(s, k)[m] == k * s[m];
      calc {
        t[m];
        (1.0 / k) * Scale(s, k)[m];
        (1.0 / k) * (k * s[m]);
        ((1.0 / k) * k) * s[m];
      }
    }
  }

  /** Scaling a zero-free reaction keeps it zero-free exactly when the factor is not 0 or the
      reaction is empty: scaling by 0 leaves every entry in place with coefficient 0. */
  lemma {:induction false} ScaleKeepsNoZeros(s: Stoich, k: real)
    requires NoZeros(s)
    ensures NoZeros(Scale(s, k)) <==> k != 0.0 || s == map[]
  {
    if k == 0.0 && s != map[] {
      var m :| m in s;
      assert Scale(s, k)[m] == 0.0;
    }
  }

  // ----- Derived views -----

  /** `reactants`: the metabolites with a negative coefficient. */
  function Reactants(s: Stoich): (r: set<Metabolite>)
    ensures r <= s.Keys
  {
    set m | m in s && s[m] < 0.0
  }

  /** `products`: the metabolites with a positive coefficient. */
  function Products(s: Stoich): (r: set<Metabolite>)
    ensures r <= s.Keys
  {
    set m | m in s && s[m] > 0.0
  }

  /** In a zero-free reaction every metabolite is exactly one of reactant and product. */
  lemma {:induction false} ReactantsProductsPartition(s: Stoich)
    requires NoZeros(s)
    ensures Reactants(s) + Products(s) == s.Keys
    ensures Reactants(s) * Products(s) == {}
  {
  }

  /** Scaling by -1 (reversing the reaction) swaps reactants and products. */
  lemma {:induction false} ReverseSwapsSides(s: Stoich)
    ensures Reactants(Scale(s, -1.0)) == Products(s)
    ensures Products(Scale(s, -1.0)) == Reactants(s)
  {
  }

  /** `reversibility`: the lower bound is negative and the upper bound positive. */
  predicate Reversible(lower: real, upper: real)
  {
    lower < 0.0 && upper > 0.0
  }

  datatype BoundaryKind = SystemBoundary | NotBoundary

  /** `boundary`: a single metabolite, or coefficients whose minimum is not below 0 or whose
      maximum is not above 0, make a system boundary. An empty reaction fails because `min`
      is taken of an empty sequence. */
  function Boundary(s: Stoich): (r: Result<BoundaryKind, string>)
    ensures r.Failure? <==> s == map[]
  {
    if |s| == 0 then Failure("min() arg is an empty sequence")
    else if |s| == 1 then Success(SystemBoundary)
    else if !(MinBelowZero(s) && MaxAboveZero(s)) then Success(SystemBoundary)
    else Success(NotBoundary)
  }

  /** `min(values) < 0`, for a non-empty map. */
  predicate MinBelowZero(s: Stoich)
  {
    exists m :: m in s && s[m] < 0.0
  }

  /** `max(values) > 0`, for a non-empty map. */
  predicate MaxAboveZero(s: Stoich)
  {
    exists m :: m in s && s[m] > 0.0
  }

  /** A non-empty reaction is a system boundary exactly when it has a single metabolite or
      lacks reactants or lacks products. */
  lemma {:induction false} BoundaryOneSided(s: Stoich)
    requires s != map[]
    ensures Boundary(s) == Success(SystemBoundary) <==> |s| == 1 || Reactants(s) == {} || Products(s) == {}
  {
    if MinBelowZero(s) {
      var x :| x in s && s[x] < 0.0;
      assert x in Reactants(s);
    }
    if MaxAboveZero(s) {
      var y :| y in s && s[y] > 0.0;
      assert y in Products(s);
    }
    if Reactants(s) != {} && Products(s) != {} {
      var x :| x in Reactants(s);
      var y :| y in Products(s);
      assert MinBelowZero(s) && MaxAboveZero(s);
    }
  }

  /** `get_coefficient(id)`: the coefficient of the metabolite with that id, or a KeyError. */
  function GetCoefficient(s: Stoich, id: string): (r: Result<real, string>)
    requires DistinctMetaboliteIds(s.Keys)
    ensures r.Success? <==> id in IdView(s)
    ensures r.Success? ==> r.value == IdView(s)[id]
  {
    var index := IdIndex(s);
    if id in index then Success(s[index[id]]) else Failure("KeyError: " + id)
  }
}
