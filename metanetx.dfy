/** The MetaNetX.org curation helpers (cobra/curation/metanetx.py): a reaction is summarised by
    the sorted, `_`-joined MetaNetX ids of its species, optionally with their coefficients;
    objects are grouped by the signatures of their reactions; BiGG ids are respelled the way
    the cross-reference tables write them, and a compartment suffix is dropped before an id is
    looked up. */
module MetaNetX {
  import opened Wrappers
  import opened Text
  import opened Graph
  import Stoichiometry

  // ---------------------------------------------------------------------------
  // Sorting a list of strings that may repeat
  // ---------------------------------------------------------------------------

  /** Non-decreasing in Python's order on str. */
  predicate Sorted(s: seq<string>)
  {
    forall i, j :: 0 <= i < j < |s| ==> !Below(s[j], s[i])
  }

  /** The distinct elements of a bag. */
  function Support(b: multiset<string>): set<string>
  {
    set x | x in b
  }

  /** `sorted(l)` for a list `l` of strings, given by its elements with their multiplicities:
      the least element first, then the rest sorted. */
  function SortBag(b: multiset<string>): (r: seq<string>)
    ensures multiset(r) == b
    decreases |b|
  {
    if b == multiset{} then []
    else
      var s := Support(b);
      assert s != {} by {
        var y :| y in b;
        assert y in s;
      }
      LeastUnique(s);
      MinimumExists(s);
      var m :| IsLeast(m, s);
      [m] + SortBag(b - multiset{m})
  }

  /** `SortBag(b)` starts with the least element of `b`. */
  lemma {:induction false} SortBagUnfold(b: multiset<string>, m: string)
    requires IsLeast(m, Support(b))
    ensures SortBag(b) == [m] + SortBag(b - multiset{m})
  {
    LeastUnique(Support(b));
  }

  /** Putting a least element in front of a sorted list keeps it sorted. */
  lemma {:induction false} ConsSortedBag(m: string, rest: seq<string>)
    requires Sorted(rest) && forall x :: x in rest ==> !Below(x, m)
    ensures Sorted([m] + rest)
  {
    var r := [m] + rest;
    forall i, j | 0 <= i < j < |r|
      ensures !Below(r[j], r[i])
    {
      assert r[j] == rest[j - 1] && rest[j - 1] in rest;
      if i > 0 {
        assert r[i] == rest[i - 1];
      }
    }
  }

  /** Nothing in a bag is below its least element. */
  lemma NotBelowLeast(b: multiset<string>, m: string, x: string)
    requires IsLeast(m, Support(b)) && x in b
    ensures !Below(x, m)
  {
    assert x in Support(b);
    if x == m {
      BelowIrreflexive(m);
    } else {
      BelowAsymmetric(m, x);
    }
  }

  /** The result of `SortBag` is sorted. */
  lemma {:induction false} SortBagSorted(b: multiset<string>)
    ensures Sorted(SortBag(b))
    decreases |b|
  {
    if b != multiset{} {
      var s := Support(b);
      var y :| y in b;
      assert y in s;
      MinimumExists(s);
      var m :| IsLeast(m, s);
      SortBagUnfold(b, m);
      var rest := SortBag(b - multiset{m});
      SortBagSorted(b - multiset{m});
      forall x | x in rest
        ensures !Below(x, m)
      {
        assert x in multiset(rest);
        NotBelowLeast(b, m, x);
      }
      ConsSortedBag(m, rest);
    }
  }

  /** A sorted list is determined by its elements: `SortBag(b)` is the only sorted arrangement
      of `b`. */
  lemma {:induction false} SortedUnique(a: seq<string>, b: seq<string>)
    requires Sorted(a) && Sorted(b) && multiset(a) == multiset(b)
    ensures a == b
    decreases |a|
  {
    assert |a| == |multiset(a)| == |multiset(b)| == |b|;
    if |a| > 0 {
      SortedHead(a, b);
      assert a == [a[0]] + a[1..] && b == [b[0]] + b[1..];
      assert multiset(a) == multiset{a[0]} + multiset(a[1..]);
      assert multiset(b) == multiset{b[0]} + multiset(b[1..]);
      assert multiset(a[1..]) == multiset(a) - multiset{a[0]};
      assert multiset(b[1..]) == multiset(b) - multiset{b[0]};
      SortedTail(a);
      SortedTail(b);
      SortedUnique(a[1..], b[1..]);
    }
  }

  /** Two sorted arrangements of the same elements start with the same element. */
  lemma {:induction false} SortedHead(a: seq<string>, b: seq<string>)
    requires Sorted(a) && Sorted(b) && multiset(a) == multiset(b) && |a| > 0 && |b| > 0
    ensures a[0] == b[0]
  {
    assert a[0] in multiset(b) && b[0] in multiset(a);
    var k :| 0 <= k < |b| && b[k] == a[0];
    var j :| 0 <= j < |a| && a[j] == b[0];
    if k > 0 {
      assert !Below(b[k], b[0]);
    } else {
      BelowIrreflexive(b[0]);
    }
    if j > 0 {
      assert !Below(a[j], a[0]);
    } else {
      BelowIrreflexive(a[0]);
    }
    if a[0] != b[0] {
      BelowTotal(a[0], b[0]);
    }
  }

  lemma {:induction false} SortedTail(a: seq<string>)
    requires Sorted(a) && |a| > 0
    ensures Sorted(a[1..])
  {
    forall i, j | 0 <= i < j < |a| - 1
      ensures !Below(a[1..][j], a[1..][i])
    {
      assert a[1..][j] == a[j + 1] && a[1..][i] == a[i + 1];
    }
  }

  /** Sorting a bag: the sorted arrangement of its elements, and no other. */
  lemma {:induction false} SortBagIsSort(b: multiset<string>, l: seq<string>)
    ensures Sorted(SortBag(b)) && multiset(SortBag(b)) == b
    ensures Sorted(l) && multiset(l) == b ==> l == SortBag(b)
  {
    SortBagSorted(b);
    if Sorted(l) && multiset(l) == b {
      SortedUnique(l, SortBag(b));
    }
  }

  // ---------------------------------------------------------------------------
  // Reaction signatures (`generate_mnx_reaction_signature`)
  // ---------------------------------------------------------------------------

  /** One species of a reaction: its MetaNetX id (`mnx_id`, possibly None) and its
      stoichiometric coefficient in the reaction. */
  datatype Species = Species(mnx: Option<string>, coefficient: real)

  /** `str(x)` of an mnx id, which is a str or None. */
  function Str(x: Option<string>): string
  {
    if x.None? then "None" else x.value
  }

  /** `promiscuous_metabolites`: BiGG ids of the cofactors that take part in so many
      reactions that they say nothing about one, with their mnx ids. */
  const PromiscuousMetabolites: map<string, Option<string>> :=
    map["h" := Some("MNXM1"), "h2o" := Some("MNXM2"), "nad" := Some("MNXM8"), "nadh" := Some("MNXM10"),
        "nadp" := Some("MNXM5"), "nadph" := Some("MNXM6"), "None" := None]

  /** Which list of terms is built from the species. */
  datatype TermKind =
    | MnxIds                          // `mnx_ids`
    | Stoichiometric(signed: bool)    // `'%s_%s' % (coefficient, mnx_id)`, `abs` applied unless `signed`
    | Reactants                       // `'-%s' % mnx_id` of the species with a negative coefficient
    | Products                        // `str(mnx_id)` of the species with a positive coefficient

  /** What one species contributes to the list of a kind: one term, or none when the kind
      skips it. `fmt` is `str` on a float. */
  function TermOf(x: Species, k: TermKind, fmt: real -> string): (t: seq<Option<string>>)
    ensures |t| <= 1
  {
    match k
    case MnxIds => [x.mnx]
    case Stoichiometric(signed) =>
      [Some(fmt(if signed then x.coefficient else Stoichiometry.Abs(x.coefficient)) + "_" + Str(x.mnx))]
    case Reactants => if x.coefficient < 0.0 then [Some("-" + Str(x.mnx))] else []
    case Products => if x.coefficient > 0.0 then [Some(Str(x.mnx))] else []
  }

  /** The list of a kind, in the order of the species. */
  function Terms(sp: seq<Species>, k: TermKind, fmt: real -> string): seq<Option<string>>
    decreases |sp|
  {
    if sp == [] then [] else TermOf(sp[0], k, fmt) + Terms(sp[1..], k, fmt)
  }

  /** The terms before sorting, as the three branches of the source build them. */
  function SignatureTerms(sp: seq<Species>, includeStoichiometry: bool, includeDirectionality: bool,
                          fmt: real -> string): seq<Option<string>>
  {
    if includeStoichiometry then Terms(sp, Stoichiometric(includeDirectionality), fmt)
    else if includeDirectionality then Terms(sp, Reactants, fmt) + Terms(sp, Products, fmt)
    else Terms(sp, MnxIds, fmt)
  }

  /** The str terms of a list, with their multiplicities. */
  function Texts(l: seq<Option<string>>): multiset<string>
    decreases |l|
  {
    if l == [] then multiset{}
    else (if l[0].Some? then multiset{l[0].value} else multiset{}) + Texts(l[1..])
  }

  /** `n` copies of `x`. */
  function Repeat<T>(x: T, n: nat): (r: seq<T>)
    ensures |r| == n && forall i :: 0 <= i < n ==> r[i] == x
  {
    seq(n, _ => x)
  }

  /** The end of the signature: the terms sorted (None, which only `mnx_ids` can hold, sorts
      before every str in Python 2) and joined by `_` after `str`; None for no terms, or for
      terms that are all None. */
  function Finish(l: seq<Option<string>>): Option<string>
  {
    if |l| == 0 then None
    else if forall x :: x in l ==> x.None? then None
    else Some(Join(Repeat("None", multiset(l)[None]) + SortBag(Texts(l)), "_"))
  }

  /** `generate_mnx_reaction_signature(reaction, include_stoichiometry, exclude_promiscuous,
      include_directionality)` over the species of the reaction in the order the reaction
      lists them. With `exclude_promiscuous` there is no signature when every mnx id is a
      promiscuous one or None; without it, when every mnx id is None. */
  function Signature(sp: seq<Species>, includeStoichiometry: bool, excludePromiscuous: bool,
                     includeDirectionality: bool, fmt: real -> string): Option<string>
  {
    if Uninformative(sp, excludePromiscuous, fmt) then None
    else Finish(SignatureTerms(sp, includeStoichiometry, includeDirectionality, fmt))
  }

  /** Every mnx id of the species is promiscuous or None (with `excludePromiscuous`), or None
      (without it): the source returns None before building any term. */
  predicate Uninformative(sp: seq<Species>, excludePromiscuous: bool, fmt: real -> string)
  {
    var ids := set x | x in Terms(sp, MnxIds, fmt);
    if excludePromiscuous then ids <= PromiscuousMetabolites.Values else ids <= {None}
  }

  /** The terms of two lists of species, one after the other. */
  lemma {:induction false} TermsAppend(a: seq<Species>, b: seq<Species>, k: TermKind, fmt: real -> string)
    ensures Terms(a + b, k, fmt) == Terms(a, k, fmt) + Terms(b, k, fmt)
    decreases |a|
  {
    if a != [] {
      assert (a + b)[0] == a[0] && (a + b)[1..] == a[1..] + b;
      TermsAppend(a[1..], b, k, fmt);
    } else {
      assert a + b == b;
    }
  }

  /** The terms of a list of species that starts with `x`. */
  lemma {:induction false} TermsCons(x: Species, rest: seq<Species>, k: TermKind, fmt: real -> string)
    ensures Terms([x] + rest, k, fmt) == TermOf(x, k, fmt) + Terms(rest, k, fmt)
  {
    assert ([x] + rest)[0] == x && ([x] + rest)[1..] == rest;
  }

  /** Moving a block out of the middle of a list keeps its multiset. */
  lemma Splice<T>(p: seq<T>, x: seq<T>, q: seq<T>)
    ensures multiset(p + (x + q)) == multiset(p + q) + multiset(x)
  {
    assert p + (x + q) == p + x + q;
  }

  /** Concatenation in either order has the same multiset. */
  lemma Swap<T>(x: seq<T>, y: seq<T>)
    ensures multiset(x + y) == multiset(y) + multiset(x)
  {
  }

  /** Taking the element at `i` out of a list. */
  lemma RemoveAt<T>(s: seq<T>, i: nat)
    requires i < |s|
    ensures s == s[..i] + ([s[i]] + s[i + 1..])
    ensures multiset(s[..i] + s[i + 1..]) == multiset(s) - multiset{s[i]}
  {
    assert s == s[..i] + ([s[i]] + s[i + 1..]);
  }

  /** Species listed in another order give the same terms in another order. */
  lemma {:induction false} TermsPerm(a: seq<Species>, b: seq<Species>, k: TermKind, fmt: real -> string)
    requires multiset(a) == multiset(b)
    ensures multiset(Terms(a, k, fmt)) == multiset(Terms(b, k, fmt))
    decreases |a|
  {
    assert |a| == |multiset(a)| == |multiset(b)| == |b|;
    if a != [] {
      var x := a[0];
      assert x in multiset(b);
      var i :| 0 <= i < |b| && b[i] == x;
      var before, after := b[..i], b[i + 1..];
      RemoveAt(b, i);
      RemoveAt(a, 0);
      assert a[..0] == [];
      TermsPerm(a[1..], before + after, k, fmt);
      var tx, p, q := TermOf(x, k, fmt), Terms(before, k, fmt), Terms(after, k, fmt);
      TermsCons(x, after, k, fmt);
      TermsCons(x, a[1..], k, fmt);
      TermsAppend(before, [x] + after, k, fmt);
      TermsAppend(before, after, k, fmt);
      var tb, tr, ta, ta1 := Terms(b, k, fmt), Terms(before + after, k, fmt), Terms(a, k, fmt), Terms(a[1..], k, fmt);
      assert tb == p + (tx + q);
      assert tr == p + q;
      assert ta == tx + ta1;
      Splice(p, tx, q);
      assert multiset(tb) == multiset(tr) + multiset(tx);
      Swap(tx, ta1);
      assert multiset(ta) == multiset(ta1) + multiset(tx);
    }
  }

  /** How often a str is among the terms. */
  lemma {:induction false} TextsCount(l: seq<Option<string>>)
    ensures forall t :: Texts(l)[t] == multiset(l)[Some(t)]
    decreases |l|
  {
    if l != [] {
      TextsCount(l[1..]);
      assert l == [l[0]] + l[1..];
    }
  }

  /** The end of the signature sees only which terms there are, not their order. */
  lemma {:induction false} FinishPerm(l: seq<Option<string>>, m: seq<Option<string>>)
    requires multiset(l) == multiset(m)
    ensures Finish(l) == Finish(m)
  {
    assert |l| == |multiset(l)| == |multiset(m)| == |m|;
    assert forall x :: x in l <==> x in m by {
      forall x
        ensures x in l <==> x in m
      {
        assert x in l <==> x in multiset(l);
        assert x in m <==> x in multiset(m);
      }
    }
    TextsCount(l);
    TextsCount(m);
    assert Texts(l) == Texts(m);
  }

  /** The signature does not depend on the order in which the reaction lists its species. */
  lemma {:induction false} SignatureOrderFree(a: seq<Species>, b: seq<Species>, includeStoichiometry: bool,
                                              excludePromiscuous: bool, includeDirectionality: bool, fmt: real -> string)
    requires multiset(a) == multiset(b)
    ensures Signature(a, includeStoichiometry, excludePromiscuous, includeDirectionality, fmt)
         == Signature(b, includeStoichiometry, excludePromiscuous, includeDirectionality, fmt)
  {
    UninformativePerm(a, b, excludePromiscuous, fmt);
    SignatureTermsPerm(a, b, includeStoichiometry, includeDirectionality, fmt);
    FinishPerm(SignatureTerms(a, includeStoichiometry, includeDirectionality, fmt),
               SignatureTerms(b, includeStoichiometry, includeDirectionality, fmt));
  }

  /** Whether the species are uninformative does not depend on their order. */
  lemma {:induction false} UninformativePerm(a: seq<Species>, b: seq<Species>, excludePromiscuous: bool,
                                             fmt: real -> string)
    requires multiset(a) == multiset(b)
    ensures Uninformative(a, excludePromiscuous, fmt) == Uninformative(b, excludePromiscuous, fmt)
  {
    TermsPerm(a, b, MnxIds, fmt);
    var ia, ib := Terms(a, MnxIds, fmt), Terms(b, MnxIds, fmt);
    assert (set x | x in ia) == (set x | x in ib) by {
      forall x
        ensures x in ia <==> x in ib
      {
        assert x in ia <==> x in multiset(ia);
        assert x in ib <==> x in multiset(ib);
      }
    }
  }

  /** The terms before sorting, for species in another order, are the same terms in another
      order. */
  lemma {:induction false} SignatureTermsPerm(a: seq<Species>, b: seq<Species>, includeStoichiometry: bool,
                                              includeDirectionality: bool, fmt: real -> string)
    requires multiset(a) == multiset(b)
    ensures multiset(SignatureTerms(a, includeStoichiometry, includeDirectionality, fmt))
         == multiset(SignatureTerms(b, includeStoichiometry, includeDirectionality, fmt))
  {
    if includeStoichiometry {
      TermsPerm(a, b, Stoichiometric(includeDirectionality), fmt);
    } else if includeDirectionality {
      TermsPerm(a, b, Reactants, fmt);
      TermsPerm(a, b, Products, fmt);
      Swap(Terms(a, Products, fmt), Terms(a, Reactants, fmt));
      Swap(Terms(b, Products, fmt), Terms(b, Reactants, fmt));
    } else {
      TermsPerm(a, b, MnxIds, fmt);
    }
  }

  /** Only the list of mnx ids can hold None. */
  lemma {:induction false} TermsSome(sp: seq<Species>, k: TermKind, fmt: real -> string)
    requires !k.MnxIds?
    ensures forall t :: t in Terms(sp, k, fmt) ==> t.Some?
    decreases |sp|
  {
    if sp != [] {
      TermsSome(sp[1..], k, fmt);
    }
  }

  /** There is no signature exactly when the species are uninformative or give no term at all
      (a reaction whose species all have a coefficient of one sign, say, has no reactant terms
      but still product terms). */
  lemma {:induction false} SignatureNone(sp: seq<Species>, includeStoichiometry: bool, excludePromiscuous: bool,
                                         includeDirectionality: bool, fmt: real -> string)
    ensures Signature(sp, includeStoichiometry, excludePromiscuous, includeDirectionality, fmt) == None
        <==> Uninformative(sp, excludePromiscuous, fmt)
             || |SignatureTerms(sp, includeStoichiometry, includeDirectionality, fmt)| == 0
  {
    var l := SignatureTerms(sp, includeStoichiometry, includeDirectionality, fmt);
    assert Signature(sp, includeStoichiometry, excludePromiscuous, includeDirectionality, fmt)
        == if Uninformative(sp, excludePromiscuous, fmt) then None else Finish(l);
    if !Uninformative(sp, excludePromiscuous, fmt) && |l| > 0 {
      var y := InformativeTerm(sp, includeStoichiometry, excludePromiscuous, includeDirectionality, fmt);
      FinishSome(l, y);
    }
  }

  /** A list with a str term finishes as a signature. */
  lemma FinishSome(l: seq<Option<string>>, y: Option<string>)
    requires y in l && y.Some?
    ensures Finish(l).Some?
  {
  }

  /** Species that are not uninformative give a str term, if they give any term. */
  lemma {:induction false} InformativeTerm(sp: seq<Species>, includeStoichiometry: bool, excludePromiscuous: bool,
                                           includeDirectionality: bool, fmt: real -> string) returns (y: Option<string>)
    requires !Uninformative(sp, excludePromiscuous, fmt)
    requires |SignatureTerms(sp, includeStoichiometry, includeDirectionality, fmt)| > 0
    ensures y in SignatureTerms(sp, includeStoichiometry, includeDirectionality, fmt) && y.Some?
  {
    var l := SignatureTerms(sp, includeStoichiometry, includeDirectionality, fmt);
    if includeStoichiometry {
      TermsSome(sp, Stoichiometric(includeDirectionality), fmt);
      y := l[0];
    } else if includeDirectionality {
      TermsSome(sp, Reactants, fmt);
      TermsSome(sp, Products, fmt);
      y := l[0];
    } else {
      var ids := set x | x in l;
      assert None in PromiscuousMetabolites.Values by {
        assert PromiscuousMetabolites["None"] == None;
      }
      y :| y in ids && y != None;
    }
  }

  /** Each coefficient multiplied by `k`. */
  function Scaled(sp: seq<Species>, k: real): (r: seq<Species>)
    ensures |r| == |sp|
    ensures forall i :: 0 <= i < |sp| ==> r[i] == Species(sp[i].mnx, k * sp[i].coefficient)
  {
    seq(|sp|, i requires 0 <= i < |sp| => Species(sp[i].mnx, k * sp[i].coefficient))
  }

  /** Species lists that agree term by term give the same list of terms. */
  lemma {:induction false} TermsPointwise(a: seq<Species>, b: seq<Species>, k: TermKind, fmt: real -> string)
    requires |a| == |b| && forall i :: 0 <= i < |a| ==> TermOf(a[i], k, fmt) == TermOf(b[i], k, fmt)
    ensures Terms(a, k, fmt) == Terms(b, k, fmt)
    decreases |a|
  {
    if a != [] {
      assert TermOf(a[0], k, fmt) == TermOf(b[0], k, fmt);
      TermsPointwise(a[1..], b[1..], k, fmt);
    }
  }

  /** A positive multiple keeps the sign of each coefficient. */
  lemma SignKept(c: real, k: real)
    requires k > 0.0
    ensures (k * c < 0.0 <==> c < 0.0) && (k * c > 0.0 <==> c > 0.0)
  {
    if c < 0.0 {
      assert k * c < k * 0.0;
    } else if c > 0.0 {
      assert k * c > k * 0.0;
    }
  }

  /** Without stoichiometry the signature sees only the direction in which each species takes
      part, so multiplying the reaction by a positive factor leaves it unchanged. */
  lemma {:induction false} SignatureScaleFree(sp: seq<Species>, k: real, excludePromiscuous: bool,
                                              includeDirectionality: bool, fmt: real -> string)
    requires k > 0.0
    ensures Signature(Scaled(sp, k), false, excludePromiscuous, includeDirectionality, fmt)
         == Signature(sp, false, excludePromiscuous, includeDirectionality, fmt)
  {
    var t := Scaled(sp, k);
    forall i | 0 <= i < |sp|
      ensures TermOf(t[i], Reactants, fmt) == TermOf(sp[i], Reactants, fmt)
      ensures TermOf(t[i], Products, fmt) == TermOf(sp[i], Products, fmt)
      ensures TermOf(t[i], MnxIds, fmt) == TermOf(sp[i], MnxIds, fmt)
    {
      SignKept(sp[i].coefficient, k);
    }
    TermsPointwise(t, sp, Reactants, fmt);
    TermsPointwise(t, sp, Products, fmt);
    TermsPointwise(t, sp, MnxIds, fmt);
  }

  /** Without directionality the signature is the same for a reaction and its reverse. */
  lemma {:induction false} SignatureReversal(sp: seq<Species>, includeStoichiometry: bool, excludePromiscuous: bool,
                                             fmt: real -> string)
    ensures Signature(Scaled(sp, -1.0), includeStoichiometry, excludePromiscuous, false, fmt)
         == Signature(sp, includeStoichiometry, excludePromiscuous, false, fmt)
  {
    var t := Scaled(sp, -1.0);
    forall i | 0 <= i < |sp|
      ensures TermOf(t[i], Stoichiometric(false), fmt) == TermOf(sp[i], Stoichiometric(false), fmt)
      ensures TermOf(t[i], MnxIds, fmt) == TermOf(sp[i], MnxIds, fmt)
    {
      assert Stoichiometry.Abs(-1.0 * sp[i].coefficient) == Stoichiometry.Abs(sp[i].coefficient);
    }
    TermsPointwise(t, sp, Stoichiometric(false), fmt);
    TermsPointwise(t, sp, MnxIds, fmt);
  }

  // ---------------------------------------------------------------------------
  // Signatures of the reactions of a model (`reaction.species`, `get_coefficients`)
  // ---------------------------------------------------------------------------

  /** What a reaction says about each of its metabolites: its mnx id and its coefficient. */
  ghost function View(r: Reaction): (v: map<Metabolite, Species>)
    reads r, r.metabolites.Keys
    ensures v.Keys == r.metabolites.Keys
  {
    map m | m in r.metabolites :: Species(m.mnxId, r.metabolites[m])
  }

  /** The species of `order`, as `view` describes them. */
  function Project(order: seq<Metabolite>, view: map<Metabolite, Species>): (sp: seq<Species>)
    requires forall m :: m in order ==> m in view
    ensures |sp| == |order| && forall i :: 0 <= i < |order| ==> sp[i] == view[order[i]]
    decreases |order|
  {
    if order == [] then [] else Project(order[..|order| - 1], view) + [view[order[|order| - 1]]]
  }

  /** The species of two listings, one after the other. */
  lemma ProjectAppend(a: seq<Metabolite>, b: seq<Metabolite>, view: map<Metabolite, Species>)
    requires forall m :: m in a + b ==> m in view
    ensures Project(a + b, view) == Project(a, view) + Project(b, view)
  {
    assert forall m :: m in a ==> m in a + b;
    assert forall m :: m in b ==> m in a + b;
  }

  /** Two listings of the same metabolites give the same species in another order. */
  lemma {:induction false} ProjectPerm(a: seq<Metabolite>, b: seq<Metabolite>, view: map<Metabolite, Species>)
    requires forall m :: m in a ==> m in view
    requires forall m :: m in b ==> m in view
    requires multiset(a) == multiset(b)
    ensures multiset(Project(a, view)) == multiset(Project(b, view))
    decreases |a|
  {
    assert |a| == |multiset(a)| == |multiset(b)| == |b|;
    if a != [] {
      var n := |a| - 1;
      var x := a[n];
      assert x in multiset(b);
      var i :| 0 <= i < |b| && b[i] == x;
      RemoveAt(b, i);
      var p, q := b[..i], b[i + 1..];
      assert a == a[..n] + [x];
      assert multiset(a[..n]) == multiset(a) - multiset{x};
      ProjectPerm(a[..n], p + q, view);
      ProjectAppend(a[..n], [x], view);
      ProjectAppend(p, [x] + q, view);
      ProjectAppend([x], q, view);
      ProjectAppend(p, q, view);
      var pp, pq, px := Project(p, view), Project(q, view), Project([x], view);
      Splice(pp, px, pq);
      Swap(Project(a[..n], view), px);
    }
  }

  /** Some listing of a set of metabolites: the order of a Python dict is not modelled, and
      nothing below depends on it. */
  ghost function Enumeration(s: set<Metabolite>): (r: seq<Metabolite>)
    ensures multiset(r) == multiset(s)
    ensures forall m | m in r :: m in s
    decreases |s|
  {
    if s == {} then []
    else
      var m :| m in s;
      assert multiset(s) == multiset(s - {m}) + multiset{m};
      Enumeration(s - {m}) + [m]
  }

  /** `generate_mnx_reaction_signature(reaction, ...)` of a reaction in the heap; the species
      are the metabolites of the reaction, `mnx_id` is `mnxId`. */
  ghost function ReactionSignature(r: Reaction, includeStoichiometry: bool, excludePromiscuous: bool,
                                   includeDirectionality: bool, fmt: real -> string): Option<string>
    reads r, r.metabolites.Keys
  {
    var view := View(r);
    Signature(Project(Enumeration(r.metabolites.Keys), view), includeStoichiometry, excludePromiscuous,
              includeDirectionality, fmt)
  }

  /** `generate_mnx_reaction_signature`: the species are visited in whatever order the
      reaction's dict yields them, and the result is the same whatever that order is. */
  method MnxSignature(r: Reaction, includeStoichiometry: bool, excludePromiscuous: bool,
                      includeDirectionality: bool, fmt: real -> string) returns (sig: Option<string>)
    ensures sig == ReactionSignature(r, includeStoichiometry, excludePromiscuous, includeDirectionality, fmt)
  {
    ghost var view := View(r);
    ghost var order: seq<Metabolite> := [];
    var sp: seq<Species> := [];
    var rest := r.metabolites.Keys;
    while rest != {}
      invariant rest <= r.metabolites.Keys
      invariant multiset(order) + multiset(rest) == multiset(r.metabolites.Keys)
      invariant forall m :: m in order ==> m in view
      invariant sp == Project(order, view)
      decreases |rest|
    {
      var m :| m in rest;
      assert multiset(rest) == multiset(rest - {m}) + multiset{m};
      sp := sp + [Species(m.mnxId, r.metabolites[m])];
      order := order + [m];
      rest := rest - {m};
    }
    AnyOrder(r, order, includeStoichiometry, excludePromiscuous, includeDirectionality, fmt);
    sig := Signature(sp, includeStoichiometry, excludePromiscuous, includeDirectionality, fmt);
  }

  /** Visiting the species of `r` in any order gives its signature. */
  lemma AnyOrder(r: Reaction, order: seq<Metabolite>, includeStoichiometry: bool, excludePromiscuous: bool,
                 includeDirectionality: bool, fmt: real -> string)
    requires multiset(order) == multiset(r.metabolites.Keys)
    requires forall m :: m in order ==> m in View(r)
    ensures Signature(Project(order, View(r)), includeStoichiometry, excludePromiscuous, includeDirectionality, fmt)
            == ReactionSignature(r, includeStoichiometry, excludePromiscuous, includeDirectionality, fmt)
  {
    var view := View(r);
    ProjectPerm(order, Enumeration(r.metabolites.Keys), view);
    SignatureOrderFree(Project(order, view), Project(Enumeration(r.metabolites.Keys), view), includeStoichiometry,
                       excludePromiscuous, includeDirectionality, fmt);
  }

  // ---------------------------------------------------------------------------
  // Grouping objects by the signatures of their reactions (`generate_mnx_reaction_signatures`)
  // ---------------------------------------------------------------------------

  /** The reactions among `rs` whose signature, with the default flags, is `s`. */
  ghost function Hits(rs: set<Reaction>, s: string, fmt: real -> string): set<Reaction>
    reads rs, set r, m | r in rs && m in r.metabolites :: m
  {
    set r | r in rs && ReactionSignature(r, true, true, true, fmt) == Some(s)
  }

  /** The group of signature `s`: each object once per reaction of it with that signature, in
      the order of the objects. */
  ghost function GroupOf(objects: seq<Complex>, s: string, fmt: real -> string): seq<Complex>
    reads set o | o in objects
    reads set o, r | o in objects && r in o.reactions :: r
    reads set o, r, m | o in objects && r in o.reactions && m in r.metabolites :: m
    decreases |objects|
  {
    if objects == [] then []
    else
      var o := objects[|objects| - 1];
      GroupOf(objects[..|objects| - 1], s, fmt) + Repeat(o, |Hits(o.reactions, s, fmt)|)
  }

  /** The list a defaultdict(list) holds for `s`. */
  function Get(groups: map<string, seq<Complex>>, s: string): seq<Complex>
  {
    if s in groups then groups[s] else []
  }

  /** The reactions among `done` whose signature, as `sigs` records it, is `s`. */
  function HitsIn(sigs: map<Reaction, Option<string>>, done: set<Reaction>, s: string): set<Reaction>
  {
    set r | r in done && r in sigs && sigs[r] == Some(s)
  }

  /** Adding one more reaction to those looked at adds it to the hits of its own signature
      and of no other. */
  lemma HitsInAdd(sigs: map<Reaction, Option<string>>, r: Reaction, sig: Option<string>, s: string)
    requires r !in sigs
    ensures |HitsIn(sigs[r := sig], sigs.Keys + {r}, s)| == |HitsIn(sigs, sigs.Keys, s)| + if sig == Some(s) then 1 else 0
  {
    if sig == Some(s) {
      assert HitsIn(sigs[r := sig], sigs.Keys + {r}, s) == HitsIn(sigs, sigs.Keys, s) + {r};
    } else {
      assert HitsIn(sigs[r := sig], sigs.Keys + {r}, s) == HitsIn(sigs, sigs.Keys, s);
    }
  }

  /** Appending `o` to the list of `k` changes no other list. */
  lemma AppendAt(groups: map<string, seq<Complex>>, k: string, o: Complex, s: string)
    ensures Get(groups[k := Get(groups, k) + [o]], s) == Get(groups, s) + if s == k then [o] else []
  {
  }

  /** Moving one element from the sets still to visit to those visited. */
  lemma MoveOne<T>(rest: set<T>, done: set<T>, all: set<T>, x: T)
    requires rest + done == all && rest !! done && x in rest
    ensures (rest - {x}) + (done + {x}) == all && (rest - {x}) !! (done + {x})
  {
  }

  /** The keys of an updated map. */
  lemma KeysUpdate<K, V>(m: map<K, V>, k: K, v: V)
    ensures m[k := v].Keys == m.Keys + {k}
  {
  }

  /** Appending to a list keeps every list non-empty. */
  lemma NoEmptyAppend(groups: map<string, seq<Complex>>, k: string, o: Complex)
    requires NoEmptyGroup(groups)
    ensures NoEmptyGroup(groups[k := Get(groups, k) + [o]])
  {
  }

  /** One more copy at the end. */
  lemma RepeatMore<T>(x: T, n: nat)
    ensures Repeat(x, n) + [x] == Repeat(x, n + 1)
  {
  }

  /** One more object at the end of the list. */
  lemma GroupOfSnoc(objects: seq<Complex>, i: nat, s: string, fmt: real -> string)
    requires i < |objects|
    ensures GroupOf(objects[..i + 1], s, fmt)
         == GroupOf(objects[..i], s, fmt) + Repeat(objects[i], |Hits(objects[i].reactions, s, fmt)|)
  {
    assert objects[..i + 1][..i] == objects[..i];
  }

  /** `groups` holds, for each signature, the objects as `GroupOf` lists them. */
  ghost predicate Grouped(groups: map<string, seq<Complex>>, objects: seq<Complex>, fmt: real -> string)
    reads set o | o in objects
    reads set o, r | o in objects && r in o.reactions :: r
    reads set o, r, m | o in objects && r in o.reactions && m in r.metabolites :: m
  {
    forall s :: Get(groups, s) == GroupOf(objects, s, fmt)
  }

  /** No signature holds an empty list. */
  predicate NoEmptyGroup(groups: map<string, seq<Complex>>)
  {
    forall s | s in groups :: groups[s] != []
  }

  /** `after` is `groups` with `o` appended once per reaction of `o` to the list of that
      reaction's signature. */
  ghost predicate AddedObject(groups: map<string, seq<Complex>>, after: map<string, seq<Complex>>, o: Complex,
                              fmt: real -> string)
    reads o, o.reactions, set r, m | r in o.reactions && m in r.metabolites :: m
  {
    forall s :: Get(after, s) == Get(groups, s) + Repeat(o, |Hits(o.reactions, s, fmt)|)
  }

  /** The outer loop keeps `Grouped` for one more object. */
  lemma {:induction false} GroupedStep(groups: map<string, seq<Complex>>, after: map<string, seq<Complex>>,
                                       objects: seq<Complex>, i: nat, fmt: real -> string)
    requires i < |objects|
    requires Grouped(groups, objects[..i], fmt) && AddedObject(groups, after, objects[i], fmt)
    ensures Grouped(after, objects[..i + 1], fmt)
  {
    forall s
      ensures Get(after, s) == GroupOf(objects[..i + 1], s, fmt)
    {
      GroupOfSnoc(objects, i, s, fmt);
    }
  }

  /** `generate_mnx_reaction_signatures(object_list)`: for each object, in order, and each of
      its reactions, the object is appended to the list of the reaction's signature (with the
      default flags); reactions without a signature are skipped. Only signatures that occur
      get a list. */
  method GroupBySignatures(objects: seq<Complex>, fmt: real -> string) returns (groups: map<string, seq<Complex>>)
    ensures Grouped(groups, objects, fmt) && NoEmptyGroup(groups)
  {
    groups := map[];
    for i := 0 to |objects|
      invariant Grouped(groups, objects[..i], fmt) && NoEmptyGroup(groups)
    {
      var after := AddObject(groups, objects[i], fmt);
      GroupedStep(groups, after, objects, i, fmt);
      groups := after;
    }
    assert objects[..|objects|] == objects;
  }

  /** The hits recorded in `sigs`, for reactions looked at in some order, reached through
      `depth` unfoldings (as for `SignedBy`). */
  ghost predicate Tallied(groups: map<string, seq<Complex>>, after: map<string, seq<Complex>>, o: Complex,
                          sigs: map<Reaction, Option<string>>, depth: nat)
    decreases depth
  {
    if depth == 0 then forall s :: Get(after, s) == Get(groups, s) + Repeat(o, |HitsIn(sigs, sigs.Keys, s)|)
    else Tallied(groups, after, o, sigs, depth - 1)
  }

  lemma {:induction false} TalliedDepth(groups: map<string, seq<Complex>>, after: map<string, seq<Complex>>,
                                        o: Complex, sigs: map<Reaction, Option<string>>, depth: nat)
    ensures Tallied(groups, after, o, sigs, depth) == Tallied(groups, after, o, sigs, 0)
    decreases depth
  {
    if depth > 0 {
      TalliedDepth(groups, after, o, sigs, depth - 1);
    }
  }

  /** Recording one more reaction keeps `Tallied`, appending `o` to the list of its signature. */
  lemma {:induction false} TalliedStep(groups: map<string, seq<Complex>>, after: map<string, seq<Complex>>,
                                       o: Complex, sigs: map<Reaction, Option<string>>, r: Reaction,
                                       sig: Option<string>)
    requires Tallied(groups, after, o, sigs, 3) && r !in sigs
    ensures sig.Some? ==> Tallied(groups, after[sig.value := Get(after, sig.value) + [o]], o, sigs[r := sig], 3)
    ensures sig.None? ==> Tallied(groups, after, o, sigs[r := sig], 3)
  {
    var next := if sig.Some? then after[sig.value := Get(after, sig.value) + [o]] else after;
    var sigs' := sigs[r := sig];
    TalliedDepth(groups, after, o, sigs, 3);
    TalliedDepth(groups, next, o, sigs', 3);
    assert sigs'.Keys == sigs.Keys + {r};
    forall s
      ensures Get(next, s) == Get(groups, s) + Repeat(o, |HitsIn(sigs', sigs'.Keys, s)|)
    {
      TalliedAt(groups, after, o, sigs, r, sig, s);
    }
  }

  /** `TalliedStep` at one signature `s`. */
  lemma {:induction false} TalliedAt(groups: map<string, seq<Complex>>, after: map<string, seq<Complex>>,
                                     o: Complex, sigs: map<Reaction, Option<string>>, r: Reaction,
                                     sig: Option<string>, s: string)
    requires r !in sigs
    requires Get(after, s) == Get(groups, s) + Repeat(o, |HitsIn(sigs, sigs.Keys, s)|)
    ensures var next := if sig.Some? then after[sig.value := Get(after, sig.value) + [o]] else after;
      Get(next, s) == Get(groups, s) + Repeat(o, |HitsIn(sigs[r := sig], sigs.Keys + {r}, s)|)
  {
    var n := |HitsIn(sigs, sigs.Keys, s)|;
    HitsInAdd(sigs, r, sig, s);
    if sig == Some(s) {
      AppendAt(after, s, o, s);
      RepeatMore(o, n);
      assert Get(groups, s) + Repeat(o, n) + [o] == Get(groups, s) + Repeat(o, n + 1);
    } else if sig.Some? {
      AppendAt(after, sig.value, o, s);
    }
  }

  /** Once every reaction of `o` is recorded with its signature, the recorded hits are the
      hits. */
  lemma TalliedAll(groups: map<string, seq<Complex>>, after: map<string, seq<Complex>>, o: Complex,
                   sigs: map<Reaction, Option<string>>, fmt: real -> string)
    requires sigs.Keys == o.reactions
    requires forall r | r in sigs :: SignedBy(r, sigs[r], fmt, 3)
    requires Tallied(groups, after, o, sigs, 3)
    ensures AddedObject(groups, after, o, fmt)
  {
    TalliedDepth(groups, after, o, sigs, 3);
    forall r | r in sigs
      ensures sigs[r] == ReactionSignature(r, true, true, true, fmt)
    {
      SignedByElim(r, sigs[r], fmt, 3);
    }
    forall s
      ensures HitsIn(sigs, o.reactions, s) == Hits(o.reactions, s, fmt)
    {
    }
  }

  /** `sig` is the signature of `r` with the default flags, reached through `depth`
      unfoldings: a method that holds this fact for many reactions does not expand every
      signature. `DefaultSignature` establishes it, `SignedByElim` reads it back. */
  ghost predicate SignedBy(r: Reaction, sig: Option<string>, fmt: real -> string, depth: nat)
    reads r, r.metabolites.Keys
    decreases depth
  {
    if depth == 0 then sig == ReactionSignature(r, true, true, true, fmt) else SignedBy(r, sig, fmt, depth - 1)
  }

  lemma {:induction false} SignedByElim(r: Reaction, sig: Option<string>, fmt: real -> string, depth: nat)
    requires SignedBy(r, sig, fmt, depth)
    ensures sig == ReactionSignature(r, true, true, true, fmt)
    decreases depth
  {
    if depth > 0 {
      SignedByElim(r, sig, fmt, depth - 1);
    }
  }

  /** `generate_mnx_reaction_signature(reaction)` with its default flags: stoichiometry
      included, promiscuous metabolites excluded, directionality included. */
  method DefaultSignature(r: Reaction, fmt: real -> string) returns (sig: Option<string>)
    ensures SignedBy(r, sig, fmt, 3)
  {
    sig := MnxSignature(r, true, true, true, fmt);
    assert SignedBy(r, sig, fmt, 0);
    assert SignedBy(r, sig, fmt, 1);
    assert SignedBy(r, sig, fmt, 2);
  }

  /** The inner loop of `generate_mnx_reaction_signatures`: `o` is appended once for each of
      its reactions to the list of that reaction's signature. */
  method AddObject(groups: map<string, seq<Complex>>, o: Complex, fmt: real -> string)
    returns (after: map<string, seq<Complex>>)
    requires NoEmptyGroup(groups)
    ensures AddedObject(groups, after, o, fmt) && NoEmptyGroup(after)
  {
    ghost var sigs;
    after, sigs := Tally(groups, o, o.reactions, fmt);
    TalliedAll(groups, after, o, sigs, fmt);
  }

  /** The loop of `AddObject` over the reactions `all` of `o`, recording the signature of each
      reaction it looks at. */
  method Tally(groups: map<string, seq<Complex>>, o: Complex, all: set<Reaction>, fmt: real -> string)
    returns (after: map<string, seq<Complex>>, ghost sigs: map<Reaction, Option<string>>)
    requires NoEmptyGroup(groups)
    ensures sigs.Keys == all && forall r | r in sigs :: SignedBy(r, sigs[r], fmt, 3)
    ensures Tallied(groups, after, o, sigs, 3) && NoEmptyGroup(after)
  {
    sigs := map[];
    after := groups;
    TalliedDepth(groups, after, o, sigs, 3);
    var rest := all;
    while rest != {}
      invariant rest + sigs.Keys == all && rest !! sigs.Keys
      invariant forall r {:trigger SignedBy(r, sigs[r], fmt, 3)} | r in sigs :: SignedBy(r, sigs[r], fmt, 3)
      invariant Tallied(groups, after, o, sigs, 3) && NoEmptyGroup(after)
      decreases |rest|
    {
      var r :| r in rest;
      var sig;
      ghost var before := sigs;
      sig, sigs := SignNext(sigs, r, fmt);
      TalliedStep(groups, after, o, before, r, sig);
      if sig.Some? {
        NoEmptyAppend(after, sig.value, o);
        after := after[sig.value := Get(after, sig.value) + [o]];
      }
      MoveOne(rest, before.Keys, all, r);
      rest := rest - {r};
    }
  }

  /** The signature of one more reaction `r`, recorded in `sigs`. */
  method SignNext(ghost sigs: map<Reaction, Option<string>>, r: Reaction, fmt: real -> string)
    returns (sig: Option<string>, ghost sigs': map<Reaction, Option<string>>)
    requires forall x {:trigger SignedBy(x, sigs[x], fmt, 3)} | x in sigs :: SignedBy(x, sigs[x], fmt, 3)
    ensures SignedBy(r, sig, fmt, 3)
    ensures sigs' == sigs[r := sig] && sigs'.Keys == sigs.Keys + {r}
    ensures forall x {:trigger SignedBy(x, sigs'[x], fmt, 3)} | x in sigs' :: SignedBy(x, sigs'[x], fmt, 3)
  {
    sig := DefaultSignature(r, fmt);
    KeysUpdate(sigs, r, sig);
    sigs' := sigs[r := sig];
    forall x | x in sigs'
      ensures SignedBy(x, sigs'[x], fmt, 3)
    {
      if x != r {
        assert SignedBy(x, sigs[x], fmt, 3);
      }
    }
  }

  // ---------------------------------------------------------------------------
  // Identifiers looked up in the cross-reference tables (`map_object_to_metanetx`,
  // `map_id_to_metanetx`)
  // ---------------------------------------------------------------------------

  /** The id an object is looked up by: its id without a trailing `_<compartment>` when it
      has a compartment and the id ends that way, otherwise the id itself. */
  function MappingId(id: string, compartment: Option<string>): (r: string)
    ensures StartsWith(id, r)
    ensures r == id <==> !(compartment.Some? && EndsWith(id, "_" + compartment.value))
    ensures r != id ==> id == r + "_" + compartment.value
  {
    if compartment.Some? && EndsWith(id, "_" + compartment.value) then id[..|id| - |compartment.value| - 1]
    else id
  }

  /** Stripping the suffix undoes appending it. */
  lemma MappingIdStrips(base: string, c: string)
    ensures MappingId(base + "_" + c, Some(c)) == base
  {
    var id := base + "_" + c;
    assert id[|id| - |"_" + c|..] == "_" + c;
    assert id[..|id| - |c| - 1] == base;
  }

  /** A bigg id spells `-` as `__` or `_DASH_`; the cross-reference table spells it `-`. */
  function BiggToXref(id: string): string
  {
    Replace(Replace(id, "__", "-"), "_DASH_", "-")
  }

  /** The normalised id spells `-` only as `-`. */
  lemma {:induction false} BiggNormal(id: string)
    ensures !Occurs(BiggToXref(id), "__") && !Occurs(BiggToXref(id), "_DASH_")
  {
    var once := Replace(id, "__", "-");
    ReplaceRemoves(id, "__", "-");
    NoNewOccurrence(once, "_DASH_", "-", "__");
    ReplaceRemoves(once, "_DASH_", "-");
  }

  /** An id without `__` and `_DASH_` is its own normal form. */
  lemma {:induction false} BiggUnchanged(id: string)
    requires !Occurs(id, "__") && !Occurs(id, "_DASH_")
    ensures BiggToXref(id) == id
  {
    ReplaceAbsent(id, "__", "-");
    ReplaceAbsent(id, "_DASH_", "-");
  }

  /** Normalising twice is normalising once. */
  lemma {:induction false} BiggIdempotent(id: string)
    ensures BiggToXref(BiggToXref(id)) == BiggToXref(id)
  {
    BiggNormal(id);
    BiggUnchanged(BiggToXref(id));
  }

  /** The cross-reference `<source>:<id>` that `map_id_to_metanetx` queries for: the source
      lowercased, and a bigg id normalised. */
  function XrefKey(id: string, source: string): (key: string)
    ensures StartsWith(key, LowerString(source) + ":")
    ensures LowerString(source) != "bigg" ==> key[|source| + 1..] == id
    ensures LowerString(source) == "bigg" ==>
              !Occurs(key[|source| + 1..], "__") && !Occurs(key[|source| + 1..], "_DASH_")
  {
    var src := LowerString(source);
    BiggNormal(id);
    src + ":" + (if src == "bigg" then BiggToXref(id) else id)
  }

  /** Every spelling of a bigg id queries the same cross-reference as its normal form. */
  lemma {:induction false} XrefKeySpellings(id: string, source: string)
    requires LowerString(source) == "bigg"
    ensures XrefKey(id, source) == XrefKey(BiggToXref(id), source)
  {
    BiggIdempotent(id);
  }

  /** A metabolite whose id carries its compartment as a suffix queries the cross-reference of
      its bare id. */
  lemma {:induction false} ObjectXrefKeyBare(base: string, compartment: string, source: string)
    ensures XrefKey(MappingId(base + "_" + compartment, Some(compartment)), source) == XrefKey(base, source)
  {
    MappingIdStrips(base, compartment);
  }
}
