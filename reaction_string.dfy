/** `Reaction.build_reaction_string`: the reactants sorted (here by id; the source sorts the
    Metabolite objects themselves), each written
    ` + {abs(coefficient)} {id}`, then the arrow, then the products written the same way, and at
    last every leading and trailing space or `+` stripped. The number formatting (`repr`) is the
    parameter `fmt`. */
module ReactionStrings {
  import opened Graph
  import opened Stoichiometry
  import opened Text

  /** The characters `lstrip(' + ')` and `rstrip(' + ')` remove. */
  const PlusChars: set<char> := {' ', '+'}

  /** `x.lstrip(' + ').rstrip(' + ')`. */
  function StripPlus(x: string): string
  {
    RStripChars(LStripChars(x, PlusChars), PlusChars)
  }

  /** `' <=> '` for a reversible reaction, `' <- '` when both bounds allow only the backward
      direction, `' -> '` otherwise. */
  function Arrow(lower: real, upper: real): (a: string)
    ensures a == " <=> " <==> Reversible(lower, upper)
    ensures a == " <- " <==> lower < 0.0 && upper <= 0.0
    ensures a == " -> " <==> lower >= 0.0
  {
    if Reversible(lower, upper) then " <=> "
    else if lower < 0.0 && upper <= 0.0 then " <- "
    else " -> "
  }

  /** The label of a metabolite: its name or its id. */
  function Label(m: Metabolite, useNames: bool): string
    reads m
  {
    if useNames then m.name else m.id
  }

  /** The text of one metabolite, without the ` + ` in front of it. */
  function Bit(s: Stoich, m: Metabolite, fmt: real -> string, useNames: bool, absolute: bool): string
    requires m in s
    reads m
  {
    fmt(if absolute then Abs(s[m]) else s[m]) + " " + Label(m, useNames)
  }

  /** The texts of the given metabolites, in order. */
  function Bits(s: Stoich, ms: seq<Metabolite>, fmt: real -> string, useNames: bool, absolute: bool): (b: seq<string>)
    requires forall i :: 0 <= i < |ms| ==> ms[i] in s
    reads s.Keys
    ensures |b| == |ms|
    decreases |ms|
  {
    if |ms| == 0 then []
    else
      var n := |ms| - 1;
      Bits(s, ms[..n], fmt, useNames, absolute) + [Bit(s, ms[n], fmt, useNames, absolute)]
  }

  /** What the `+=` loop accumulates: ` + ` in front of every text. */
  function Accumulated(bits: seq<string>): string
    decreases |bits|
  {
    if |bits| == 0 then ""
    else Accumulated(bits[..|bits| - 1]) + " + " + bits[|bits| - 1]
  }

  /** The metabolites of one side in increasing order of id. This stands for `list.sort` on the
      Metabolite objects, whose comparison is not part of this model. */
  function Ordered(s: Stoich, side: set<Metabolite>): (ms: seq<Metabolite>)
    requires DistinctMetaboliteIds(s.Keys) && side <= s.Keys
    ensures forall i :: 0 <= i < |ms| ==> ms[i] in side
    ensures forall m :: m in side ==> m in ms
    ensures forall i, j :: 0 <= i < j < |ms| ==> Below(ms[i].id, ms[j].id)
  {
    var ids := SortedSet(set m | m in side :: m.id);
    IndexedIds(s, side);
    LookedUp(ids, IdIndex(s), side);
    Lookup(ids, IdIndex(s))
  }

  /** The metabolites of `index` under the ids `ids`, in order. */
  function Lookup(ids: seq<string>, index: map<string, Metabolite>): seq<Metabolite>
    requires forall i :: 0 <= i < |ids| ==> ids[i] in index
  {
    seq(|ids|, i requires 0 <= i < |ids| => index[ids[i]])
  }

  /** The sorted ids of one side, looked up by id, are the metabolites of that side. */
  lemma IndexedIds(s: Stoich, side: set<Metabolite>)
    requires DistinctMetaboliteIds(s.Keys) && side <= s.Keys
    ensures var ids := SortedSet(set m | m in side :: m.id);
      StrictlySorted(ids) &&
      (forall i :: 0 <= i < |ids| ==> ids[i] in IdIndex(s) && IdIndex(s)[ids[i]] in side && IdIndex(s)[ids[i]].id == ids[i]) &&
      (forall m :: m in side ==> exists i :: 0 <= i < |ids| && ids[i] == m.id && IdIndex(s)[ids[i]] == m)
  {
    var sideIds := set m | m in side :: m.id;
    var ids := SortedSet(sideIds);
    SortedSetElements(sideIds);
    SortedSetSorted(sideIds);
    var index := IdIndex(s);
    forall i | 0 <= i < |ids|
      ensures ids[i] in index && index[ids[i]] in side && index[ids[i]].id == ids[i]
    {
      assert ids[i] in sideIds;
      var m :| m in side && m.id == ids[i];
      assert index[m.id] == m;
    }
    forall m | m in side
      ensures exists i :: 0 <= i < |ids| && ids[i] == m.id && index[ids[i]] == m
    {
      assert m.id in sideIds;
      var i :| 0 <= i < |ids| && ids[i] == m.id;
      assert index[ids[i]] == m;
    }
  }

  /** Looking up sorted ids that name exactly the metabolites of `side` lists `side` in order. */
  lemma LookedUp(ids: seq<string>, index: map<string, Metabolite>, side: set<Metabolite>)
    requires StrictlySorted(ids)
    requires forall i :: 0 <= i < |ids| ==> ids[i] in index && index[ids[i]] in side && index[ids[i]].id == ids[i]
    requires forall m :: m in side ==> exists i :: 0 <= i < |ids| && ids[i] == m.id && index[ids[i]] == m
    ensures var ms := Lookup(ids, index);
      (forall i :: 0 <= i < |ms| ==> ms[i] in side) &&
      (forall m :: m in side ==> m in ms) &&
      (forall i, j :: 0 <= i < j < |ms| ==> Below(ms[i].id, ms[j].id))
  {
    var ms := Lookup(ids, index);
    forall m | m in side
      ensures m in ms
    {
      var i :| 0 <= i < |ids| && ids[i] == m.id && index[ids[i]] == m;
      assert ms[i] == m;
    }
    forall i, j | 0 <= i < j < |ms|
      ensures Below(ms[i].id, ms[j].id)
    {
      assert ms[i].id == ids[i] && ms[j].id == ids[j];
    }
  }

  /** The reaction string as the source builds it. */
  function ReactionString(s: Stoich, lower: real, upper: real, fmt: real -> string, useNames: bool): string
    requires DistinctMetaboliteIds(s.Keys)
    reads s.Keys
  {
    var left := Bits(s, Ordered(s, Reactants(s)), fmt, useNames, true);
    var right := Bits(s, Ordered(s, Products(s)), fmt, useNames, false);
    StripPlus(Accumulated(left) + Arrow(lower, upper) + Accumulated(right))
  }

  /** `build_reaction_string(use_metabolite_names)`. */
  method BuildReactionString(r: Reaction, fmt: real -> string, useNames: bool) returns (str: string)
    requires DistinctMetaboliteIds(r.metabolites.Keys)
    ensures str == ReactionString(r.metabolites, r.lowerBound, r.upperBound, fmt, useNames)
  {
    var s := r.metabolites;
    var reactants := Ordered(s, Reactants(s));
    var products := Ordered(s, Products(s));
    ghost var left := Accumulated(Bits(s, reactants, fmt, useNames, true));
    ghost var right := Accumulated(Bits(s, products, fmt, useNames, false));
    var arrow := Arrow(r.lowerBound, r.upperBound);
    str := AppendSide("", s, reactants, fmt, useNames, true);
    assert str == left;
    str := AppendSide(str + arrow, s, products, fmt, useNames, false);
    assert str == left + arrow + right;
    str := StripPlus(str);
  }

  /** One `for` loop of `build_reaction_string`: `+=` the text of each metabolite in turn. */
  method AppendSide(prefix: string, s: Stoich, ms: seq<Metabolite>, fmt: real -> string, useNames: bool, absolute: bool)
    returns (str: string)
    requires forall i :: 0 <= i < |ms| ==> ms[i] in s
    ensures str == prefix + Accumulated(Bits(s, ms, fmt, useNames, absolute))
  {
    str := prefix;
    ghost var bits := Bits(s, ms, fmt, useNames, absolute);
    var i := 0;
    while i < |ms|
      invariant 0 <= i <= |ms|
      invariant str == prefix + Accumulated(bits[..i])
    {
      var b := Bit(s, ms[i], fmt, useNames, absolute);
      BitAt(s, ms, fmt, useNames, absolute, i);
      AccumulatedNext(bits, i);
      assert str + " + " + b == prefix + Accumulated(bits[..i + 1]);
      str := str + " + " + b;
      i := i + 1;
    }
    assert bits[..i] == bits;
  }

  lemma {:induction false} BitAt(s: Stoich, ms: seq<Metabolite>, fmt: real -> string, useNames: bool, absolute: bool, i: nat)
    requires forall k :: 0 <= k < |ms| ==> ms[k] in s
    requires i < |ms|
    ensures Bits(s, ms, fmt, useNames, absolute)[i] == Bit(s, ms[i], fmt, useNames, absolute)
    decreases |ms|
  {
    var n := |ms| - 1;
    if i < n {
      BitAt(s, ms[..n], fmt, useNames, absolute, i);
    }
  }

  lemma {:induction false} AccumulatedNext(bits: seq<string>, i: nat)
    requires i < |bits|
    ensures Accumulated(bits[..i + 1]) == Accumulated(bits[..i]) + " + " + bits[i]
  {
    assert bits[..i + 1][..i] == bits[..i];
  }

  // ----- The shape of the string -----

  /** A text neither starting nor ending with a space or `+`. */
  predicate Clean(x: string)
  {
    |x| > 0 && x[0] !in PlusChars && x[|x| - 1] !in PlusChars
  }

  /** Every number `fmt` writes for the reaction, and every label, is clean. */
  predicate CleanInputs(s: Stoich, fmt: real -> string, useNames: bool)
    reads s.Keys
  {
    forall m :: m in s ==> Clean(fmt(Abs(s[m]))) && Clean(fmt(s[m])) && Clean(Label(m, useNames))
  }

  lemma {:induction false} BitsClean(s: Stoich, ms: seq<Metabolite>, fmt: real -> string, useNames: bool, absolute: bool)
    requires forall i :: 0 <= i < |ms| ==> ms[i] in s
    requires CleanInputs(s, fmt, useNames)
    ensures forall b :: b in Bits(s, ms, fmt, useNames, absolute) ==> Clean(b)
    decreases |ms|
  {
    if |ms| > 0 {
      var n := |ms| - 1;
      BitsClean(s, ms[..n], fmt, useNames, absolute);
      var m := ms[n];
      var c, l := fmt(if absolute then Abs(s[m]) else s[m]), Label(m, useNames);
      assert Bit(s, m, fmt, useNames, absolute) == c + " " + l;
    }
  }

  /** Joining clean texts gives a clean text. */
  lemma {:induction false} JoinClean(bits: seq<string>, sep: string)
    requires |bits| > 0 && forall b :: b in bits ==> Clean(b)
    ensures Clean(Join(bits, sep))
    decreases |bits|
  {
    if |bits| > 1 {
      JoinClean(bits[1..], sep);
      assert bits[0] in bits;
    }
  }

  /** Joining one more part at the end. */
  lemma {:induction false} JoinSnoc(bits: seq<string>, x: string, sep: string)
    requires |bits| > 0
    ensures Join(bits + [x], sep) == Join(bits, sep) + sep + x
    decreases |bits|
  {
    if |bits| == 1 {
      assert (bits + [x])[1..] == [x];
    } else {
      assert (bits + [x])[1..] == bits[1..] + [x];
      JoinSnoc(bits[1..], x, sep);
    }
  }

  /** The accumulated texts are the texts joined by ` + `, with one more ` + ` in front. */
  lemma {:induction false} AccumulatedJoin(bits: seq<string>)
    requires |bits| > 0
    ensures Accumulated(bits) == " + " + Join(bits, " + ")
    decreases |bits|
  {
    var n := |bits| - 1;
    if n > 0 {
      AccumulatedJoin(bits[..n]);
      JoinSnoc(bits[..n], bits[n], " + ");
      assert bits[..n] + [bits[n]] == bits;
    }
  }

  /** `lstrip(' + ')` drops a leading ` + ` in front of a clean text and nothing more. */
  lemma {:induction false} LStripPlus(x: string)
    requires |x| > 0 && x[0] !in PlusChars
    ensures LStripChars(" + " + x, PlusChars) == x
  {
    var t := " + " + x;
    assert t[0] == ' ' && t[1..] == "+ " + x;
    assert LStripChars(t, PlusChars) == LStripChars("+ " + x, PlusChars);
    var u := "+ " + x;
    assert u[0] == '+' && u[1..] == " " + x;
    assert LStripChars(u, PlusChars) == LStripChars(" " + x, PlusChars);
    var v := " " + x;
    assert v[0] == ' ' && v[1..] == x;
    assert LStripChars(v, PlusChars) == LStripChars(x, PlusChars);
  }

  /** With clean numbers and labels and both sides non-empty, the string is the reactants joined
      by ` + `, the arrow, and then ` + ` once more before the products joined by ` + `: the
      products keep the ` + ` the loop puts in front of the first of them. */
  lemma {:induction false} ReactionStringAsWritten(s: Stoich, lower: real, upper: real, fmt: real -> string, useNames: bool)
    requires DistinctMetaboliteIds(s.Keys) && CleanInputs(s, fmt, useNames)
    requires Reactants(s) != {} && Products(s) != {}
    ensures ReactionString(s, lower, upper, fmt, useNames) ==
      Join(Bits(s, Ordered(s, Reactants(s)), fmt, useNames, true), " + ")
      + Arrow(lower, upper) + " + "
      + Join(Bits(s, Ordered(s, Products(s)), fmt, useNames, false), " + ")
  {
    var lm, rm := Ordered(s, Reactants(s)), Ordered(s, Products(s));
    var mr :| mr in Reactants(s);
    var mp :| mp in Products(s);
    assert mr in lm && mp in rm;
    BitsClean(s, lm, fmt, useNames, true);
    BitsClean(s, rm, fmt, useNames, false);
    StripBothSides(Bits(s, lm, fmt, useNames, true), Arrow(lower, upper), Bits(s, rm, fmt, useNames, false));
  }

  /** The strip of the whole accumulated string, on the texts of the two sides. */
  lemma {:induction false} StripBothSides(left: seq<string>, arrow: string, right: seq<string>)
    requires |left| > 0 && |right| > 0
    requires forall b :: b in left ==> Clean(b)
    requires forall b :: b in right ==> Clean(b)
    ensures StripPlus(Accumulated(left) + arrow + Accumulated(right)) ==
      Join(left, " + ") + arrow + " + " + Join(right, " + ")
  {
    var jl, jr := Join(left, " + "), Join(right, " + ");
    var body := jl + arrow + " + " + jr;
    assert Clean(jl) && Clean(jr) by {
      JoinClean(left, " + ");
      JoinClean(right, " + ");
    }
    assert Accumulated(left) + arrow + Accumulated(right) == " + " + body by {
      AccumulatedJoin(left);
      AccumulatedJoin(right);
    }
    assert LStripChars(" + " + body, PlusChars) == body by {
      LStripPlus(body);
    }
    assert RStripChars(body, PlusChars) == body by {
      assert body[|body| - 1] == jr[|jr| - 1];
    }
  }

  /** The evidently intended string: each side stripped on its own, so that no ` + ` is left next
      to the arrow. */
  function IntendedReactionString(s: Stoich, lower: real, upper: real, fmt: real -> string, useNames: bool): string
    requires DistinctMetaboliteIds(s.Keys)
    reads s.Keys
  {
    var left := Bits(s, Ordered(s, Reactants(s)), fmt, useNames, true);
    var right := Bits(s, Ordered(s, Products(s)), fmt, useNames, false);
    StripPlus(Accumulated(left)) + Arrow(lower, upper) + StripPlus(Accumulated(right))
  }

  /** A stripped side is its texts joined by ` + `. */
  lemma {:induction false} SideJoin(bits: seq<string>)
    requires forall b :: b in bits ==> Clean(b)
    ensures StripPlus(Accumulated(bits)) == Join(bits, " + ")
  {
    if |bits| > 0 {
      AccumulatedJoin(bits);
      JoinClean(bits, " + ");
      LStripPlus(Join(bits, " + "));
    }
  }

  /** With clean numbers and labels, the intended string is the reactants joined by ` + `, the
      arrow, and the products joined by ` + `, whichever side is empty. */
  lemma {:induction false} IntendedReactionStringSides(s: Stoich, lower: real, upper: real, fmt: real -> string, useNames: bool)
    requires DistinctMetaboliteIds(s.Keys) && CleanInputs(s, fmt, useNames)
    ensures IntendedReactionString(s, lower, upper, fmt, useNames) ==
      Join(Bits(s, Ordered(s, Reactants(s)), fmt, useNames, true), " + ")
      + Arrow(lower, upper)
      + Join(Bits(s, Ordered(s, Products(s)), fmt, useNames, false), " + ")
  {
    BitsClean(s, Ordered(s, Reactants(s)), fmt, useNames, true);
    BitsClean(s, Ordered(s, Products(s)), fmt, useNames, false);
    SideJoin(Bits(s, Ordered(s, Reactants(s)), fmt, useNames, true));
    SideJoin(Bits(s, Ordered(s, Products(s)), fmt, useNames, false));
  }
}
