/** A cobra.me CatalyzedReaction: a Reaction converted so that its gene rule, read as a
    disjunction of AND-clauses, becomes one Complex per clause, with the genes replaced by
    Subunits and every object aware of the reaction. */
module CatalyzedReactions {
  import opened Wrappers
  import opened Graph
  import opened Text
  import opened LogicStrings
  import opened Enzyme
  import Reactions
  import Stoichiometry

  // ---------------------------------------------------------------------------
  // The rule text
  // ---------------------------------------------------------------------------

  /** The outer parentheses of a whole rule, removed only when the rule starts with `(`, ends
      with `)` and holds as many of the one as of the other. */
  function StripOuterParens(s: string): string
  {
    if StartsWith(s, "(") && Count(s, '(') == Count(s, ')') && EndsWith(s, ")")
    then Strip(s[1..|s| - 1])
    else s
  }

  /** The parentheses around one clause of the rule: a leading `(` goes, and with it the last
      character when that is `)`; otherwise a trailing `)` goes when `)` outnumbers `(`. */
  function TrimClause(c: string): string
  {
    if StartsWith(c, "(") then
      if c[|c| - 1] != ')' then Strip(c[1..]) else Strip(c[1..|c| - 1])
    else if Count(c, ')') > Count(c, '(') && EndsWith(c, ")") then Strip(c[..|c| - 1])
    else c
  }

  /** The clauses of a rule: the pieces between the case-insensitive ` +or +` separators. */
  function Clauses(rule: string): seq<string>
  {
    SplitWord(rule, "or")
  }

  /** The gene compositions of the clauses, in order, or the first reason one does not read. */
  function ParseClauses(cs: seq<string>): (r: Result<seq<map<string, int>>, AtomError>)
    ensures r.Success? ==> |r.value| == |cs|
    decreases |cs|
  {
    if |cs| == 0 then Success([])
    else match ParseClauses(cs[..|cs| - 1])
      case Failure(e) => Failure(e)
      case Success(init) =>
        match SplitLogical(TrimClause(cs[|cs| - 1]))
        case Failure(e) => Failure(e)
        case Success(c) => Success(init + [c])
  }

  /** What the rule compiles to: one composition per clause. */
  function Compositions(rule: string): Result<seq<map<string, int>>, AtomError>
  {
    ParseClauses(Clauses(rule))
  }

  /** `strip()` removes blanks only, so it leaves every other character's count alone. */
  lemma {:induction false} StripCount(s: string, ch: char)
    requires !IsSpace(ch)
    ensures Count(Strip(s), ch) == Count(s, ch)
  {
    var l := LStripChars(s, Whitespace);
    LStripSuffix(s, Whitespace);
    var k := |s| - |l|;
    assert s == s[..k] + l;
    CountAppend(s[..k], l, ch);
    CountZero(s[..k], ch);
    var r := RStripChars(l, Whitespace);
    RStripPrefix(l, Whitespace);
    assert l == r + l[|r|..];
    CountAppend(r, l[|r|..], ch);
    CountZero(l[|r|..], ch);
  }

  /** A string without its first character, or without its last, loses that character's count. */
  lemma {:induction false} CountEnds(s: string, ch: char)
    requires |s| > 0
    ensures Count(s[1..], ch) == Count(s, ch) - (if s[0] == ch then 1 else 0)
    ensures Count(s[..|s| - 1], ch) == Count(s, ch) - (if s[|s| - 1] == ch then 1 else 0)
  {
    assert s == s[..|s| - 1] + [s[|s| - 1]];
    CountAppend(s[..|s| - 1], [s[|s| - 1]], ch);
  }

  /** The clause heuristic removes exactly one `(` when the clause starts with one, and exactly
      one `)` when the clause ends with one and either starts with `(` or has more `)` than `(`;
      everything else it removes is blank. */
  lemma {:induction false} TrimClauseParens(c: string)
    ensures Count(TrimClause(c), '(') == Count(c, '(') - (if StartsWith(c, "(") then 1 else 0)
    ensures Count(TrimClause(c), ')') == Count(c, ')') -
      (if EndsWith(c, ")") && (StartsWith(c, "(") || Count(c, ')') > Count(c, '(')) then 1 else 0)
  {
    if StartsWith(c, "(") {
      CountEnds(c, '(');
      CountEnds(c, ')');
      if c[|c| - 1] != ')' {
        StripCount(c[1..], '(');
        StripCount(c[1..], ')');
      } else {
        var m := c[1..];
        CountEnds(m, '(');
        CountEnds(m, ')');
        assert m[..|m| - 1] == c[1..|c| - 1];
        StripCount(c[1..|c| - 1], '(');
        StripCount(c[1..|c| - 1], ')');
      }
    } else if Count(c, ')') > Count(c, '(') && EndsWith(c, ")") {
      CountEnds(c, '(');
      CountEnds(c, ')');
      StripCount(c[..|c| - 1], '(');
      StripCount(c[..|c| - 1], ')');
    }
  }

  /** A clause written in parentheses loses them and its surrounding blanks. */
  lemma {:induction false} TrimClauseWrapped(x: string)
    ensures TrimClause("(" + x + ")") == Strip(x)
  {
    var c := "(" + x + ")";
    assert StartsWith(c, "(") && c[|c| - 1] == ')';
    assert c[1..|c| - 1] == x;
  }

  /** A clause without parentheses is left as it is. */
  lemma {:induction false} TrimClausePlain(c: string)
    requires '(' !in c && ')' !in c
    ensures TrimClause(c) == c
  {
    CountZero(c, '(');
    CountZero(c, ')');
    if |c| > 0 {
      assert c[0] in c;
    }
  }

  /** Removing the outer parentheses of a balanced rule leaves it balanced. */
  lemma {:induction false} StripOuterParensBalanced(s: string)
    requires Count(s, '(') == Count(s, ')')
    ensures Count(StripOuterParens(s), '(') == Count(StripOuterParens(s), ')')
  {
    if StartsWith(s, "(") && EndsWith(s, ")") {
      var m := s[1..];
      CountEnds(s, '(');
      CountEnds(s, ')');
      CountEnds(m, '(');
      CountEnds(m, ')');
      assert m[..|m| - 1] == s[1..|s| - 1];
      StripCount(s[1..|s| - 1], '(');
      StripCount(s[1..|s| - 1], ')');
    }
  }

  /** A rule wrapped whole in parentheses around a balanced body loses them and its blanks; a
      rule that does not start with `(` is left alone. */
  lemma {:induction false} StripOuterParensWrapped(x: string)
    requires Count(x, '(') == Count(x, ')')
    ensures StripOuterParens("(" + x + ")") == Strip(x)
  {
    var s := "(" + x + ")";
    assert s == ("(" + x) + ")";
    CountAppend("(" + x, ")", '(');
    CountAppend("(" + x, ")", ')');
    CountAppend("(", x, '(');
    CountAppend("(", x, ')');
    assert s[1..|s| - 1] == x;
  }

  /** A join of parts whose last part is non-empty ends with that part's last character. */
  lemma {:induction false} JoinLast(parts: seq<string>, sep: string)
    requires |parts| > 0 && |parts[|parts| - 1]| > 0
    ensures |Join(parts, sep)| > 0
    ensures Join(parts, sep)[|Join(parts, sep)| - 1] == parts[|parts| - 1][|parts[|parts| - 1]| - 1]
    decreases |parts|
  {
    if |parts| > 1 {
      JoinLast(parts[1..], sep);
    }
  }

  /** A gene id that a logic string can carry: no blank and no parenthesis. */
  predicate PlainId(k: string)
  {
    forall ch :: ch in k ==> !IsSpace(ch) && ch != '(' && ch != ')'
  }

  /** The clause `(logic)` of a composition, as `_update_logic` writes the logic, compiles back
      to the composition. */
  lemma {:induction false} ClauseRoundTrip(c: map<string, int>)
    requires c != map[]
    requires forall k :: k in c ==> PlainId(k)
    ensures SplitLogical(TrimClause("(" + UpdateLogic(c).value + ")")) == Success(c)
  {
    LogicUnblank(c);
    TrimClauseWrapped(UpdateLogic(c).value);
    forall k | k in c
      ensures ' ' !in k && '(' !in k && ')' !in k
    {
      assert PlainId(k);
    }
    LogicRoundTrip(c);
  }

  /** The logic string of a composition over plain ids is its own `strip()`. */
  lemma {:induction false} LogicUnblank(c: map<string, int>)
    requires c != map[]
    requires forall k :: k in c ==> PlainId(k)
    ensures Strip(UpdateLogic(c).value) == UpdateLogic(c).value
  {
    var ks := SortedSet(c.Keys);
    SortedKeys(c);
    var ts := Terms(ks, c);
    assert |ks[0]| > 0 ==> !IsSpace(ks[0][0]) by {
      assert ks[0] in ks && PlainId(ks[0]);
      if |ks[0]| > 0 {
        assert ks[0][0] in ks[0];
      }
    }
    TermsEdges(ks, c);
    JoinStripped(ts, " AND ");
    assert UpdateLogic(c).value == Join(ts, " AND ");
  }

  /** The first term of a list whose first key starts with a non-blank starts with a non-blank;
      the last term ends with `)`. */
  lemma TermsEdges(ks: seq<string>, c: map<string, int>)
    requires |ks| > 0 && forall k :: k in ks ==> k in c
    requires |ks[0]| > 0 ==> !IsSpace(ks[0][0])
    ensures Unblanked(Terms(ks, c))
  {
    var ts := Terms(ks, c);
    var first, last := ks[0], ks[|ks| - 1];
    assert first in c && last in c by {
      assert first in ks && last in ks;
    }
    TermAt(ks, c, 0);
    TermAt(ks, c, |ks| - 1);
    EdgesUnblanked(ts, first, last, c[first], c[last]);
  }

  /** Parts whose first is `first(n0)` with `first` starting with a non-blank, and whose last is
      `last(n1)`, are unblanked. */
  lemma EdgesUnblanked(ts: seq<string>, first: string, last: string, n0: int, n1: int)
    requires |ts| > 0 && ts[0] == first + "(" + IntToString(n0) + ")"
    requires ts[|ts| - 1] == last + "(" + IntToString(n1) + ")"
    requires |first| > 0 ==> !IsSpace(first[0])
    ensures Unblanked(ts)
  {
    TermEdges(first, n0);
    TermEdges(last, n1);
  }

  /** A term `k(n)` starts as `k` does, or with `(`, and ends with `)`. */
  lemma TermEdges(k: string, n: int)
    ensures |k + "(" + IntToString(n) + ")"| > 0
    ensures (k + "(" + IntToString(n) + ")")[0] == if |k| > 0 then k[0] else '('
    ensures (k + "(" + IntToString(n) + ")")[|k + "(" + IntToString(n) + ")"| - 1] == ')'
  {
  }

  /** The first part starts and the last part ends with a non-blank. */
  predicate Unblanked(parts: seq<string>)
  {
    |parts| > 0 && |parts[0]| > 0 && |parts[|parts| - 1]| > 0 &&
    !IsSpace(parts[0][0]) && !IsSpace(parts[|parts| - 1][|parts[|parts| - 1]| - 1])
  }

  /** A join whose first part starts and whose last part ends with a non-blank is stripped. */
  lemma JoinStripped(parts: seq<string>, sep: string)
    requires Unblanked(parts)
    ensures Strip(Join(parts, sep)) == Join(parts, sep)
  {
    JoinHead(parts, sep);
    JoinLast(parts, sep);
    StripUnblank(Join(parts, sep));
  }

  /** A parse of a list of clauses that succeeds succeeds on every prefix, with the prefix of
      the compositions; a failure on a prefix is a failure of the whole. */
  lemma {:induction false} ParsePrefix(cs: seq<string>, i: nat)
    requires i <= |cs|
    ensures ParseClauses(cs).Success? ==>
      ParseClauses(cs[..i]).Success? && ParseClauses(cs[..i]).value == ParseClauses(cs).value[..i]
    ensures ParseClauses(cs[..i]).Failure? ==> ParseClauses(cs).Failure?
    decreases |cs|
  {
    if i == |cs| {
      assert cs[..i] == cs;
    } else {
      var init := cs[..|cs| - 1];
      assert init[..i] == cs[..i];
      var whole, pre, part := ParseClauses(cs), ParseClauses(init), ParseClauses(cs[..i]);
      assert whole.Success? ==> pre.Success? && pre.value == whole.value[..|cs| - 1] by {
        ParseLast(cs);
      }
      assert (pre.Success? ==> part.Success? && part.value == pre.value[..i]) && (part.Failure? ==> pre.Failure?) by {
        ParsePrefix(init, i);
      }
      if whole.Success? {
        assert whole.value[..|cs| - 1][..i] == whole.value[..i];
      }
    }
  }

  /** The parse of a non-empty list of clauses is the parse of all but the last, extended by
      that of the last. */
  lemma {:induction false} ParseLast(cs: seq<string>)
    requires |cs| > 0
    ensures ParseClauses(cs).Success? ==> ParseClauses(cs[..|cs| - 1]).Success?
    ensures ParseClauses(cs).Success? ==> ParseClauses(cs).value[..|cs| - 1] == ParseClauses(cs[..|cs| - 1]).value
  {
    var whole, prefix := ParseClauses(cs), ParseClauses(cs[..|cs| - 1]);
    if whole.Success? {
      var last := SplitLogical(TrimClause(cs[|cs| - 1]));
      assert whole.value == prefix.value + [last.value];
    }
  }

  // ---------------------------------------------------------------------------
  // Complexes from clauses
  // ---------------------------------------------------------------------------

  /** Why the conversion raises: the model holds no reaction with the id (`get_by_id`), a clause
      does not read (`split_logical_string`), or a clause names a gene the reaction does not
      have (`subunit_id_to_object[k]`). */
  datatype ConversionError = NotInModel(id: string) | BadClause(e: AtomError) | UnknownGene(id: string)

  /** The id of the complex built from a composition: `Complex('')` keeps the empty id until
      its first subunit is added. */
  function ComplexId(c: map<string, int>): string
  {
    if c == map[] then "" else "Complex" + Suffix(c)
  }

  /** The ids of a set of complexes. */
  function Ids(cxs: set<Complex>): set<string>
    reads cxs
  {
    set cx | cx in cxs :: cx.id
  }

  function ModelComplexes(model: Model?): set<Complex>
    reads model
  {
    if model == null then {} else ComplexItems(model.complexes)
  }

  /** The part of the composition `comp` on the ids `ks`. */
  function RestrictTo(comp: map<string, int>, ks: seq<string>): (r: map<string, int>)
    requires forall k :: k in ks ==> k in comp
  {
    if ks == [] then map[] else RestrictTo(comp, ks[..|ks| - 1])[ks[|ks| - 1] := comp[ks[|ks| - 1]]]
  }

  /** Restricted to all of its ids, a composition is itself. */
  lemma {:induction false} RestrictToAll(comp: map<string, int>, ks: seq<string>)
    requires forall k :: k in ks ==> k in comp
    ensures forall k :: k in RestrictTo(comp, ks) <==> k in ks
    ensures forall k :: k in RestrictTo(comp, ks) ==> RestrictTo(comp, ks)[k] == comp[k]
    ensures (forall k :: k in comp ==> k in ks) ==> RestrictTo(comp, ks) == comp
    decreases |ks|
  {
    if ks != [] {
      RestrictToAll(comp, ks[..|ks| - 1]);
      assert forall k :: k in ks <==> k in ks[..|ks| - 1] || k == ks[|ks| - 1];
    }
  }

  /** The subunits of the clause complex once the ids `ks` of its composition have been added,
      in that order: each id's subunit with the id's stoichiometry. */
  ghost function Chosen(index: map<string, Gene>, comp: map<string, int>, ks: seq<string>): map<Gene, int>
    requires forall j :: 0 <= j < |ks| ==> ks[j] in index && ks[j] in comp
  {
    if ks == [] then map[]
    else Chosen(index, comp, ks[..|ks| - 1])[index[ks[|ks| - 1]] := comp[ks[|ks| - 1]]]
  }

  /** Each chosen subunit is the subunit of one of the ids, with that id's stoichiometry. */
  lemma {:induction false} ChosenMembers(index: map<string, Gene>, comp: map<string, int>, ks: seq<string>)
    requires forall k :: k in index ==> index[k].id == k
    requires forall j :: 0 <= j < |ks| ==> ks[j] in index && ks[j] in comp
    ensures forall g :: g in Chosen(index, comp, ks) <==> g.id in ks && g.id in index && g == index[g.id]
    ensures forall g :: g in Chosen(index, comp, ks) ==> Chosen(index, comp, ks)[g] == comp[g.id]
    decreases |ks|
  {
    if ks != [] {
      ChosenMembers(index, comp, ks[..|ks| - 1]);
      assert forall k :: k in ks <==> k in ks[..|ks| - 1] || k == ks[|ks| - 1];
    }
  }

  /** Read by ids, the chosen subunits are the chosen part of the composition. */
  lemma {:induction false} ChosenIds(index: map<string, Gene>, comp: map<string, int>, ks: seq<string>)
    requires forall k :: k in index ==> index[k].id == k
    requires forall j :: 0 <= j < |ks| ==> ks[j] in index && ks[j] in comp
    ensures DistinctGeneIds(Chosen(index, comp, ks).Keys)
    ensures SubunitIds(Chosen(index, comp, ks)) == RestrictTo(comp, ks)
  {
    var d := Chosen(index, comp, ks);
    ChosenMembers(index, comp, ks);
    RestrictToAll(comp, ks);
    assert DistinctGeneIds(d.Keys) by {
      forall a, b | a in d && b in d && SameGeneId(a, b)
        ensures a == b
      {
      }
    }
    GeneNamesInjective(d.Keys);
    IdViewKeys(d, GeneNames(d.Keys));
    forall k | k in ks
      ensures k in SubunitIds(d) && SubunitIds(d)[k] == comp[k]
    {
      assert index[k] in d;
      SubunitIdsAt(d, index[k]);
    }
  }

  /** The bookkeeping of one `tmp_complex.add_subunit(subunit_id_to_object[k], v)` of the clause
      loop, for the `i`-th id of the iteration order `ks`. */
  method AddClauseSubunit(cx: Complex, index: map<string, Gene>, comp: map<string, int>, ks: seq<string>, i: nat,
                          su: Gene, aware: bool)
    requires forall k :: k in index ==> index[k].id == k
    requires i < |ks| && (forall j :: 0 <= j <= i ==> ks[j] in index && ks[j] in comp) && ks[i] !in ks[..i]
    requires cx.subunits == Chosen(index, comp, ks[..i]) && su == index[ks[i]]
    modifies cx`subunits, cx`polypeptideSubunits, cx`rnaSubunits, cx`pids, (if aware then {su} else {})`complexes
    ensures cx.subunits == Chosen(index, comp, ks[..i + 1])
    ensures su.complexes == if aware then old(su.complexes) + {cx} else old(su.complexes)
  {
    ghost var next := ks[..i + 1];
    assert next[..|next| - 1] == ks[..i];
    ChosenMembers(index, comp, ks[..i]);
    RecordSubunit(cx, su, comp[ks[i]], aware);
  }

  /** `AddClauseSubunit`, with what the clause loop keeps about the subunits' complexes: the
      subunits added so far know the complex, and no gene forgets one it knew when the loop
      started (`c0`). */
  method AddClauseSubunitAware(cx: Complex, index: map<string, Gene>, comp: map<string, int>, ks: seq<string>,
                               i: nat, aware: bool, ghost c0: map<Gene, set<Complex>>)
    requires forall k :: k in index ==> index[k].id == k
    requires i < |ks| && (forall j :: 0 <= j <= i ==> ks[j] in index && ks[j] in comp) && ks[i] !in ks[..i]
    requires cx.subunits == Chosen(index, comp, ks[..i])
    requires aware ==> forall j :: 0 <= j < i ==> cx in index[ks[j]].complexes
    requires aware ==> forall g :: g in c0 ==> c0[g] <= g.complexes
    modifies cx`subunits, cx`polypeptideSubunits, cx`rnaSubunits, cx`pids
    modifies (if aware then {index[ks[i]]} else {})`complexes
    ensures cx.subunits == Chosen(index, comp, ks[..i + 1])
    ensures aware ==> forall j :: 0 <= j < i + 1 ==> cx in index[ks[j]].complexes
    ensures aware ==> forall g :: g in c0 ==> c0[g] <= g.complexes
  {
    AddClauseSubunit(cx, index, comp, ks, i, index[ks[i]], aware);
  }

  /** The bookkeeping of the `add_subunit` calls of the clause, for its ids in the iteration
      order `ks`; the first id that is not one of the reaction's subunits stops them. */
  method AddClauseSubunits(cx: Complex, index: map<string, Gene>, comp: map<string, int>, ks: seq<string>,
                           aware: bool)
    returns (missing: Option<string>)
    requires forall k :: k in index ==> index[k].id == k
    requires (forall k :: k in ks <==> k in comp) && forall i :: 0 <= i < |ks| ==> ks[i] !in ks[..i]
    requires cx.subunits == map[]
    modifies cx`subunits, cx`polypeptideSubunits, cx`rnaSubunits, cx`pids
    modifies (if aware then index.Values else {})`complexes
    ensures missing.None? <==> comp.Keys <= index.Keys
    ensures missing.Some? ==> missing.value in comp && missing.value !in index
    ensures missing.None? ==> cx.subunits == Chosen(index, comp, ks)
    ensures missing.None? && aware ==> forall k :: k in comp ==> cx in index[k].complexes
    ensures aware ==> forall g :: g in index.Values ==> old(g.complexes) <= g.complexes
    ensures cx.model == old(cx.model) && cx.reactions == old(cx.reactions) && cx.id == old(cx.id)
    ensures cx.catalysts == old(cx.catalysts) && cx.modifications == old(cx.modifications)
  {
    ghost var c0 := map g | g in index.Values :: g.complexes;
    for i := 0 to |ks|
      invariant forall j :: 0 <= j < i ==> ks[j] in index
      invariant cx.subunits == Chosen(index, comp, ks[..i])
      invariant aware ==> forall j :: 0 <= j < i ==> cx in index[ks[j]].complexes
      invariant aware ==> forall g :: g in c0 ==> c0[g] <= g.complexes
    {
      if ks[i] !in index {
        return Some(ks[i]);
      }
      AddClauseSubunitAware(cx, index, comp, ks, i, aware, c0);
    }
    assert ks[..|ks|] == ks;
    return None;
  }

  /** The bookkeeping of the clause's `add_subunit` calls, its ids taken in sorted order. */
  method ClauseSubunits(cx: Complex, index: map<string, Gene>, comp: map<string, int>, aware: bool)
    returns (missing: Option<string>)
    requires forall k :: k in index ==> index[k].id == k
    requires cx.subunits == map[]
    modifies cx`subunits, cx`polypeptideSubunits, cx`rnaSubunits, cx`pids
    modifies (if aware then index.Values else {})`complexes
    ensures missing.None? <==> comp.Keys <= index.Keys
    ensures missing.Some? ==> missing.value in comp && missing.value !in index
    ensures missing.None? ==> DistinctGeneIds(cx.subunits.Keys) && SubunitIds(cx.subunits) == comp
    ensures missing.None? ==> forall s :: s in cx.subunits ==> s.id in index && s == index[s.id]
    ensures missing.None? && aware ==> forall s :: s in cx.subunits ==> cx in s.complexes
    ensures aware ==> forall g :: g in index.Values ==> old(g.complexes) <= g.complexes
    ensures cx.model == old(cx.model) && cx.reactions == old(cx.reactions) && cx.id == old(cx.id)
    ensures cx.catalysts == old(cx.catalysts) && cx.modifications == old(cx.modifications)
  {
    var ks := SortedSet(comp.Keys);
    SortedSetElements(comp.Keys);
    SortedSetDistinct(comp.Keys);
    missing := AddClauseSubunits(cx, index, comp, ks, aware);
    if missing.None? {
      ChosenIds(index, comp, ks);
      ChosenMembers(index, comp, ks);
      RestrictToAll(comp, ks);
    }
  }

  /** The `_update_id` calls of the clause's `add_subunit`s, of which only the last one's
      id survives: the clause complex is named after its composition. */
  method NameClauseComplex(cx: Complex, comp: map<string, int>)
    requires cx.id == "" && cx.model == null
    requires DistinctGeneIds(cx.subunits.Keys) && SubunitIds(cx.subunits) == comp
    modifies cx`id, cx`logic
    ensures cx.id == ComplexId(comp)
  {
    if comp != map[] {
      var _ := UpdateComplexId(cx, null);
    }
  }

  /** `tmp_complex = Complex('')` and the `add_subunit` of every (id, stoichiometry) of the
      clause, in dictionary order, with `aware` as `update_subunit_awareness`. An id that is not
      one of the reaction's subunits raises, once the ids before it have been added. */
  method ClauseComplex(index: map<string, Gene>, comp: map<string, int>, aware: bool)
    returns (res: Result<Complex, ConversionError>)
    requires forall k :: k in index ==> index[k].id == k
    modifies (if aware then index.Values else {})`complexes
    ensures res.Success? <==> comp.Keys <= index.Keys
    ensures res.Failure? ==> res.error.UnknownGene? && res.error.id in comp && res.error.id !in index
    ensures res.Success? ==> var cx := res.value;
      && fresh(cx) && cx.model == null && cx.reactions == {}
      && cx.catalysts == {} && cx.modifications == {}
      && DistinctGeneIds(cx.subunits.Keys) && SubunitIds(cx.subunits) == comp
      && cx.id == ComplexId(comp)
      && (forall s :: s in cx.subunits ==> s.id in index && s == index[s.id])
      && (aware ==> forall s :: s in cx.subunits ==> cx in s.complexes)
    ensures aware ==> forall g :: g in index.Values ==> old(g.complexes) <= g.complexes
  {
    var missing, cx := NewClauseComplex(index, comp, aware);
    if missing.Some? {
      return Failure(UnknownGene(missing.value));
    }
    NameClauseComplex(cx, comp);
    return Success(cx);
  }

  /** `tmp_complex = Complex('')` and the bookkeeping of its `add_subunit` calls. */
  method NewClauseComplex(index: map<string, Gene>, comp: map<string, int>, aware: bool)
    returns (missing: Option<string>, cx: Complex)
    requires forall k :: k in index ==> index[k].id == k
    modifies (if aware then index.Values else {})`complexes
    ensures fresh(cx) && cx.id == "" && cx.model == null && cx.reactions == {}
    ensures cx.catalysts == {} && cx.modifications == {}
    ensures missing.None? <==> comp.Keys <= index.Keys
    ensures missing.Some? ==> missing.value in comp && missing.value !in index
    ensures missing.None? ==> DistinctGeneIds(cx.subunits.Keys) && SubunitIds(cx.subunits) == comp
    ensures missing.None? ==> forall s :: s in cx.subunits ==> s.id in index && s == index[s.id]
    ensures missing.None? && aware ==> forall s :: s in cx.subunits ==> cx in s.complexes
    ensures aware ==> forall g :: g in index.Values ==> old(g.complexes) <= g.complexes
  {
    cx := new Complex("");
    missing := ClauseSubunits(cx, index, comp, aware);
  }

  /** Records `cx` in the `_complex` set of each of `gs`. */
  method JoinComplex(cx: Complex, gs: set<Gene>)
    modifies gs`complexes
    ensures forall g :: g in gs ==> g.complexes == old(g.complexes) + {cx}
  {
    var todo := gs;
    while todo != {}
      invariant todo <= gs
      invariant forall g :: g in todo ==> g.complexes == old(g.complexes)
      invariant forall g :: g in gs && g !in todo ==> g.complexes == old(g.complexes) + {cx}
      decreases |todo|
    {
      var g :| g in todo;
      g.complexes := g.complexes + {cx};
      todo := todo - {g};
    }
  }

  /** The model's part of a clause: the clause complex joins the model, then the model's complex
      of the same id is used when there is one (`get_by_id`); otherwise the clause complex is
      appended to `model.complexes` and only then registered in its subunits' `_complex`. */
  method PlaceComplex(model: Model, tmp: Complex) returns (c: Complex)
    requires ComplexKeysCurrent(model.complexes)
    requires tmp !in ComplexItems(model.complexes)
    modifies tmp`model, model`complexes, tmp.subunits.Keys`complexes
    ensures tmp.model == model && c.id == tmp.id
    ensures ComplexKeysCurrent(model.complexes)
    ensures c in ComplexItems(model.complexes)
    ensures LookupKey(old(model.complexes), tmp.id).Some? ==>
      c == LookupKey(old(model.complexes), tmp.id).value && model.complexes == old(model.complexes) &&
      forall g :: g in tmp.subunits ==> g.complexes == old(g.complexes)
    ensures LookupKey(old(model.complexes), tmp.id).None? ==>
      c == tmp && model.complexes == old(model.complexes) + [Entry(tmp.id, tmp)] &&
      forall g :: g in tmp.subunits ==> g.complexes == old(g.complexes) + {tmp}
  {
    tmp.model := model;
    match LookupKey(model.complexes, tmp.id)
    case Some(x) =>
      var i :| 0 <= i < |model.complexes| && model.complexes[i] == Entry(tmp.id, x);
      c := x;
    case None =>
      model.complexes := model.complexes + [Entry(tmp.id, tmp)];
      assert model.complexes[|model.complexes| - 1].item == tmp;
      JoinComplex(tmp, tmp.subunits.Keys);
      c := tmp;
  }

  /** A clause trimmed, parsed into a composition and built into a complex; it raises when
      the clause does not read or names a gene the reaction does not have. */
  method ClauseComplexOf(index: map<string, Gene>, clause: string, aware: bool)
    returns (res: Result<Complex, ConversionError>)
    requires forall k :: k in index ==> index[k].id == k
    modifies (if aware then index.Values else {})`complexes
    ensures var p := SplitLogical(TrimClause(clause));
      res.Success? <==> p.Success? && p.value.Keys <= index.Keys
    ensures var p := SplitLogical(TrimClause(clause));
      res.Failure? ==>
        || (res.error.BadClause? && p == Failure(res.error.e))
        || (res.error.UnknownGene? && p.Success? && res.error.id in p.value && res.error.id !in index)
    ensures res.Success? ==> var c := res.value;
      && fresh(c) && c.model == null && c.reactions == {}
      && c.id == ComplexId(SplitLogical(TrimClause(clause)).value)
      && c.subunits.Keys <= index.Values
  {
    var parsed := SplitLogicalString(TrimClause(clause));
    if parsed.Failure? {
      return Failure(BadClause(parsed.error));
    }
    res := ClauseComplex(index, parsed.value, aware);
  }

  /** The complex of a clause put to use: with a model it is placed in the model, and the
      complex that results is added to `_complex` of the reaction and knows the reaction. */
  method AttachComplex(r: Reaction, model: Model?, cx: Complex) returns (c: Complex)
    requires model != null ==> ComplexKeysCurrent(model.complexes) && cx !in ComplexItems(model.complexes)
    modifies r`complexes, cx`model, cx`reactions, (if model == null then {} else {model})`complexes
    modifies cx.subunits.Keys`complexes, ModelComplexes(model)`reactions
    ensures r.complexes == old(r.complexes) + {c} && r in c.reactions && c.id == cx.id
    ensures model == null ==> c == cx
    ensures cx.model == if model == null then old(cx.model) else model
    ensures model != null ==> c in ComplexItems(model.complexes) && ComplexKeysCurrent(model.complexes)
    ensures model != null ==>
      || model.complexes == old(model.complexes)
      || (c == cx && model.complexes == old(model.complexes) + [Entry(cx.id, cx)])
    ensures model != null ==> old(model.complexes) <= model.complexes
    ensures forall x :: x in old(ModelComplexes(model)) ==> old(x.reactions) <= x.reactions
  {
    c := cx;
    if model != null {
      c := PlaceComplex(model, cx);
    }
    r.complexes := r.complexes + {c};
    c.reactions := c.reactions + {r};
  }

  /** Parsing one clause more extends the parse of the clauses before it. */
  lemma {:induction false} ParseStep(cs: seq<string>, i: nat)
    requires i < |cs|
    ensures var p := SplitLogical(TrimClause(cs[i]));
      ParseClauses(cs[..i + 1]) ==
        if ParseClauses(cs[..i]).Failure? then ParseClauses(cs[..i])
        else if p.Failure? then Failure(p.error)
        else Success(ParseClauses(cs[..i]).value + [p.value])
  {
    var q := cs[..i + 1];
    assert q[..|q| - 1] == cs[..i];
  }

  /** The ids of the complexes of the compositions, in order. */
  function ComplexIds(comps: seq<map<string, int>>): seq<string>
  {
    seq(|comps|, j requires 0 <= j < |comps| => ComplexId(comps[j]))
  }

  /** The ids of the compositions with one more composition. */
  lemma {:induction false} IdsSnoc(comps: seq<map<string, int>>, comp: map<string, int>)
    ensures ComplexIds(comps + [comp]) == ComplexIds(comps) + [ComplexId(comp)]
  {
    assert forall j :: 0 <= j < |comps| ==> (comps + [comp])[j] == comps[j];
  }

  /** What the clauses whose complexes have the ids `ids` have done: `made` holds the complex of
      each, with that id, aware of the reaction, in the reaction's `_complex` (which held
      `before` at the start) and, with a model, in the model's complexes, whose keys stay
      current. */
  ghost predicate Attached(r: Reaction, model: Model?, ids: seq<string>, made: seq<Complex>, before: set<Complex>)
    reads r, model, made, ModelComplexes(model)
  {
    && |made| == |ids|
    && (forall j :: 0 <= j < |ids| ==> made[j].id == ids[j] && r in made[j].reactions)
    && r.complexes == before + (set c | c in made)
    && (model != null ==> ComplexKeysCurrent(model.complexes))
    && (model != null ==> forall j :: 0 <= j < |made| ==> made[j] in ComplexItems(model.complexes))
  }

  /** What the first `i` clauses have done: they parse, name only genes of the reaction, and
      their complexes are attached. */
  ghost predicate Built(r: Reaction, model: Model?, index: map<string, Gene>, cs: seq<string>, i: nat,
                        made: seq<Complex>, before: set<Complex>)
    reads r, model, made, ModelComplexes(model)
  {
    && i <= |cs| && ParseClauses(cs[..i]).Success?
    && (forall j :: 0 <= j < i ==> ParseClauses(cs[..i]).value[j].Keys <= index.Keys)
    && Attached(r, model, ComplexIds(ParseClauses(cs[..i]).value), made, before)
  }

  /** A clause that does not read, or names a gene outside `index`, after clauses that read:
      the whole list does not compile, and in the first case does not parse. */
  lemma {:induction false} ClauseFails(cs: seq<string>, i: nat, index: map<string, Gene>)
    requires i < |cs| && ParseClauses(cs[..i]).Success?
    requires var p := SplitLogical(TrimClause(cs[i])); p.Failure? || !(p.value.Keys <= index.Keys)
    ensures var p := ParseClauses(cs);
      && !(p.Success? && forall j :: 0 <= j < |cs| ==> p.value[j].Keys <= index.Keys)
      && (SplitLogical(TrimClause(cs[i])).Failure? ==> p.Failure?)
  {
    ParseStep(cs, i);
    ParsePrefix(cs, i + 1);
    if ParseClauses(cs).Success? {
      assert ParseClauses(cs[..i + 1]).value[i] == ParseClauses(cs).value[i];
    }
  }

  /** The members of a list with one more element. */
  lemma {:induction false} MembersSnoc<T>(s: seq<T>, x: T)
    ensures (set y | y in s + [x]) == (set y | y in s) + {x}
  {
    assert forall y :: y in s + [x] <==> y in s || y == x;
  }

  /** A list of entries that keeps its entries keeps holding the complexes it held. */
  lemma {:induction false} ItemsGrow(before: seq<Entry<Complex>>, after: seq<Entry<Complex>>, made: seq<Complex>, c: Complex)
    requires before <= after && c in ComplexItems(after)
    requires forall j :: 0 <= j < |made| ==> made[j] in ComplexItems(before)
    ensures forall j :: 0 <= j < |made| + 1 ==> (made + [c])[j] in ComplexItems(after)
  {
    forall j | 0 <= j < |made| + 1
      ensures (made + [c])[j] in ComplexItems(after)
    {
      if j < |made| {
        var k :| 0 <= k < |before| && before[k].item == made[j];
        assert after[k] == before[k];
      }
    }
  }

  /** One more clause attached: its complex `c`, aware of the reaction, joins the reaction's
      `_complex` and, with a model, the model's complexes (which extend `m0`, the list that held
      the earlier complexes). */
  lemma {:induction false} AttachedNext(r: Reaction, model: Model?, ids: seq<string>, made: seq<Complex>,
                                        before: set<Complex>, c: Complex, m0: seq<Entry<Complex>>)
    requires |made| == |ids| && forall j :: 0 <= j < |ids| ==> made[j].id == ids[j] && r in made[j].reactions
    requires r in c.reactions && r.complexes == before + (set x | x in made) + {c}
    requires model != null ==> ComplexKeysCurrent(model.complexes) && c in ComplexItems(model.complexes)
    requires model != null ==> m0 <= model.complexes && forall j :: 0 <= j < |made| ==> made[j] in ComplexItems(m0)
    ensures Attached(r, model, ids + [c.id], made + [c], before)
  {
    forall j | 0 <= j < |ids| + 1
      ensures (made + [c])[j].id == (ids + [c.id])[j] && r in (made + [c])[j].reactions
    {
      if j < |ids| {
        assert (made + [c])[j] == made[j] && (ids + [c.id])[j] == ids[j];
      }
    }
    MembersSnoc(made, c);
    if model != null {
      ItemsGrow(m0, model.complexes, made, c);
    }
  }

  /** One more clause that reads extends the parse by its composition. */
  lemma {:induction false} ParsedNext(cs: seq<string>, i: nat)
    requires i < |cs| && ParseClauses(cs[..i]).Success? && SplitLogical(TrimClause(cs[i])).Success?
    ensures ParseClauses(cs[..i + 1]).Success?
    ensures ParseClauses(cs[..i + 1]).value == ParseClauses(cs[..i]).value + [SplitLogical(TrimClause(cs[i])).value]
  {
    ParseStep(cs, i);
  }

  /** One more clause that reads, names genes of `index` and whose complex `c` is attached. */
  lemma {:induction false} BuiltNext(r: Reaction, model: Model?, index: map<string, Gene>, cs: seq<string>, i: nat,
                                     made: seq<Complex>, before: set<Complex>, c: Complex)
    requires i < |cs| && ParseClauses(cs[..i]).Success?
    requires forall j :: 0 <= j < i ==> ParseClauses(cs[..i]).value[j].Keys <= index.Keys
    requires var p := SplitLogical(TrimClause(cs[i])); p.Success? && p.value.Keys <= index.Keys && c.id == ComplexId(p.value)
    requires Attached(r, model, ComplexIds(ParseClauses(cs[..i]).value) + [c.id], made + [c], before)
    ensures Built(r, model, index, cs, i + 1, made + [c], before)
  {
    var comps := ParseClauses(cs[..i]).value;
    var comp := SplitLogical(TrimClause(cs[i])).value;
    ParsedNext(cs, i);
    assert (comps + [comp])[..i] == comps;
    IdsSnoc(comps, comp);
    forall j | 0 <= j < i + 1
      ensures (comps + [comp])[j].Keys <= index.Keys
    {
      if j < i {
        assert (comps + [comp])[j] == comps[j];
      }
    }
  }

  /** The complex `cx` of one more clause attached, with the bookkeeping of the loop: the
      complexes of the clauses before it, `made`, have the ids `ids` and stay attached. */
  method AttachNext(r: Reaction, model: Model?, cx: Complex,
                    ghost ids: seq<string>, ghost made: seq<Complex>, ghost before: set<Complex>)
    returns (c: Complex)
    requires model != null ==> cx !in ComplexItems(model.complexes)
    requires Attached(r, model, ids, made, before)
    modifies r`complexes, cx`model, cx`reactions, (if model == null then {} else {model})`complexes
    modifies cx.subunits.Keys`complexes, ModelComplexes(model)`reactions
    ensures c.id == cx.id && (model == null ==> c == cx)
    ensures Attached(r, model, ids + [c.id], made + [c], before)
    ensures model != null ==>
      || model.complexes == old(model.complexes)
      || (c == cx && model.complexes == old(model.complexes) + [Entry(cx.id, cx)])
  {
    ghost var items := ModelComplexes(model);
    assert forall j :: 0 <= j < |made| && model != null ==> made[j] in items;
    c := AttachComplex(r, model, cx);
    forall j | 0 <= j < |ids|
      ensures made[j].id == ids[j] && r in made[j].reactions
    {
      assert old(r in made[j].reactions);
    }
    AttachedNext(r, model, ids, made, before, c, if model == null then [] else old(model.complexes));
  }

  /** One clause of the rule, the body of the loop over the clauses: it is trimmed and parsed
      into a composition, its complex is built (aware of its subunits when there is no model)
      and, with a model, placed in the model; the complex then catalyses the reaction. The
      complexes of the clauses before it have the ids `ids`. */
  method NextClause(r: Reaction, model: Model?, index: map<string, Gene>, clause: string,
                    ghost ids: seq<string>, ghost made: seq<Complex>, ghost before: set<Complex>)
    returns (res: Result<Complex, ConversionError>)
    requires forall k :: k in index ==> index[k].id == k
    requires Attached(r, model, ids, made, before)
    modifies r`complexes, (if model == null then {} else {model})`complexes
    modifies index.Values`complexes, ModelComplexes(model)`reactions
    ensures var p := SplitLogical(TrimClause(clause));
      res.Success? <==> p.Success? && p.value.Keys <= index.Keys
    ensures var p := SplitLogical(TrimClause(clause));
      res.Failure? ==>
        || (res.error.BadClause? && p == Failure(res.error.e))
        || (res.error.UnknownGene? && p.Success? && res.error.id in p.value && res.error.id !in index)
    ensures res.Success? ==> res.value.id == ComplexId(SplitLogical(TrimClause(clause)).value)
    ensures res.Success? ==> Attached(r, model, ids + [res.value.id], made + [res.value], before)
    ensures model != null ==> old(model.complexes) <= model.complexes
    ensures model != null ==>
      forall k :: |old(model.complexes)| <= k < |model.complexes| ==> fresh(model.complexes[k].item)
  {
    var built := ClauseComplexOf(index, clause, model == null);
    if built.Failure? {
      return built;
    }
    var c := AttachNext(r, model, built.value, ids, made, before);
    res := Success(c);
  }

  /** The loop over the clauses of the rule: each one in turn yields the complex that is added
      to the reaction's `_complex`, until a clause raises. `made` lists the complex of each
      clause. */
  method BuildComplexes(r: Reaction, model: Model?, index: map<string, Gene>, cs: seq<string>)
    returns (res: Result<(), ConversionError>, ghost made: seq<Complex>)
    requires forall k :: k in index ==> index[k].id == k
    requires model != null ==> ComplexKeysCurrent(model.complexes)
    modifies r`complexes, (if model == null then {} else {model})`complexes
    modifies index.Values`complexes, ModelComplexes(model)`reactions
    ensures var p := ParseClauses(cs);
      res.Success? <==> p.Success? && forall j :: 0 <= j < |cs| ==> p.value[j].Keys <= index.Keys
    ensures res.Failure? && res.error.BadClause? ==> ParseClauses(cs).Failure?
    ensures res.Failure? && res.error.UnknownGene? ==> res.error.id !in index
    ensures res.Failure? ==> !res.error.NotInModel?
    ensures res.Success? ==> Built(r, model, index, cs, |cs|, made, old(r.complexes))
    ensures model != null ==> forall e :: e in model.complexes ==> e in old(model.complexes) || fresh(e.item)
  {
    made := [];
    ghost var before := r.complexes;
    assert cs[..0] == [];
    for i := 0 to |cs|
      invariant Built(r, model, index, cs, i, made, before)
      invariant model != null ==> old(model.complexes) <= model.complexes
      invariant model != null ==>
        forall k :: |old(model.complexes)| <= k < |model.complexes| ==> fresh(model.complexes[k].item)
    {
      ghost var comps := ParseClauses(cs[..i]).value;
      var step := NextClause(r, model, index, cs[i], ComplexIds(comps), made, before);
      if step.Failure? {
        ClauseFails(cs, i, index);
        return Failure(step.error), made;
      }
      BuiltNext(r, model, index, cs, i, made, before, step.value);
      made := made + [step.value];
    }
    assert cs[..|cs|] == cs;
    return Success(()), made;
  }

  // ---------------------------------------------------------------------------
  // Genes to subunits
  // ---------------------------------------------------------------------------

  /** `DictList.get_by_id` on a list of subunits: the first one with the id, `None` for a
      KeyError. */
  function FindGene(gs: seq<Gene>, id: string): (r: Option<Gene>)
    ensures r.Some? ==> r.value in gs && r.value.id == id
    ensures r.None? <==> forall g :: g in gs ==> g.id != id
    decreases |gs|
  {
    if |gs| == 0 then None
    else if gs[0].id == id then Some(gs[0])
    else FindGene(gs[1..], id)
  }

  function ModelSubunits(model: Model?): set<Gene>
    reads model
  {
    if model == null then {} else set g | g in model.subunits
  }

  /** The ids of the subunits the gene loop of `__create_catalytic_reaction` picks as written,
      over the genes in iteration order as (id, is a Subunit) pairs: a plain gene makes a new
      Subunit of its id, but for a gene that already is a Subunit `the_subunit` is not assigned,
      so it keeps the previous pass's subunit, or is unbound (`NameError`) on the first pass. */
  function PickedAsWritten(gs: seq<(string, bool)>, prev: Option<string>): (r: Result<seq<string>, string>)
    ensures r.Failure? <==> |gs| > 0 && gs[0].1 && prev.None?
    ensures r.Success? ==> |r.value| == |gs|
    ensures r.Success? ==> forall i :: 0 <= i < |gs| && !gs[i].1 ==> r.value[i] == gs[i].0
    decreases |gs|
  {
    if gs == [] then Success([])
    else
      var cur := if gs[0].1 then prev else Some(gs[0].0);
      if cur.None? then Failure("NameError: name 'the_subunit' is not defined")
      else Success([cur.value] + PickedAsWritten(gs[1..], cur).value)
  }

  /** As written, a Subunit among the genes takes the id of the gene before it, or fails when
      it comes first; `SubunitFor` keeps every gene's own id. */
  lemma StaleSubunitPicked()
    ensures PickedAsWritten([("b", false), ("a", true)], None) == Success(["b", "b"])
    ensures PickedAsWritten([("a", true), ("b", false)], None).Failure?
  {
    var last: seq<(string, bool)> := [("a", true)];
    var tail := PickedAsWritten(last, Some("b"));
    assert last[1..] == [];
    assert tail.value == ["b"];
    var gs: seq<(string, bool)> := [("b", false), ("a", true)];
    assert gs[1..] == last;
    assert PickedAsWritten(gs, None) == Success(["b"] + tail.value);
    assert ["b"] + ["b"] == ["b", "b"];
  }


  /** One gene of the reaction, the body of the loop over the genes: a plain gene becomes a new
      Subunit (no pid, a polypeptide), a Subunit stays itself; with a model, the model's subunit
      of the same id is used when there is one and the subunit is appended otherwise; the
      subunit then knows the reaction. */
  method SubunitFor(r: Reaction, model: Model?, g: Gene, ghost pool: set<Gene>) returns (su: Gene)
    requires model != null ==> forall x :: x in model.subunits ==> x.isSubunit
    requires model != null && FindGene(model.subunits, g.id).Some? ==> FindGene(model.subunits, g.id).value in pool
    modifies (if model == null then {} else {model})`subunits, g`reactions, pool`reactions
    ensures su.id == g.id && su.isSubunit && r in su.reactions
    ensures model == null || FindGene(old(model.subunits), g.id).None? ==>
      && (g.isSubunit ==> su == g)
      && (!g.isSubunit ==> fresh(su) && su.pid == None && su.isPolypeptide && su.complexes == {})
    ensures model != null && FindGene(old(model.subunits), g.id).Some? ==>
      su == FindGene(old(model.subunits), g.id).value && model.subunits == old(model.subunits)
    ensures model != null && FindGene(old(model.subunits), g.id).None? ==>
      model.subunits == old(model.subunits) + [su]
    ensures forall x :: x in pool || x == g ==> old(x.reactions) <= x.reactions
  {
    if g.isSubunit {
      su := g;
    } else {
      su := SubunitOf(g, None, true);
    }
    if model != null {
      match FindGene(model.subunits, su.id)
      case Some(x) =>
        su := x;
      case None =>
        model.subunits := model.subunits + [su];
    }
    su.reactions := su.reactions + {r};
  }

  /** Looking an id up in a list with one more subunit. */
  lemma {:induction false} FindGeneAppend(gs: seq<Gene>, x: Gene, id: string)
    ensures FindGene(gs + [x], id) ==
      if FindGene(gs, id).Some? then FindGene(gs, id) else if x.id == id then Some(x) else None
    decreases |gs|
  {
    if |gs| > 0 {
      assert (gs + [x])[1..] == gs[1..] + [x];
      FindGeneAppend(gs[1..], x, id);
    }
  }

  /** What the genes outside `todo` have become: each is in `index` under its id, as the
      model's subunit of that id when `s0` (the model's subunits at the start) has one, and
      otherwise as itself when it is a Subunit or as a new subunit with no pid, a polypeptide. */
  ghost predicate Converted(hasModel: bool, s0: seq<Gene>, genes: set<Gene>, todo: set<Gene>, index: map<string, Gene>)
  {
    && (forall k :: k in index <==> exists g :: g in genes && g !in todo && g.id == k)
    && (forall k :: k in index ==> index[k].id == k && index[k].isSubunit)
    && (forall g :: g in genes && g !in todo && hasModel && FindGene(s0, g.id).Some? ==>
          g.id in index && index[g.id] == FindGene(s0, g.id).value)
    && (forall g :: g in genes && g !in todo && (!hasModel || FindGene(s0, g.id).None?) ==>
          g.id in index && (g.isSubunit ==> index[g.id] == g) &&
          (!g.isSubunit ==> index[g.id].pid == None && index[g.id].isPolypeptide))
  }

  /** The state the loop over the genes keeps: every subunit found so far knows the reaction;
      with a model, the model's subunits (`s0` at the start) are only extended, are all
      Subunits and include every subunit found, and the genes still to do see the ids as at
      the start. */
  ghost predicate SubunitsKept(r: Reaction, model: Model?, s0: seq<Gene>, todo: set<Gene>, index: map<string, Gene>)
    reads model, index.Values
  {
    && (forall k :: k in index ==> r in index[k].reactions)
    && (model != null ==>
      && s0 <= model.subunits
      && (forall x :: x in model.subunits ==> x.isSubunit)
      && (forall k :: k in index ==> index[k] in model.subunits)
      && (forall g :: g in todo ==> FindGene(model.subunits, g.id) == FindGene(s0, g.id)))
  }

  /** One more gene converted: it is added to `index` under its id as the subunit it became. */
  lemma {:induction false} ConvertedNext(hasModel: bool, s0: seq<Gene>, genes: set<Gene>, todo: set<Gene>,
                                         index: map<string, Gene>, g: Gene, su: Gene)
    requires g in todo && todo <= genes && DistinctGeneIds(genes)
    requires Converted(hasModel, s0, genes, todo, index)
    requires su.id == g.id && su.isSubunit
    requires hasModel && FindGene(s0, g.id).Some? ==> su == FindGene(s0, g.id).value
    requires !hasModel || FindGene(s0, g.id).None? ==>
      (g.isSubunit ==> su == g) && (!g.isSubunit ==> su.pid == None && su.isPolypeptide)
    ensures Converted(hasModel, s0, genes, todo - {g}, index[g.id := su])
  {
    forall h | h in genes && h != g
      ensures h.id != g.id
    {
      assert SameGeneId(h, g) ==> h == g;
    }
  }

  /** The gene `g` of those still to do, with the bookkeeping of the loop. */
  method NextGene(r: Reaction, model: Model?, genes: set<Gene>, todo: set<Gene>, index: map<string, Gene>, g: Gene,
                  ghost s0: seq<Gene>)
    returns (index': map<string, Gene>)
    requires g in todo && todo <= genes && DistinctGeneIds(genes)
    requires Converted(model != null, s0, genes, todo, index) && SubunitsKept(r, model, s0, todo, index)
    modifies (if model == null then {} else {model})`subunits, g`reactions, (set x | x in s0)`reactions
    ensures Converted(model != null, s0, genes, todo - {g}, index')
    ensures SubunitsKept(r, model, s0, todo - {g}, index')
    ensures index' == index[g.id := index'[g.id]]
    ensures !g.isSubunit && (model == null || FindGene(s0, g.id).None?) ==> fresh(index'[g.id])
    ensures model != null ==>
      || model.subunits == old(model.subunits)
      || (model.subunits == old(model.subunits) + [index'[g.id]] && (index'[g.id] == g || fresh(index'[g.id])))
  {
    var su := SubunitFor(r, model, g, set x | x in s0);
    index' := index[su.id := su];
    ConvertedNext(model != null, s0, genes, todo, index, g, su);
    if model != null && model.subunits != old(model.subunits) {
      forall h | h in todo - {g}
        ensures FindGene(model.subunits, h.id) == FindGene(s0, h.id)
      {
        FindGeneAppend(old(model.subunits), su, h.id);
        assert SameGeneId(g, h) ==> g == h;
      }
    }
  }

  /** The loop over the reaction's genes, in the set's own order: `_genes` becomes the set of
      subunits, indexed by id for the clauses (`subunit_id_to_object`). */
  method SubunitsFor(r: Reaction, model: Model?, genes: set<Gene>) returns (index: map<string, Gene>)
    requires DistinctGeneIds(genes)
    requires model != null ==> forall x :: x in model.subunits ==> x.isSubunit
    modifies r`genes, (if model == null then {} else {model})`subunits, genes`reactions, ModelSubunits(model)`reactions
    ensures Converted(model != null, old(if model == null then [] else model.subunits), genes, {}, index)
    ensures SubunitsKept(r, model, old(if model == null then [] else model.subunits), {}, index)
    ensures r.genes == index.Values
    ensures forall g :: g in genes && !g.isSubunit && (model == null || FindGene(old(model.subunits), g.id).None?) ==>
      fresh(index[g.id])
    ensures forall s :: s in index.Values ==> s in genes || s in old(ModelSubunits(model)) || fresh(s)
    ensures GeneIdSet(index.Values) == GeneIdSet(genes)
    ensures model != null ==> forall x :: x in model.subunits ==> x in old(model.subunits) || x in genes || fresh(x)
  {
    ghost var s0 := if model == null then [] else model.subunits;
    index := EachGene(r, model, genes);
    r.genes := index.Values;
    forall s | s in index.Values
      ensures s in genes || s in old(ModelSubunits(model)) || fresh(s)
    {
      var g :| g in genes && g.id == s.id;
      if model != null && FindGene(s0, g.id).Some? {
        assert s in old(ModelSubunits(model));
      }
    }
  }

  /** The loop of `SubunitsFor`. */
  method EachGene(r: Reaction, model: Model?, genes: set<Gene>) returns (index: map<string, Gene>)
    requires DistinctGeneIds(genes)
    requires model != null ==> forall x :: x in model.subunits ==> x.isSubunit
    modifies (if model == null then {} else {model})`subunits, genes`reactions, ModelSubunits(model)`reactions
    ensures Converted(model != null, old(if model == null then [] else model.subunits), genes, {}, index)
    ensures SubunitsKept(r, model, old(if model == null then [] else model.subunits), {}, index)
    ensures forall g :: g in genes && !g.isSubunit && (model == null || FindGene(old(model.subunits), g.id).None?) ==>
      fresh(index[g.id])
    ensures model != null ==> forall x :: x in model.subunits ==> x in old(model.subunits) || x in genes || fresh(x)
  {
    ghost var s0 := if model == null then [] else model.subunits;
    index := map[];
    var todo := genes;
    while todo != {}
      invariant todo <= genes
      invariant model != null ==> forall x :: x in model.subunits ==> x in s0 || x in genes || fresh(x)
      invariant Converted(model != null, s0, genes, todo, index) && SubunitsKept(r, model, s0, todo, index)
      invariant forall g :: g in genes && g !in todo && !g.isSubunit && (model == null || FindGene(s0, g.id).None?) ==>
        fresh(index[g.id])
      decreases |todo|
    {
      var g :| g in todo;
      index := NextGene(r, model, genes, todo, index, g, s0);
      forall h | h in genes && h != g
        ensures h.id != g.id
      {
        assert SameGeneId(h, g) ==> h == g;
      }
      todo := todo - {g};
    }
  }

  // ---------------------------------------------------------------------------
  // The reaction in its model
  // ---------------------------------------------------------------------------

  /** The index of the first reaction with the id, `|rs|` when there is none. */
  function FirstWithId(rs: seq<Reaction>, id: string): (j: nat)
    ensures j <= |rs|
    ensures forall i :: 0 <= i < j ==> rs[i].id != id
    ensures j < |rs| ==> rs[j].id == id
    decreases |rs|
  {
    if |rs| == 0 then 0
    else if rs[0].id == id then 0
    else 1 + FirstWithId(rs[1..], id)
  }

  /** `model.reactions.get_by_id(id)`, `None` for a KeyError. */
  function FindReaction(rs: seq<Reaction>, id: string): (r: Option<Reaction>)
    ensures r.Some? <==> exists x :: x in rs && x.id == id
    ensures r.Some? ==> r.value in rs && r.value.id == id
  {
    var j := FirstWithId(rs, id);
    if j < |rs| then Some(rs[j]) else None
  }

  /** `DictList._replace_on_id(x)`: the reaction holding `x`'s id is replaced by `x` in place. */
  function ReplaceOnId(rs: seq<Reaction>, x: Reaction): (out: seq<Reaction>)
    ensures |out| == |rs|
    ensures FindReaction(rs, x.id).Some? ==> x in out
    ensures forall i :: 0 <= i < |rs| && rs[i].id != x.id ==> out[i] == rs[i]
    ensures forall y :: y in out ==> y in rs || y == x
  {
    var j := FirstWithId(rs, x.id);
    if j < |rs| then assert rs[j := x][j] == x; rs[j := x] else rs
  }

  /** The model's part of the conversion: the old reaction of the same id is deleted and
      replaced by the converted one, which raises when the model has none; a model without the
      ME collections is given empty ones. */
  method ReplaceInModel(r: Reaction, model: Model) returns (res: Result<(), ConversionError>)
    modifies model`reactions, model`hasEnzymeCollections, model`subunits, model`complexes, model`catalysts
    modifies (if FindReaction(model.reactions, r.id).Some? then {FindReaction(model.reactions, r.id).value} else {})`model
    modifies (if FindReaction(model.reactions, r.id).Some? then {FindReaction(model.reactions, r.id).value} else {})`metabolites
    modifies (if FindReaction(model.reactions, r.id).Some? then {FindReaction(model.reactions, r.id).value} else {})`genes
    modifies (if FindReaction(model.reactions, r.id).Some? then FindReaction(model.reactions, r.id).value.metabolites.Keys else {})`reactions
    modifies (if FindReaction(model.reactions, r.id).Some? then FindReaction(model.reactions, r.id).value.genes else {})`reactions
    ensures res.Success? <==> exists x :: x in old(model.reactions) && x.id == r.id
    ensures res.Failure? ==> res.error == NotInModel(r.id) && model.reactions == old(model.reactions)
    ensures res.Success? ==> var p := FindReaction(old(model.reactions), r.id).value;
      && model.reactions == ReplaceOnId(old(model.reactions), r)
      && p.model == null && p.metabolites == map[] && p.genes == {}
      && (forall m :: m in old(p.metabolites) ==> m.reactions == old(m.reactions) - {p})
      && (forall g :: g in old(p.genes) ==> g.reactions == old(g.reactions) - {p})
    ensures res.Success? ==> model.hasEnzymeCollections
    ensures res.Success? && !old(model.hasEnzymeCollections) ==>
      model.subunits == [] && model.complexes == [] && model.catalysts == []
    ensures res.Failure? || old(model.hasEnzymeCollections) ==>
      && model.hasEnzymeCollections == old(model.hasEnzymeCollections)
      && model.subunits == old(model.subunits) && model.complexes == old(model.complexes)
      && model.catalysts == old(model.catalysts)
  {
    match FindReaction(model.reactions, r.id)
    case None =>
      return Failure(NotInModel(r.id));
    case Some(p) =>
      Reactions.Delete(p);
      model.reactions := ReplaceOnId(model.reactions, r);
      if !model.hasEnzymeCollections {
        model.hasEnzymeCollections := true;
        model.subunits := [];
        model.complexes := [];
        model.catalysts := [];
      }
      return Success(());
  }

  // ---------------------------------------------------------------------------
  // The conversion
  // ---------------------------------------------------------------------------

  /** The subunits and complexes of `model` beyond `s0` and `c0` are `genes` or new objects. */
  twostate predicate NewParts(model: Model, s0: seq<Gene>, c0: seq<Entry<Complex>>, genes: set<Gene>)
    reads model
  {
    && (forall x :: x in model.subunits ==> x in s0 || x in genes || fresh(x))
    && (forall e :: e in model.complexes ==> e in c0 || fresh(e.item))
  }

  /** What a conversion needs of the model: its complexes are keyed by their current ids and its
      subunits are all Subunits. */
  ghost predicate Tidy(model: Model)
    reads model, ComplexItems(model.complexes)
  {
    ComplexKeysCurrent(model.complexes) && forall x :: x in model.subunits ==> x.isSubunit
  }

  /** The compositions of the clauses compile against the genes with ids `ids`: every clause
      reads and names only those genes. */
  predicate Compiles(cs: seq<string>, ids: set<string>)
  {
    ParseClauses(cs).Success? && forall j :: 0 <= j < |cs| ==> ParseClauses(cs).value[j].Keys <= ids
  }

  /** The genes of the reaction become subunits, then each clause of its logic a complex. */
  method SubunitsAndComplexes(r: Reaction, model: Model?)
    returns (res: Result<(), ConversionError>, ghost index: map<string, Gene>, ghost made: seq<Complex>)
    requires r.logic.Some? && DistinctGeneIds(r.genes)
    requires model != null ==> ComplexKeysCurrent(model.complexes)
    requires model != null ==> forall x :: x in model.subunits ==> x.isSubunit
    modifies r`genes, r`complexes, (if model == null then {} else {model})`subunits
    modifies (if model == null then {} else {model})`complexes
    modifies r.genes`reactions, r.genes`complexes, ModelSubunits(model)`reactions, ModelSubunits(model)`complexes
    modifies ModelComplexes(model)`reactions
    ensures GeneIdSet(r.genes) == GeneIdSet(old(r.genes))
    ensures forall s :: s in r.genes ==> s.isSubunit && r in s.reactions
    ensures var cs := Clauses(r.logic.value);
      res.Success? <==> Compiles(cs, GeneIdSet(old(r.genes)))
    ensures res.Failure? && res.error.BadClause? ==> ParseClauses(Clauses(r.logic.value)).Failure?
    ensures res.Failure? && res.error.UnknownGene? ==> res.error.id !in GeneIdSet(old(r.genes))
    ensures res.Failure? ==> !res.error.NotInModel?
    ensures res.Success? ==>
      Built(r, model, index, Clauses(r.logic.value), |Clauses(r.logic.value)|, made, old(r.complexes))
    ensures model != null ==> NewParts(model, old(model.subunits), old(model.complexes), old(r.genes))
    ensures res.Success? && model != null ==> Tidy(model)
  {
    ghost var ids := GeneIdSet(r.genes);
    var subunits := SubunitsFor(r, model, r.genes);
    index := subunits;
    assert index.Keys == ids;
    res, made := BuildComplexes(r, model, subunits, Clauses(r.logic.value));
  }

  /** `CatalyzedReaction()` over a Reaction up to the complexes: the attributes of `src` are
      copied (`_copy_parent_attributes`), the metabolites re-added through `add_metabolites` so
      that they know the new reaction, the genes told about it, and the logic read from the
      gene rule with its outer parentheses stripped. */
  method CopyParent(src: Reaction) returns (r: Reaction)
    ensures fresh(r) && r.catalyzed && r.id == src.id && r.model == src.model
    ensures Reactions.AttributesOf(r) == Reactions.AttributesOf(src) && r.catalysts == src.catalysts
    ensures r.metabolites == map[] && r.genes == {} && r.complexes == src.complexes && r.logic == None
  {
    r := new Reaction.Copy(src.id, src.name, src.rule, src.lowerBound, src.upperBound, src.objectiveCoefficient,
                           map[], {}, src.model, true, src.catalysts, src.complexes, None);
  }

  /** `add_metabolites` of the source's metabolites into the copy, which holds none yet. */
  method LinkMetabolites(r: Reaction, src: Reaction)
    requires r.metabolites == map[] && forall g :: g in r.genes ==> r in g.reactions
    requires DistinctMetaboliteIds(src.metabolites.Keys)
    modifies r`metabolites, src.metabolites.Keys`reactions
    modifies (if r.model == null then {} else {r.model})`metabolites
    ensures DistinctMetaboliteIds(r.metabolites.Keys)
    ensures Stoichiometry.IdView(r.metabolites) == Stoichiometry.NonZero(Stoichiometry.IdView(src.metabolites))
    ensures r.metabolites.Keys <= src.metabolites.Keys
    ensures forall m :: m in r.metabolites ==> r in m.reactions
    ensures r.genes == old(r.genes)
  {
    var d := Reactions.EntriesOf(src.metabolites);
    Reactions.AddToEmpty(r, d);
  }

  /** The copy that the constructor starts from: the parent's attributes, the source's genes
      (which learn of the copy) and the logic of the stripped rule, but no metabolites yet. */
  method CopyWithGenes(src: Reaction) returns (r: Reaction)
    modifies src.genes`reactions
    ensures fresh(r) && r.catalyzed && r.id == src.id && r.model == src.model
    ensures Reactions.AttributesOf(r) == Reactions.AttributesOf(src)
    ensures r.catalysts == src.catalysts && r.complexes == src.complexes
    ensures r.logic == Some(StripOuterParens(src.rule)) && r.metabolites == map[]
    ensures r.genes == src.genes && forall g :: g in src.genes ==> g.reactions == old(g.reactions) + {r}
  {
    r := CopyParent(src);
    r.genes := src.genes;
    Reactions.JoinInGenes(r, src.genes);
    r.logic := Some(StripOuterParens(r.rule));
  }

  /** The reaction of the constructor, before the model and gene steps: the copy with genes,
      and the source's metabolites added to it. */
  method Prepare(src: Reaction) returns (r: Reaction)
    requires DistinctMetaboliteIds(src.metabolites.Keys)
    modifies src.metabolites.Keys`reactions, src.genes`reactions
    modifies (if src.model == null then {} else {src.model})`metabolites
    ensures fresh(r) && r.catalyzed && r.id == src.id && r.model == src.model
    ensures Reactions.AttributesOf(r) == Reactions.AttributesOf(src)
    ensures r.catalysts == src.catalysts && r.complexes == src.complexes
    ensures r.logic == Some(StripOuterParens(src.rule))
    ensures DistinctMetaboliteIds(r.metabolites.Keys)
    ensures Stoichiometry.IdView(r.metabolites) == Stoichiometry.NonZero(Stoichiometry.IdView(src.metabolites))
    ensures r.metabolites.Keys <= src.metabolites.Keys
    ensures forall m :: m in r.metabolites ==> r in m.reactions
    ensures r.genes == src.genes && forall g :: g in src.genes ==> g.reactions == old(g.reactions) + {r}
  {
    r := CopyWithGenes(src);
    LinkMetabolites(r, src);
  }

  /** The reaction of the model that `_old_reaction` names: the first one holding `id`. */
  function Previous(model: Model?, id: string): set<Reaction>
    reads model
  {
    if model != null && FindReaction(model.reactions, id).Some? then {FindReaction(model.reactions, id).value}
    else {}
  }

  /** There is no model, or it holds a reaction with the id `id`. */
  predicate InModel(model: Model?, id: string)
    reads model
  {
    model == null || exists x :: x in model.reactions && x.id == id
  }

  /** The first half of `__create_catalytic_reaction`: with a model, the reaction of `r`'s id
      is deleted and replaced by `r`, and the enzyme collections are created when missing. */
  method ModelStep(r: Reaction) returns (res: Result<(), ConversionError>)
    requires r.model != null ==> r !in r.model.reactions
    modifies (if r.model == null then {} else {r.model})`reactions, (if r.model == null then {} else {r.model})`hasEnzymeCollections
    modifies (if r.model == null then {} else {r.model})`subunits, (if r.model == null then {} else {r.model})`complexes
    modifies (if r.model == null then {} else {r.model})`catalysts
    modifies Previous(r.model, r.id)`model, Previous(r.model, r.id)`metabolites, Previous(r.model, r.id)`genes
    modifies (set p, m | p in Previous(r.model, r.id) && m in p.metabolites :: m)`reactions
    modifies (set p, g | p in Previous(r.model, r.id) && g in p.genes :: g)`reactions
    ensures r.model == old(r.model) && r.metabolites == old(r.metabolites) && r.logic == old(r.logic)
    ensures r.genes == old(r.genes) && r.complexes == old(r.complexes)
    ensures r.catalyzed == old(r.catalyzed) && r.catalysts == old(r.catalysts)
    ensures Reactions.AttributesOf(r) == old(Reactions.AttributesOf(r))
    ensures forall m :: m in r.metabolites && r in old(m.reactions) ==> r in m.reactions
    ensures res.Success? <==> old(InModel(r.model, r.id))
    ensures res.Failure? ==> res.error == NotInModel(r.id)
    ensures res.Success? && r.model != null ==>
      && r.model.reactions == ReplaceOnId(old(r.model.reactions), r) && r.model.hasEnzymeCollections
    ensures r.model != null ==>
      && (r.model.complexes == old(r.model.complexes) || r.model.complexes == [])
      && (r.model.subunits == old(r.model.subunits) || r.model.subunits == [])
  {
    var model := r.model;
    res := Success(());
    if model != null {
      res := ReplaceInModel(r, model);
    }
  }

  /** The parts of a reaction that building its subunits and complexes leaves alone. */
  datatype Kept = Kept(model: Model?, metabolites: map<Metabolite, real>, logic: Option<string>,
                       catalyzed: bool, catalysts: set<Catalyst>, attributes: Reactions.Attributes)

  function KeptOf(r: Reaction): Kept
    reads r`model, r`metabolites, r`logic, r`catalyzed, r`catalysts
    reads r`name, r`rule, r`lowerBound, r`upperBound, r`objectiveCoefficient
  {
    Kept(r.model, r.metabolites, r.logic, r.catalyzed, r.catalysts, Reactions.AttributesOf(r))
  }

  /** The second half of `__create_catalytic_reaction`: a reaction without genes is left as it
      is; otherwise its genes become subunits and the clauses of its logic complexes. */
  method GeneStep(r: Reaction, model: Model?) returns (res: Result<(), ConversionError>, ghost index: map<string, Gene>, ghost made: seq<Complex>)
    requires r.logic.Some? && DistinctGeneIds(r.genes)
    requires model != null ==> ComplexKeysCurrent(model.complexes)
    requires model != null ==> forall x :: x in model.subunits ==> x.isSubunit
    modifies r`genes, r`complexes, (if model == null then {} else {model})`subunits
    modifies (if model == null then {} else {model})`complexes
    modifies r.genes`reactions, r.genes`complexes, ModelSubunits(model)`reactions, ModelSubunits(model)`complexes
    modifies ModelComplexes(model)`reactions
    ensures KeptOf(r) == old(KeptOf(r))
    ensures model != null ==> model.reactions == old(model.reactions)
    ensures forall m :: m in r.metabolites ==> m.reactions == old(m.reactions)
    ensures res.Success? <==> old(r.genes) == {} || Compiles(Clauses(r.logic.value), GeneIdSet(old(r.genes)))
    ensures res.Failure? && res.error.BadClause? ==> ParseClauses(Clauses(r.logic.value)).Failure?
    ensures res.Failure? && res.error.UnknownGene? ==> res.error.id !in GeneIdSet(old(r.genes))
    ensures res.Failure? ==> !res.error.NotInModel?
    ensures res.Success? && old(r.genes) == {} ==> r.genes == {} && r.complexes == old(r.complexes)
    ensures res.Success? && old(r.genes) != {} ==>
      && GeneIdSet(r.genes) == GeneIdSet(old(r.genes))
      && (forall s :: s in r.genes ==> s.isSubunit && r in s.reactions)
      && Built(r, model, index, Clauses(r.logic.value), |Clauses(r.logic.value)|, made, old(r.complexes))
    ensures model != null ==> NewParts(model, old(model.subunits), old(model.complexes), old(r.genes))
    ensures res.Success? && model != null && old(Tidy(model)) ==> Tidy(model)
  {
    index, made := map[], [];
    if r.genes == {} {
      res := Success(());
      return;
    }
    res, index, made := SubunitsAndComplexes(r, model);
  }

  /** `__create_catalytic_reaction`: the model step, then the gene step; a missing reaction in
      the model stops the conversion before the genes are touched. */
  method CreateCatalytic(r: Reaction) returns (res: Result<(), ConversionError>, ghost index: map<string, Gene>, ghost made: seq<Complex>)
    requires r.logic.Some? && DistinctGeneIds(r.genes)
    requires r.model != null ==> r !in r.model.reactions && ComplexKeysCurrent(r.model.complexes)
    requires r.model != null ==> forall x :: x in r.model.subunits ==> x.isSubunit
    modifies r`genes, r`complexes, r.genes`reactions, r.genes`complexes
    modifies (if r.model == null then {} else {r.model})`reactions, (if r.model == null then {} else {r.model})`hasEnzymeCollections
    modifies (if r.model == null then {} else {r.model})`subunits, (if r.model == null then {} else {r.model})`complexes
    modifies (if r.model == null then {} else {r.model})`catalysts
    modifies Previous(r.model, r.id)`model, Previous(r.model, r.id)`metabolites, Previous(r.model, r.id)`genes
    modifies (set p, m | p in Previous(r.model, r.id) && m in p.metabolites :: m)`reactions
    modifies (set p, g | p in Previous(r.model, r.id) && g in p.genes :: g)`reactions
    modifies ModelSubunits(r.model)`reactions, ModelSubunits(r.model)`complexes, ModelComplexes(r.model)`reactions
    ensures r.model == old(r.model) && r.metabolites == old(r.metabolites) && r.logic == old(r.logic)
    ensures r.catalyzed == old(r.catalyzed) && r.catalysts == old(r.catalysts)
    ensures Reactions.AttributesOf(r) == old(Reactions.AttributesOf(r))
    ensures forall m :: m in r.metabolites && r in old(m.reactions) ==> r in m.reactions
    ensures res.Success? <==>
      old(InModel(r.model, r.id)) &&
      (old(r.genes) == {} || Compiles(Clauses(r.logic.value), GeneIdSet(old(r.genes))))
    ensures res.Failure? && res.error.NotInModel? ==> !old(InModel(r.model, r.id)) && res.error.id == r.id
    ensures res.Failure? && res.error.BadClause? ==> ParseClauses(Clauses(r.logic.value)).Failure?
    ensures res.Failure? && res.error.UnknownGene? ==> res.error.id !in GeneIdSet(old(r.genes))
    ensures res.Success? && r.model != null ==> r.model.reactions == ReplaceOnId(old(r.model.reactions), r)
    ensures res.Success? && r.model != null ==> r.model.hasEnzymeCollections
    ensures res.Success? && old(r.genes) == {} ==> r.genes == {} && r.complexes == old(r.complexes)
    ensures res.Success? && old(r.genes) != {} ==>
      && GeneIdSet(r.genes) == GeneIdSet(old(r.genes))
      && (forall s :: s in r.genes ==> s.isSubunit && r in s.reactions)
      && Built(r, r.model, index, Clauses(r.logic.value), |Clauses(r.logic.value)|, made, old(r.complexes))
    ensures r.model != null ==> NewParts(r.model, old(r.model.subunits), old(r.model.complexes), old(r.genes))
    ensures res.Success? && r.model != null ==> Tidy(r.model)
  {
    index, made := map[], [];
    res := ModelStep(r);
    if res.Failure? {
      return;
    }
    res, index, made := GeneStep(r, r.model);
  }

  /** `CatalyzedReaction(src)` for a Reaction `src`: a catalysed copy of `src` whose genes are
      Subunits and whose complexes are those of the clauses of its gene rule; with a model, the
      copy takes the place of `src`'s id in the model. The constructor's exceptions are failures. */
  method Convert(src: Reaction) returns (res: Result<Reaction, ConversionError>, ghost index: map<string, Gene>, ghost made: seq<Complex>)
    requires DistinctMetaboliteIds(src.metabolites.Keys) && DistinctGeneIds(src.genes)
    requires src.model != null ==> ComplexKeysCurrent(src.model.complexes)
    requires src.model != null ==> forall x :: x in src.model.subunits ==> x.isSubunit
    modifies src.metabolites.Keys`reactions, src.genes`reactions, src.genes`complexes
    modifies (if src.model == null then {} else {src.model})`metabolites, (if src.model == null then {} else {src.model})`reactions
    modifies (if src.model == null then {} else {src.model})`hasEnzymeCollections
    modifies (if src.model == null then {} else {src.model})`subunits, (if src.model == null then {} else {src.model})`complexes
    modifies (if src.model == null then {} else {src.model})`catalysts
    modifies Previous(src.model, src.id)`model, Previous(src.model, src.id)`metabolites, Previous(src.model, src.id)`genes
    modifies (set p, m | p in Previous(src.model, src.id) && m in p.metabolites :: m)`reactions
    modifies (set p, g | p in Previous(src.model, src.id) && g in p.genes :: g)`reactions
    modifies ModelSubunits(src.model)`reactions, ModelSubunits(src.model)`complexes, ModelComplexes(src.model)`reactions
    ensures res.Success? <==>
      old(InModel(src.model, src.id)) &&
      (old(src.genes) == {} || Compiles(Clauses(StripOuterParens(old(src.rule))), GeneIdSet(old(src.genes))))
    ensures res.Failure? && res.error.NotInModel? ==> !old(InModel(src.model, src.id)) && res.error.id == src.id
    ensures res.Failure? && res.error.BadClause? ==> ParseClauses(Clauses(StripOuterParens(old(src.rule)))).Failure?
    ensures res.Failure? && res.error.UnknownGene? ==> res.error.id !in GeneIdSet(old(src.genes))
    ensures res.Success? ==> var r := res.value;
      && fresh(r) && r.catalyzed && r.id == src.id && r.model == old(src.model)
      && Reactions.AttributesOf(r) == old(Reactions.AttributesOf(src)) && r.catalysts == old(src.catalysts)
      && r.logic == Some(StripOuterParens(old(src.rule)))
    ensures res.Success? ==> var r := res.value;
      && DistinctMetaboliteIds(r.metabolites.Keys)
      && Stoichiometry.IdView(r.metabolites) == Stoichiometry.NonZero(Stoichiometry.IdView(old(src.metabolites)))
      && (forall m :: m in r.metabolites ==> r in m.reactions)
    ensures res.Success? && old(src.model) != null ==> old(src.model).reactions == ReplaceOnId(old(src.model.reactions), res.value)
    ensures res.Success? && old(src.genes) == {} ==> res.value.genes == {} && res.value.complexes == old(src.complexes)
    ensures res.Success? && old(src.genes) != {} ==> var r := res.value;
      && GeneIdSet(r.genes) == GeneIdSet(old(src.genes))
      && (forall s :: s in r.genes ==> s.isSubunit && r in s.reactions)
      && Built(r, r.model, index, Clauses(StripOuterParens(old(src.rule))), |Clauses(StripOuterParens(old(src.rule)))|, made, old(src.complexes))
    ensures old(src.model) != null ==>
      NewParts(old(src.model), old(src.model.subunits), old(src.model.complexes), old(src.genes))
    ensures res.Success? && old(src.model) != null ==> Tidy(old(src.model))
  {
    var r := Prepare(src);
    assert src.rule == old(src.rule) && src.genes == old(src.genes) && src.complexes == old(src.complexes);
    assert src.model == old(src.model) && (src.model != null ==>
      src.model.reactions == old(src.model.reactions) && src.model.subunits == old(src.model.subunits) &&
      src.model.complexes == old(src.model.complexes));
    var created;
    created, index, made := CreateCatalytic(r);
    if created.Failure? {
      return Failure(created.error), index, made;
    }
    res := Success(r);
  }

  /** The complexes a successful conversion adds are named by the clauses: the reaction's
      complex ids are those it had plus the id of each clause's composition, and each of the
      added complexes knows the reaction. */
  lemma {:induction false} BuiltIds(r: Reaction, model: Model?, index: map<string, Gene>, cs: seq<string>,
                                    made: seq<Complex>, before: set<Complex>)
    requires Built(r, model, index, cs, |cs|, made, before)
    ensures ParseClauses(cs).Success?
    ensures Ids(r.complexes) == Ids(before) + set j | 0 <= j < |cs| :: ComplexId(ParseClauses(cs).value[j])
    ensures forall c :: c in r.complexes && c !in before ==> r in c.reactions
  {
    assert cs[..|cs|] == cs;
    var p := ParseClauses(cs).value;
    var ids := ComplexIds(p);
    AttachedIds(r, model, ids, made, before);
    var clauseIds := set j | 0 <= j < |cs| :: ComplexId(p[j]);
    forall k | k in clauseIds
      ensures k in set j | 0 <= j < |ids| :: ids[j]
    {
      var j :| 0 <= j < |cs| && k == ComplexId(p[j]);
      assert k == ids[j];
    }
    forall k | k in set j | 0 <= j < |ids| :: ids[j]
      ensures k in clauseIds
    {
      var j :| 0 <= j < |ids| && k == ids[j];
      assert k == ComplexId(p[j]);
    }
  }

  /** The ids of the complexes attached by clauses with the ids `ids`. */
  lemma {:induction false} AttachedIds(r: Reaction, model: Model?, ids: seq<string>, made: seq<Complex>, before: set<Complex>)
    requires Attached(r, model, ids, made, before)
    ensures Ids(r.complexes) == Ids(before) + set j | 0 <= j < |ids| :: ids[j]
    ensures forall c :: c in r.complexes && c !in before ==> r in c.reactions
  {
    var clauseIds := set j | 0 <= j < |ids| :: ids[j];
    forall k | k in Ids(r.complexes)
      ensures k in Ids(before) + clauseIds
    {
      var c :| c in r.complexes && c.id == k;
      if c !in before {
        var j :| 0 <= j < |made| && made[j] == c;
        assert k == ids[j];
      }
    }
    forall k | k in Ids(before) + clauseIds
      ensures k in Ids(r.complexes)
    {
      if k !in Ids(before) {
        var j :| 0 <= j < |ids| && k == ids[j];
        assert made[j] in r.complexes;
      }
    }
  }

  // ---------------------------------------------------------------------------
  // guided_copy
  // ---------------------------------------------------------------------------

  /** An id table of the copy procedure: each complex stored under its id. */
  ghost predicate ComplexTable(t: map<string, Complex>)
    reads t.Values
  {
    forall k :: k in t ==> t[k].id == k
  }

  /** The table's complexes of the ids of `cxs`. */
  function Mapped(cxs: set<Complex>, t: map<string, Complex>): set<Complex>
    reads cxs`id
  {
    set x | x in cxs && x.id in t :: t[x.id]
  }

  /** The catalysts of a set of complexes (their `_catalysts`). */
  function CatalystsOf(cxs: set<Complex>): set<Catalyst>
    reads cxs`catalysts
  {
    set k, x | x in cxs && k in x.catalysts :: k
  }

  /** The subunits of a set of complexes (the keys of their `_subunits`). */
  function SubunitsOf(cxs: set<Complex>): set<Gene>
    reads cxs`subunits
  {
    set g, x | x in cxs && g in x.subunits :: g
  }

  /** Records `r` in the `_reaction` set of each of `ks`. */
  method JoinInCatalysts(r: Reaction, ks: set<Catalyst>)
    modifies ks`reactions
    ensures forall k :: k in ks ==> k.reactions == old(k.reactions) + {r}
  {
    var todo := ks;
    while todo != {}
      invariant todo <= ks
      invariant forall k :: k in todo ==> k.reactions == old(k.reactions)
      invariant forall k :: k in ks && k !in todo ==> k.reactions == old(k.reactions) + {r}
      decreases |todo|
    {
      var k :| k in todo;
      k.reactions := k.reactions + {r};
      todo := todo - {k};
    }
  }

  /** One complex of the loop of `guided_copy`: the copy and the model's complex learn of each
      other, and so do the copy and each catalyst and subunit of that complex. */
  method AttachCopy(c: Reaction, mc: Complex, ghost xs: set<Complex>, ghost ks: set<Catalyst>, ghost gs: set<Gene>)
    requires (forall x :: x in xs ==> c in x.reactions) && (forall k :: k in ks ==> c in k.reactions)
    requires forall g :: g in gs ==> c in g.reactions
    modifies c`complexes, c`catalysts, c`genes, mc`reactions, mc.catalysts`reactions, mc.subunits.Keys`reactions
    ensures (forall x :: x in xs + {mc} ==> c in x.reactions) && (forall k :: k in ks + mc.catalysts ==> c in k.reactions)
    ensures forall g :: g in gs + mc.subunits.Keys ==> c in g.reactions
    ensures c.complexes == old(c.complexes) + {mc}
    ensures c.catalysts == old(c.catalysts) + mc.catalysts
    ensures c.genes == old(c.genes) + mc.subunits.Keys
    ensures mc.reactions == old(mc.reactions) + {c}
    ensures forall k :: k in mc.catalysts ==> k.reactions == old(k.reactions) + {c}
    ensures forall g :: g in mc.subunits ==> g.reactions == old(g.reactions) + {c}
  {
    mc.reactions := mc.reactions + {c};
    c.complexes := c.complexes + {mc};
    AttachCatalysts(c, mc.catalysts, ks);
    AttachGenes(c, mc.subunits.Keys, gs);
  }

  /** The copy and each catalyst of a complex learn of each other. */
  method AttachCatalysts(c: Reaction, cs: set<Catalyst>, ghost ks: set<Catalyst>)
    requires forall k :: k in ks ==> c in k.reactions
    modifies c`catalysts, cs`reactions
    ensures forall k :: k in ks + cs ==> c in k.reactions
    ensures c.catalysts == old(c.catalysts) + cs
    ensures forall k :: k in cs ==> k.reactions == old(k.reactions) + {c}
  {
    JoinInCatalysts(c, cs);
    c.catalysts := c.catalysts + cs;
  }

  /** The copy and each subunit of a complex learn of each other. */
  method AttachGenes(c: Reaction, us: set<Gene>, ghost gs: set<Gene>)
    requires forall g :: g in gs ==> c in g.reactions
    modifies c`genes, us`reactions
    ensures forall g :: g in gs + us ==> c in g.reactions
    ensures c.genes == old(c.genes) + us
    ensures forall g :: g in us ==> g.reactions == old(g.reactions) + {c}
  {
    Reactions.JoinInGenes(c, us);
    c.genes := c.genes + us;
  }

  /** The set of complexes grows by one: so do the mapped complexes. */
  lemma {:induction false} MappedInsert(done: set<Complex>, x: Complex, t: map<string, Complex>)
    requires x.id in t
    ensures Mapped(done + {x}, t) == Mapped(done, t) + {t[x.id]}
  {
  }

  /** Union is associative. */
  lemma {:induction false} UnionAssoc<T>(a: set<T>, b: set<T>, c: set<T>)
    ensures a + b + c == a + (b + c)
  {
  }

  /** A set of complexes with one more complex: its catalysts and subunits join. */
  lemma {:induction false} MembersInsert(cxs: set<Complex>, y: Complex)
    ensures CatalystsOf(cxs + {y}) == CatalystsOf(cxs) + y.catalysts
    ensures SubunitsOf(cxs + {y}) == SubunitsOf(cxs) + y.subunits.Keys
  {
  }

  /** The state the loop of `guided_copy` keeps once the complexes `done` are handled: the copy's
      complexes are the table's complexes of their ids, its catalysts `base` and theirs, its
      genes their subunits, and each of these knows the copy. */
  ghost predicate CopiedComplexes(c: Reaction, base: set<Catalyst>, done: set<Complex>, t: map<string, Complex>)
    reads c, done`id, t.Values`catalysts, t.Values`subunits, t.Values`reactions
    reads CatalystsOf(t.Values)`reactions, SubunitsOf(t.Values)`reactions
  {
    && c.complexes == Mapped(done, t)
    && c.catalysts == base + CatalystsOf(c.complexes)
    && c.genes == SubunitsOf(c.complexes)
    && (forall x :: x in c.complexes ==> c in x.reactions)
    && (forall k :: k in CatalystsOf(c.complexes) ==> c in k.reactions)
    && (forall g :: g in c.genes ==> c in g.reactions)
  }

  /** The catalysts and subunits of one of a set of complexes are among those of the set. */
  lemma {:induction false} MembersOf(cxs: set<Complex>, y: Complex)
    requires y in cxs
    ensures y.catalysts <= CatalystsOf(cxs) && y.subunits.Keys <= SubunitsOf(cxs)
  {
  }

  /** Moving `x` from the remaining elements to the handled ones. */
  lemma {:induction false} DoneStep<T>(all: set<T>, todo: set<T>, x: T)
    requires x in todo && todo <= all
    ensures (all - todo) + {x} == all - (todo - {x})
  {
  }

  /** The body of the loop of `guided_copy` for the complex `x`. */
  method NextCopy(c: Reaction, ghost base: set<Catalyst>, ghost done: set<Complex>, t: map<string, Complex>, x: Complex,
                  ghost kept: set<Gene>)
    requires x.id in t && CopiedComplexes(c, base, done, t)
    requires forall g :: g in kept ==> c in g.reactions
    modifies c`complexes, c`catalysts, c`genes, {t[x.id]}`reactions, t[x.id].catalysts`reactions
    modifies t[x.id].subunits.Keys`reactions
    ensures CopiedComplexes(c, base, done + {x}, t)
    ensures forall g :: g in kept ==> c in g.reactions
  {
    var mc := t[x.id];
    ghost var a := c.complexes;
    MappedInsert(done, x, t);
    ghost var m1 := Mapped(done + {x}, t);
    assert m1 == a + {mc};
    ghost var ka, ga := CatalystsOf(a), SubunitsOf(a);
    AttachCopy(c, mc, a, ka, c.genes + kept);
    assert CatalystsOf(a) == ka && SubunitsOf(a) == ga && Mapped(done + {x}, t) == m1;
    MembersInsert(a, mc);
    UnionAssoc(base, ka, mc.catalysts);
  }

  /** The loop of `guided_copy`: the copy's complexes and genes are emptied, then each complex
      `x` of the source is replaced by the table's complex of its id. */
  method CopyComplexes(c: Reaction, cxs: set<Complex>, t: map<string, Complex>, ghost kept: set<Gene>)
    requires forall x :: x in cxs ==> x.id in t
    requires forall g :: g in kept ==> c in g.reactions
    modifies c`complexes, c`catalysts, c`genes, Mapped(cxs, t)`reactions
    modifies CatalystsOf(Mapped(cxs, t))`reactions, SubunitsOf(Mapped(cxs, t))`reactions
    ensures CopiedComplexes(c, old(c.catalysts), cxs, t)
    ensures forall g :: g in kept ==> c in g.reactions
    ensures Reactions.AttributesOf(c) == old(Reactions.AttributesOf(c)) && c.model == old(c.model)
    ensures c.catalyzed == old(c.catalyzed) && c.logic == old(c.logic) && c.metabolites == old(c.metabolites)
    ensures forall m {:trigger m.reactions} :: m in c.metabolites ==> m.reactions == old(m.reactions)
  {
    CopyEach(c, cxs, t, kept);
  }

  /** The loop of `CopyComplexes`. */
  method CopyEach(c: Reaction, cxs: set<Complex>, t: map<string, Complex>, ghost kept: set<Gene>)
    requires forall x :: x in cxs ==> x.id in t
    requires forall g :: g in kept ==> c in g.reactions
    modifies c`complexes, c`catalysts, c`genes, Mapped(cxs, t)`reactions
    modifies CatalystsOf(Mapped(cxs, t))`reactions, SubunitsOf(Mapped(cxs, t))`reactions
    ensures CopiedComplexes(c, old(c.catalysts), cxs, t)
    ensures forall g :: g in kept ==> c in g.reactions
  {
    ghost var base := c.catalysts;
    ghost var m := Mapped(cxs, t);
    ghost var ks, gs := CatalystsOf(m), SubunitsOf(m);
    c.complexes, c.genes := {}, {};
    var todo := cxs;
    ghost var done := {};
    while todo != {}
      invariant todo <= cxs && done == cxs - todo
      invariant CopiedComplexes(c, base, done, t)
      invariant forall g :: g in kept ==> c in g.reactions
      decreases |todo|
    {
      var x :| x in todo;
      MembersOf(m, t[x.id]);
      NextCopy(c, base, done, t, x, kept);
      DoneStep(cxs, todo, x);
      todo, done := todo - {x}, done + {x};
    }
  }

  /** `CatalyzedReaction.guided_copy(model, metabolite_dict, subunit_dict, modification_dict,
      complex_dict)`: `Reaction.guided_copy` with the subunits as the gene table, then the
      complexes, catalysts and genes of the copy rebuilt from the table's complexes of the ids of
      the source's complexes. The modification table is not used. */
  method GuidedCopy(src: Reaction, model: Model?, metabolites: map<string, Metabolite>,
                    subunits: map<string, Gene>, complexes: map<string, Complex>) returns (c: Reaction)
    requires DistinctMetaboliteIds(src.metabolites.Keys) && Reactions.MetaboliteTable(metabolites)
    requires forall m :: m in src.metabolites ==> m.id in metabolites
    requires Reactions.GeneTable(subunits) && (subunits != map[] ==> forall g :: g in src.genes ==> g.id in subunits)
    requires forall x :: x in src.complexes ==> x.id in complexes
    modifies Reactions.Repoint(src.metabolites, metabolites).Keys`reactions
    modifies Reactions.CopiedGenes(src.genes, subunits)`reactions
    modifies Mapped(src.complexes, complexes)`reactions, CatalystsOf(Mapped(src.complexes, complexes))`reactions
    modifies SubunitsOf(Mapped(src.complexes, complexes))`reactions
    ensures fresh(c) && c.id == src.id && c.model == model
    ensures c.catalyzed == old(src.catalyzed) && c.logic == old(src.logic)
    ensures Reactions.AttributesOf(c) == old(Reactions.AttributesOf(src))
    ensures c.metabolites == old(Reactions.Repoint(src.metabolites, metabolites))
    ensures CopiedComplexes(c, old(src.catalysts), old(src.complexes), complexes)
    ensures c.Valid()
    ensures forall g :: g in Reactions.CopiedGenes(old(src.genes), subunits) ==> c in g.reactions
  {
    ghost var copied := Reactions.CopiedGenes(src.genes, subunits);
    c := Reactions.GuidedCopy(src, model, metabolites, subunits);
    assert c.genes == copied;
    CopyComplexes(c, src.complexes, complexes, copied);
    assert forall g :: g in copied ==> c in g.reactions;
  }

  /** Through an id table, the copied complexes carry the ids of the source's. */
  lemma {:induction false} MappedIds(cxs: set<Complex>, t: map<string, Complex>)
    requires ComplexTable(t) && forall x :: x in cxs ==> x.id in t
    ensures Ids(Mapped(cxs, t)) == Ids(cxs)
  {
    forall k | k in Ids(cxs)
      ensures k in Ids(Mapped(cxs, t))
    {
      var x :| x in cxs && x.id == k;
      assert t[x.id] in Mapped(cxs, t);
    }
  }
}
