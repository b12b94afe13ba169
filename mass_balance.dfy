/** `Reaction.check_mass_balance`: for every chemical element, the sum over the metabolites that
    have a formula of coefficient times number of atoms; the reaction is balanced when the
    absolute values of these residuals add up to 0. */
module MassBalance {
  import opened Wrappers
  import opened Graph
  import opened Stoichiometry

  /** What the check reads of one metabolite: its formula, if any, and its coefficient. */
  datatype Term = Term(formula: Option<Formula>, coefficient: real)

  type Terms = map<Metabolite, Term>

  /** The terms of a reaction's `_metabolites`. */
  function TermsOf(s: Stoich): (t: Terms)
    ensures t.Keys == s.Keys
    ensures forall m :: m in s ==> t[m].coefficient == s[m]
  {
    map m | m in s :: Term(m.formula, s[m])
  }

  /** The result of the check: `[]`, or `[id, residuals]`. */
  datatype Balance = Balanced | Unbalanced(id: string, residuals: map<string, real>)

  // ----- Sums over maps -----

  /** The sum of the values of a map, in no particular order. */
  ghost function SumValues<K>(m: map<K, real>): real
    decreases |m|
  {
    if m == map[] then 0.0
    else
      var k :| k in m;
      m[k] + SumValues(m - {k})
  }

  /** Any key can be taken out first. */
  lemma {:induction false} SumValuesRemove<K>(m: map<K, real>, k: K)
    requires k in m
    ensures SumValues(m) == m[k] + SumValues(m - {k})
    decreases |m|
  {
    var j :| j in m && SumValues(m) == m[j] + SumValues(m - {j});
    if j != k {
      SumValuesRemove(m - {j}, k);
      SumValuesRemove(m - {k}, j);
      assert m - {j} - {k} == m - {k} - {j};
    }
  }

  /** A sum of values that are not negative is not negative, and it is 0 exactly when every
      value is 0. */
  lemma {:induction false} SumValuesZero<K>(m: map<K, real>)
    requires forall x :: x in m ==> m[x] >= 0.0
    ensures SumValues(m) >= 0.0
    ensures SumValues(m) == 0.0 <==> forall x :: x in m ==> m[x] == 0.0
    decreases |m|
  {
    if m != map[] {
      var k :| k in m;
      SumValuesRemove(m, k);
      SumValuesZero(m - {k});
      if SumValues(m) == 0.0 {
        forall x | x in m
          ensures m[x] == 0.0
        {
          if x != k {
            assert x in m - {k};
          }
        }
      }
    }
  }

  // ----- The specification -----

  /** The value of a map of floats, 0 for a missing key, at `e`. */
  function Get(res: map<string, real>, e: string): real
  {
    if e in res then res[e] else 0.0
  }

  /** The atoms of a formula, each multiplied by the coefficient `c`. */
  function Weighted(f: Formula, c: real): (w: map<string, real>)
    ensures w.Keys == f.Keys
    ensures forall e :: e in f ==> w[e] == c * (f[e] as real)
  {
    map e | e in f :: c * (f[e] as real)
  }

  /** What one metabolite adds to the residual of element `e`. */
  function Contribution(term: Term, e: string): real
  {
    match term.formula
    case Some(f) => Get(Weighted(f, term.coefficient), e)
    case None => 0.0
  }

  /** The contribution of every term to element `e`. */
  function Contributions(t: Terms, e: string): (c: map<Metabolite, real>)
    ensures c.Keys == t.Keys
    ensures forall m :: m in t ==> c[m] == Contribution(t[m], e)
  {
    map m | m in t :: Contribution(t[m], e)
  }

  /** The residual of element `e`: the sum of the contributions of all terms. */
  ghost function AtomSum(t: Terms, e: string): real
  {
    SumValues(Contributions(t, e))
  }

  /** The elements of the formulas of the terms: the keys the `defaultdict` ends with. */
  function ElementsOf(t: Terms): (r: set<string>)
    ensures forall e :: e in r <==> exists m :: m in t && t[m].formula.Some? && e in t[m].formula.value
  {
    set m, e | m in t && t[m].formula.Some? && e in t[m].formula.value :: e
  }

  /** The residual of every element that occurs in a formula. */
  ghost function Residuals(t: Terms): (res: map<string, real>)
    ensures res.Keys == ElementsOf(t)
    ensures forall e :: e in res ==> res[e] == AtomSum(t, e)
  {
    map e | e in ElementsOf(t) :: AtomSum(t, e)
  }

  function AbsValues(res: map<string, real>): map<string, real>
  {
    map e | e in res :: Abs(res[e])
  }

  /** `check_mass_balance()` of a reaction with id `id` and terms `t`. */
  ghost function MassBalance(id: string, t: Terms): Balance
  {
    var res := Residuals(t);
    if SumValues(AbsValues(res)) != 0.0 then Unbalanced(id, res) else Balanced
  }

  // ----- The implementation -----

  /** `check_mass_balance()`. */
  method CheckMassBalance(r: Reaction) returns (b: Balance)
    ensures b == MassBalance(r.id, TermsOf(r.metabolites))
  {
    var t := TermsOf(r.metabolites);
    var res := ElementSums(t);
    var total := AbsTotal(res);
    b := if total != 0.0 then Unbalanced(r.id, res) else Balanced;
  }

  /** The loop that fills `reaction_element_dict` and sums each of its lists. */
  method ElementSums(t: Terms) returns (res: map<string, real>)
    ensures res == Residuals(t)
  {
    res := map[];
    var todo := t.Keys;
    assert t - todo == map[];
    AtomSumEmpty();
    while todo != {}
      invariant todo <= t.Keys
      invariant forall e :: e in res <==> e in ElementsOf(t - todo)
      invariant forall e :: Get(res, e) == AtomSum(t - todo, e)
      decreases |todo|
    {
      var m :| m in todo;
      AtomSumStep(t, todo, m);
      var term := t[m];
      match term.formula {
        case Some(f) => res := AddFormula(res, f, term.coefficient);
        case None =>
      }
      todo := todo - {m};
    }
    assert t - todo == t;
    ResidualsExt(t, res);
  }

  /** The comprehension over the formula of one metabolite: add `c` times each atom count. */
  method AddFormula(res: map<string, real>, f: Formula, c: real) returns (out: map<string, real>)
    ensures out.Keys == res.Keys + f.Keys
    ensures forall e :: Get(out, e) == Get(res, e) + Get(Weighted(f, c), e)
  {
    ghost var w := Weighted(f, c);
    out := res;
    var todo := f.Keys;
    while todo != {}
      invariant todo <= f.Keys
      invariant forall e :: e in out <==> e in res || (e in f && e !in todo)
      invariant forall e :: e !in todo ==> Get(out, e) == Get(res, e) + Get(w, e)
      invariant forall e :: e in todo ==> Get(out, e) == Get(res, e)
      decreases |todo|
    {
      var k :| k in todo;
      var v := c * (f[k] as real);
      var next := out[k := Get(out, k) + v];
      forall e
        ensures e in next <==> e in res || (e in f && e !in todo - {k})
        ensures e !in todo - {k} ==> Get(next, e) == Get(res, e) + Get(w, e)
        ensures e in todo - {k} ==> Get(next, e) == Get(res, e)
      {
        if e != k {
          assert Get(next, e) == Get(out, e);
        }
      }
      out, todo := next, todo - {k};
    }
    assert out.Keys == res.Keys + f.Keys;
  }

  /** `sum(map(abs, residuals.values()))`. */
  method AbsTotal(res: map<string, real>) returns (total: real)
    ensures total == SumValues(AbsValues(res))
  {
    var a := AbsValues(res);
    total := 0.0;
    var todo := res.Keys;
    assert a - todo == map[];
    while todo != {}
      invariant todo <= res.Keys
      invariant total == SumValues(a - todo)
      decreases |todo|
    {
      var k :| k in todo;
      SumValuesRemove(a - (todo - {k}), k);
      assert a - (todo - {k}) - {k} == a - todo;
      total := total + Abs(res[k]);
      todo := todo - {k};
    }
    assert a - todo == a;
  }

  lemma {:induction false} AtomSumEmpty()
    ensures forall e :: AtomSum(map[], e) == 0.0
    ensures ElementsOf(map[]) == {}
  {
    forall e
      ensures AtomSum(map[], e) == 0.0
    {
      assert Contributions(map[], e) == map[];
    }
  }

  /** A map with the elements as keys and the residuals as values is `Residuals`. */
  lemma {:induction false} ResidualsExt(t: Terms, res: map<string, real>)
    requires forall e :: e in res <==> e in ElementsOf(t)
    requires forall e :: Get(res, e) == AtomSum(t, e)
    ensures res == Residuals(t)
  {
    forall e | e in res
      ensures res[e] == Residuals(t)[e]
    {
      assert Get(res, e) == res[e];
    }
  }

  /** Taking one more metabolite into the sums. */
  lemma {:induction false} AtomSumStep(t: Terms, todo: set<Metabolite>, m: Metabolite)
    requires todo <= t.Keys && m in todo
    ensures forall e :: AtomSum(t - (todo - {m}), e) == Contribution(t[m], e) + AtomSum(t - todo, e)
    ensures forall e :: e in ElementsOf(t - (todo - {m})) <==>
      e in ElementsOf(t - todo) || (t[m].formula.Some? && e in t[m].formula.value)
  {
    var after, before := t - (todo - {m}), t - todo;
    forall e
      ensures AtomSum(after, e) == Contribution(t[m], e) + AtomSum(before, e)
    {
      var ca := Contributions(after, e);
      SumValuesRemove(ca, m);
      assert ca - {m} == Contributions(before, e);
    }
    var added := if t[m].formula.Some? then t[m].formula.value.Keys else {};
    forall e | e in ElementsOf(after)
      ensures e in ElementsOf(before) || e in added
    {
      var x :| x in after && after[x].formula.Some? && e in after[x].formula.value;
      if x != m {
        assert x in before;
      }
    }
    forall e | e in ElementsOf(before) || e in added
      ensures e in ElementsOf(after)
    {
      if e in added {
        assert m in after;
      } else {
        var x :| x in before && before[x].formula.Some? && e in before[x].formula.value;
        assert x in after;
      }
    }
  }

  /** An element that occurs in no formula has residual 0. */
  lemma {:induction false} AtomSumOutside(t: Terms, e: string)
    requires e !in ElementsOf(t)
    ensures AtomSum(t, e) == 0.0
  {
    var c := Contributions(t, e);
    forall m | m in c
      ensures c[m] == 0.0
    {
      if t[m].formula.Some? {
        assert e !in t[m].formula.value;
      }
    }
    SumValuesZero(c);
  }

  // ----- Properties -----

  /** The check passes exactly when every element's residual is 0. */
  lemma {:induction false} BalancedIff(id: string, t: Terms)
    ensures MassBalance(id, t) == Balanced <==> forall e :: AtomSum(t, e) == 0.0
  {
    var res := Residuals(t);
    SumValuesZero(AbsValues(res));
    if MassBalance(id, t) == Balanced {
      forall e
        ensures AtomSum(t, e) == 0.0
      {
        if e in ElementsOf(t) {
          assert AbsValues(res)[e] == 0.0;
        } else {
          AtomSumOutside(t, e);
        }
      }
    } else {
      var e :| e in AbsValues(res) && AbsValues(res)[e] != 0.0;
      assert AtomSum(t, e) != 0.0;
    }
  }

  /** An unbalanced reaction reports its id and the residual of every element of its formulas. */
  lemma {:induction false} UnbalancedReport(id: string, t: Terms)
    requires MassBalance(id, t).Unbalanced?
    ensures MassBalance(id, t).id == id
    ensures MassBalance(id, t).residuals.Keys == ElementsOf(t)
    ensures exists e :: e in ElementsOf(t) && MassBalance(id, t).residuals[e] != 0.0
  {
    var res := Residuals(t);
    SumValuesZero(AbsValues(res));
    var e :| e in AbsValues(res) && AbsValues(res)[e] != 0.0;
    assert res[e] != 0.0;
  }

  /** A metabolite without a formula changes no residual. */
  lemma {:induction false} NoFormulaIgnored(t: Terms, m: Metabolite)
    requires m in t && t[m].formula.None?
    ensures Residuals(t) == Residuals(t - {m})
  {
    var u := t - {m};
    forall e
      ensures AtomSum(t, e) == AtomSum(u, e)
    {
      SumValuesRemove(Contributions(t, e), m);
      assert Contributions(t, e) - {m} == Contributions(u, e);
    }
    forall e | e in ElementsOf(t)
      ensures e in ElementsOf(u)
    {
      var x :| x in t && t[x].formula.Some? && e in t[x].formula.value;
      assert x in u;
    }
    forall e | e in ElementsOf(u)
      ensures e in ElementsOf(t)
    {
      var x :| x in u && u[x].formula.Some? && e in u[x].formula.value;
      assert x in t;
    }
  }
}
