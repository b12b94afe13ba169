/** The `AND` logic strings of cobra.me: `_update_logic` writes a composition as
    `k1(v1) AND k2(v2) ...` over its entries sorted by key, and `split_logical_string` reads
    such a string back into a dictionary. */
module LogicStrings {
  import opened Wrappers
  import opened Text

  // ---------------------------------------------------------------------------
  // Writing: `_update_logic`
  // ---------------------------------------------------------------------------

  /** One `'%s(%i)' % (k, v)` term for every key of `ks`, in order. */
  function Terms(ks: seq<string>, c: map<string, int>): (r: seq<string>)
    requires forall k :: k in ks ==> k in c
    ensures |r| == |ks|
    decreases |ks|
  {
    if |ks| == 0 then [] else [ks[0] + "(" + IntToString(c[ks[0]]) + ")"] + Terms(ks[1..], c)
  }

  /** Term `i` is key `i` with its value in parentheses. */
  lemma {:induction false} TermsAt(ks: seq<string>, c: map<string, int>)
    requires forall k :: k in ks ==> k in c
    ensures forall i :: 0 <= i < |ks| ==> Terms(ks, c)[i] == ks[i] + "(" + IntToString(c[ks[i]]) + ")"
    decreases |ks|
  {
    if |ks| > 0 {
      var rest := Terms(ks[1..], c);
      assert Terms(ks, c) == [ks[0] + "(" + IntToString(c[ks[0]]) + ")"] + rest;
      TermsAt(ks[1..], c);
      forall i | 1 <= i < |ks|
        ensures Terms(ks, c)[i] == ks[i] + "(" + IntToString(c[ks[i]]) + ")"
      {
        assert Terms(ks, c)[i] == rest[i - 1];
        assert ks[i] == ks[1..][i - 1];
      }
    }
  }

  /** Term `i` is key `i` with its value in parentheses, for one `i`. */
  lemma {:induction false} TermAt(ks: seq<string>, c: map<string, int>, i: nat)
    requires forall k :: k in ks ==> k in c
    requires i < |ks|
    ensures Terms(ks, c)[i] == ks[i] + "(" + IntToString(c[ks[i]]) + ")"
    decreases i
  {
    if i > 0 {
      TermAt(ks[1..], c, i - 1);
      assert Terms(ks, c)[i] == Terms(ks[1..], c)[i - 1];
    }
  }

  /** `_update_logic(obj, d)`: the terms of `d` in key order joined by `" AND "`. An empty
      dictionary makes `reduce` raise; that is `None` here. */
  function UpdateLogic(c: map<string, int>): (r: Option<string>)
    ensures r.None? <==> c == map[]
  {
    if c == map[] then None else Some(Join(KeyTerms(c), " AND "))
  }

  /** The terms of a dictionary in key order. */
  function KeyTerms(c: map<string, int>): seq<string>
  {
    SortedSetElements(c.Keys);
    Terms(SortedSet(c.Keys), c)
  }

  // ---------------------------------------------------------------------------
  // Reading: `split_logical_string`
  // ---------------------------------------------------------------------------

  /** Why `split_logical_string` raises: an atom with two opening parentheses cannot be
      unpacked into a key and a value, or the text in the parentheses is not an integer. */
  datatype AtomError = TooManyParentheses(atom: string) | NotAnInteger(text: string)

  /** The gene-rule clean-up of one atom: an unmatched `(` drops the first character, an
      unmatched `)` the last one, each followed by `strip()`. */
  function TrimAtom(a: string): string
  {
    var a1 := if Count(a, '(') > Count(a, ')') then Strip(a[1..]) else a;
    if Count(a1, '(') < Count(a1, ')') then Strip(a1[..|a1| - 1]) else a1
  }

  /** One atom as a (key, value) pair: `key(value)` with `)` stripped from the right of the
      value, an empty value meaning 1; an atom without `(` is a key with value 1. */
  function ParseAtom(a: string): (r: Result<(string, int), AtomError>)
    ensures '(' !in a ==> r == Success((a, 1))
    ensures r.Success? ==> '(' !in r.value.0
    ensures r == Failure(TooManyParentheses(a)) <==> Count(a, '(') > 1
  {
    SplitCharCount(a, '(');
    CountZero(a, '(');
    if '(' in a then
      var parts := SplitChar(a, '(');
      if |parts| != 2 then Failure(TooManyParentheses(a))
      else
        assert parts[0] in parts;
        var v := RStripChars(parts[1], {')'});
        if |v| == 0 then Success((parts[0], 1))
        else match ParseInt(v)
          case Some(n) => Success((parts[0], n))
          case None => Failure(NotAnInteger(v))
    else Success((a, 1))
  }

  /** The atoms from the first one on, added to `acc` in order; the first atom that does not
      parse stops the reading. */
  function Collect(atoms: seq<string>, acc: map<string, int>): Result<map<string, int>, AtomError>
    decreases |atoms|
  {
    if |atoms| == 0 then Success(acc)
    else match ParseAtom(TrimAtom(atoms[0]))
      case Failure(e) => Failure(e)
      case Success(kv) => Collect(atoms[1..], acc[kv.0 := kv.1])
  }

  /** The pieces between the case-insensitive ` +AND +` separators. */
  function Atoms(s: string): seq<string>
  {
    SplitWord(s, "and")
  }

  /** What `split_logical_string(s)` returns, or why it raises. */
  function SplitLogical(s: string): Result<map<string, int>, AtomError>
  {
    Collect(Atoms(s), map[])
  }

  /** `split_logical_string`: the loop over the atoms that fills the dictionary. */
  method SplitLogicalString(s: string) returns (r: Result<map<string, int>, AtomError>)
    ensures r == SplitLogical(s)
  {
    var atoms := Atoms(s);
    var d: map<string, int> := map[];
    for i := 0 to |atoms|
      invariant Collect(atoms[i..], d) == Collect(atoms, map[])
    {
      assert atoms[i..][1..] == atoms[i + 1..];
      var atom := TrimAtom(atoms[i]);
      match ParseAtom(atom)
      case Failure(e) =>
        return Failure(e);
      case Success(kv) =>
        d := d[kv.0 := kv.1];
    }
    assert atoms[|atoms|..] == [];
    return Success(d);
  }

  // ---------------------------------------------------------------------------
  // Properties
  // ---------------------------------------------------------------------------

  /** The key and value an atom contributes when it parses. */
  function Parsed(a: string): Result<(string, int), AtomError>
  {
    ParseAtom(TrimAtom(a))
  }

  /** No atom after the `i`-th names the same key. */
  predicate LastNaming(atoms: seq<string>, i: nat)
    requires i < |atoms|
    requires forall j :: 0 <= j < |atoms| ==> Parsed(atoms[j]).Success?
  {
    forall j :: i < j < |atoms| ==> Parsed(atoms[j]).value.0 != Parsed(atoms[i]).value.0
  }

  /** One step of the reading: a first atom that parses is added, and the rest is read. */
  lemma {:induction false} CollectStep(atoms: seq<string>, acc: map<string, int>)
    requires |atoms| > 0 && Parsed(atoms[0]).Success?
    ensures Collect(atoms, acc) ==
      Collect(atoms[1..], acc[Parsed(atoms[0]).value.0 := Parsed(atoms[0]).value.1])
  {
  }

  /** Reading succeeds exactly when every atom parses. */
  lemma {:induction false} CollectSucceeds(atoms: seq<string>, acc: map<string, int>)
    ensures Collect(atoms, acc).Success? <==> forall i :: 0 <= i < |atoms| ==> Parsed(atoms[i]).Success?
    decreases |atoms|
  {
    if |atoms| > 0 {
      var tail := atoms[1..];
      assert forall i :: 0 < i < |atoms| ==> atoms[i] == tail[i - 1];
      if Parsed(atoms[0]).Success? {
        var kv := Parsed(atoms[0]).value;
        CollectStep(atoms, acc);
        CollectSucceeds(tail, acc[kv.0 := kv.1]);
        if forall i :: 0 <= i < |tail| ==> Parsed(tail[i]).Success? {
          forall i | 0 <= i < |atoms|
            ensures Parsed(atoms[i]).Success?
          {
            if i > 0 {
              assert Parsed(tail[i - 1]).Success?;
            }
          }
        }
      }
    }
  }

  /** The key and value pairs of atoms that all parse. */
  function PairsOf(atoms: seq<string>): (kvs: seq<(string, int)>)
    requires forall i :: 0 <= i < |atoms| ==> Parsed(atoms[i]).Success?
    ensures |kvs| == |atoms|
    ensures forall i :: 0 <= i < |atoms| ==> kvs[i] == Parsed(atoms[i]).value
  {
    seq(|atoms|, i requires 0 <= i < |atoms| => Parsed(atoms[i]).value)
  }

  /** The dictionary after `d[k] = v` for every pair, in order. */
  function Assign(kvs: seq<(string, int)>, acc: map<string, int>): map<string, int>
    decreases |kvs|
  {
    if kvs == [] then acc else Assign(kvs[1..], acc[kvs[0].0 := kvs[0].1])
  }

  /** When every atom parses, reading them is writing their pairs in order. */
  lemma {:induction false} CollectAssign(atoms: seq<string>, acc: map<string, int>)
    requires forall i :: 0 <= i < |atoms| ==> Parsed(atoms[i]).Success?
    ensures Collect(atoms, acc) == Success(Assign(PairsOf(atoms), acc))
    decreases |atoms|
  {
    if |atoms| > 0 {
      var kv := Parsed(atoms[0]).value;
      CollectStep(atoms, acc);
      CollectAssign(atoms[1..], acc[kv.0 := kv.1]);
      assert PairsOf(atoms)[1..] == PairsOf(atoms[1..]);
    }
  }

  /** The written dictionary holds the keys of `acc` and the keys of the pairs. */
  lemma {:induction false} AssignKeys(kvs: seq<(string, int)>, acc: map<string, int>)
    ensures forall k :: k in Assign(kvs, acc) <==> k in acc || exists i :: 0 <= i < |kvs| && kvs[i].0 == k
    decreases |kvs|
  {
    if kvs != [] {
      var tail := kvs[1..];
      AssignKeys(tail, acc[kvs[0].0 := kvs[0].1]);
      forall k | exists i :: 0 <= i < |kvs| && kvs[i].0 == k
        ensures k in Assign(kvs, acc)
      {
        var i :| 0 <= i < |kvs| && kvs[i].0 == k;
        if i > 0 {
          assert tail[i - 1].0 == k;
        }
      }
      forall k | k in Assign(kvs, acc) && k !in acc && k != kvs[0].0
        ensures exists i :: 0 <= i < |kvs| && kvs[i].0 == k
      {
        assert k in Assign(tail, acc[kvs[0].0 := kvs[0].1]);
        var i :| 0 <= i < |tail| && tail[i].0 == k;
        assert kvs[i + 1].0 == k;
      }
    }
  }

  /** A key gets the value of the last pair that names it. */
  lemma {:induction false} AssignLast(kvs: seq<(string, int)>, acc: map<string, int>, i: nat)
    requires i < |kvs| && forall j :: i < j < |kvs| ==> kvs[j].0 != kvs[i].0
    ensures kvs[i].0 in Assign(kvs, acc) && Assign(kvs, acc)[kvs[i].0] == kvs[i].1
    decreases |kvs|
  {
    var tail := kvs[1..];
    var acc' := acc[kvs[0].0 := kvs[0].1];
    if i > 0 {
      assert forall j :: i - 1 < j < |tail| ==> tail[j] == kvs[j + 1];
      AssignLast(tail, acc', i - 1);
    } else {
      assert forall j :: 0 <= j < |tail| ==> tail[j] == kvs[j + 1];
      AssignUntouched(tail, acc', kvs[0].0);
    }
  }

  /** A key of `acc` that no pair names keeps its value. */
  lemma {:induction false} AssignUntouched(kvs: seq<(string, int)>, acc: map<string, int>, k: string)
    requires k in acc && forall j :: 0 <= j < |kvs| ==> kvs[j].0 != k
    ensures k in Assign(kvs, acc) && Assign(kvs, acc)[k] == acc[k]
    decreases |kvs|
  {
    if kvs != [] {
      var tail := kvs[1..];
      assert forall j :: 0 <= j < |tail| ==> tail[j] == kvs[j + 1];
      AssignUntouched(tail, acc[kvs[0].0 := kvs[0].1], k);
    }
  }

  /** When every atom parses, the dictionary holds the keys of `acc` and those the atoms name. */
  lemma {:induction false} CollectKeys(atoms: seq<string>, acc: map<string, int>)
    requires forall i :: 0 <= i < |atoms| ==> Parsed(atoms[i]).Success?
    ensures Collect(atoms, acc).Success?
    ensures forall k :: k in Collect(atoms, acc).value <==>
      k in acc || exists i :: 0 <= i < |atoms| && Parsed(atoms[i]).value.0 == k
  {
    var kvs := PairsOf(atoms);
    CollectAssign(atoms, acc);
    AssignKeys(kvs, acc);
    forall k ensures k in Collect(atoms, acc).value <==>
                     k in acc || exists i :: 0 <= i < |atoms| && Parsed(atoms[i]).value.0 == k
    {
      if exists i :: 0 <= i < |atoms| && Parsed(atoms[i]).value.0 == k {
        var i :| 0 <= i < |atoms| && Parsed(atoms[i]).value.0 == k;
        assert kvs[i].0 == k;
      }
    }
  }

  /** When every atom parses, a key gets the value of the last atom that names it; a key of
      `acc` that no atom names keeps its value. */
  lemma {:induction false} CollectLastWins(atoms: seq<string>, acc: map<string, int>)
    requires forall i :: 0 <= i < |atoms| ==> Parsed(atoms[i]).Success?
    ensures Collect(atoms, acc).Success?
    ensures acc.Keys <= Collect(atoms, acc).value.Keys
    ensures forall i :: 0 <= i < |atoms| ==> Parsed(atoms[i]).value.0 in Collect(atoms, acc).value
    ensures forall i :: 0 <= i < |atoms| && LastNaming(atoms, i) ==>
      Collect(atoms, acc).value[Parsed(atoms[i]).value.0] == Parsed(atoms[i]).value.1
    ensures forall k :: k in acc && (forall i :: 0 <= i < |atoms| ==> Parsed(atoms[i]).value.0 != k) ==>
      Collect(atoms, acc).value[k] == acc[k]
  {
    var kvs := PairsOf(atoms);
    CollectAssign(atoms, acc);
    var d := Assign(kvs, acc);
    AssignKeys(kvs, acc);
    forall i | 0 <= i < |atoms|
      ensures Parsed(atoms[i]).value.0 in d
    {
      assert kvs[i].0 == Parsed(atoms[i]).value.0;
    }
    forall i | 0 <= i < |atoms| && LastNaming(atoms, i)
      ensures d[Parsed(atoms[i]).value.0] == Parsed(atoms[i]).value.1
    {
      AssignLast(kvs, acc, i);
    }
    forall k | k in acc && (forall i :: 0 <= i < |atoms| ==> Parsed(atoms[i]).value.0 != k)
      ensures d[k] == acc[k]
    {
      AssignUntouched(kvs, acc, k);
    }
  }

  /** A logic term `k(v)` whose key holds no space or parenthesis reads back as (k, v). */
  lemma {:induction false} TermParses(k: string, v: int)
    requires ' ' !in k && '(' !in k && ')' !in k
    ensures Parsed(k + "(" + IntToString(v) + ")") == Success((k, v))
  {
    var n := IntToString(v);
    var a := k + "(" + n + ")";
    NoParens(v);
    assert TrimAtom(a) == a by {
      TermCounts(k, n);
    }
    assert SplitChar(a, '(') == [k, n + ")"] by {
      SplitTerm(k, n);
    }
    assert RStripChars(n + ")", {')'}) == n by {
      StripCloser(n);
    }
    IntToStringRoundTrip(v);
  }

  /** A term over parenthesis-free pieces has one `(` and one `)`, so `TrimAtom` keeps it. */
  lemma {:induction false} TermCounts(k: string, n: string)
    requires '(' !in k && ')' !in k && '(' !in n && ')' !in n
    ensures TrimAtom(k + "(" + n + ")") == k + "(" + n + ")"
  {
    CountZero(k, '('); CountZero(k, ')'); CountZero(n, '('); CountZero(n, ')');
    CountAppend(k, "(", '('); CountAppend(k + "(", n, '('); CountAppend(k + "(" + n, ")", '(');
    CountAppend(k, "(", ')'); CountAppend(k + "(", n, ')'); CountAppend(k + "(" + n, ")", ')');
  }

  /** A term over parenthesis-free pieces splits at its `(` into the key and the rest. */
  lemma {:induction false} SplitTerm(k: string, n: string)
    requires '(' !in k && '(' !in n
    ensures SplitChar(k + "(" + n + ")", '(') == [k, n + ")"]
  {
    var a := k + "(" + n + ")";
    assert a[|k|] == '(';
    assert IndexOf(a, '(') == Some(|k|) by {
      assert a[..|k|] == k;
    }
    assert a[|k| + 1..] == n + ")";
    assert IndexOf(n + ")", '(') == None by {
      assert '(' !in n + ")";
    }
  }

  /** Stripping `)` from the right of `n)` gives `n` back when `n` does not end in `)`. */
  lemma {:induction false} StripCloser(n: string)
    requires |n| > 0 && n[|n| - 1] != ')'
    ensures RStripChars(n + ")", {')'}) == n
  {
    assert (n + ")")[..|n|] == n;
  }

  /** A rendered integer holds no parenthesis or space and ends in a digit. */
  lemma {:induction false} NoParens(v: int)
    ensures '(' !in IntToString(v) && ')' !in IntToString(v) && ' ' !in IntToString(v)
    ensures |IntToString(v)| > 0 && IsDigit(IntToString(v)[|IntToString(v)| - 1])
  {
    var m: nat := if v < 0 then -v else v;
    var d := NatToString(m);
    assert forall c :: c in d ==> IsDigit(c);
    if v < 0 {
      assert IntToString(v) == "-" + d;
      assert forall c :: c in "-" + d ==> c == '-' || c in d;
    }
  }

  /** `acc` with every key of `ks` set to its value in `c`. */
  function Overwrite(acc: map<string, int>, ks: seq<string>, c: map<string, int>): map<string, int>
    requires forall k :: k in ks ==> k in c
  {
    var dom := acc.Keys + set x | x in ks;
    map k | k in dom :: if k in ks then c[k] else acc[k]
  }

  /** Reading the terms of keys of `c` into `acc` sets each of those keys to its value in `c`. */
  lemma {:induction false} CollectTerms(ks: seq<string>, c: map<string, int>, acc: map<string, int>)
    requires forall k :: k in ks ==> k in c && ' ' !in k && '(' !in k && ')' !in k
    ensures Collect(Terms(ks, c), acc) == Success(Overwrite(acc, ks, c))
    decreases |ks|
  {
    var ts := Terms(ks, c);
    if |ks| == 0 {
      assert Overwrite(acc, ks, c) == acc;
    } else {
      assert ks[0] in ks;
      TermParses(ks[0], c[ks[0]]);
      assert ts[0] == ks[0] + "(" + IntToString(c[ks[0]]) + ")";
      assert ts[1..] == Terms(ks[1..], c);
      var acc' := acc[ks[0] := c[ks[0]]];
      CollectTerms(ks[1..], c, acc');
      OverwriteCons(acc, ks, c);
    }
  }

  /** Setting the first key, then the rest, sets them all. */
  lemma OverwriteCons(acc: map<string, int>, ks: seq<string>, c: map<string, int>)
    requires |ks| > 0 && forall k :: k in ks ==> k in c
    ensures Overwrite(acc[ks[0] := c[ks[0]]], ks[1..], c) == Overwrite(acc, ks, c)
  {
    var acc' := acc[ks[0] := c[ks[0]]];
    assert forall k :: k in ks <==> k == ks[0] || k in ks[1..];
    var l := Overwrite(acc', ks[1..], c);
    var g := Overwrite(acc, ks, c);
    assert l.Keys == g.Keys;
    forall k | k in l
      ensures l[k] == g[k]
    {
      if k !in ks[1..] && k == ks[0] {
        assert l[k] == acc'[k] == c[k];
      }
    }
  }

  /** Every logic term of keys without spaces is a non-empty word without spaces. */
  lemma {:induction false} TermsAreWords(ks: seq<string>, c: map<string, int>)
    requires forall k :: k in ks ==> k in c && ' ' !in k
    ensures forall p :: p in Terms(ks, c) ==> |p| > 0 && ' ' !in p
  {
    var ts := Terms(ks, c);
    TermsAt(ks, c);
    forall i | 0 <= i < |ts|
      ensures |ts[i]| > 0 && ' ' !in ts[i]
    {
      assert ks[i] in ks;
      NoParens(c[ks[i]]);
      var n := IntToString(c[ks[i]]);
      assert ts[i] == ks[i] + "(" + n + ")";
      assert forall ch :: ch in ts[i] ==> ch in ks[i] || ch == '(' || ch in n || ch == ')';
    }
  }

  /** `AND` spells `and` in any case. */
  lemma {:induction false} AndSpellsAnd()
    ensures |"AND"| == |"and"| && forall k :: 0 <= k < |"and"| ==> Lower("AND"[k]) == "and"[k]
  {
    assert Lower('A') == 'a' && Lower('N') == 'n' && Lower('D') == 'd';
  }

  lemma {:induction false} AndSeparator()
    ensures " " + "AND" + " " == " AND "
  {
    var s := " " + "AND" + " ";
    assert |s| == 5 && s[0] == ' ' && s[1] == 'A' && s[2] == 'N' && s[3] == 'D' && s[4] == ' ';
  }

  /** The sorted keys of a map, as a sequence, hold exactly its keys. */
  lemma {:induction false} SortedKeys(c: map<string, int>)
    ensures forall k :: k in SortedSet(c.Keys) <==> k in c
    ensures c != map[] ==> |SortedSet(c.Keys)| > 0
  {
    SortedSetElements(c.Keys);
    if c != map[] {
      var k :| k in c;
      assert k in SortedSet(c.Keys);
    }
  }

  /** The atoms of a logic string are its terms. */
  lemma {:induction false} LogicAtoms(c: map<string, int>)
    requires c != map[]
    requires forall k :: k in c ==> ' ' !in k
    ensures Atoms(UpdateLogic(c).value) == KeyTerms(c)
  {
    var ks := SortedSet(c.Keys);
    SortedKeys(c);
    var ts := Terms(ks, c);
    TermsAreWords(ks, c);
    AndSpellsAnd();
    AndSeparator();
    SplitWordJoin(ts, "and", "AND");
  }

  /** Reading the terms of a composition into an empty dictionary gives the composition. */
  lemma CollectComposition(c: map<string, int>)
    requires forall k :: k in c ==> ' ' !in k && '(' !in k && ')' !in k
    ensures Collect(KeyTerms(c), map[]) == Success(c)
  {
    var ks := SortedSet(c.Keys);
    SortedKeys(c);
    CollectTerms(ks, c, map[]);
    OverwriteAll(ks, c);
  }

  /** Setting every key of `c` in an empty dictionary gives `c`. */
  lemma OverwriteAll(ks: seq<string>, c: map<string, int>)
    requires forall k :: k in ks <==> k in c
    ensures Overwrite(map[], ks, c) == c
  {
    var g := Overwrite(map[], ks, c);
    assert g.Keys == c.Keys;
    forall k | k in g
      ensures g[k] == c[k]
    {
      assert k in ks;
    }
  }

  /** `split_logical_string` undoes `_update_logic`: the logic string of a non-empty composition
      whose keys hold no space or parenthesis reads back as the composition. */
  lemma {:induction false} LogicRoundTrip(c: map<string, int>)
    requires c != map[]
    requires forall k :: k in c ==> ' ' !in k && '(' !in k && ')' !in k
    ensures SplitLogical(UpdateLogic(c).value) == Success(c)
  {
    LogicAtoms(c);
    CollectComposition(c);
  }
}
