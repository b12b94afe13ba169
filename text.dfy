/** String machinery shared by the model: the ordering Python uses on str values,
    sorting, joining, stripping, replacing, splitting on a character, splitting on
    a case-insensitive `' +word +'` pattern, and decimal rendering/parsing of integers. */
module Text {
  import opened Wrappers

  // ---------------------------------------------------------------------------
  // Ordering
  // ---------------------------------------------------------------------------

  /** Strict lexicographic order by character code, the order of Python's `<` on str. */
  predicate Below(a: string, b: string)
    decreases |a|
  {
    if |a| == 0 then |b| > 0
    else |b| > 0 && (a[0] < b[0] || (a[0] == b[0] && Below(a[1..], b[1..])))
  }

  lemma {:induction false} BelowIrreflexive(a: string)
    ensures !Below(a, a)
    decreases |a|
  {
    if |a| > 0 {
      BelowIrreflexive(a[1..]);
    }
  }

  lemma {:induction false} BelowTransitive(a: string, b: string, c: string)
    requires Below(a, b) && Below(b, c)
    ensures Below(a, c)
    decreases |a|
  {
    if |a| > 0 && |b| > 0 && |c| > 0 && a[0] == b[0] && b[0] == c[0] {
      BelowTransitive(a[1..], b[1..], c[1..]);
    }
  }

  lemma {:induction false} BelowTotal(a: string, b: string)
    requires a != b
    ensures Below(a, b) || Below(b, a)
    decreases |a|
  {
    if |a| > 0 && |b| > 0 && a[0] == b[0] {
      assert a == [a[0]] + a[1..] && b == [b[0]] + b[1..];
      BelowTotal(a[1..], b[1..]);
    }
  }

  lemma {:induction false} BelowAsymmetric(a: string, b: string)
    requires Below(a, b)
    ensures !Below(b, a)
  {
    if Below(b, a) {
      BelowTransitive(a, b, a);
      BelowIrreflexive(a);
    }
  }

  /** Every element comes strictly before every later one. */
  predicate StrictlySorted(s: seq<string>)
  {
    forall i, j :: 0 <= i < j < |s| ==> Below(s[i], s[j])
  }

  /** `m` is the least element of `s`. */
  predicate IsLeast(m: string, s: set<string>)
  {
    m in s && forall x :: x in s ==> m == x || Below(m, x)
  }

  lemma {:induction false} MinimumExists(s: set<string>)
    requires s != {}
    ensures exists m :: IsLeast(m, s)
    decreases |s|
  {
    var y :| y in s;
    if s == {y} {
      assert IsLeast(y, s);
    } else {
      var s' := s - {y};
      MinimumExists(s');
      var m :| IsLeast(m, s');
      if Below(y, m) {
        forall x | x in s
          ensures y == x || Below(y, x)
        {
          if x != y && x != m {
            assert x in s';
            BelowTransitive(y, m, x);
          }
        }
        assert IsLeast(y, s);
      } else {
        BelowTotal(y, m);
        assert IsLeast(m, s);
      }
    }
  }

  /** A set has at most one least element. */
  lemma {:induction false} LeastUnique(s: set<string>)
    ensures forall a, b :: IsLeast(a, s) && IsLeast(b, s) ==> a == b
  {
    forall a, b | IsLeast(a, s) && IsLeast(b, s)
      ensures a == b
    {
      if a != b {
        BelowAsymmetric(a, b);
      }
    }
  }

  /**
   * The elements of a set of strings in increasing order: `sorted(s)` in the
   * source. That the result holds the elements of `s` is `SortedSetElements`
   * and that it is sorted is `SortedSetSorted`, both kept out of this contract
   * so that callers who only carry the term do not carry them.
   */
  function SortedSet(s: set<string>): seq<string>
    decreases |s|
  {
    if s == {} then []
    else
      LeastUnique(s);
      MinimumExists(s);
      var m :| IsLeast(m, s);
      [m] + SortedSet(s - {m})
  }

  /** `SortedSet(s)` holds the elements of `s`, each once. */
  lemma {:induction false} SortedSetElements(s: set<string>)
    ensures |SortedSet(s)| == |s|
    ensures forall x :: x in SortedSet(s) <==> x in s
    decreases |s|
  {
    if s != {} {
      MinimumExists(s);
      var m :| IsLeast(m, s);
      SortedSetUnfold(s, m);
      SortedSetElements(s - {m});
    }
  }

  /** `SortedSet(s)` starts with the least element of `s`, then sorts the rest. */
  lemma {:induction false} SortedSetUnfold(s: set<string>, m: string)
    requires IsLeast(m, s)
    ensures SortedSet(s) == [m] + SortedSet(s - {m})
  {
    LeastUnique(s);
  }

  lemma {:induction false} SortedSetSorted(s: set<string>)
    ensures StrictlySorted(SortedSet(s))
    decreases |s|
  {
    if s != {} {
      MinimumExists(s);
      var m :| IsLeast(m, s);
      SortedSetUnfold(s, m);
      var rest := SortedSet(s - {m});
      SortedSetSorted(s - {m});
      SortedSetElements(s - {m});
      forall x | x in rest
        ensures Below(m, x)
      {
        assert x in s - {m};
      }
      ConsSorted(m, rest);
    }
  }

  /** The elements of `SortedSet(s)` are pairwise distinct. */
  lemma SortedSetDistinct(s: set<string>)
    ensures forall i :: 0 <= i < |SortedSet(s)| ==> SortedSet(s)[i] !in SortedSet(s)[..i]
  {
    var r := SortedSet(s);
    SortedSetSorted(s);
    forall i | 0 <= i < |r|
      ensures r[i] !in r[..i]
    {
      forall j | 0 <= j < i
        ensures r[j] != r[i]
      {
        BelowIrreflexive(r[i]);
      }
    }
  }

  lemma {:induction false} ConsSorted(m: string, rest: seq<string>)
    requires StrictlySorted(rest) && forall x :: x in rest ==> Below(m, x)
    ensures StrictlySorted([m] + rest)
  {
    var r := [m] + rest;
    forall i, j | 0 <= i < j < |r|
      ensures Below(r[i], r[j])
    {
      assert r[j] == rest[j - 1] && rest[j - 1] in rest;
      if i > 0 {
        assert r[i] == rest[i - 1];
      }
    }
  }

  // ---------------------------------------------------------------------------
  // Joining, counting, stripping, replacing
  // ---------------------------------------------------------------------------

  /** `sep.join(parts)`. */
  function Join(parts: seq<string>, sep: string): string
    decreases |parts|
  {
    if |parts| == 0 then ""
    else if |parts| == 1 then parts[0]
    else parts[0] + sep + Join(parts[1..], sep)
  }

  /** Appending is associative; stated once so that `+=` loops need not rediscover it. */
  lemma {:induction false} AppendAssoc<T>(a: seq<T>, b: seq<T>, c: seq<T>)
    ensures (a + b) + c == a + (b + c)
  {
  }

  /** Slicing a concatenation inside its left part slices the left part. */
  lemma {:induction false} SliceAppend<T>(a: seq<T>, t: seq<T>, i: nat)
    requires i <= |a|
    ensures (a + t)[..i] == a[..i]
    ensures (a + t)[i..] == a[i..] + t
  {
  }

  /** `s.count(c)` for a single character. */
  function Count(s: string, c: char): nat
    decreases |s|
  {
    if |s| == 0 then 0 else (if s[0] == c then 1 else 0) + Count(s[1..], c)
  }

  lemma {:induction false} CountAppend(a: string, b: string, c: char)
    ensures Count(a + b, c) == Count(a, c) + Count(b, c)
    decreases |a|
  {
    if |a| > 0 {
      assert (a + b)[0] == a[0];
      assert (a + b)[1..] == a[1..] + b;
      CountAppend(a[1..], b, c);
    } else {
      assert a + b == b;
    }
  }

  lemma {:induction false} CountZero(s: string, c: char)
    ensures Count(s, c) == 0 <==> c !in s
    decreases |s|
  {
    if |s| > 0 {
      CountZero(s[1..], c);
      assert c in s <==> s[0] == c || c in s[1..];
    }
  }

  /** The characters Python's argument-less `strip()` removes. */
  const Whitespace: set<char> := {' ', '\t', '\n', '\r', '\U{B}', '\U{C}'}

  predicate IsSpace(c: char)
  {
    c in Whitespace
  }

  /** `s.lstrip(chars)`: drop leading characters that belong to the set. */
  function LStripChars(s: string, chars: set<char>): (r: string)
    ensures |r| <= |s|
    ensures |r| > 0 ==> r[0] !in chars
    decreases |s|
  {
    if |s| > 0 && s[0] in chars then LStripChars(s[1..], chars) else s
  }

  /** What `lstrip` drops is a prefix made of the given characters. */
  lemma {:induction false} LStripSuffix(s: string, chars: set<char>)
    ensures LStripChars(s, chars) == s[|s| - |LStripChars(s, chars)|..]
    ensures forall k :: 0 <= k < |s| - |LStripChars(s, chars)| ==> s[k] in chars
    decreases |s|
  {
    if |s| > 0 && s[0] in chars {
      LStripSuffix(s[1..], chars);
    }
  }

  /** `s.rstrip(chars)`: drop trailing characters that belong to the set. */
  function RStripChars(s: string, chars: set<char>): (r: string)
    ensures |r| <= |s|
    ensures |r| > 0 ==> r[|r| - 1] !in chars
    decreases |s|
  {
    if |s| > 0 && s[|s| - 1] in chars then RStripChars(s[..|s| - 1], chars) else s
  }

  /** What `rstrip` drops is a suffix made of the given characters. */
  lemma {:induction false} RStripPrefix(s: string, chars: set<char>)
    ensures RStripChars(s, chars) == s[..|RStripChars(s, chars)|]
    ensures forall k :: |RStripChars(s, chars)| <= k < |s| ==> s[k] in chars
    decreases |s|
  {
    if |s| > 0 && s[|s| - 1] in chars {
      RStripPrefix(s[..|s| - 1], chars);
    }
  }

  /** Python's whitespace `strip()`. */
  function Strip(s: string): (r: string)
    ensures |r| <= |s|
    ensures |r| > 0 ==> !IsSpace(r[0]) && !IsSpace(r[|r| - 1])
  {
    var l := LStripChars(s, Whitespace);
    RStripPrefix(l, Whitespace);
    RStripChars(l, Whitespace)
  }

  predicate StartsWith(s: string, p: string)
  {
    |p| <= |s| && s[..|p|] == p
  }

  predicate EndsWith(s: string, p: string)
  {
    |p| <= |s| && s[|s| - |p|..] == p
  }

  /** `s.replace(pat, rep)`: non-overlapping occurrences, left to right. */
  function Replace(s: string, pat: string, rep: string): string
    requires |pat| > 0
    decreases |s|
  {
    if |s| < |pat| then s
    else if s[..|pat|] == pat then rep + Replace(s[|pat|..], pat, rep)
    else [s[0]] + Replace(s[1..], pat, rep)
  }

  /** `pat in s` for a non-empty `pat`. */
  predicate Occurs(s: string, pat: string)
    requires |pat| > 0
    decreases |s|
  {
    |pat| <= |s| && (s[..|pat|] == pat || Occurs(s[1..], pat))
  }

  /** Replacing a pattern that does not occur changes nothing. */
  lemma {:induction false} ReplaceAbsent(s: string, pat: string, rep: string)
    requires |pat| > 0 && !Occurs(s, pat)
    ensures Replace(s, pat, rep) == s
    decreases |s|
  {
    if |s| >= |pat| {
      ReplaceAbsent(s[1..], pat, rep);
      assert s == [s[0]] + s[1..];
    }
  }

  /** A pattern met in `a + b` where no character of `a` can start it is met in `b`. */
  lemma {:induction false} OccursPast(a: string, b: string, q: string)
    requires |q| > 0 && forall c | c in a :: c !in q
    requires Occurs(a + b, q)
    ensures Occurs(b, q)
    decreases |a|
  {
    if |a| > 0 {
      assert (a + b)[0] == a[0] && a[0] !in q;
      assert (a + b)[..|q|][0] == a[0] && q[0] in q;
      assert (a + b)[1..] == a[1..] + b;
      OccursPast(a[1..], b, q);
    } else {
      assert a + b == b;
    }
  }

  /** When the first `n` characters of the replaced string are drawn from `chars`, which no
      character of `rep` is, no replacement happened among them. */
  lemma {:induction false} KeptPrefix(s: string, pat: string, rep: string, chars: set<char>, n: nat)
    requires |pat| > 0 && |rep| > 0 && forall c | c in rep :: c !in chars
    requires n <= |Replace(s, pat, rep)|
    requires forall k | 0 <= k < n :: Replace(s, pat, rep)[k] in chars
    ensures n <= |s| && Replace(s, pat, rep)[..n] == s[..n]
    decreases |s|
  {
    var out := Replace(s, pat, rep);
    if n > 0 && |s| >= |pat| {
      ReplaceHead(s, pat, rep);
      assert out[0] in chars && rep[0] in rep;
      var tail := Replace(s[1..], pat, rep);
      assert out == [s[0]] + tail;
      forall k | 0 <= k < n - 1
        ensures tail[k] in chars
      {
        assert tail[k] == out[k + 1];
      }
      KeptPrefix(s[1..], pat, rep, chars, n - 1);
      assert out[..n] == [s[0]] + tail[..n - 1];
    }
  }

  /** A replacement at the front shows the first character of `rep`. */
  lemma ReplaceHead(s: string, pat: string, rep: string)
    requires |pat| > 0 && |rep| > 0 && |s| >= |pat|
    ensures s[..|pat|] == pat ==> Replace(s, pat, rep)[0] == rep[0]
  {
  }

  /** After `s.replace(pat, rep)`, `pat` no longer occurs, when `rep` shares no character with
      `pat`. */
  lemma {:induction false} ReplaceRemoves(s: string, pat: string, rep: string)
    requires |pat| > 0 && |rep| > 0 && forall c | c in rep :: c !in pat
    ensures !Occurs(Replace(s, pat, rep), pat)
    decreases |s|
  {
    NoNewOccurrence(s, pat, rep, pat);
  }

  /** `s.replace(pat, rep)` creates no occurrence of `q` when `rep` shares no character with
      `q`; with `q == pat` this also holds when `s` contains `pat`. */
  lemma {:induction false} NoNewOccurrence(s: string, pat: string, rep: string, q: string)
    requires |pat| > 0 && |rep| > 0 && |q| > 0 && forall c | c in rep :: c !in q
    requires q == pat || !Occurs(s, q)
    ensures !Occurs(Replace(s, pat, rep), q)
    decreases |s|
  {
    var out := Replace(s, pat, rep);
    if |s| < |pat| {
      if q == pat {
        assert |out| < |q|;
      }
    } else if s[..|pat|] == pat {
      var tail := Replace(s[|pat|..], pat, rep);
      if q != pat && Occurs(s[|pat|..], q) {
        OccursFrom(s, q, |pat|);
      }
      NoNewOccurrence(s[|pat|..], pat, rep, q);
      if Occurs(rep + tail, q) {
        OccursPast(rep, tail, q);
      }
    } else {
      var tail := Replace(s[1..], pat, rep);
      assert out == [s[0]] + tail;
      NoNewOccurrence(s[1..], pat, rep, q);
      if Occurs(out, q) {
        assert out[1..] == tail;
        var chars := set c | c in q;
        forall k | 0 <= k < |q|
          ensures out[k] in chars
        {
          assert out[..|q|][k] == q[k];
        }
        KeptPrefix(s, pat, rep, chars, |q|);
      }
    }
  }

  /** What occurs in a suffix occurs in the whole. */
  lemma {:induction false} OccursFrom(s: string, q: string, k: nat)
    requires |q| > 0 && k <= |s| && Occurs(s[k..], q)
    ensures Occurs(s, q)
    decreases k
  {
    if k > 0 {
      assert s[1..][k - 1..] == s[k..];
      OccursFrom(s[1..], q, k - 1);
    }
  }

  // ---------------------------------------------------------------------------
  // Splitting on one character
  // ---------------------------------------------------------------------------

  function IndexOf(s: string, c: char): (r: Option<nat>)
    ensures r.None? ==> c !in s
    ensures r.Some? ==> r.value < |s| && s[r.value] == c && c !in s[..r.value]
    decreases |s|
  {
    if |s| == 0 then None
    else if s[0] == c then Some(0)
    else match IndexOf(s[1..], c)
      case None => None
      case Some(i) => Some(i + 1)
  }

  /** `s.split(c)` with an explicit one-character separator: every piece, empty ones included. */
  function SplitChar(s: string, c: char): (r: seq<string>)
    ensures |r| > 0
    ensures forall p :: p in r ==> c !in p
    decreases |s|
  {
    match IndexOf(s, c)
    case None => [s]
    case Some(i) => [s[..i]] + SplitChar(s[i + 1..], c)
  }

  /** Splitting on a character and joining back with it gives the string back. */
  lemma {:induction false} SplitCharJoin(s: string, c: char)
    ensures Join(SplitChar(s, c), [c]) == s
    decreases |s|
  {
    match IndexOf(s, c)
    case None =>
    case Some(i) =>
      var tail := s[i + 1..];
      SplitCharJoin(tail, c);
      JoinCons(s[..i], SplitChar(tail, c), [c]);
      assert s == s[..i] + [c] + tail;
  }

  /** There is one more piece than occurrences of the character. */
  lemma {:induction false} SplitCharCount(s: string, c: char)
    ensures |SplitChar(s, c)| == Count(s, c) + 1
    decreases |s|
  {
    match IndexOf(s, c)
    case None =>
      CountZero(s, c);
    case Some(i) =>
      var tail := s[i + 1..];
      SplitCharCount(tail, c);
      assert s == s[..i] + ([c] + tail);
      CountAppend(s[..i], [c] + tail, c);
      CountZero(s[..i], c);
      assert ([c] + tail)[0] == c && ([c] + tail)[1..] == tail;
  }

  /** Joining a part in front of non-empty parts puts one separator between. */
  lemma {:induction false} JoinCons(p: string, parts: seq<string>, sep: string)
    requires |parts| > 0
    ensures Join([p] + parts, sep) == p + sep + Join(parts, sep)
  {
    assert ([p] + parts)[1..] == parts;
  }

  // ---------------------------------------------------------------------------
  // Splitting on the case-insensitive regular expression ' +word +'
  // ---------------------------------------------------------------------------

  function Lower(c: char): char
  {
    if 'A' <= c <= 'Z' then (c as int + 32) as char else c
  }

  /** `s.lower()` on ASCII letters. */
  function LowerString(s: string): (r: string)
    ensures |r| == |s|
    decreases |s|
  {
    if |s| == 0 then "" else [Lower(s[0])] + LowerString(s[1..])
  }

  /** End of the run of spaces that starts at `i`. */
  function SpaceRunEnd(s: string, i: nat): (j: nat)
    requires i <= |s|
    ensures i <= j <= |s|
    ensures j > i ==> s[i] == ' '
    ensures j < |s| ==> s[j] != ' '
    decreases |s| - i
  {
    if i < |s| && s[i] == ' ' then SpaceRunEnd(s, i + 1) else i
  }

  /** `s[j..j+|w|]` equals the lower-case word `w`, ignoring case. */
  predicate WordAt(s: string, j: nat, w: string)
  {
    j + |w| <= |s| && forall k :: 0 <= k < |w| ==> Lower(s[j + k]) == w[k]
  }

  /** Where a match of ` +w +` that starts at `i` ends, if one starts there.
      Both runs of spaces are taken greedily, as the regular-expression engine does. */
  function MatchEnd(s: string, i: nat, w: string): (r: Option<nat>)
    requires i <= |s|
    ensures r.Some? ==> i < r.value <= |s| && s[i] == ' '
  {
    var j := SpaceRunEnd(s, i);
    if j > i && WordAt(s, j, w) && SpaceRunEnd(s, j + |w|) > j + |w|
    then Some(SpaceRunEnd(s, j + |w|))
    else None
  }

  /** The leftmost match of ` +w +` at or after `i`, as (start, end). */
  function FirstMatch(s: string, w: string, i: nat): (r: Option<(nat, nat)>)
    requires i <= |s|
    ensures r.Some? ==> i <= r.value.0 < r.value.1 <= |s|
    decreases |s| - i
  {
    if i == |s| then None
    else match MatchEnd(s, i, w)
      case Some(k) => Some((i, k))
      case None => FirstMatch(s, w, i + 1)
  }

  /** `re.split(' +' + w + ' +', s, flags=re.I)` for a lower-case word `w`. */
  function SplitWord(s: string, w: string): (r: seq<string>)
    ensures |r| > 0
    decreases |s|
  {
    match FirstMatch(s, w, 0)
    case None => [s]
    case Some(m) => [s[..m.0]] + SplitWord(s[m.1..], w)
  }

  /** A string without spaces from position `i` on holds no match there. */
  lemma {:induction false} NoSpaceNoMatch(s: string, w: string, i: nat)
    requires i <= |s|
    requires forall k :: i <= k < |s| ==> s[k] != ' '
    ensures FirstMatch(s, w, i) == None
    decreases |s| - i
  {
    if i < |s| {
      NoSpaceNoMatch(s, w, i + 1);
    }
  }

  /** Words joined by `' ' + W + ' '`, where `W` spells `w` in any case, split back into the words,
      provided no word is empty or holds a space. */
  lemma {:induction false} SplitWordJoin(parts: seq<string>, w: string, W: string)
    requires |parts| > 0
    requires forall p :: p in parts ==> |p| > 0 && ' ' !in p
    requires |w| > 0 && ' ' !in w
    requires |W| == |w| && forall k :: 0 <= k < |w| ==> Lower(W[k]) == w[k]
    ensures SplitWord(Join(parts, " " + W + " "), w) == parts
    decreases |parts|
  {
    var sep := " " + W + " ";
    var s := Join(parts, sep);
    if |parts| == 1 {
      NoSpaceNoMatch(s, w, 0);
    } else {
      var p0, rest := parts[0], Join(parts[1..], sep);
      assert s == p0 + sep + rest;
      assert |rest| > 0 && rest[0] != ' ' by {
        assert parts[1] in parts;
        JoinHead(parts[1..], sep);
      }
      assert p0 in parts;
      SeparatorMatch(p0, W, rest, w);
      Pieces(p0, sep, rest);
      SplitWordJoin(parts[1..], w, W);
    }
  }

  lemma {:induction false} Pieces(a: string, b: string, c: string)
    ensures (a + b + c)[..|a|] == a && (a + b + c)[|a| + |b|..] == c
  {
  }

  /** In `p0 + ' ' + W + ' ' + rest`, the first match is the separator itself. */
  lemma {:induction false} SeparatorMatch(p0: string, W: string, rest: string, w: string)
    requires ' ' !in p0 && |w| > 0 && ' ' !in w
    requires |W| == |w| && forall k :: 0 <= k < |w| ==> Lower(W[k]) == w[k]
    requires |rest| > 0 && rest[0] != ' '
    ensures FirstMatch(p0 + (" " + W + " ") + rest, w, 0) == Some((|p0|, |p0| + |W| + 2))
  {
    WordSkipped(p0, W, rest, w);
    SeparatorMatchEnd(p0, W, rest, w);
  }

  /** The search passes over a first word without spaces. */
  lemma {:induction false} WordSkipped(p0: string, W: string, rest: string, w: string)
    requires ' ' !in p0
    ensures FirstMatch(p0 + (" " + W + " ") + rest, w, 0) == FirstMatch(p0 + (" " + W + " ") + rest, w, |p0|)
  {
    var s := p0 + (" " + W + " ") + rest;
    forall k | 0 <= k < |p0|
      ensures s[k] != ' '
    {
      assert s[k] == p0[k];
    }
    FirstMatchSkip(s, w, 0, |p0|);
  }

  /** The separator after the first word is a match, and it ends where `rest` begins. */
  lemma {:induction false} SeparatorMatchEnd(p0: string, W: string, rest: string, w: string)
    requires |w| > 0 && ' ' !in w
    requires |W| == |w| && forall k :: 0 <= k < |w| ==> Lower(W[k]) == w[k]
    requires |rest| > 0 && rest[0] != ' '
    ensures MatchEnd(p0 + (" " + W + " ") + rest, |p0|, w) == Some(|p0| + |W| + 2)
  {
    var s := p0 + (" " + W + " ") + rest;
    SeparatorChars(p0, W, rest);
    assert W[0] != ' ' by {
      assert Lower(W[0]) == w[0] && w[0] in w;
    }
    MatchAt(s, |p0|, w);
  }

  /** Where the characters of `p0 + ' ' + W + ' ' + rest` come from. */
  lemma {:induction false} SeparatorChars(p0: string, W: string, rest: string)
    requires |rest| > 0
    ensures var s := p0 + (" " + W + " ") + rest;
      |s| == |p0| + |W| + 2 + |rest| && s[|p0|] == ' ' && s[|p0| + 1 + |W|] == ' ' &&
      s[|p0| + 2 + |W|] == rest[0] && forall k :: 0 <= k < |W| ==> s[|p0| + 1 + k] == W[k]
  {
  }

  /** A space, the word in any case, then a single space before a non-space: a match. */
  lemma {:induction false} MatchAt(s: string, e: nat, w: string)
    requires |w| > 0 && e + |w| + 2 < |s|
    requires s[e] == ' ' && s[e + 1] != ' ' && s[e + 1 + |w|] == ' ' && s[e + 2 + |w|] != ' '
    requires forall k :: 0 <= k < |w| ==> Lower(s[e + 1 + k]) == w[k]
    ensures MatchEnd(s, e, w) == Some(e + |w| + 2)
  {
    assert SpaceRunEnd(s, e + 1) == e + 1;
    assert SpaceRunEnd(s, e) == e + 1;
    assert WordAt(s, e + 1, w);
    assert SpaceRunEnd(s, e + 2 + |w|) == e + 2 + |w|;
    assert SpaceRunEnd(s, e + 1 + |w|) == e + 2 + |w|;
  }

  /** Positions without a space cannot start a match, so the search passes over them. */
  lemma {:induction false} FirstMatchSkip(s: string, w: string, i: nat, e: nat)
    requires i <= e <= |s|
    requires forall k :: i <= k < e ==> s[k] != ' '
    ensures FirstMatch(s, w, i) == FirstMatch(s, w, e)
    decreases e - i
  {
    if i < e {
      FirstMatchSkip(s, w, i + 1, e);
    }
  }

  /** A join of non-empty parts starts with the first character of the first part. */
  lemma {:induction false} JoinHead(parts: seq<string>, sep: string)
    requires |parts| > 0 && |parts[0]| > 0
    ensures |Join(parts, sep)| > 0 && Join(parts, sep)[0] == parts[0][0]
  {
  }

  // ---------------------------------------------------------------------------
  // Integers
  // ---------------------------------------------------------------------------

  function DigitChar(d: nat): char
    requires d < 10
  {
    ['0', '1', '2', '3', '4', '5', '6', '7', '8', '9'][d]
  }

  function DigitValue(c: char): nat
    requires IsDigit(c)
  {
    c as int - '0' as int
  }

  predicate IsDigit(c: char)
  {
    '0' <= c <= '9'
  }

  /** Decimal digits of a natural number, most significant first, without leading zeros. */
  function NatToString(n: nat): (r: string)
    ensures |r| > 0 && forall k :: 0 <= k < |r| ==> IsDigit(r[k])
    decreases n
  {
    if n < 10 then [DigitChar(n)] else NatToString(n / 10) + [DigitChar(n % 10)]
  }

  /** `'%i' % n` and `repr(n)` for an integer. */
  function IntToString(n: int): string
  {
    if n < 0 then "-" + NatToString(-n) else NatToString(n)
  }

  /** The value of a non-empty string of decimal digits. */
  function DigitsValue(s: string): nat
    requires forall k :: 0 <= k < |s| ==> IsDigit(s[k])
    decreases |s|
  {
    if |s| == 0 then 0 else DigitsValue(s[..|s| - 1]) * 10 + DigitValue(s[|s| - 1])
  }

  /** Python's `int(s)` on a base-10 string: surrounding whitespace, an optional sign,
      then at least one digit. Anything else raises, here `None`. */
  function ParseInt(s: string): Option<int>
  {
    var t := Strip(s);
    if |t| > 0 && t[0] == '-' then Negate(ParseDigitsOnly(t[1..]))
    else if |t| > 0 && t[0] == '+' then ParseDigitsOnly(t[1..])
    else ParseDigitsOnly(t)
  }

  /** A non-empty run of decimal digits and its value. */
  function ParseDigitsOnly(d: string): (r: Option<int>)
    ensures r.Some? <==> |d| > 0 && AllDigits(d)
  {
    if |d| > 0 && AllDigits(d) then Some(DigitsValue(d)) else None
  }

  function Negate(v: Option<int>): Option<int>
  {
    match v
    case Some(x) => Some(-x)
    case None => None
  }

  lemma {:induction false} NatToStringValue(n: nat)
    ensures DigitsValue(NatToString(n)) == n
    decreases n
  {
    var r := NatToString(n);
    if n >= 10 {
      NatToStringValue(n / 10);
      assert r[..|r| - 1] == NatToString(n / 10);
      assert DigitValue(DigitChar(n % 10)) == n % 10;
    } else {
      assert DigitValue(DigitChar(n)) == n;
    }
  }

  /** A string that starts and ends with a non-blank character is its own `strip()`. */
  lemma {:induction false} StripUnblank(r: string)
    requires |r| > 0 && !IsSpace(r[0]) && !IsSpace(r[|r| - 1])
    ensures Strip(r) == r
  {
    assert LStripChars(r, Whitespace) == r;
    assert RStripChars(r, Whitespace) == r;
  }

  predicate AllDigits(s: string)
  {
    forall k :: 0 <= k < |s| ==> IsDigit(s[k])
  }

  lemma {:induction false} DigitNotSpace(c: char)
    requires IsDigit(c) || c == '-'
    ensures !IsSpace(c)
  {
  }

  lemma {:induction false} ParseDigits(d: string)
    requires |d| > 0 && AllDigits(d)
    ensures ParseInt(d) == Some(DigitsValue(d))
  {
    DigitNotSpace(d[0]);
    DigitNotSpace(d[|d| - 1]);
    StripUnblank(d);
    ParseStripped(d);
  }

  lemma {:induction false} ParseNegDigits(d: string)
    requires |d| > 0 && AllDigits(d)
    ensures ParseInt("-" + d) == Some(-(DigitsValue(d) as int))
  {
    var t := "-" + d;
    assert t[1..] == d;
    DigitNotSpace(d[|d| - 1]);
    StripUnblank(t);
    ParseStripped(t);
  }

  /** `int()` of a string that `strip()` leaves alone reads its sign and digits directly. */
  lemma {:induction false} ParseStripped(t: string)
    requires Strip(t) == t && |t| > 0
    ensures ParseInt(t) == if t[0] == '-' then Negate(ParseDigitsOnly(t[1..]))
      else if t[0] == '+' then ParseDigitsOnly(t[1..]) else ParseDigitsOnly(t)
  {
  }

  /** Rendering an integer and reading it back with `int()` gives the integer. */
  lemma {:induction false} IntToStringRoundTrip(n: int)
    ensures ParseInt(IntToString(n)) == Some(n)
  {
    var m: nat := if n < 0 then -n else n;
    NatToStringValue(m);
    if n < 0 {
      ParseNegDigits(NatToString(m));
    } else {
      ParseDigits(NatToString(m));
    }
  }
}
