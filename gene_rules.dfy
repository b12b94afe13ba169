/** The textual gene scraper of `Reaction.parse_gene_association`: delete the Boolean operators
    and grouping characters, collapse runs of spaces, split on single spaces and keep the
    non-empty pieces. It recovers the set of gene ids a rule mentions, not its logic. */
module GeneRules {
  import opened Wrappers
  import opened Text

  /** The characters the scraper deletes wherever they occur. */
  const Deleted: set<char> := {'(', ')', '+'}

  /** `re.sub('\(| and| or|\+|\)', '', s)`: scanning left to right, a `(`, `)` or `+` is
      deleted, and so are the four characters ` and` and the three characters ` or`, whatever
      follows them (the pattern has no word boundary). */
  function Scrub(s: string): (r: string)
    ensures |r| <= |s|
    decreases |s|
  {
    if |s| == 0 then ""
    else if s[0] in Deleted then Scrub(s[1..])
    else if StartsWith(s, " and") then Scrub(s[4..])
    else if StartsWith(s, " or") then Scrub(s[3..])
    else [s[0]] + Scrub(s[1..])
  }

  /** `re.sub(' {2,}', ' ', s)`: every run of two or more spaces becomes one space. */
  function Collapse(s: string): (r: string)
    ensures |r| <= |s|
    decreases |s|
  {
    if |s| == 0 then ""
    else if |s| >= 2 && s[0] == ' ' && s[1] == ' ' then Collapse(s[1..])
    else [s[0]] + Collapse(s[1..])
  }

  /** The gene ids `parse_gene_association` extracts from a rule: the pieces of
      `Collapse(Scrub(rule)).split(' ')` without the empty piece. */
  function GeneIds(rule: string): (ids: set<string>)
  {
    Words(Collapse(Scrub(rule)))
  }

  /** The non-empty pieces of a string split on single spaces. */
  function Words(s: string): set<string>
  {
    (set p | p in SplitChar(s, ' ')) - {""}
  }

  /** A gene id is a word of the rule's text: non-empty, without spaces and without any of the
      deleted characters. */
  predicate IsGeneWord(g: string)
  {
    g != "" && ' ' !in g && forall c :: c in Deleted ==> c !in g
  }

  /** Scrubbing leaves no deleted character behind and invents no character. */
  lemma {:induction false} ScrubChars(s: string)
    ensures forall c :: c in Scrub(s) ==> c in s && c !in Deleted
    decreases |s|
  {
    if |s| > 0 {
      if s[0] in Deleted {
        ScrubChars(s[1..]);
      } else if StartsWith(s, " and") {
        ScrubChars(s[4..]);
      } else if StartsWith(s, " or") {
        ScrubChars(s[3..]);
      } else {
        ScrubChars(s[1..]);
      }
    }
  }

  /** Collapsing spaces keeps exactly the characters there were. */
  lemma {:induction false} CollapseChars(s: string)
    ensures forall c :: c in Collapse(s) ==> c in s
    decreases |s|
  {
    if |s| > 0 {
      CollapseChars(s[1..]);
    }
  }

  /** Every piece of a split is made of characters of the string. */
  lemma {:induction false} SplitCharPieces(s: string, c: char)
    ensures forall p :: p in SplitChar(s, c) ==> forall x :: x in p ==> x in s
    decreases |s|
  {
    match IndexOf(s, c)
    case None =>
    case Some(i) =>
      SplitCharPieces(s[i + 1..], c);
  }

  /** Every extracted gene id is a word: never empty, never holding a space, a parenthesis
      or a `+`. */
  lemma {:induction false} GeneIdsAreWords(rule: string)
    ensures forall g :: g in GeneIds(rule) ==> IsGeneWord(g)
  {
    var scrubbed := Scrub(rule);
    var collapsed := Collapse(scrubbed);
    ScrubChars(rule);
    CollapseChars(scrubbed);
    SplitCharPieces(collapsed, ' ');
  }

  /** A run of word characters passes through the scrubber unchanged. */
  lemma {:induction false} ScrubWord(w: string, rest: string)
    requires ' ' !in w && forall c :: c in Deleted ==> c !in w
    ensures Scrub(w + rest) == w + Scrub(rest)
  {
    ScrubNoSpace(w, rest);
    forall i | 0 <= i < |w|
      ensures w[i] != ' ' && w[i] !in Deleted
    {
      assert w[i] in w;
    }
    ScrubKeeps(w);
  }

  /** A word without spaces and deleted characters is its own scrub. */
  lemma {:induction false} ScrubKeeps(w: string)
    requires forall i :: 0 <= i < |w| ==> w[i] != ' ' && w[i] !in Deleted
    ensures Scrub(w) == w
    decreases |w|
  {
    if |w| > 0 {
      assert w[0] != ' ' && w[0] !in Deleted;
      ScrubKeeps(w[1..]);
      ScrubHead(w);
    }
  }

  /** A first character that is neither a space nor deleted is kept. */
  lemma {:induction false} ScrubHead(w: string)
    requires |w| > 0 && w[0] != ' ' && w[0] !in Deleted
    ensures Scrub(w) == [w[0]] + Scrub(w[1..])
  {
  }

  /** A space in front of a word that does not begin with `and` or `or` is kept. */
  lemma {:induction false} ScrubSpace(rest: string)
    requires !StartsWith(rest, "and") && !StartsWith(rest, "or")
    ensures Scrub(" " + rest) == " " + Scrub(rest)
  {
    var s := " " + rest;
    assert s[1..] == rest;
    if |rest| >= 3 {
      assert s[1..4] == rest[..3];
    }
    if |rest| >= 2 {
      assert s[1..3] == rest[..2];
    }
  }

  /** An operator word (` and`, ` or`) is dropped together with its leading space. */
  lemma {:induction false} ScrubOperator(op: string, rest: string)
    requires op == " and" || op == " or"
    ensures Scrub(op + rest) == Scrub(rest)
  {
    var s := op + rest;
    assert s[..|op|] == op;
    assert s[|op|..] == rest;
    assert s[1] == op[1];
  }

  /** A deleted character is dropped. */
  lemma {:induction false} ScrubDeleted(c: char, rest: string)
    requires c in Deleted
    ensures Scrub([c] + rest) == Scrub(rest)
  {
    assert ([c] + rest)[1..] == rest;
  }

  /** A word without spaces is scrubbed on its own, whatever follows it. */
  lemma {:induction false} ScrubNoSpace(t: string, rest: string)
    requires ' ' !in t
    ensures Scrub(t + rest) == Scrub(t) + Scrub(rest)
    decreases |t|
  {
    if |t| == 0 {
      assert t + rest == rest;
    } else {
      var s := t + rest;
      assert s[0] == t[0] && t[0] in t;
      assert s[1..] == t[1..] + rest;
      assert !StartsWith(s, " and") && !StartsWith(s, " or");
      assert !StartsWith(t, " and") && !StartsWith(t, " or");
      ScrubNoSpace(t[1..], rest);
    }
  }

  /** An operator word of a rule: `and` or `or`. */
  predicate IsOperator(t: string)
  {
    t == "and" || t == "or"
  }

  /** A gene term of a rule: no spaces, not beginning with `and` or `or` (the scrubber would
      eat those letters together with the space before them), and a gene word once its
      parentheses and `+` signs are gone, as `(b1` or `b2)`. */
  predicate IsGeneTerm(t: string)
  {
    ' ' !in t && !StartsWith(t, "and") && !StartsWith(t, "or") && IsGeneWord(Scrub(t))
  }

  /** Gene terms at even positions alternating with operator words, starting and ending with
      a term: the words of a rule such as `(b1 and b2) or b3`, which are separated by single
      spaces. */
  predicate Alternating(words: seq<string>)
  {
    |words| % 2 == 1 &&
    forall i :: 0 <= i < |words| ==> if i % 2 == 0 then IsGeneTerm(words[i]) else IsOperator(words[i])
  }

  /** The gene terms of an alternating rule, scrubbed. */
  function GeneTerms(words: seq<string>): (r: seq<string>)
    requires Alternating(words)
    ensures |r| == |words| / 2 + 1
    ensures forall g :: g in r ==> IsGeneWord(g)
    decreases |words|
  {
    if |words| == 1 then [Scrub(words[0])]
    else
      assert Alternating(words[2..]) by {
        forall i | 0 <= i < |words[2..]|
          ensures if i % 2 == 0 then IsGeneTerm(words[2..][i]) else IsOperator(words[2..][i])
        {
          assert words[2..][i] == words[i + 2];
        }
      }
      [Scrub(words[0])] + GeneTerms(words[2..])
  }

  /** A word without spaces that does not start with `w` keeps the string it begins from
      starting without `w`, when `w` has no space. */
  lemma {:induction false} NoPrefixBeforeSpace(t: string, rest: string, w: string)
    requires ' ' !in t && ' ' !in w && !StartsWith(t, w)
    ensures !StartsWith(t + " " + rest, w)
  {
    var s := t + " " + rest;
    if |t| >= |w| {
      assert s[..|w|] == t[..|w|];
    } else if |s| >= |w| {
      assert s[|t|] == ' ';
      assert w[|t|] in w;
      assert s[..|w|][|t|] == s[|t|];
    }
  }

  /** The joined words of an alternating rule, which are never empty, do not start with
      an operator word. */
  lemma {:induction false} JoinNoOperatorPrefix(words: seq<string>)
    requires Alternating(words)
    ensures !StartsWith(Join(words, " "), "and") && !StartsWith(Join(words, " "), "or")
  {
    assert IsGeneTerm(words[0]);
    if |words| > 1 {
      assert Join(words, " ") == words[0] + " " + Join(words[1..], " ");
      NoPrefixBeforeSpace(words[0], Join(words[1..], " "), "and");
      NoPrefixBeforeSpace(words[0], Join(words[1..], " "), "or");
    }
  }

  /** An alternating rule of more than one word: its first term, the first operator and the
      rest of the rule. */
  lemma {:induction false} AlternatingSplit(words: seq<string>)
    requires Alternating(words) && |words| > 1
    ensures Alternating(words[2..]) && IsGeneTerm(words[0]) && IsOperator(words[1])
    ensures Join(words, " ") == words[0] + ((" " + words[1]) + (" " + Join(words[2..], " ")))
    ensures GeneTerms(words) == [Scrub(words[0])] + GeneTerms(words[2..])
  {
    assert IsGeneTerm(words[0]) && IsOperator(words[1]);
    AlternatingTail(words);
    JoinTwo(words, " ");
  }

  lemma {:induction false} AlternatingTail(words: seq<string>)
    requires Alternating(words) && |words| > 1
    ensures Alternating(words[2..])
  {
    forall i | 0 <= i < |words[2..]|
      ensures if i % 2 == 0 then IsGeneTerm(words[2..][i]) else IsOperator(words[2..][i])
    {
      assert words[2..][i] == words[i + 2];
    }
  }

  /** Joining at least three parts: the first two, each followed by the separator, then the
      rest. */
  lemma {:induction false} JoinTwo(parts: seq<string>, sep: string)
    requires |parts| > 2
    ensures Join(parts, sep) == parts[0] + ((sep + parts[1]) + (sep + Join(parts[2..], sep)))
  {
    assert parts[1..][1..] == parts[2..];
    assert parts[1..][0] == parts[1];
    var j := Join(parts[2..], sep);
    calc {
      Join(parts, sep);
      parts[0] + sep + Join(parts[1..], sep);
      parts[0] + sep + (parts[1] + sep + j);
      parts[0] + ((sep + parts[1]) + (sep + j));
    }
  }

  /** Scrubbing an alternating rule drops the operator words and the grouping characters and
      leaves the gene words separated by single spaces. */
  lemma {:induction false} ScrubAlternating(words: seq<string>)
    requires Alternating(words)
    ensures Scrub(Join(words, " ")) == Join(GeneTerms(words), " ")
    decreases |words|
  {
    if |words| > 1 {
      AlternatingSplit(words);
      var rest := words[2..];
      ScrubAlternating(rest);
      JoinNoOperatorPrefix(rest);
      ScrubTermOperator(words[0], words[1], Join(rest, " "));
      JoinCons(Scrub(words[0]), GeneTerms(rest), " ");
    }
  }

  /** A term, an operator word and the rest of a rule that does not start with an operator
      word: the term is scrubbed on its own, the operator disappears and one space remains. */
  lemma {:induction false} ScrubTermOperator(t: string, op: string, j: string)
    requires ' ' !in t && IsOperator(op)
    requires !StartsWith(j, "and") && !StartsWith(j, "or")
    ensures Scrub(t + ((" " + op) + (" " + j))) == Scrub(t) + " " + Scrub(j)
  {
    var a := (" " + op) + (" " + j);
    ScrubNoSpace(t, a);
    ScrubOperator(" " + op, " " + j);
    ScrubSpace(j);
    AppendAssoc(Scrub(t), " ", Scrub(j));
  }

  /** A word without spaces passes through the space collapse unchanged. */
  lemma {:induction false} CollapseWord(t: string, rest: string)
    requires ' ' !in t
    ensures Collapse(t + rest) == t + Collapse(rest)
    decreases |t|
  {
    if |t| == 0 {
      assert t + rest == rest;
    } else {
      var s := t + rest;
      assert s[0] == t[0] && t[0] in t;
      assert s[1..] == t[1..] + rest;
      CollapseWord(t[1..], rest);
    }
  }

  /** Words separated by single spaces are already collapsed. */
  lemma {:induction false} CollapseJoin(parts: seq<string>)
    requires |parts| > 0 && forall p :: p in parts ==> p != "" && ' ' !in p
    ensures Collapse(Join(parts, " ")) == Join(parts, " ")
    decreases |parts|
  {
    var p := parts[0];
    assert p in parts;
    if |parts| == 1 {
      CollapseWord(p, "");
      assert p + "" == p;
    } else {
      var j := Join(parts[1..], " ");
      assert parts[1] in parts && parts[1..][0] == parts[1];
      assert forall q :: q in parts[1..] ==> q in parts;
      JoinHead(parts[1..], " ");
      assert j[0] != ' ' by { assert parts[1][0] in parts[1]; }
      CollapseJoin(parts[1..]);
      assert Join(parts, " ") == p + (" " + j);
      CollapseWord(p, " " + j);
      assert (" " + j)[1..] == j;
    }
  }

  /** Splitting on a character gives back the pieces it joined, when no piece holds it. */
  lemma {:induction false} SplitCharOfJoin(parts: seq<string>, c: char)
    requires |parts| > 0 && forall p :: p in parts ==> c !in p
    ensures SplitChar(Join(parts, [c]), c) == parts
    decreases |parts|
  {
    var p := parts[0];
    assert p in parts;
    if |parts| == 1 {
    } else {
      var j := Join(parts[1..], [c]);
      var s := Join(parts, [c]);
      assert s == p + [c] + j;
      IndexAfter(p, c, j);
      assert s[..|p|] == p && s[|p| + 1..] == j;
      SplitCharOfJoin(parts[1..], c);
    }
  }

  lemma {:induction false} IndexAfter(p: string, c: char, j: string)
    requires c !in p
    ensures IndexOf(p + [c] + j, c) == Some(|p|)
    decreases |p|
  {
    var s := p + [c] + j;
    if |p| > 0 {
      assert s[0] == p[0] && p[0] in p;
      assert s[1..] == p[1..] + [c] + j;
      IndexAfter(p[1..], c, j);
    }
  }

  /** The genes of an alternating rule are exactly its scrubbed gene terms: the operator words
      and the parentheses never yield a gene id. */
  lemma {:induction false} GeneIdsOfAlternating(words: seq<string>)
    requires Alternating(words)
    ensures GeneIds(Join(words, " ")) == set g | g in GeneTerms(words)
  {
    var terms := GeneTerms(words);
    ScrubAlternating(words);
    CollapseJoin(terms);
    SplitCharOfJoin(terms, ' ');
  }

  // ----- Rules joined with `and` -----

  lemma {:induction false} WordsEmpty()
    ensures Words("") == {}
  {
    assert SplitChar("", ' ') == [""];
  }

  lemma {:induction false} IndexOfAppend(a: string, t: string, c: char)
    ensures c in a ==> IndexOf(a + t, c) == IndexOf(a, c)
    ensures c !in a && |t| > 0 && t[0] == c ==> IndexOf(a + t, c) == Some(|a|)
    decreases |a|
  {
    if |a| > 0 {
      assert (a + t)[1..] == a[1..] + t;
      IndexOfAppend(a[1..], t, c);
    }
  }

  /** Splitting around one separator splits each side. */
  lemma {:induction false} SplitCharAround(a: string, b: string, c: char)
    ensures SplitChar(a + [c] + b, c) == SplitChar(a, c) + SplitChar(b, c)
    decreases |a|
  {
    match IndexOf(a, c)
    case None =>
      SplitAroundFirst(a, b, c);
    case Some(i) =>
      SplitCharAround(a[i + 1..], b, c);
      SplitAroundLater(a, b, c, i);
  }

  /** `SplitCharAround` when `a` holds no separator. */
  lemma {:induction false} SplitAroundFirst(a: string, b: string, c: char)
    requires IndexOf(a, c).None?
    ensures SplitChar(a + [c] + b, c) == SplitChar(a, c) + SplitChar(b, c)
  {
    var s := a + [c] + b;
    AppendAssoc(a, [c], b);
    IndexOfAppend(a, [c] + b, c);
    assert s[..|a|] == a;
    assert s[|a| + 1..] == b;
  }

  /** `SplitCharAround` when `a`'s first separator is at `i`, given it for what follows. */
  lemma {:induction false} SplitAroundLater(a: string, b: string, c: char, i: nat)
    requires IndexOf(a, c) == Some(i)
    requires SplitChar(a[i + 1..] + [c] + b, c) == SplitChar(a[i + 1..], c) + SplitChar(b, c)
    ensures SplitChar(a + [c] + b, c) == SplitChar(a, c) + SplitChar(b, c)
  {
    var t := [c] + b;
    AppendAssoc(a, [c], b);
    IndexOfAppend(a, t, c);
    SliceAppend(a, t, i);
    SliceAppend(a, t, i + 1);
    AppendAssoc(a[i + 1..], [c], b);
    AppendAssoc([a[..i]], SplitChar(a[i + 1..], c), SplitChar(b, c));
  }

  /** The words on both sides of a space are the words of each side. */
  lemma {:induction false} WordsAround(a: string, b: string)
    ensures Words(a + " " + b) == Words(a) + Words(b)
  {
    assert a + " " + b == a + [' '] + b;
    SplitCharAround(a, b, ' ');
  }

  /** Collapsing runs of spaces changes no word, even after a word already begun. */
  lemma {:induction false} WordsCollapseAfter(p: string, u: string)
    requires ' ' !in p
    ensures Words(p + Collapse(u)) == Words(p + u)
    decreases |u|
  {
    if |u| == 0 {
      assert p + Collapse(u) == p + u;
    } else if u[0] != ' ' {
      WordsCollapseAfter(p + [u[0]], u[1..]);
      CollapseWordChar(p, u);
    } else if |u| >= 2 && u[1] == ' ' {
      WordsCollapseAfter(p, u[1..]);
      CollapseDoubleSpace(p, u);
    } else {
      WordsCollapseAfter("", u[1..]);
      CollapseSingleSpace(p, u);
      SingleSpaceWords(p, u[1..], Collapse(u[1..]));
    }
  }

  /** The step of `WordsCollapseAfter` over a character that is not a space. */
  lemma CollapseWordChar(p: string, u: string)
    requires |u| > 0 && u[0] != ' '
    ensures p + Collapse(u) == (p + [u[0]]) + Collapse(u[1..])
    ensures p + u == (p + [u[0]]) + u[1..]
  {
    assert Collapse(u) == [u[0]] + Collapse(u[1..]);
    AppendAssoc(p, [u[0]], Collapse(u[1..]));
    assert u == [u[0]] + u[1..];
    AppendAssoc(p, [u[0]], u[1..]);
  }

  /** The step of `WordsCollapseAfter` over the first of two spaces. */
  lemma CollapseDoubleSpace(p: string, u: string)
    requires |u| >= 2 && u[0] == ' ' && u[1] == ' '
    requires Words(p + Collapse(u[1..])) == Words(p + u[1..])
    ensures Words(p + Collapse(u)) == Words(p + u)
  {
    assert Collapse(u) == Collapse(u[1..]);
    DoubleSpaceWords(p, u);
  }

  /** The step of `WordsCollapseAfter` over a single space. */
  lemma CollapseSingleSpace(p: string, u: string)
    requires |u| > 0 && u[0] == ' ' && !(|u| >= 2 && u[1] == ' ')
    ensures p + Collapse(u) == p + " " + Collapse(u[1..])
    ensures p + u == p + " " + u[1..]
    ensures "" + Collapse(u[1..]) == Collapse(u[1..]) && "" + u[1..] == u[1..]
  {
    assert Collapse(u) == " " + Collapse(u[1..]);
    AppendAssoc(p, " ", Collapse(u[1..]));
    assert u == " " + u[1..];
    AppendAssoc(p, " ", u[1..]);
  }

  /** The words after a doubled space are the words after a single one. */
  lemma {:induction false} DoubleSpaceWords(p: string, u: string)
    requires |u| >= 2 && u[0] == ' ' && u[1] == ' '
    ensures Words(p + u) == Words(p + u[1..])
  {
    assert p + u == p + " " + u[1..];
    WordsAround(p, u[1..]);
    assert p + u[1..] == p + " " + u[2..];
    WordsAround(p, u[2..]);
    assert u[1..] == "" + " " + u[2..];
    WordsAround("", u[2..]);
    WordsEmpty();
  }

  /** Words after a space only depend on the words of what follows it. */
  lemma {:induction false} SingleSpaceWords(p: string, t: string, t': string)
    requires Words(t') == Words(t)
    ensures Words(p + " " + t') == Words(p + " " + t)
  {
    WordsAround(p, t');
    WordsAround(p, t);
  }

  lemma {:induction false} WordsCollapse(s: string)
    ensures Words(Collapse(s)) == Words(s)
  {
    WordsCollapseAfter("", s);
    assert "" + Collapse(s) == Collapse(s) && "" + s == s;
  }

  /** Scrubbing works piecewise at a space: no deleted pattern reaches across it. */
  lemma {:induction false} ScrubAppend(a: string, b: string)
    requires |b| > 0 && b[0] == ' '
    ensures Scrub(a + b) == Scrub(a) + Scrub(b)
    decreases |a|
  {
    if |a| > 0 {
      var s := a + b;
      PatternsWithinLeft(a, b);
      if a[0] in Deleted {
        assert s[1..] == a[1..] + b;
        ScrubAppend(a[1..], b);
        assert Scrub(s) == Scrub(a[1..] + b);
        assert Scrub(a) == Scrub(a[1..]);
      } else if StartsWith(a, " and") {
        assert s[4..] == a[4..] + b;
        ScrubAppend(a[4..], b);
        assert Scrub(s) == Scrub(a[4..] + b);
        assert Scrub(a) == Scrub(a[4..]);
      } else if StartsWith(a, " or") {
        assert s[3..] == a[3..] + b;
        ScrubAppend(a[3..], b);
        assert Scrub(s) == Scrub(a[3..] + b);
        assert Scrub(a) == Scrub(a[3..]);
      } else {
        assert s[1..] == a[1..] + b;
        ScrubAppend(a[1..], b);
        assert Scrub(s) == [a[0]] + Scrub(a[1..] + b);
      }
    } else {
      assert a + b == b;
    }
  }

  /** Before a space, ` and` and ` or` start in `a + b` exactly where they start in `a`. */
  lemma {:induction false} PatternsWithinLeft(a: string, b: string)
    requires |a| > 0 && |b| > 0 && b[0] == ' '
    ensures (a + b)[0] == a[0]
    ensures StartsWith(a + b, " and") <==> StartsWith(a, " and")
    ensures StartsWith(a + b, " or") <==> StartsWith(a, " or")
  {
    var s := a + b;
    if |a| >= 4 {
      assert s[..4] == a[..4];
    } else if |s| >= 4 {
      assert s[|a|] == ' ';
    }
    if |a| >= 3 {
      assert s[..3] == a[..3];
    } else if |s| >= 3 {
      assert s[|a|] == ' ';
    }
  }

  /** `'%s and %s' % (ra, rb)` scrubs to the two scrubbed rules around one space, when `rb`
      does not itself begin with an operator word. */
  lemma {:induction false} ScrubConjunction(ra: string, rb: string)
    requires !StartsWith(rb, "and") && !StartsWith(rb, "or")
    ensures Scrub(ra + " and " + rb) == Scrub(ra) + " " + Scrub(rb)
  {
    assert ra + " and " + rb == ra + (" and" + (" " + rb));
    ScrubAppend(ra, " and" + (" " + rb));
    ScrubOperator(" and", " " + rb);
    ScrubSpace(rb);
  }

  /** The genes of two rules joined with `and` are the genes of both. */
  lemma {:induction false} GeneIdsConjunction(ra: string, rb: string)
    requires !StartsWith(rb, "and") && !StartsWith(rb, "or")
    ensures GeneIds(ra + " and " + rb) == GeneIds(ra) + GeneIds(rb)
  {
    ScrubConjunction(ra, rb);
    WordsCollapse(Scrub(ra) + " " + Scrub(rb));
    WordsAround(Scrub(ra), Scrub(rb));
    WordsCollapse(Scrub(ra));
    WordsCollapse(Scrub(rb));
  }

  /** An empty rule names no gene. */
  lemma {:induction false} GeneIdsEmpty()
    ensures GeneIds("") == {}
  {
    assert Collapse(Scrub("")) == "";
    WordsEmpty();
  }
}
