/** JavaScript strings: sequences of UTF-16 code units. */
module Texts {
  type CodeUnit = x: nat | x < 0x1_0000
  type Text = seq<CodeUnit>

  /** WhiteSpace and LineTerminator of ECMAScript, what trimStart removes. */
  predicate IsSpace(u: CodeUnit)
  {
    || 9 <= u <= 13 || u == 32 || u == 0xA0 || u == 0x1680 || 0x2000 <= u <= 0x200A
    || u == 0x2028 || u == 0x2029 || u == 0x202F || u == 0x205F || u == 0x3000 || u == 0xFEFF
  }

  const NEWLINE: CodeUnit := 10
  const SPACE: CodeUnit := 32

  ghost predicate AllSpace(s: Text)
  {
    forall i :: 0 <= i < |s| ==> IsSpace(s[i])
  }

  function TrimStart(s: Text): (t: Text)
    ensures |t| <= |s|
  {
    if s != [] && IsSpace(s[0]) then TrimStart(s[1..]) else s
  }

  /** The last position of u, or -1. */
  function LastIndex(s: Text, u: CodeUnit): (i: int)
    ensures -1 <= i < |s|
  {
    if s == [] then -1 else if s[|s| - 1] == u then |s| - 1 else LastIndex(s[..|s| - 1], u)
  }

  lemma {:induction false} LastIndexIsLast(s: Text, u: CodeUnit)
    ensures LastIndex(s, u) >= 0 ==> s[LastIndex(s, u)] == u
    ensures forall j :: LastIndex(s, u) < j < |s| ==> s[j] != u
  {
    if s != [] && s[|s| - 1] != u {
      LastIndexIsLast(s[..|s| - 1], u);
    }
  }

  /** How many leading units TrimStart removes. */
  function Leading(s: Text): (n: nat)
    ensures n <= |s|
  {
    if s != [] && IsSpace(s[0]) then 1 + Leading(s[1..]) else 0
  }

  lemma {:induction false} TrimStartSplits(s: Text)
    ensures s == s[..Leading(s)] + TrimStart(s) && AllSpace(s[..Leading(s)])
    ensures TrimStart(s) != [] ==> !IsSpace(TrimStart(s)[0])
    ensures TrimStart(s) == s[Leading(s)..]
  {
    if s != [] && IsSpace(s[0]) {
      TrimStartSplits(s[1..]);
      assert s[..Leading(s)] == [s[0]] + s[1..][..Leading(s[1..])];
    }
  }

  // ---------- words ----------

  /** The length of the leading run of non-space units. */
  function Run(s: Text): (n: nat)
    ensures n <= |s|
  {
    if s != [] && !IsSpace(s[0]) then 1 + Run(s[1..]) else 0
  }

  /** The maximal runs of non-space units, in order. */
  function Words(s: Text): seq<Text>
    decreases |s|
  {
    if s == [] then []
    else if IsSpace(s[0]) then Words(s[1..])
    else [s[..Run(s)]] + Words(s[Run(s)..])
  }

  lemma {:induction false} RunAppend(a: Text, b: Text)
    ensures Run(a + b) == if Run(a) < |a| then Run(a) else |a| + Run(b)
    ensures Run(a) < |a| ==> IsSpace(a[Run(a)])
  {
    if a == [] {
      assert a + b == b;
    } else if !IsSpace(a[0]) {
      RunAppend(a[1..], b);
      assert (a + b)[1..] == a[1..] + b;
    }
  }

  lemma {:induction false} RunIsNonSpace(s: Text)
    ensures forall i :: 0 <= i < Run(s) ==> !IsSpace(s[i])
  {
    if s != [] && !IsSpace(s[0]) {
      RunIsNonSpace(s[1..]);
    }
  }

  /** A cut between a and b falls inside a word. */
  predicate CutsWord(a: Text, b: Text)
  {
    a != [] && b != [] && !IsSpace(a[|a| - 1]) && !IsSpace(b[0])
  }

  /** Cutting a text keeps its words, unless the cut falls inside one: then there is one more. */
  lemma {:induction false} WordsOfParts(a: Text, b: Text)
    ensures !CutsWord(a, b) ==> Words(a + b) == Words(a) + Words(b)
    ensures CutsWord(a, b) ==> |Words(a)| + |Words(b)| == |Words(a + b)| + 1
    decreases |a|
  {
    if a == [] {
      assert a + b == b;
    } else if IsSpace(a[0]) {
      assert (a + b)[1..] == a[1..] + b;
      WordsOfParts(a[1..], b);
    } else {
      RunAppend(a, b);
      var n := Run(a);
      if n < |a| {
        assert (a + b)[..n] == a[..n] && (a + b)[n..] == a[n..] + b;
        WordsOfParts(a[n..], b);
        assert Words(a + b) == [a[..n]] + Words(a[n..] + b);
      } else {
        WordsOfOneWord(a, b);
      }
    }
  }

  lemma OneWord(a: Text)
    requires a != [] && Run(a) == |a|
    ensures Words(a) == [a] && !IsSpace(a[|a| - 1])
  {
    RunIsNonSpace(a);
    assert a[..|a|] == a && a[|a|..] == [];
  }

  lemma WordsOfOneWord(a: Text, b: Text)
    requires a != [] && Run(a) == |a|
    ensures !CutsWord(a, b) ==> Words(a + b) == Words(a) + Words(b)
    ensures CutsWord(a, b) ==> |Words(a)| + |Words(b)| == |Words(a + b)| + 1
  {
    OneWord(a);
    WordsOfLongerWord(a, b);
    if Run(b) == 0 {
      assert b[0..] == b && a + b[..0] == a;
    }
  }

  /** A word goes on into what follows it. */
  lemma WordsOfLongerWord(a: Text, b: Text)
    requires a != [] && Run(a) == |a|
    ensures Words(a + b) == [a + b[..Run(b)]] + Words(b[Run(b)..])
  {
    RunAppend(a, b);
    RunIsNonSpace(a);
    var m := Run(b);
    assert (a + b)[..|a| + m] == a + b[..m] && (a + b)[|a| + m..] == b[m..];
  }

  lemma {:induction false} TrimKeepsWords(s: Text)
    ensures Words(TrimStart(s)) == Words(s)
  {
    if s != [] && IsSpace(s[0]) {
      TrimKeepsWords(s[1..]);
    }
  }

  // ---------- visible text ----------

  /** What is seen of one unit. */
  function Seen(u: CodeUnit): Text
  {
    if IsSpace(u) then [] else [u]
  }

  function Visible(s: Text): Text
  {
    if s == [] then [] else Seen(s[0]) + Visible(s[1..])
  }

  lemma VisibleStep(s: Text, u: CodeUnit, rest: Text)
    requires s == [u] + rest
    ensures Visible(s) == Seen(u) + Visible(rest)
  {
    assert s[1..] == rest;
  }

  lemma Regroup(a: Text, b: Text, c: Text)
    ensures a + b + c == a + (b + c)
  {
  }

  lemma {:induction false} VisibleConcat(a: Text, b: Text)
    ensures Visible(a + b) == Visible(a) + Visible(b)
  {
    if a == [] {
      assert a + b == b;
    } else {
      var rest := a[1..];
      VisibleConcat(rest, b);
      VisibleStep(a, a[0], rest);
      Regroup([a[0]], rest, b);
      VisibleStep(a + b, a[0], rest + b);
      Regroup(Seen(a[0]), Visible(rest), Visible(b));
    }
  }

  lemma {:induction false} SpacesAreInvisible(s: Text)
    requires AllSpace(s)
    ensures Visible(s) == []
  {
    if s != [] {
      SpacesAreInvisible(s[1..]);
    }
  }

  // ---------- what words are ----------

  function Concat(parts: seq<Text>): Text
  {
    if parts == [] then [] else parts[0] + Concat(parts[1..])
  }

  /** Words are non-empty runs of visible units, and have all that is visible, in order. */
  lemma {:induction false} WordsAreVisible(s: Text)
    ensures Concat(Words(s)) == Visible(s)
    ensures forall w :: w in Words(s) ==> IsWord(w)
    decreases |s|
  {
    if s != [] && IsSpace(s[0]) {
      WordsAreVisible(s[1..]);
      assert Visible(s) == Visible(s[1..]);
    } else if s != [] {
      var word, rest := s[..Run(s)], s[Run(s)..];
      FirstWordIsVisible(s);
      WordsAreVisible(rest);
      assert Words(s) == [word] + Words(rest);
      ConcatCons(word, Words(rest));
      WordAhead(word, Words(rest));
    }
  }

  ghost predicate IsWord(w: Text)
  {
    w != [] && forall i :: 0 <= i < |w| ==> !IsSpace(w[i])
  }

  lemma WordAhead(word: Text, words: seq<Text>)
    requires IsWord(word) && forall w :: w in words ==> IsWord(w)
    ensures forall w :: w in [word] + words ==> IsWord(w)
  {
  }

  lemma ConcatCons(part: Text, parts: seq<Text>)
    ensures Concat([part] + parts) == part + Concat(parts)
  {
    assert ([part] + parts)[1..] == parts;
  }

  lemma FirstWordIsVisible(s: Text)
    requires s != [] && !IsSpace(s[0])
    ensures Run(s) > 0 && Visible(s) == s[..Run(s)] + Visible(s[Run(s)..]) && IsWord(s[..Run(s)])
  {
    FirstWordIsWord(s);
    Rejoined(s, Run(s));
    SolidVisible(s, s[..Run(s)], s[Run(s)..]);
  }

  lemma Rejoined(s: Text, k: nat)
    requires k <= |s|
    ensures s == s[..k] + s[k..]
  {
  }

  lemma FirstWordIsWord(s: Text)
    requires s != [] && !IsSpace(s[0])
    ensures Run(s) > 0 && IsWord(s[..Run(s)])
  {
    RunIsNonSpace(s);
  }

  lemma SolidVisible(s: Text, word: Text, rest: Text)
    requires s == word + rest && forall i :: 0 <= i < |word| ==> !IsSpace(word[i])
    ensures Visible(s) == word + Visible(rest)
  {
    SolidIsVisible(word);
    VisibleConcat(word, rest);
  }

  lemma {:induction false} SolidIsVisible(s: Text)
    requires forall i :: 0 <= i < |s| ==> !IsSpace(s[i])
    ensures Visible(s) == s
  {
    if s != [] {
      SolidIsVisible(s[1..]);
      assert s == [s[0]] + s[1..];
    }
  }

  /** White space and line terminators of ECMAScript, one by one. */
  lemma SpacesListed(u: CodeUnit)
    ensures IsSpace(u) <==>
            u in {9, 10, 11, 12, 13, 0x20, 0xA0, 0x1680, 0x2000, 0x2001, 0x2002, 0x2003, 0x2004, 0x2005, 0x2006, 0x2007,
                  0x2008, 0x2009, 0x200A, 0x2028, 0x2029, 0x202F, 0x205F, 0x3000, 0xFEFF}
  {
  }
}
