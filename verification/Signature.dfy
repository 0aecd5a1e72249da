/** The message signature of crypto.ts: four strings sorted, joined and hashed.
    Array.prototype.sort orders strings by UTF-16 code unit. */
module Signature {
  import opened Texts

  /** String order: by the first differing code unit, a prefix coming first. */
  predicate AtMost(a: Text, b: Text)
  {
    if a == [] then true
    else if b == [] then false
    else if a[0] != b[0] then a[0] < b[0]
    else AtMost(a[1..], b[1..])
  }

  lemma {:induction false} AtMostTotal(a: Text, b: Text)
    ensures AtMost(a, b) || AtMost(b, a)
  {
    if a != [] && b != [] && a[0] == b[0] {
      AtMostTotal(a[1..], b[1..]);
    }
  }

  lemma {:induction false} AtMostAntisymmetric(a: Text, b: Text)
    requires AtMost(a, b) && AtMost(b, a)
    ensures a == b
  {
    if a != [] {
      AtMostAntisymmetric(a[1..], b[1..]);
      assert a == [a[0]] + a[1..] && b == [b[0]] + b[1..];
    }
  }

  lemma {:induction false} AtMostTransitive(a: Text, b: Text, c: Text)
    requires AtMost(a, b) && AtMost(b, c)
    ensures AtMost(a, c)
  {
    if a != [] && a[0] == b[0] == c[0] {
      AtMostTransitive(a[1..], b[1..], c[1..]);
    }
  }

  /** The order in so many words: a is a prefix of b, or at the first difference a has the smaller unit. */
  lemma {:induction false} AtMostIff(a: Text, b: Text)
    ensures AtMost(a, b) <==> a <= b || exists i :: FirstDifference(a, b, i) && a[i] < b[i]
  {
    if a != [] && b != [] {
      if a[0] != b[0] {
        assert FirstDifference(a, b, 0);
        assert forall i :: FirstDifference(a, b, i) ==> i == 0;
      } else {
        AtMostIff(a[1..], b[1..]);
        DifferenceInRest(a, b);
      }
    }
  }

  predicate FirstDifference(a: Text, b: Text, i: int)
  {
    0 <= i < |a| && i < |b| && a[i] != b[i] && forall j :: 0 <= j < i ==> a[j] == b[j]
  }

  lemma DifferenceInRest(a: Text, b: Text)
    requires a != [] && b != [] && a[0] == b[0]
    ensures a <= b <==> a[1..] <= b[1..]
    ensures forall i :: FirstDifference(a, b, i) <==> i > 0 && FirstDifference(a[1..], b[1..], i - 1)
  {
    assert a == [a[0]] + a[1..] && b == [b[0]] + b[1..];
    forall i | i > 0 && FirstDifference(a[1..], b[1..], i - 1)
      ensures FirstDifference(a, b, i)
    {
      assert forall j :: 0 < j < i ==> a[j] == a[1..][j - 1] && b[j] == b[1..][j - 1];
    }
    forall i | FirstDifference(a, b, i)
      ensures i > 0 && FirstDifference(a[1..], b[1..], i - 1)
    {
    }
  }

  ghost predicate Sorted(xs: seq<Text>)
  {
    forall i, j :: 0 <= i < j < |xs| ==> AtMost(xs[i], xs[j])
  }

  function Insert(x: Text, xs: seq<Text>): seq<Text>
  {
    if xs == [] || AtMost(x, xs[0]) then [x] + xs else [xs[0]] + Insert(x, xs[1..])
  }

  function Sort(xs: seq<Text>): seq<Text>
  {
    if xs == [] then [] else Insert(xs[0], Sort(xs[1..]))
  }

  lemma {:induction false} InsertKeepsMultiset(x: Text, xs: seq<Text>)
    ensures multiset(Insert(x, xs)) == multiset{x} + multiset(xs)
  {
    if xs != [] && !AtMost(x, xs[0]) {
      InsertKeepsMultiset(x, xs[1..]);
      assert xs == [xs[0]] + xs[1..];
    }
  }

  lemma {:induction false} InsertSorts(x: Text, xs: seq<Text>)
    requires Sorted(xs)
    ensures Sorted(Insert(x, xs)) && multiset(Insert(x, xs)) == multiset{x} + multiset(xs)
  {
    InsertKeepsMultiset(x, xs);
    if xs == [] || AtMost(x, xs[0]) {
      SmallestFirst(x, xs);
    } else {
      InsertSorts(x, xs[1..]);
      AtMostTotal(x, xs[0]);
      forall y | y in Insert(x, xs[1..])
        ensures AtMost(xs[0], y)
      {
        assert y in multiset(Insert(x, xs[1..]));
      }
      LeastFirst(xs[0], Insert(x, xs[1..]));
    }
  }

  lemma LeastFirst(y: Text, xs: seq<Text>)
    requires Sorted(xs) && forall z :: z in xs ==> AtMost(y, z)
    ensures Sorted([y] + xs)
  {
  }

  lemma SmallestFirst(x: Text, xs: seq<Text>)
    requires Sorted(xs) && (xs == [] || AtMost(x, xs[0]))
    ensures Sorted([x] + xs)
  {
    forall i | 0 <= i < |xs|
      ensures AtMost(x, xs[i])
    {
      if i > 0 {
        AtMostTransitive(x, xs[0], xs[i]);
      }
    }
  }

  /** Sorting gives a sorted permutation. */
  lemma {:induction false} SortSorts(xs: seq<Text>)
    ensures Sorted(Sort(xs)) && multiset(Sort(xs)) == multiset(xs)
  {
    if xs != [] {
      SortSorts(xs[1..]);
      InsertSorts(xs[0], Sort(xs[1..]));
      assert xs == [xs[0]] + xs[1..];
    }
  }

  lemma HeadsAgree(xs: seq<Text>, ys: seq<Text>)
    requires Sorted(xs) && Sorted(ys) && multiset(xs) == multiset(ys) && xs != [] && ys != []
    ensures xs[0] == ys[0]
  {
    assert xs[0] in multiset(ys) && ys[0] in multiset(xs);
    HeadIsLeast(xs, ys[0]);
    HeadIsLeast(ys, xs[0]);
    AtMostAntisymmetric(xs[0], ys[0]);
  }

  lemma TailMultiset(xs: seq<Text>)
    requires xs != []
    ensures multiset(xs[1..]) == multiset(xs) - multiset{xs[0]}
  {
    assert xs == [xs[0]] + xs[1..];
  }

  /** There is only one sorted permutation, so any sorting algorithm gives the same list. */
  lemma {:induction false} SortedUnique(xs: seq<Text>, ys: seq<Text>)
    requires Sorted(xs) && Sorted(ys) && multiset(xs) == multiset(ys)
    ensures xs == ys
  {
    assert |xs| == |multiset(xs)| == |multiset(ys)| == |ys|;
    if xs != [] {
      HeadsAgree(xs, ys);
      TailMultiset(xs);
      TailMultiset(ys);
      SortedUnique(xs[1..], ys[1..]);
      assert xs == [xs[0]] + xs[1..] && ys == [ys[0]] + ys[1..];
    }
  }

  lemma HeadIsLeast(xs: seq<Text>, x: Text)
    requires Sorted(xs) && x in xs
    ensures AtMost(xs[0], x)
  {
    AtMostTotal(x, x);
  }

  function Join(xs: seq<Text>): Text
  {
    if xs == [] then [] else xs[0] + Join(xs[1..])
  }

  /** The digest of a list of strings; sha1 stands for the hexadecimal digest of a text. */
  function Digest(sha1: Text -> Text, xs: seq<Text>): Text
  {
    sha1(Join(Sort(xs)))
  }

  /** generateMsgSignature. */
  function Generate(sha1: Text -> Text, token: Text, timestamp: Text, nonce: Text, encrypted: Text): Text
  {
    Digest(sha1, [token, timestamp, nonce, encrypted])
  }

  /** validateMsgSignature. */
  predicate Validate(sha1: Text -> Text, token: Text, timestamp: Text, nonce: Text, encrypted: Text, signature: Text)
  {
    Generate(sha1, token, timestamp, nonce, encrypted) == signature
  }

  /** The digest depends only on the multiset of the strings, and any sorted permutation of them,
      however found, gives it. */
  lemma DigestOfMultiset(sha1: Text -> Text, xs: seq<Text>, ys: seq<Text>)
    requires multiset(xs) == multiset(ys)
    ensures Digest(sha1, xs) == Digest(sha1, ys)
    ensures Sorted(ys) ==> sha1(Join(ys)) == Digest(sha1, xs)
  {
    SortSorts(xs);
    SortSorts(ys);
    SortedUnique(Sort(xs), Sort(ys));
    if Sorted(ys) {
      SortedUnique(Sort(xs), ys);
    }
  }

  /** A signature made from four strings in one order validates against them in any other. */
  lemma OrderDoesNotMatter(sha1: Text -> Text, a: seq<Text>, b: seq<Text>)
    requires |a| == |b| == 4 && multiset(a) == multiset(b)
    ensures Validate(sha1, a[0], a[1], a[2], a[3], Generate(sha1, b[0], b[1], b[2], b[3]))
  {
    DigestOfMultiset(sha1, a, b);
    FourOf(sha1, a);
    FourOf(sha1, b);
  }

  lemma FourOf(sha1: Text -> Text, a: seq<Text>)
    requires |a| == 4
    ensures Generate(sha1, a[0], a[1], a[2], a[3]) == Digest(sha1, a)
  {
    assert a == [a[0], a[1], a[2], a[3]];
  }

  // ---------- what the digest does not tell apart ----------

  /** With a digest that tells texts apart, a signature validates exactly when the sorted strings join to
      one text. */
  lemma ValidatesIff(sha1: Text -> Text, a: seq<Text>, b: seq<Text>)
    requires |a| == |b| == 4 && forall x, y :: sha1(x) == sha1(y) ==> x == y
    ensures Validate(sha1, a[0], a[1], a[2], a[3], Generate(sha1, b[0], b[1], b[2], b[3])) <==>
            Join(Sort(a)) == Join(Sort(b))
  {
    FourOf(sha1, a);
    FourOf(sha1, b);
  }

  predicate SameLengths(xs: seq<Text>, ys: seq<Text>)
  {
    |xs| == |ys| && forall i :: 0 <= i < |xs| ==> |xs[i]| == |ys[i]|
  }

  /** Strings of the same lengths in sorted order join to one text only if they are the same strings. */
  lemma {:induction false} JoinTellsApart(xs: seq<Text>, ys: seq<Text>)
    requires SameLengths(xs, ys) && Join(xs) == Join(ys)
    ensures xs == ys
  {
    if xs != [] {
      var n := |xs[0]|;
      assert xs[0] == Join(xs)[..n] == Join(ys)[..n] == ys[0];
      assert Join(xs[1..]) == Join(xs)[n..] == Join(ys)[n..] == Join(ys[1..]);
      JoinTellsApart(xs[1..], ys[1..]);
      assert xs == [xs[0]] + xs[1..] && ys == [ys[0]] + ys[1..];
    }
  }

  /** So when the sorted strings have the same lengths, a signature validates exactly for the same
      multiset of strings. */
  lemma SameLengthsValidateIff(sha1: Text -> Text, a: seq<Text>, b: seq<Text>)
    requires |a| == |b| == 4 && forall x, y :: sha1(x) == sha1(y) ==> x == y
    requires SameLengths(Sort(a), Sort(b))
    ensures Validate(sha1, a[0], a[1], a[2], a[3], Generate(sha1, b[0], b[1], b[2], b[3])) <==> multiset(a) == multiset(b)
  {
    ValidatesIff(sha1, a, b);
    SortSorts(a);
    SortSorts(b);
    if Join(Sort(a)) == Join(Sort(b)) {
      JoinTellsApart(Sort(a), Sort(b));
    }
    if multiset(a) == multiset(b) {
      OrderDoesNotMatter(sha1, a, b);
    }
  }

  /** Otherwise it can validate for others, as the strings are joined without separators. */
  lemma JoinForgetsBoundaries(sha1: Text -> Text, u: CodeUnit, v: CodeUnit)
    requires u <= v
    ensures Validate(sha1, [], [], [u], [v], Generate(sha1, [], [], [], [u, v]))
  {
    var none: Text, x: Text, y: Text, both: Text := [], [u], [v], [u, v];
    SortedDigest(sha1, none, none, x, y);
    SortedDigest(sha1, none, none, none, both);
    assert none + none + x + y == both && none + none + none + both == both;
  }

  /** The digest of four strings given in order. */
  lemma SortedDigest(sha1: Text -> Text, a: Text, b: Text, c: Text, d: Text)
    requires AtMost(a, b) && AtMost(b, c) && AtMost(c, d)
    ensures Generate(sha1, a, b, c, d) == sha1(a + b + c + d)
  {
    SortedFour(a, b, c, d);
    DigestOfMultiset(sha1, [a, b, c, d], [a, b, c, d]);
    JoinOfFour(a, b, c, d);
  }

  lemma SortedFour(a: Text, b: Text, c: Text, d: Text)
    requires AtMost(a, b) && AtMost(b, c) && AtMost(c, d)
    ensures Sorted([a, b, c, d])
  {
    AtMostTransitive(a, b, c);
    AtMostTransitive(b, c, d);
    AtMostTransitive(a, c, d);
  }

  lemma JoinOfFour(a: Text, b: Text, c: Text, d: Text)
    ensures Join([a, b, c, d]) == a + b + c + d
  {
    assert [a, b, c, d][1..] == [b, c, d] && [b, c, d][1..] == [c, d] && [c, d][1..] == [d] && [d][1..] == [];
    assert Join([d]) == d + Join([]) == d;
    assert Join([c, d]) == c + d;
    assert Join([b, c, d]) == b + (c + d);
    assert a + (b + (c + d)) == a + b + c + d;
  }
}
