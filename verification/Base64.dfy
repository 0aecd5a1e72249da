/** Base64 as Node's Buffer uses it (section 4 of RFC 4648): padded standard alphabet when encoding;
    when decoding, both alphabets are read, every other character including the padding is skipped,
    and leftover bits are dropped. */
module Base64 {
  import opened Wrappers

  type Byte = x: nat | x < 0x100
  type Sextet = x: nat | x < 0x40

  function SextetToChar(x: Sextet): (c: char)
  {
    if x < 26 then (x + 'A' as int) as char
    else if x < 52 then (x - 26 + 'a' as int) as char
    else if x < 62 then (x - 52 + '0' as int) as char
    else if x == 62 then '+'
    else '/'
  }

  predicate InAlphabet(c: char)
  {
    'A' <= c <= 'Z' || 'a' <= c <= 'z' || '0' <= c <= '9' || c == '+' || c == '/' || c == '-' || c == '_'
  }

  function CharToSextet(c: char): Sextet
    requires InAlphabet(c)
  {
    if 'A' <= c <= 'Z' then c as int - 'A' as int
    else if 'a' <= c <= 'z' then c as int - 'a' as int + 26
    else if '0' <= c <= '9' then c as int - '0' as int + 52
    else if c == '+' || c == '-' then 62
    else 63
  }

  function SextetsToChars(xs: seq<Sextet>): (s: string)
    ensures |s| == |xs|
  {
    seq(|xs|, i requires 0 <= i < |xs| => SextetToChar(xs[i]))
  }

  function Sextets(s: string): seq<Sextet>
  {
    if s == [] then [] else Read(s[0]) + Sextets(s[1..])
  }

  /** What is read of one character. */
  function Read(c: char): seq<Sextet>
  {
    if InAlphabet(c) then [CharToSextet(c)] else []
  }

  /** buf.toString('base64') */
  function Encode(b: seq<Byte>): string
  {
    if b == [] then ""
    else if |b| == 1 then SextetsToChars([b[0] / 4, b[0] % 4 * 16]) + "=="
    else if |b| == 2 then SextetsToChars([b[0] / 4, b[0] % 4 * 16 + b[1] / 16, b[1] % 16 * 4]) + "="
    else SextetsToChars(Group(b[0], b[1], b[2])) + Encode(b[3..])
  }

  function Group(x: Byte, y: Byte, z: Byte): (g: seq<Sextet>)
    ensures |g| == 4
  {
    [x / 4, x % 4 * 16 + y / 16, y % 16 * 4 + z / 64, z % 64]
  }

  function First(a: Sextet, b: Sextet): Byte
  {
    a * 4 + b / 16
  }

  function Second(b: Sextet, c: Sextet): Byte
  {
    b % 16 * 16 + c / 4
  }

  function Third(c: Sextet, d: Sextet): Byte
  {
    c % 4 * 64 + d
  }

  function Ungroup(xs: seq<Sextet>): seq<Byte>
  {
    if |xs| < 2 then []
    else if |xs| == 2 then [First(xs[0], xs[1])]
    else if |xs| == 3 then [First(xs[0], xs[1]), Second(xs[1], xs[2])]
    else [First(xs[0], xs[1]), Second(xs[1], xs[2]), Third(xs[2], xs[3])] + Ungroup(xs[4..])
  }

  /** Buffer.from(s, 'base64') */
  function Decode(s: string): seq<Byte>
  {
    Ungroup(Sextets(s))
  }

  lemma SextetReadsBack(x: Sextet)
    ensures InAlphabet(SextetToChar(x)) && CharToSextet(SextetToChar(x)) == x
  {
  }

  lemma Regroup(a: seq<Sextet>, b: seq<Sextet>, c: seq<Sextet>)
    ensures a + b + c == a + (b + c)
  {
  }

  lemma {:induction false} SextetsConcat(a: string, b: string)
    ensures Sextets(a + b) == Sextets(a) + Sextets(b)
  {
    if a == [] {
      assert a + b == b;
    } else {
      SextetsConcat(a[1..], b);
      assert (a + b)[1..] == a[1..] + b;
      Regroup(Read(a[0]), Sextets(a[1..]), Sextets(b));
    }
  }

  lemma {:induction false} SextetsReadBack(xs: seq<Sextet>)
    ensures Sextets(SextetsToChars(xs)) == xs
  {
    if xs != [] {
      SextetReadsBack(xs[0]);
      SextetsReadBack(xs[1..]);
      assert SextetsToChars(xs)[1..] == SextetsToChars(xs[1..]);
    }
  }

  lemma PaddingIsSkipped(xs: seq<Sextet>, pad: string)
    requires pad == "=" || pad == "=="
    ensures Sextets(SextetsToChars(xs) + pad) == xs
  {
    SextetsConcat(SextetsToChars(xs), pad);
    SextetsReadBack(xs);
    assert Sextets("=") == [];
    assert pad == "==" ==> pad[1..] == "=" && Sextets(pad) == [];
  }

  lemma BytesReadBack(x: Byte, y: Byte, z: Byte)
    ensures First(x / 4, x % 4 * 16 + y / 16) == x
    ensures Second(x % 4 * 16 + y / 16, y % 16 * 4 + z / 64) == y
    ensures Third(y % 16 * 4 + z / 64, z % 64) == z
  {
  }

  lemma GroupReadsBack(x: Byte, y: Byte, z: Byte, rest: seq<Sextet>)
    ensures Ungroup(Group(x, y, z) + rest) == [x, y, z] + Ungroup(rest)
  {
    var g := Group(x, y, z);
    var xs := g + rest;
    assert xs[4..] == rest && xs[0] == g[0] && xs[1] == g[1] && xs[2] == g[2] && xs[3] == g[3];
    BytesReadBack(x, y, z);
  }

  lemma ShortGroups(a: Sextet, b: Sextet, c: Sextet)
    ensures Ungroup([a, b]) == [First(a, b)]
    ensures Ungroup([a, b, c]) == [First(a, b), Second(b, c)]
  {
  }

  lemma LongReadsBack(x: Byte, y: Byte, z: Byte, rest: string)
    ensures Decode(SextetsToChars(Group(x, y, z)) + rest) == [x, y, z] + Decode(rest)
  {
    SextetsConcat(SextetsToChars(Group(x, y, z)), rest);
    SextetsReadBack(Group(x, y, z));
    GroupReadsBack(x, y, z, Sextets(rest));
  }

  lemma OneReadsBack(x: Byte)
    ensures Decode(SextetsToChars([x / 4, x % 4 * 16]) + "==") == [x]
  {
    PaddingIsSkipped([x / 4, x % 4 * 16], "==");
    ShortGroups(x / 4, x % 4 * 16, 0);
    BytesReadBack(x, 0, 0);
  }

  lemma TwoReadBack(x: Byte, y: Byte)
    ensures Decode(SextetsToChars([x / 4, x % 4 * 16 + y / 16, y % 16 * 4]) + "=") == [x, y]
  {
    PaddingIsSkipped([x / 4, x % 4 * 16 + y / 16, y % 16 * 4], "=");
    ShortGroups(x / 4, x % 4 * 16 + y / 16, y % 16 * 4);
    BytesReadBack(x, y, 0);
  }

  /** Decoding undoes encoding, for all bytes. */
  lemma {:induction false} EncodeReadsBack(b: seq<Byte>)
    ensures Decode(Encode(b)) == b
  {
    if |b| == 1 {
      OneReadsBack(b[0]);
      assert b == [b[0]];
    } else if |b| == 2 {
      TwoReadBack(b[0], b[1]);
      assert b == [b[0], b[1]];
    } else if |b| > 2 {
      EncodeReadsBack(b[3..]);
      LongReadsBack(b[0], b[1], b[2], Encode(b[3..]));
      assert b == [b[0], b[1], b[2]] + b[3..];
    }
  }

  lemma {:induction false} SextetsOfAlphabet(s: string)
    requires forall i :: 0 <= i < |s| ==> InAlphabet(s[i])
    ensures |Sextets(s)| == |s|
  {
    if s != [] {
      SextetsOfAlphabet(s[1..]);
    }
  }

  /** How many bytes come out: six bits a character, rounded down. */
  lemma {:induction false} UngroupLength(xs: seq<Sextet>)
    ensures |Ungroup(xs)| == |xs| * 6 / 8
  {
    if |xs| >= 4 {
      UngroupLength(xs[4..]);
    }
  }

  // ---------- the standard ----------

  /** The alphabet of section 4 of RFC 4648. */
  const ALPHABET := "ABCDEFGHIJKLM" + "NOPQRSTUVWXYZ" + "abcdefghijklm" + "nopqrstuvwxyz" + "0123456789" + "+/"

  predicate Consecutive(s: string)
  {
    forall i :: 0 <= i < |s| ==> s[i] as int == s[0] as int + i
  }

  lemma AlphabetRuns()
    ensures Consecutive("ABCDEFGHIJKLM") && Consecutive("NOPQRSTUVWXYZ")
    ensures Consecutive("abcdefghijklm") && Consecutive("nopqrstuvwxyz") && Consecutive("0123456789")
  {
  }

  lemma AlphabetAt(x: Sextet)
    ensures |ALPHABET| == 64 && ALPHABET[x] == SextetToChar(x)
  {
    AlphabetRuns();
    if x < 13 {
      assert ALPHABET[x] == "ABCDEFGHIJKLM"[x];
    } else if x < 26 {
      assert ALPHABET[x] == "NOPQRSTUVWXYZ"[x - 13];
    } else if x < 39 {
      assert ALPHABET[x] == "abcdefghijklm"[x - 26];
    } else if x < 52 {
      assert ALPHABET[x] == "nopqrstuvwxyz"[x - 39];
    } else if x < 62 {
      assert ALPHABET[x] == "0123456789"[x - 52];
    } else {
      assert ALPHABET[x] == "+/"[x - 62];
    }
  }

  /** The first position of c in s, or |s|. */
  function Position(s: string, c: char): (i: nat)
    ensures i <= |s|
  {
    if s == [] || s[0] == c then 0 else 1 + Position(s[1..], c)
  }

  lemma {:induction false} PositionIs(s: string, c: char, i: nat)
    requires i < |s| && s[i] == c && forall j :: 0 <= j < i ==> s[j] != c
    ensures Position(s, c) == i
  {
    if i > 0 {
      PositionIs(s[1..], c, i - 1);
    }
  }

  lemma AlphabetPosition(x: Sextet)
    ensures Position(ALPHABET, SextetToChar(x)) == x
  {
    AlphabetAt(x);
    forall j: Sextet | j < x
      ensures ALPHABET[j] != SextetToChar(x)
    {
      AlphabetAt(j);
      SextetReadsBack(j);
      SextetReadsBack(x);
    }
    PositionIs(ALPHABET, SextetToChar(x), x);
  }

  /** Four sextets as one number of 24 bits. */
  function Bits24(a: nat, b: nat, c: nat, d: nat): nat
  {
    ((a * 64 + b) * 64 + c) * 64 + d
  }

  /** The bytes of a group at positions a to d of the alphabet. */
  function GroupBytes(a: nat, b: nat, c: nat, d: nat): seq<int>
  {
    var n := Bits24(a, b, c, d);
    [n / 0x1_0000, n / 0x100 % 0x100, n % 0x100]
  }

  /** Reads one group of four: the alphabet and nothing else, except padding in the last group, and then
      no bits left over. */
  function ReadGroup(g: string, last: bool): Option<seq<int>>
    requires |g| == 4
  {
    var a, b, c, d := Position(ALPHABET, g[0]), Position(ALPHABET, g[1]), Position(ALPHABET, g[2]), Position(ALPHABET, g[3]);
    if a >= 64 || b >= 64 then None
    else if last && g[2] == '=' && g[3] == '=' then
      if b % 16 == 0 then Some(GroupBytes(a, b, 0, 0)[..1]) else None
    else if c >= 64 then None
    else if last && g[3] == '=' then
      if c % 4 == 0 then Some(GroupBytes(a, b, c, 0)[..2]) else None
    else if d >= 64 then None
    else Some(GroupBytes(a, b, c, d))
  }

  /** Reads a text of the standard and nothing else. */
  function ReadStrictly(s: string): Option<seq<int>>
  {
    if s == [] then Some([])
    else if |s| < 4 then None
    else
      var first, rest := ReadGroup(s[..4], |s| == 4), ReadStrictly(s[4..]);
      if first.Some? && rest.Some? then Some(first.value + rest.value) else None
  }

  lemma GroupBits(x: Byte, y: Byte, z: Byte)
    ensures Bits24(x / 4, x % 4 * 16 + y / 16, y % 16 * 4 + z / 64, z % 64) == x * 0x1_0000 + y * 0x100 + z
  {
  }

  lemma BitsSplit(x: Byte, y: Byte, z: Byte)
    ensures var n := x * 0x1_0000 + y * 0x100 + z; n / 0x1_0000 == x && n / 0x100 % 0x100 == y && n % 0x100 == z
  {
    var n := x * 0x1_0000 + y * 0x100 + z;
    assert n / 0x100 == x * 0x100 + y;
  }

  lemma GroupBytesReadBack(x: Byte, y: Byte, z: Byte)
    ensures GroupBytes(x / 4, x % 4 * 16 + y / 16, y % 16 * 4 + z / 64, z % 64) == [x, y, z]
  {
    GroupBits(x, y, z);
    BitsSplit(x, y, z);
  }

  lemma EqualsIsForeign(x: Sextet)
    ensures SextetToChar(x) != '='
  {
  }

  lemma GroupIsStandard(x: Byte, y: Byte, z: Byte, last: bool)
    ensures ReadGroup(SextetsToChars(Group(x, y, z)), last) == Some([x, y, z])
  {
    var g := Group(x, y, z);
    FourCharacters(g[0], g[1], g[2], g[3], last);
    assert g == [g[0], g[1], g[2], g[3]];
    GroupBytesReadBack(x, y, z);
  }

  lemma FourCharacters(a: Sextet, b: Sextet, c: Sextet, d: Sextet, last: bool)
    ensures ReadGroup(SextetsToChars([a, b, c, d]), last) == Some(GroupBytes(a, b, c, d))
  {
    AlphabetPosition(a);
    AlphabetPosition(b);
    AlphabetPosition(c);
    AlphabetPosition(d);
    EqualsIsForeign(c);
    EqualsIsForeign(d);
  }

  lemma ThreeCharacters(a: Sextet, b: Sextet, c: Sextet)
    requires c % 4 == 0
    ensures ReadGroup(SextetsToChars([a, b, c]) + "=", true) == Some(GroupBytes(a, b, c, 0)[..2])
  {
    AlphabetPosition(a);
    AlphabetPosition(b);
    AlphabetPosition(c);
    EqualsIsForeign(c);
  }

  lemma TwoCharacters(a: Sextet, b: Sextet)
    requires b % 16 == 0
    ensures ReadGroup(SextetsToChars([a, b]) + "==", true) == Some(GroupBytes(a, b, 0, 0)[..1])
  {
    AlphabetPosition(a);
    AlphabetPosition(b);
  }

  lemma OneIsStandard(x: Byte)
    ensures ReadGroup(SextetsToChars([x / 4, x % 4 * 16]) + "==", true) == Some([x])
  {
    TwoCharacters(x / 4, x % 4 * 16);
    GroupBytesReadBack(x, 0, 0);
    assert [x, 0, 0][..1] == [x];
  }

  lemma TwoAreStandard(x: Byte, y: Byte)
    ensures ReadGroup(SextetsToChars([x / 4, x % 4 * 16 + y / 16, y % 16 * 4]) + "=", true) == Some([x, y])
  {
    ThreeCharacters(x / 4, x % 4 * 16 + y / 16, y % 16 * 4);
    GroupBytesReadBack(x, y, 0);
    assert [x, y, 0][..2] == [x, y];
  }

  lemma StrictCons(g: string, rest: string, bytes: seq<int>, more: seq<int>)
    requires |g| == 4 && ReadGroup(g, rest == []) == Some(bytes) && ReadStrictly(rest) == Some(more)
    ensures ReadStrictly(g + rest) == Some(bytes + more)
  {
    assert (g + rest)[..4] == g && (g + rest)[4..] == rest;
  }

  /** Four characters for every three bytes begun. */
  lemma {:induction false} EncodeLength(b: seq<Byte>)
    ensures |Encode(b)| == 4 * ((|b| + 2) / 3)
  {
    if |b| > 2 {
      EncodeLength(b[3..]);
    }
  }

  /** What is encoded is standard base64 for the same bytes. */
  lemma {:induction false} EncodeIsStandard(b: seq<Byte>)
    ensures ReadStrictly(Encode(b)) == Some(b)
  {
    if |b| > 2 {
      EncodeIsStandard(b[3..]);
      LongIsStandard(b);
    } else if |b| > 0 {
      ShortIsStandard(b);
    } else {
      NothingIsStandard(b);
    }
  }

  lemma NothingIsStandard(b: seq<Byte>)
    requires b == []
    ensures ReadStrictly(Encode(b)) == Some(b)
  {
    var none: seq<int> := [];
    assert Encode(b) == "" && ReadStrictly("") == Some(none);
  }

  lemma ShortIsStandard(b: seq<Byte>)
    requires 1 <= |b| <= 2
    ensures ReadStrictly(Encode(b)) == Some(b) && |Encode(b)| == 4
  {
    if |b| == 1 {
      OneIsStandard(b[0]);
      assert b == [b[0]];
    } else {
      TwoAreStandard(b[0], b[1]);
      assert b == [b[0], b[1]];
    }
    var none: seq<int> := [];
    StrictCons(Encode(b), "", b, none);
    assert Encode(b) + "" == Encode(b) && b + none == b;
  }

  lemma LongIsStandard(b: seq<Byte>)
    requires |b| > 2 && ReadStrictly(Encode(b[3..])) == Some(b[3..])
    ensures ReadStrictly(Encode(b)) == Some(b) && |Encode(b)| == 4 + |Encode(b[3..])|
  {
    var rest, g := Encode(b[3..]), SextetsToChars(Group(b[0], b[1], b[2]));
    GroupIsStandard(b[0], b[1], b[2], rest == []);
    StrictCons(g, rest, [b[0], b[1], b[2]], b[3..]);
    EncodeLong(b);
    Unrolled(b);
  }

  lemma EncodeLong(b: seq<Byte>)
    requires |b| > 2
    ensures Encode(b) == SextetsToChars(Group(b[0], b[1], b[2])) + Encode(b[3..])
  {
  }

  lemma Unrolled(b: seq<int>)
    requires |b| > 2
    ensures [b[0], b[1], b[2]] + b[3..] == b
  {
  }

  /** Two bytes begun in the last group leave one character of padding. */
  lemma {:induction false} EncodeEndsPadded(b: seq<Byte>)
    requires |b| % 3 == 2
    ensures Encode(b) != "" && Encode(b)[|Encode(b)| - 1] == '='
  {
    if |b| > 2 {
      EncodeEndsPadded(b[3..]);
    }
  }

  predicate InStandardAlphabet(c: char)
  {
    'A' <= c <= 'Z' || 'a' <= c <= 'z' || '0' <= c <= '9' || c == '+' || c == '/'
  }

  /** The characters are the standard alphabet's, but for one or two '=' at the end. */
  lemma {:induction false} EncodeUsesAlphabet(b: seq<Byte>)
    ensures forall i :: 0 <= i < |Encode(b)| - 2 ==> InStandardAlphabet(Encode(b)[i])
    ensures forall i :: 0 <= i < |Encode(b)| ==> InStandardAlphabet(Encode(b)[i]) || Encode(b)[i] == '='
    ensures |b| % 3 == 0 ==> forall i :: 0 <= i < |Encode(b)| ==> InStandardAlphabet(Encode(b)[i])
  {
    if |b| > 2 {
      EncodeUsesAlphabet(b[3..]);
    }
  }

  /** The vectors of section 10 of RFC 4648, for "f" to "foobar". */
  lemma ShortVectors()
    ensures Encode([]) == "" && Encode([102]) == "Zg==" && Encode([102, 111]) == "Zm8="
    ensures Encode([98]) == "Yg==" && Encode([98, 97]) == "YmE=" && Encode([0xFB]) == "+w=="
  {
  }

  lemma LongVectors()
    ensures Encode([102, 111, 111]) == "Zm9v" && Encode([98, 97, 114]) == "YmFy"
    ensures Encode([102, 111, 111, 98]) == "Zm9vYg==" && Encode([102, 111, 111, 98, 97]) == "Zm9vYmE="
    ensures Encode([102, 111, 111, 98, 97, 114]) == "Zm9vYmFy"
  {
    ShortVectors();
    FooThen([]);
    FooThen([98]);
    FooThen([98, 97]);
    BarAlone();
    FooThen([98, 97, 114]);
    var foo: seq<Byte> := [102, 111, 111];
    assert foo + [] == foo && foo + [98] == [102, 111, 111, 98] && foo + [98, 97] == [102, 111, 111, 98, 97];
    assert foo + [98, 97, 114] == [102, 111, 111, 98, 97, 114];
  }

  lemma FooThen(rest: seq<Byte>)
    ensures Encode([102, 111, 111] + rest) == "Zm9v" + Encode(rest)
  {
    var b := [102, 111, 111] + rest;
    assert b[3..] == rest && b[0] == 102 && b[1] == 111 && b[2] == 111;
    assert SextetsToChars(Group(102, 111, 111)) == "Zm9v";
  }

  lemma BarAlone()
    ensures Encode([98, 97, 114]) == "YmFy"
  {
    var b: seq<Byte> := [98, 97, 114];
    assert b[3..] == [];
    assert SextetsToChars(Group(98, 97, 114)) == "YmFy";
  }

  // ---------- what the decoder reads besides ----------

  /** The decoder skips a character outside the alphabets, wherever it stands. */
  lemma ForeignIsSkipped(a: string, c: char, b: string)
    requires !InAlphabet(c)
    ensures Decode(a + [c] + b) == Decode(a + b)
  {
    SextetsConcat(a + [c], b);
    SextetsConcat(a, b);
    ForeignSextets(a, c);
  }

  lemma ForeignSextets(a: string, c: char)
    requires !InAlphabet(c)
    ensures Sextets(a + [c]) == Sextets(a)
  {
    SextetsConcat(a, [c]);
    assert [c][1..] == "" && Sextets("") == [];
    assert Sextets([c]) == Read(c) + Sextets("");
  }

  /** It reads the URL alphabet's two characters as the standard's. */
  lemma UrlAlphabetReads(a: string, b: string)
    ensures Decode(a + "-" + b) == Decode(a + "+" + b) && Decode(a + "_" + b) == Decode(a + "/" + b)
  {
    SextetsConcat(a + "-", b);
    SextetsConcat(a, "-");
    SextetsConcat(a + "+", b);
    SextetsConcat(a, "+");
    SextetsConcat(a + "_", b);
    SextetsConcat(a, "_");
    SextetsConcat(a + "/", b);
    SextetsConcat(a, "/");
    assert Sextets("-") == Sextets("+") && Sextets("_") == Sextets("/");
  }
}
