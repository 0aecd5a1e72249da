/** The encrypted message envelope of crypto.ts: base64 over AES-256-CBC (section 6.2 of NIST SP
    800-38A) over PKCS#7 padding to 32 bytes (section 6.3 of RFC 5652) over the frame
    random(16) + length(4, big-endian) + message + appId. */
module Envelope {
  import opened Numerals
  import opened Wrappers
  import opened Base64

  const BLOCK := 16
  const PAD_BLOCK := 32
  const KEY_LENGTH := 32

  type Bytes = seq<Byte>

  /** AES-256 as an abstract pair of functions: key and block to block. */
  datatype BlockCipher = BlockCipher(enc: (Bytes, Bytes) -> Bytes, dec: (Bytes, Bytes) -> Bytes)

  ghost predicate IsBlockCipher(c: BlockCipher)
  {
    forall k: Bytes, b: Bytes {:trigger c.enc(k, b)} :: |k| == KEY_LENGTH && |b| == BLOCK ==>
      |c.enc(k, b)| == BLOCK && c.dec(k, c.enc(k, b)) == b
  }

  datatype Result<+T> = Ok(value: T) | Err(error: Error)
  datatype Error = BadKey | BadLength | TooLong | TooShort | AppIdMismatch

  // ---------- xor ----------

  function Xor(x: nat, y: nat): nat
  {
    if x == 0 && y == 0 then 0 else (x + y) % 2 + 2 * Xor(x / 2, y / 2)
  }

  lemma XorHalves(x: nat, y: nat)
    ensures Xor(x, y) / 2 == Xor(x / 2, y / 2) && Xor(x, y) % 2 == (x + y) % 2
  {
  }

  lemma ParityUndoes(x: nat, y: nat)
    ensures ((x + y) % 2 + y) % 2 == x % 2
  {
  }

  lemma {:induction false} XorUndoes(x: nat, y: nat)
    ensures Xor(Xor(x, y), y) == x
    decreases x + y
  {
    if x != 0 || y != 0 {
      var z := Xor(x, y);
      XorUndoes(x / 2, y / 2);
      XorHalves(x, y);
      XorHalves(z, y);
      ParityUndoes(x, y);
      ParityOfSum(z, x, y);
    }
  }

  lemma ParityOfSum(z: nat, x: nat, y: nat)
    requires z % 2 == (x + y) % 2
    ensures (z + y) % 2 == x % 2
  {
  }

  lemma XorIsByte(x: Byte, y: Byte)
    ensures Xor(x, y) < 0x100
  {
    XorBits(x, y, 8);
  }

  lemma {:induction false} XorBits(x: nat, y: nat, n: nat)
    requires x < Pow2(n) && y < Pow2(n)
    ensures Xor(x, y) < Pow2(n)
  {
    if n > 0 && (x != 0 || y != 0) {
      XorBits(x / 2, y / 2, n - 1);
    }
  }

  function XorByte(x: Byte, y: Byte): Byte
  {
    XorIsByte(x, y);
    Xor(x, y)
  }

  function XorBlock(a: Bytes, b: Bytes): (r: Bytes)
    requires |a| == |b|
    ensures |r| == |a|
  {
    seq(|a|, i requires 0 <= i < |a| => XorByte(a[i], b[i]))
  }

  lemma XorBlockUndoes(a: Bytes, b: Bytes)
    requires |a| == |b|
    ensures XorBlock(XorBlock(a, b), b) == a
  {
    forall i | 0 <= i < |a|
      ensures XorBlock(XorBlock(a, b), b)[i] == a[i]
    {
      XorUndoes(a[i], b[i]);
    }
  }

  // ---------- CBC ----------

  function CbcEncrypt(c: BlockCipher, key: Bytes, iv: Bytes, p: Bytes): Bytes
    requires |iv| == BLOCK
    decreases |p|
  {
    if |p| < BLOCK then []
    else
      var e := c.enc(key, XorBlock(p[..BLOCK], iv));
      if |e| == BLOCK then e + CbcEncrypt(c, key, e, p[BLOCK..]) else []
  }

  function CbcDecrypt(c: BlockCipher, key: Bytes, iv: Bytes, e: Bytes): Bytes
    requires |iv| == BLOCK
    decreases |e|
  {
    if |e| < BLOCK then []
    else
      var d := c.dec(key, e[..BLOCK]);
      (if |d| == BLOCK then XorBlock(d, iv) else []) + CbcDecrypt(c, key, e[..BLOCK], e[BLOCK..])
  }

  lemma {:induction false} CbcReadsBack(c: BlockCipher, key: Bytes, iv: Bytes, p: Bytes)
    requires IsBlockCipher(c) && |key| == KEY_LENGTH && |iv| == BLOCK && |p| % BLOCK == 0
    ensures |CbcEncrypt(c, key, iv, p)| == |p|
    ensures CbcDecrypt(c, key, iv, CbcEncrypt(c, key, iv, p)) == p
    decreases |p|
  {
    if |p| >= BLOCK {
      var x := XorBlock(p[..BLOCK], iv);
      var e := c.enc(key, x);
      CbcReadsBack(c, key, e, p[BLOCK..]);
      var all := e + CbcEncrypt(c, key, e, p[BLOCK..]);
      assert all[..BLOCK] == e && all[BLOCK..] == CbcEncrypt(c, key, e, p[BLOCK..]);
      XorBlockUndoes(p[..BLOCK], iv);
      assert p == p[..BLOCK] + p[BLOCK..];
    }
  }

  // ---------- PKCS#7 ----------

  function Pad(b: Bytes): Bytes
  {
    var n := PAD_BLOCK - |b| % PAD_BLOCK;
    b + seq(n, _ => n)
  }

  /** buf.subarray(0, end): a negative end counts from the end of the buffer. */
  function Prefix(b: Bytes, end: int): Bytes
  {
    if end > |b| then b
    else if end >= 0 then b[..end]
    else if |b| + end > 0 then b[..|b| + end]
    else []
  }

  function Unpad(b: Bytes): Bytes
  {
    if b == [] then [] // the last byte is undefined and the computed end is NaN
    else
      var n := b[|b| - 1];
      if n < 1 || n > 32 then b else Prefix(b, |b| - n)
  }

  lemma PadReadsBack(b: Bytes)
    ensures Unpad(Pad(b)) == b
    ensures |Pad(b)| % PAD_BLOCK == 0 && |b| < |Pad(b)| <= |b| + PAD_BLOCK
  {
    var n := PAD_BLOCK - |b| % PAD_BLOCK;
    assert Pad(b)[|Pad(b)| - 1] == n;
    assert Pad(b)[..|b|] == b;
  }

  // ---------- the frame ----------

  function BigEndian(n: nat): (r: Bytes)
    ensures |r| == 4
  {
    [Octet(n, 0), Octet(n, 1), Octet(n, 2), Octet(n, 3)]
  }

  function ReadBigEndian(b: Bytes): nat
    requires |b| == 4
  {
    0x100 * (0x100 * (0x100 * (b[0] as int) + b[1] as int) + b[2] as int) + b[3] as int
  }

  lemma BigEndianReadsBack(n: nat)
    requires n < 0x1_0000_0000
    ensures ReadBigEndian(BigEndian(n)) == n
  {
    FourBytes(n);
  }

  lemma ReadIsBigEndian(b: Bytes)
    requires |b| == 4
    ensures ReadBigEndian(b) < 0x1_0000_0000 && BigEndian(ReadBigEndian(b)) == b
  {
    var n := ReadBigEndian(b);
    var n1: nat := 0x100 * (b[0] as int) + b[1] as int;
    var n2: nat := 0x100 * n1 + b[2];
    assert n / 0x100 == n2 && n % 0x100 == b[3];
    assert n2 / 0x100 == n1 && n2 % 0x100 == b[2];
    assert n1 / 0x100 == b[0] && n1 % 0x100 == b[1];
    assert Octet(n, 2) == Octet(n2, 3);
    assert Octet(n, 1) == Octet(n2, 2) == Octet(n1, 3);
    assert Octet(n, 0) == Octet(n2, 1) == Octet(n1, 2) == Octet(b[0], 3);
  }

  function Frame(random: Bytes, message: Bytes, appId: Bytes): Bytes
    requires |message| < 0x1_0000_0000
  {
    random + BigEndian(|message|) + message + appId
  }

  /** The parser of decryptMessage, after unpadding. */
  function ParseFrame(d: Bytes, appId: Bytes): Result<Bytes>
  {
    if |d| < 20 then Err(TooShort)
    else
      var end := 20 + ReadBigEndian(d[16..20]);
      var message := if end <= |d| then d[20..end] else d[20..];
      var extracted := if end <= |d| then d[end..] else [];
      if extracted != appId then Err(AppIdMismatch) else Ok(message)
  }

  function DecodeKey(encodingKey: string): Bytes
  {
    Decode(encodingKey + "=")
  }

  /** encryptMessage; random stands for the 16 random bytes. */
  function Encrypt(c: BlockCipher, message: Bytes, encodingKey: string, appId: Bytes, random: Bytes): Result<string>
  {
    var key := DecodeKey(encodingKey);
    if |message| >= 0x1_0000_0000 then Err(TooLong)
    else if |key| != KEY_LENGTH then Err(BadKey)
    else Ok(Encode(CbcEncrypt(c, key, key[..16], Pad(Frame(random, message, appId)))))
  }

  /** decryptMessage. */
  function Decrypt(c: BlockCipher, encrypted: string, encodingKey: string, appId: Bytes): Result<Bytes>
  {
    var key := DecodeKey(encodingKey);
    if |key| != KEY_LENGTH then Err(BadKey)
    else
      var e := Decode(encrypted);
      if |e| % BLOCK != 0 then Err(BadLength)
      else ParseFrame(Unpad(CbcDecrypt(c, key, key[..16], e)), appId)
  }

  /** A key of 43 alphabet characters decodes to 32 bytes. */
  lemma KeyLength(encodingKey: string)
    requires |encodingKey| == 43 && forall i :: 0 <= i < 43 ==> InAlphabet(encodingKey[i])
    ensures |DecodeKey(encodingKey)| == KEY_LENGTH
  {
    SextetsConcat(encodingKey, "=");
    SextetsOfAlphabet(encodingKey);
    assert Sextets("=") == [];
    UngroupLength(Sextets(encodingKey + "="));
  }

  lemma FrameReadsBack(random: Bytes, message: Bytes, appId: Bytes, other: Bytes)
    requires |random| == 16 && |message| < 0x1_0000_0000
    ensures ParseFrame(Frame(random, message, appId), other) ==
            if other == appId then Ok(message) else Err(AppIdMismatch)
  {
    var d := Frame(random, message, appId);
    assert d[16..20] == BigEndian(|message|);
    BigEndianReadsBack(|message|);
    assert d[20..20 + |message|] == message && d[20 + |message|..] == appId;
  }

  lemma WholeBlocks(n: nat)
    requires n % PAD_BLOCK == 0
    ensures n % BLOCK == 0
  {
  }

  /** Base64, CBC and padding undone, for any plaintext. */
  lemma CryptoReadsBack(c: BlockCipher, key: Bytes, plain: Bytes)
    requires IsBlockCipher(c) && |key| == KEY_LENGTH
    ensures var e := Decode(Encode(CbcEncrypt(c, key, key[..16], Pad(plain))));
            |e| % BLOCK == 0 && Unpad(CbcDecrypt(c, key, key[..16], e)) == plain
  {
    var padded := Pad(plain);
    PadReadsBack(plain);
    WholeBlocks(|padded|);
    CbcReadsBack(c, key, key[..16], padded);
    EncodeReadsBack(CbcEncrypt(c, key, key[..16], padded));
  }

  /** The round trip: an encrypted message decrypts to itself under its own appId, and under any other
      is refused. */
  lemma EnvelopeReadsBack(c: BlockCipher, message: Bytes, encodingKey: string, appId: Bytes, random: Bytes, other: Bytes)
    requires IsBlockCipher(c) && |random| == 16 && |message| < 0x1_0000_0000
    requires |encodingKey| == 43 && forall i :: 0 <= i < 43 ==> InAlphabet(encodingKey[i])
    ensures var e := Encrypt(c, message, encodingKey, appId, random);
            && e.Ok?
            && Decrypt(c, e.value, encodingKey, other) == if other == appId then Ok(message) else Err(AppIdMismatch)
  {
    KeyLength(encodingKey);
    CryptoReadsBack(c, DecodeKey(encodingKey), Frame(random, message, appId));
    FrameReadsBack(random, message, appId, other);
  }

  /** d is a frame of message under appId. */
  ghost predicate IsFrame(d: Bytes, message: Bytes, appId: Bytes)
  {
    |message| < 0x1_0000_0000 && |d| >= 16 && d == Frame(d[..16], message, appId)
  }

  /** The length field points past the end, so that everything is message and no appId is left. */
  ghost predicate IsOverlong(d: Bytes, message: Bytes)
  {
    20 <= |d| < 20 + ReadBigEndian(d[16..20]) && message == d[20..]
  }

  /** What the parser accepts is exactly the well-formed frames of its appId, and it returns their
      message; under the empty appId it accepts a length field past the end as well. */
  lemma AcceptsExactlyFrames(d: Bytes, message: Bytes, appId: Bytes)
    ensures ParseFrame(d, appId) == Ok(message) <==>
            IsFrame(d, message, appId) || (appId == [] && IsOverlong(d, message))
  {
    if ParseFrame(d, appId) == Ok(message) && !IsOverlong(d, message) {
      AcceptedIsFrame(d, message, appId);
    }
    if IsFrame(d, message, appId) {
      FrameReadsBack(d[..16], message, appId, appId);
    }
  }

  lemma AcceptedIsFrame(d: Bytes, message: Bytes, appId: Bytes)
    requires ParseFrame(d, appId) == Ok(message) && !IsOverlong(d, message)
    ensures IsFrame(d, message, appId)
  {
    ReadIsBigEndian(d[16..20]);
    var end := 20 + ReadBigEndian(d[16..20]);
    assert end <= |d| && message == d[20..end] && appId == d[end..];
    assert d == d[..16] + d[16..20] + d[20..end] + d[end..];
  }

  // ---------- what is on the wire ----------

  /** The key as WeChat issues it: the first 43 characters of its base64. */
  lemma IssuedKeyReads(key: Bytes)
    requires |key| == KEY_LENGTH
    ensures |Encode(key)| == 44 && DecodeKey(Encode(key)[..43]) == key
  {
    EncodeLength(key);
    EncodeEndsPadded(key);
    assert Encode(key)[..43] + "=" == Encode(key);
    EncodeReadsBack(key);
  }

  /** Bit k of x. */
  function Bit(x: nat, k: nat): nat
  {
    if k == 0 then x % 2 else Bit(x / 2, k - 1)
  }

  /** Xor is exclusive or of every bit. */
  lemma {:induction false} XorIsBitwise(x: nat, y: nat, k: nat)
    ensures Bit(Xor(x, y), k) == (Bit(x, k) + Bit(y, k)) % 2
  {
    XorHalves(x, y);
    if k == 0 {
      assert (x + y) % 2 == (x % 2 + y % 2) % 2;
    } else {
      XorIsBitwise(x / 2, y / 2, k - 1);
    }
  }

  /** And so block by block. */
  lemma XorBlockIsBitwise(a: Bytes, b: Bytes, i: nat, k: nat)
    requires |a| == |b| && i < |a|
    ensures Bit(XorBlock(a, b)[i], k) == (Bit(a[i], k) + Bit(b[i], k)) % 2
  {
    XorIsBitwise(a[i], b[i], k);
  }

  /** Block i of b. */
  function Block(b: Bytes, i: nat): (r: Bytes)
    requires BLOCK * i + BLOCK <= |b|
    ensures |r| == BLOCK
  {
    b[BLOCK * i..BLOCK * i + BLOCK]
  }

  lemma BlockOfRest(b: Bytes, i: nat)
    requires i > 0 && BLOCK * i + BLOCK <= |b|
    ensures Block(b[BLOCK..], i - 1) == Block(b, i)
  {
  }

  /** CBC by its own law: every block is the cipher of the plain block combined with the cipher block before
      it, the first with the initialization vector. */
  lemma {:induction false} CbcBlocks(c: BlockCipher, key: Bytes, iv: Bytes, p: Bytes, i: nat)
    requires IsBlockCipher(c) && |key| == KEY_LENGTH && |iv| == BLOCK && |p| % BLOCK == 0 && BLOCK * i + BLOCK <= |p|
    ensures var e := CbcEncrypt(c, key, iv, p);
            |e| == |p| && ChainedAt(c, key, iv, p, e, i)
    decreases i
  {
    var e := CbcEncrypt(c, key, iv, p);
    CbcReadsBack(c, key, iv, p);
    var first, rest := c.enc(key, XorBlock(p[..BLOCK], iv)), p[BLOCK..];
    assert e == first + CbcEncrypt(c, key, first, rest);
    assert Block(e, 0) == first && Block(p, 0) == p[..BLOCK];
    if i > 0 {
      CbcBlocks(c, key, first, rest, i - 1);
      assert e[BLOCK..] == CbcEncrypt(c, key, first, rest);
      BlockOfRest(p, i);
      BlockOfRest(e, i);
      if i > 1 {
        BlockOfRest(e, i - 1);
      }
    }
  }

  /** And decryption by its: every plain block is the deciphered block combined with the cipher block before
      it. */
  lemma {:induction false} CbcPlainBlocks(c: BlockCipher, key: Bytes, iv: Bytes, e: Bytes, i: nat)
    requires (forall b: Bytes :: |b| == BLOCK ==> |c.dec(key, b)| == BLOCK)
    requires |iv| == BLOCK && |e| % BLOCK == 0 && BLOCK * i + BLOCK <= |e|
    ensures var p := CbcDecrypt(c, key, iv, e);
            |p| == |e| && Block(p, i) == XorBlock(c.dec(key, Block(e, i)), if i == 0 then iv else Block(e, i - 1))
    decreases i
  {
    var p := CbcDecrypt(c, key, iv, e);
    var first, rest := XorBlock(c.dec(key, e[..BLOCK]), iv), e[BLOCK..];
    CbcPlainLength(c, key, e[..BLOCK], rest);
    assert p == first + CbcDecrypt(c, key, e[..BLOCK], rest);
    assert Block(p, 0) == first && Block(e, 0) == e[..BLOCK];
    if i > 0 {
      CbcPlainBlocks(c, key, e[..BLOCK], rest, i - 1);
      assert p[BLOCK..] == CbcDecrypt(c, key, e[..BLOCK], rest);
      BlockOfRest(p, i);
      BlockOfRest(e, i);
      if i > 1 {
        BlockOfRest(e, i - 1);
      }
    }
  }

  lemma {:induction false} CbcPlainLength(c: BlockCipher, key: Bytes, iv: Bytes, e: Bytes)
    requires (forall b: Bytes :: |b| == BLOCK ==> |c.dec(key, b)| == BLOCK) && |iv| == BLOCK && |e| % BLOCK == 0
    ensures |CbcDecrypt(c, key, iv, e)| == |e|
    decreases |e|
  {
    if |e| >= BLOCK {
      CbcPlainLength(c, key, e[..BLOCK], e[BLOCK..]);
    }
  }

  /** PKCS#7: 1 to 32 bytes that each say how many they are, up to a multiple of 32. */
  ghost predicate IsPadded(b: Bytes, padded: Bytes)
  {
    && |padded| % PAD_BLOCK == 0 && |b| < |padded| <= |b| + PAD_BLOCK && padded[..|b|] == b
    && forall j :: |b| <= j < |padded| ==> padded[j] == |padded| - |b|
  }

  lemma PadIsPkcs7(b: Bytes)
    ensures IsPadded(b, Pad(b))
    ensures forall padded :: IsPadded(b, padded) ==> padded == Pad(b)
  {
    PadReadsBack(b);
    forall padded | IsPadded(b, padded)
      ensures padded == Pad(b)
    {
      SameRoundUp(|b|, |padded|, |Pad(b)|);
    }
  }

  lemma SameRoundUp(n: nat, x: nat, y: nat)
    requires x % PAD_BLOCK == 0 && y % PAD_BLOCK == 0 && n < x <= n + PAD_BLOCK && n < y <= n + PAD_BLOCK
    ensures x == y
  {
    assert (x - y) % PAD_BLOCK == 0;
  }

  /** Unpadding looks at the last byte alone: from 1 to 32 it says how much goes, anything else leaves all
      as it is; and a buffer shorter than that loses the difference again, since the end then counts
      backwards. */
  lemma UnpadCases(b: Bytes)
    requires b != []
    ensures var n: nat := b[|b| - 1];
            && (n == 0 || n > 32 ==> Unpad(b) == b)
            && (1 <= n <= 32 && n <= |b| ==> Unpad(b) + b[|b| - n..] == b)
            && (1 <= n <= 32 && n > |b| ==> Unpad(b) <= b && |Unpad(b)| == if n < 2 * |b| then 2 * |b| - n else 0)
  {
  }

  /** The four length bytes, most significant first. */
  lemma BigEndianBytes(n: nat)
    requires n < 0x1_0000_0000
    ensures BigEndian(n) == [n / 0x100_0000, n / 0x1_0000 % 0x100, n / 0x100 % 0x100, n % 0x100]
  {
    BigEndianReadsBack(n);
    Digits256(n, BigEndian(n)[0], BigEndian(n)[1], BigEndian(n)[2], BigEndian(n)[3]);
  }

  lemma Digits256(n: nat, a: Byte, b: Byte, c: Byte, d: Byte)
    requires n == 0x100 * (0x100 * (0x100 * (a as int) + b as int) + c as int) + d as int
    ensures a == n / 0x100_0000 && b == n / 0x1_0000 % 0x100 && c == n / 0x100 % 0x100 && d == n % 0x100
  {
    var n2: nat := 0x100 * (0x100 * (a as int) + b as int) + c as int;
    var n1: nat := 0x100 * (a as int) + b as int;
    assert n / 0x100 == n2 && n % 0x100 == d;
    assert n2 / 0x100 == n1 && n2 % 0x100 == c;
    assert n1 / 0x100 == a && n1 % 0x100 == b;
    DivisionsCompose(n);
  }

  lemma DivisionsCompose(n: nat)
    ensures n / 0x100 / 0x100 == n / 0x1_0000 && n / 0x100 / 0x100 / 0x100 == n / 0x100_0000
  {
  }

  /** plain is what is encrypted: the random bytes, the length of the message in four bytes, the message,
      the appId. */
  ghost predicate IsPlaintext(plain: Bytes, random: Bytes, message: Bytes, appId: Bytes)
  {
    var n := |message|;
    && |plain| == 20 + n + |appId| && plain[..16] == random
    && plain[16..20] == [n / 0x100_0000 % 0x100, n / 0x1_0000 % 0x100, n / 0x100 % 0x100, n % 0x100]
    && plain[20..20 + n] == message && plain[20 + n..] == appId
  }

  lemma FrameIsPlaintext(random: Bytes, message: Bytes, appId: Bytes)
    requires |random| == 16 && |message| < 0x1_0000_0000
    ensures IsPlaintext(Frame(random, message, appId), random, message, appId)
  {
    var n := |message|;
    BigEndianBytes(n);
    assert n / 0x100_0000 % 0x100 == n / 0x100_0000;
    PartsOfFour(random, BigEndian(n), message, appId);
  }

  lemma PartsOfFour(a: Bytes, b: Bytes, c: Bytes, d: Bytes)
    requires |a| == 16 && |b| == 4
    ensures var s := a + b + c + d;
            && |s| == 20 + |c| + |d| && s[..16] == a && s[16..20] == b && s[20..20 + |c|] == c && s[20 + |c|..] == d
  {
  }

  /** e is the CBC encryption of p under the key and its first 16 bytes. */
  ghost predicate IsCbc(c: BlockCipher, key: Bytes, p: Bytes, e: Bytes)
    requires |key| == KEY_LENGTH
  {
    && |e| == |p| && |p| % BLOCK == 0
    && forall i: nat :: BLOCK * i + BLOCK <= |p| ==> ChainedAt(c, key, key[..BLOCK], p, e, i)
  }

  /** Cipher block i of e is the cipher of plain block i of p combined with the cipher block before it. */
  ghost predicate ChainedAt(c: BlockCipher, key: Bytes, iv: Bytes, p: Bytes, e: Bytes, i: nat)
    requires |iv| == BLOCK && |e| == |p| && BLOCK * i + BLOCK <= |p|
  {
    Block(e, i) == c.enc(key, XorBlock(Block(p, i), if i == 0 then iv else Block(e, i - 1)))
  }

  /** What encryptMessage puts on the wire, by the standards and not by its inverse: standard base64 of the
      CBC encryption of the PKCS#7 padding of random bytes, length, message and appId. */
  lemma EncryptMeetsStandards(c: BlockCipher, message: Bytes, encodingKey: string, appId: Bytes, random: Bytes)
    returns (plain: Bytes, padded: Bytes, e: Bytes)
    requires IsBlockCipher(c) && |random| == 16 && |message| < 0x1_0000_0000
    requires |encodingKey| == 43 && forall i :: 0 <= i < 43 ==> InAlphabet(encodingKey[i])
    ensures |DecodeKey(encodingKey)| == KEY_LENGTH
    ensures IsPlaintext(plain, random, message, appId) && IsPadded(plain, padded)
    ensures IsCbc(c, DecodeKey(encodingKey), padded, e)
    ensures var r := Encrypt(c, message, encodingKey, appId, random); r.Ok? && ReadStrictly(r.value) == Some(e)
  {
    KeyLength(encodingKey);
    var key := DecodeKey(encodingKey);
    plain := Frame(random, message, appId);
    FrameIsPlaintext(random, message, appId);
    padded := Pad(plain);
    PadIsPkcs7(plain);
    WholeBlocks(|padded|);
    e := CbcEncrypt(c, key, key[..16], padded);
    EncryptionIsCbc(c, key, padded);
    EncodeIsStandard(e);
  }

  lemma EncryptionIsCbc(c: BlockCipher, key: Bytes, p: Bytes)
    requires IsBlockCipher(c) && |key| == KEY_LENGTH && |p| % BLOCK == 0
    ensures IsCbc(c, key, p, CbcEncrypt(c, key, key[..BLOCK], p))
  {
    var iv := key[..BLOCK];
    var e := CbcEncrypt(c, key, iv, p);
    CbcReadsBack(c, key, iv, p);
    forall i: nat | BLOCK * i + BLOCK <= |p|
      ensures ChainedAt(c, key, iv, p, e, i)
    {
      CbcBlocks(c, key, iv, p, i);
    }
  }

  /** When each side refuses, and why. */
  lemma Refusals(c: BlockCipher, message: Bytes, encrypted: string, encodingKey: string, appId: Bytes, random: Bytes)
    ensures Encrypt(c, message, encodingKey, appId, random).Ok? <==>
            |message| < 0x1_0000_0000 && |DecodeKey(encodingKey)| == KEY_LENGTH
    ensures var r := Decrypt(c, encrypted, encodingKey, appId);
            && (r == Err(BadKey) <==> |DecodeKey(encodingKey)| != KEY_LENGTH)
            && (r == Err(BadLength) <==> |DecodeKey(encodingKey)| == KEY_LENGTH && |Decode(encrypted)| % BLOCK != 0)
            && r != Err(TooLong)
  {
  }

  lemma ParseRefusals(d: Bytes, appId: Bytes)
    ensures ParseFrame(d, appId) == Err(TooShort) <==> |d| < 20
    ensures |d| >= 20 && (forall message :: !IsFrame(d, message, appId) && !(appId == [] && IsOverlong(d, message))) ==>
              ParseFrame(d, appId) == Err(AppIdMismatch)
  {
    var r := ParseFrame(d, appId);
    if r.Ok? {
      AcceptsExactlyFrames(d, r.value, appId);
    }
  }
}
