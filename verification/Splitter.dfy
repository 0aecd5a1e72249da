/** The message splitter of wechat-message.ts: cutting a long text into chunks at line or word breaks
    where it can, and sending the chunks with their numbers, each with at most one retry. */
module Splitter {
  import opened Texts
  import Numerals

  const MAX_LENGTH := 600

  predicate IsBreak(u: CodeUnit)
  {
    u == NEWLINE || u == SPACE
  }

  /** splitIndex: the last newline at 300 to 600, or else the last space there, or else 600.
      lastIndexOf(x, 600) looks at positions 0 to 600. */
  function CutAt(r: Text): (k: nat)
    requires |r| > MAX_LENGTH
    ensures MAX_LENGTH / 2 <= k <= MAX_LENGTH
  {
    var window := r[..MAX_LENGTH + 1];
    var line := LastIndex(window, NEWLINE);
    var i := if line == -1 || line < MAX_LENGTH / 2 then LastIndex(window, SPACE) else line;
    if i == -1 || i < MAX_LENGTH / 2 then MAX_LENGTH else i
  }

  function Rest(r: Text): (t: Text)
    requires |r| > MAX_LENGTH
    ensures |t| <= |r| - MAX_LENGTH / 2
  {
    TrimStart(r[CutAt(r)..])
  }

  /** The chunks of the loop, for any remaining text. */
  function Chunks(r: Text): seq<Text>
    decreases |r|
  {
    if r == [] then []
    else if |r| <= MAX_LENGTH then [r]
    else [r[..CutAt(r)]] + Chunks(Rest(r))
  }

  lemma ChunksUnfold(r: Text)
    requires |r| > MAX_LENGTH
    ensures Chunks(r) == [r[..CutAt(r)]] + Chunks(Rest(r))
  {
  }

  lemma Regroup(done: seq<Text>, chunk: Text, todo: seq<Text>)
    ensures done + ([chunk] + todo) == done + [chunk] + todo
  {
  }

  method Split(content: Text) returns (chunks: seq<Text>)
    ensures chunks == Chunks(content) && IsSplit(content, chunks)
  {
    ChunksAreTheSplit(content, Chunks(content));
    chunks := [];
    var remaining := content;
    while |remaining| > 0
      invariant chunks + Chunks(remaining) == Chunks(content)
      decreases |remaining|
    {
      if |remaining| <= MAX_LENGTH {
        chunks := chunks + [remaining];
        break;
      }
      var window := remaining[..MAX_LENGTH + 1];
      var splitIndex := LastIndex(window, NEWLINE);
      if splitIndex == -1 || splitIndex < MAX_LENGTH / 2 {
        splitIndex := LastIndex(window, SPACE);
      }
      if splitIndex == -1 || splitIndex < MAX_LENGTH / 2 {
        splitIndex := MAX_LENGTH;
      }
      assert splitIndex == CutAt(remaining);
      ChunksUnfold(remaining);
      Regroup(chunks, remaining[..splitIndex], Chunks(Rest(remaining)));
      chunks := chunks + [remaining[..splitIndex]];
      remaining := TrimStart(remaining[splitIndex..]);
    }
  }

  // ---------- where it cuts ----------

  /** u stands at one of the positions 300 to 600. */
  predicate Within(r: Text, u: CodeUnit)
    requires |r| > MAX_LENGTH
  {
    exists j :: MAX_LENGTH / 2 <= j <= MAX_LENGTH && r[j] == u
  }

  /** k is the last of the positions 300 to 600 at which u stands. */
  predicate IsLastWithin(r: Text, u: CodeUnit, k: nat)
    requires |r| > MAX_LENGTH
  {
    MAX_LENGTH / 2 <= k <= MAX_LENGTH && r[k] == u && forall j :: k < j <= MAX_LENGTH ==> r[j] != u
  }

  /** k is where r is to be cut: at the last newline from 300 to 600, if there is one; else at the last
      space there, if there is one; else at 600. */
  predicate CutsRight(r: Text, k: nat)
    requires |r| > MAX_LENGTH
  {
    if Within(r, NEWLINE) then IsLastWithin(r, NEWLINE, k)
    else if Within(r, SPACE) then IsLastWithin(r, SPACE, k)
    else k == MAX_LENGTH
  }

  lemma LastIndexWithin(r: Text, u: CodeUnit)
    requires |r| > MAX_LENGTH
    ensures var i := LastIndex(r[..MAX_LENGTH + 1], u);
            if Within(r, u) then i >= 0 && IsLastWithin(r, u, i) else i < MAX_LENGTH / 2
  {
    var window := r[..MAX_LENGTH + 1];
    LastIndexIsLast(window, u);
    assert forall j :: 0 <= j <= MAX_LENGTH ==> window[j] == r[j];
  }

  lemma CutIsRight(r: Text)
    requires |r| > MAX_LENGTH
    ensures CutsRight(r, CutAt(r))
  {
    LastIndexWithin(r, NEWLINE);
    LastIndexWithin(r, SPACE);
  }

  lemma OneRightCut(r: Text, k: nat, l: nat)
    requires |r| > MAX_LENGTH && CutsRight(r, k) && CutsRight(r, l)
    ensures k == l
  {
  }

  /** What splitting r into chunks means: nothing for an empty text, the text itself up to 600 units, and
      otherwise a chunk up to the right cut and a split of what follows it without leading white space. */
  ghost predicate IsSplit(r: Text, chunks: seq<Text>)
    decreases |chunks|
  {
    if r == [] then chunks == []
    else if |r| <= MAX_LENGTH then chunks == [r]
    else
      && chunks != [] && CutsRight(r, |chunks[0]|) && chunks[0] == r[..|chunks[0]|]
      && IsSplit(TrimStart(r[|chunks[0]|..]), chunks[1..])
  }

  /** Every text has one split, the chunks. */
  lemma {:induction false} ChunksAreTheSplit(r: Text, chunks: seq<Text>)
    ensures IsSplit(r, chunks) <==> chunks == Chunks(r)
    decreases |r|
  {
    if |r| > MAX_LENGTH {
      CutIsRight(r);
      var cs := Chunks(r);
      ChunksUnfold(r);
      assert cs[0] == r[..CutAt(r)] && cs[1..] == Chunks(Rest(r));
      ChunksAreTheSplit(Rest(r), Chunks(Rest(r)));
      if IsSplit(r, chunks) {
        OneRightCut(r, |chunks[0]|, CutAt(r));
        ChunksAreTheSplit(Rest(r), chunks[1..]);
        assert chunks == [chunks[0]] + chunks[1..];
      }
    }
  }

  /** A line break is preferred to a space: 700 characters with a newline at 400 and a space at 500 are cut
      at 400. */
  lemma LineBreakIsPreferred(r: Text)
    requires |r| == 700 && r[400] == NEWLINE && r[500] == SPACE
    requires forall j :: 0 <= j < 700 && j != 400 && j != 500 ==> !IsSpace(r[j])
    ensures Chunks(r) == [r[..400], r[401..]]
  {
    CutIsRight(r);
    assert IsLastWithin(r, NEWLINE, 400);
    OneRightCut(r, CutAt(r), 400);
    var tail := r[400..];
    assert tail[0] == NEWLINE && tail[1..] == r[401..] && !IsSpace(r[401]);
    assert TrimStart(tail) == TrimStart(tail[1..]) == tail[1..];
    ChunksUnfold(r);
    assert Chunks(r[401..]) == [r[401..]];
  }

  // ---------- bounds ----------

  ghost predicate GoodChunk(c: Text, last: bool)
  {
    0 < |c| <= MAX_LENGTH && (!last ==> |c| >= MAX_LENGTH / 2)
  }

  /** Every chunk has 1 to 600 units, every chunk but the last at least 300, every chunk but the first
      starts with a non-space, and the first is a prefix of the text. */
  lemma {:induction false} ChunkShapes(r: Text)
    ensures var cs := Chunks(r);
            && (forall i :: 0 <= i < |cs| ==> GoodChunk(cs[i], i == |cs| - 1))
            && (forall i :: 1 <= i < |cs| ==> !IsSpace(cs[i][0]))
            && (r != [] ==> cs != [] && cs[0] <= r)
    decreases |r|
  {
    if |r| > MAX_LENGTH {
      var rest := Rest(r);
      ChunkShapes(rest);
      TrimStartSplits(r[CutAt(r)..]);
      var cs := Chunks(r);
      assert cs[0] == r[..CutAt(r)] && cs[1..] == Chunks(rest);
      forall i | 1 <= i < |cs|
        ensures GoodChunk(cs[i], i == |cs| - 1) && !IsSpace(cs[i][0])
      {
        assert cs[i] == Chunks(rest)[i - 1];
      }
    }
  }

  /** Each chunk but the last accounts for at least 300 units. */
  lemma {:induction false} ChunksFit(r: Text)
    ensures r != [] ==> Chunks(r) != [] && 300 * (|Chunks(r)| - 1) < |r|
    decreases |r|
  {
    if |r| > MAX_LENGTH {
      ChunksFit(Rest(r));
    }
  }

  /** A text of n > 0 units has at most floor((n - 1) / 300) + 1 chunks. */
  lemma ChunkCount(r: Text)
    requires r != []
    ensures 0 < |Chunks(r)| <= (|r| - 1) / 300 + 1
  {
    ChunksFit(r);
    var n := |Chunks(r)| - 1;
    assert 300 * n <= |r| - 1;
  }

  // ---------- reconstruction ----------

  /** What trimStart removed after each chunk. */
  function Gaps(r: Text): seq<Text>
    decreases |r|
  {
    if r == [] then []
    else if |r| <= MAX_LENGTH then [[]]
    else [r[CutAt(r)..][..Leading(r[CutAt(r)..])]] + Gaps(Rest(r))
  }

  function Weave(chunks: seq<Text>, gaps: seq<Text>): Text
    requires |chunks| == |gaps|
  {
    if chunks == [] then [] else chunks[0] + gaps[0] + Weave(chunks[1..], gaps[1..])
  }

  lemma GapsUnfold(r: Text)
    requires |r| > MAX_LENGTH
    ensures Gaps(r) == [r[CutAt(r)..][..Leading(r[CutAt(r)..])]] + Gaps(Rest(r))
  {
  }

  lemma SmallText(r: Text)
    requires |r| <= MAX_LENGTH
    ensures |Gaps(r)| == |Chunks(r)| && (forall i :: 0 <= i < |Gaps(r)| ==> AllSpace(Gaps(r)[i]))
    ensures Weave(Chunks(r), Gaps(r)) == r
  {
    if r != [] {
      WeaveCons(r, [], [], []);
      assert Chunks(r) == [r] + [] && Gaps(r) == [[]] + [];
    }
  }

  lemma Rejoin(r: Text, i: nat, j: nat)
    requires i <= |r| && j <= |r[i..]|
    ensures r == r[..i] + r[i..][..j] + r[i..][j..]
  {
  }

  /** The text is its chunks interleaved with gaps of white space only. */
  lemma {:induction false} ChunksReconstruct(r: Text)
    ensures |Gaps(r)| == |Chunks(r)| && (forall i :: 0 <= i < |Gaps(r)| ==> AllSpace(Gaps(r)[i]))
    ensures Weave(Chunks(r), Gaps(r)) == r
    decreases |r|
  {
    if |r| > MAX_LENGTH {
      var head, tail := r[..CutAt(r)], r[CutAt(r)..];
      var gap, rest := tail[..Leading(tail)], Rest(r);
      ChunksReconstruct(rest);
      TrimStartSplits(tail);
      ChunksUnfold(r);
      GapsUnfold(r);
      WeaveCons(head, gap, Chunks(rest), Gaps(rest));
      Rejoin(r, CutAt(r), Leading(tail));
    } else {
      SmallText(r);
    }
  }

  lemma WeaveCons(chunk: Text, gap: Text, chunks: seq<Text>, gaps: seq<Text>)
    requires |chunks| == |gaps|
    ensures Weave([chunk] + chunks, [gap] + gaps) == chunk + gap + Weave(chunks, gaps)
  {
  }

  lemma {:induction false} WeaveVisible(chunks: seq<Text>, gaps: seq<Text>)
    requires |chunks| == |gaps| && forall i :: 0 <= i < |gaps| ==> AllSpace(gaps[i])
    ensures Visible(Weave(chunks, gaps)) == Visible(Concat(chunks))
  {
    if chunks != [] {
      WeaveVisible(chunks[1..], gaps[1..]);
      SpacesAreInvisible(gaps[0]);
      VisibleConcat(chunks[0] + gaps[0], Weave(chunks[1..], gaps[1..]));
      VisibleConcat(chunks[0], gaps[0]);
      VisibleConcat(chunks[0], Concat(chunks[1..]));
    }
  }

  /** Splitting neither loses, adds nor reorders a visible character. */
  lemma VisibleTextIsKept(r: Text)
    ensures Visible(Concat(Chunks(r))) == Visible(r)
  {
    ChunksReconstruct(r);
    WeaveVisible(Chunks(r), Gaps(r));
  }

  /** A text without white space is cut every 600 units exactly. */
  lemma {:induction false} SolidTextIsCutEvenly(r: Text)
    requires forall i :: 0 <= i < |r| ==> !IsSpace(r[i])
    ensures Concat(Chunks(r)) == r && |Chunks(r)| == (|r| + MAX_LENGTH - 1) / MAX_LENGTH
    decreases |r|
  {
    if |r| > MAX_LENGTH {
      LastIndexIsLast(r[..MAX_LENGTH + 1], NEWLINE);
      LastIndexIsLast(r[..MAX_LENGTH + 1], SPACE);
      assert CutAt(r) == MAX_LENGTH && Rest(r) == r[MAX_LENGTH..];
      SolidTextIsCutEvenly(Rest(r));
      assert Chunks(r)[1..] == Chunks(Rest(r));
      assert r == r[..MAX_LENGTH] + r[MAX_LENGTH..];
    } else if r != [] {
      assert Concat([r]) == r + Concat([]);
    }
  }

  // ---------- words ----------

  function WordsOfAll(chunks: seq<Text>): seq<Text>
  {
    if chunks == [] then [] else Words(chunks[0]) + WordsOfAll(chunks[1..])
  }

  predicate HasBreak(s: Text)
  {
    exists j :: 0 <= j < |s| && IsBreak(s[j])
  }

  /** What the cut of r looks at: nowhere from 300 to 600 a newline or a space, and a non-space on both
      sides of position 600. */
  predicate BreaksWord(r: Text)
    requires |r| > MAX_LENGTH
  {
    !HasBreak(r[300..601]) && !IsSpace(r[599]) && !IsSpace(r[600])
  }

  lemma CutIsAtBreak(r: Text)
    requires |r| > MAX_LENGTH && HasBreak(r[300..601])
    ensures IsBreak(r[CutAt(r)])
  {
    var j :| 0 <= j < 301 && IsBreak(r[300..601][j]);
    var window := r[..MAX_LENGTH + 1];
    assert window[300 + j] == r[300..601][j];
    LastIndexIsLast(window, NEWLINE);
    LastIndexIsLast(window, SPACE);
  }

  lemma CutWithoutBreak(r: Text)
    requires |r| > MAX_LENGTH && !HasBreak(r[300..601])
    ensures CutAt(r) == MAX_LENGTH
  {
    var window := r[..MAX_LENGTH + 1];
    forall j | 300 <= j <= 600
      ensures !IsBreak(window[j])
    {
      assert window[j] == r[300..601][j - 300];
    }
    LastIndexIsLast(window, NEWLINE);
    LastIndexIsLast(window, SPACE);
  }

  /** The cut falls inside a word exactly when that guard holds. */
  lemma CutsWordIff(r: Text)
    requires |r| > MAX_LENGTH
    ensures CutsWord(r[..CutAt(r)], r[CutAt(r)..]) <==> BreaksWord(r)
  {
    if HasBreak(r[300..601]) {
      CutIsAtBreak(r);
    } else {
      CutWithoutBreak(r);
    }
  }

  /** How many cuts fall inside a word. */
  function WordCuts(r: Text): nat
    decreases |r|
  {
    if |r| <= MAX_LENGTH then 0
    else (if BreaksWord(r) then 1 else 0) + WordCuts(Rest(r))
  }

  lemma WordsOfAllCons(chunk: Text, chunks: seq<Text>)
    ensures WordsOfAll([chunk] + chunks) == Words(chunk) + WordsOfAll(chunks)
  {
    assert ([chunk] + chunks)[1..] == chunks;
  }

  /** One cut. */
  lemma WordsOfCut(r: Text)
    requires |r| > MAX_LENGTH
    ensures var head, rest := Words(r[..CutAt(r)]), Words(Rest(r));
            if BreaksWord(r) then |head| + |rest| == |Words(r)| + 1 else head + rest == Words(r)
  {
    var head, tail := r[..CutAt(r)], r[CutAt(r)..];
    CutsWordIff(r);
    assert r == head + tail;
    WordsOfParts(head, tail);
    TrimKeepsWords(tail);
  }

  /** The chunks have as many words as the text plus one for every cut inside a word; without such a cut
      they have the same words in the same order. */
  lemma {:induction false} WordsAcrossChunks(r: Text)
    ensures |WordsOfAll(Chunks(r))| == |Words(r)| + WordCuts(r)
    ensures WordCuts(r) == 0 ==> WordsOfAll(Chunks(r)) == Words(r)
    decreases |r|
  {
    if |r| > MAX_LENGTH {
      WordsAcrossChunks(Rest(r));
      WordsOfCut(r);
      ChunksUnfold(r);
      WordsOfAllCons(r[..CutAt(r)], Chunks(Rest(r)));
    } else if r != [] {
      WordsOfAllCons(r, []);
      assert [r] + [] == [r];
    }
  }

  /** The words survive exactly when no cut falls inside one. */
  lemma WordsSurviveIff(r: Text)
    ensures WordsOfAll(Chunks(r)) == Words(r) <==> WordCuts(r) == 0
  {
    WordsAcrossChunks(r);
  }

  /** Every 301 consecutive units contain a newline or a space. */
  ghost predicate Breakable(r: Text)
  {
    forall i: nat :: i + 301 <= |r| ==> BreakFrom(r, i)
  }

  ghost predicate BreakFrom(r: Text, i: nat)
    requires i + 301 <= |r|
  {
    HasBreak(r[i..i + 301])
  }

  lemma SuffixIsBreakable(r: Text, k: nat)
    requires Breakable(r) && k <= |r|
    ensures Breakable(r[k..])
  {
    forall i: nat | i + 301 <= |r[k..]|
      ensures BreakFrom(r[k..], i)
    {
      assert BreakFrom(r, k + i);
      assert r[k..][i..i + 301] == r[k + i..k + i + 301];
    }
  }

  lemma RestIsBreakable(r: Text)
    requires Breakable(r) && |r| > MAX_LENGTH
    ensures Breakable(Rest(r)) && !BreaksWord(r)
  {
    assert BreakFrom(r, 300);
    CutIsAtBreak(r);
    var tail := r[CutAt(r)..];
    TrimStartSplits(tail);
    SuffixIsBreakable(r, CutAt(r) + Leading(tail));
    assert Rest(r) == r[CutAt(r) + Leading(tail)..];
  }

  lemma {:induction false} BreakableTextIsNotCut(r: Text)
    requires Breakable(r)
    ensures WordCuts(r) == 0
    decreases |r|
  {
    if |r| > MAX_LENGTH {
      RestIsBreakable(r);
      BreakableTextIsNotCut(Rest(r));
    }
  }

  /** Splitting cuts no word of a text in which every 301 consecutive units contain a newline or a space. */
  lemma BreakableTextKeepsWords(r: Text)
    requires Breakable(r)
    ensures WordCuts(r) == 0 && WordsOfAll(Chunks(r)) == Words(r)
  {
    WordsAcrossChunks(r);
    BreakableTextIsNotCut(r);
  }

  /** n equal units. */
  function Solid(n: nat, u: CodeUnit): (r: Text)
    ensures |r| == n && forall i :: 0 <= i < n ==> r[i] == u
  {
    seq(n, i requires 0 <= i < n => u)
  }

  lemma SolidCut(n: nat, u: CodeUnit)
    requires n > MAX_LENGTH && !IsSpace(u)
    ensures CutAt(Solid(n, u)) == MAX_LENGTH && BreaksWord(Solid(n, u)) && Rest(Solid(n, u)) == Solid(n - MAX_LENGTH, u)
  {
    var r := Solid(n, u);
    assert !HasBreak(r[300..601]);
    CutWithoutBreak(r);
    assert r[MAX_LENGTH..] == Solid(n - MAX_LENGTH, u);
  }

  /** It does happen: 1200 equal non-space units are cut into two chunks, and their one word into two. */
  lemma SolidTextLosesItsWord(u: CodeUnit)
    requires !IsSpace(u)
    ensures Chunks(Solid(1200, u)) == [Solid(600, u), Solid(600, u)]
    ensures WordsOfAll(Chunks(Solid(1200, u))) != Words(Solid(1200, u))
  {
    var r := Solid(1200, u);
    SolidCut(1200, u);
    ChunksUnfold(r);
    assert r[..600] == Solid(600, u) && Chunks(Solid(600, u)) == [Solid(600, u)];
    WordsSurviveIff(r);
    assert WordCuts(r) > 0;
  }

  predicate IsHighSurrogate(u: CodeUnit)
  {
    0xD800 <= u <= 0xDBFF
  }

  predicate IsLowSurrogate(u: CodeUnit)
  {
    0xDC00 <= u <= 0xDFFF
  }

  /** A cut separates the two halves of a supplementary character exactly when there is no newline or
      space from 300 to 600 and the halves lie at 599 and 600. */
  lemma SurrogatesSplitIff(r: Text)
    requires |r| > MAX_LENGTH
    ensures IsHighSurrogate(r[CutAt(r) - 1]) && IsLowSurrogate(r[CutAt(r)]) <==>
            !HasBreak(r[300..601]) && IsHighSurrogate(r[599]) && IsLowSurrogate(r[600])
  {
    if HasBreak(r[300..601]) {
      CutIsAtBreak(r);
    } else {
      CutWithoutBreak(r);
    }
  }

  // ---------- sending ----------

  /** What one attempt meets: no token (fetching or forcing a refresh failed), or a reply to the POST. */
  datatype Attempt = NoToken | Delivered | TokenExpired | Refused

  /** sendCustomerServiceMessage: the texts posted and whether it returned true. attempts(n) is what the
      n-th attempt meets. */
  function Send(text: Text, attempts: nat -> Attempt, n: nat, retryOnTokenError: bool): (seq<Text>, bool)
    decreases retryOnTokenError
  {
    match attempts(n)
    case NoToken => ([], false)
    case Delivered => ([text], true)
    case Refused => ([text], false)
    case TokenExpired =>
      if retryOnTokenError then
        var (posts, sent) := Send(text, attempts, n + 1, false);
        ([text] + posts, sent)
      else ([text], false)
  }

  function Ascii(s: string): (t: Text)
    requires forall i :: 0 <= i < |s| ==> s[i] < 128 as char
    ensures |t| == |s|
  {
    seq(|s|, i requires 0 <= i < |s| => s[i] as int)
  }

  /** Chunk i of n as it is sent. */
  function Numbered(i: nat, n: nat, chunk: Text): Text
  {
    if i == 0 then chunk
    else Ascii("(" + Numerals.Decimal(i + 1) + "/" + Numerals.Decimal(n) + ") ") + chunk
  }

  function Meets(api: (nat, nat) -> Attempt, i: nat): nat -> Attempt
  {
    (k: nat) => api(i, k)
  }

  /** What sending chunk i does. */
  function SendChunk(chunks: seq<Text>, i: nat, api: (nat, nat) -> Attempt): (seq<Text>, bool)
    requires i < |chunks|
  {
    Send(Numbered(i, |chunks|, chunks[i]), Meets(api, i), 0, true)
  }

  /** The posts of chunks i onwards. */
  function PostsFrom(chunks: seq<Text>, i: nat, api: (nat, nat) -> Attempt): seq<Text>
    decreases |chunks| - i
  {
    if i >= |chunks| then []
    else SendChunk(chunks, i, api).0 + PostsFrom(chunks, i + 1, api)
  }

  predicate Sent(chunks: seq<Text>, i: nat, api: (nat, nat) -> Attempt)
    requires i < |chunks|
  {
    SendChunk(chunks, i, api).1
  }

  /** The first n chunks were all delivered. */
  ghost predicate AllSent(chunks: seq<Text>, n: nat, api: (nat, nat) -> Attempt)
    requires n <= |chunks|
  {
    forall i: nat :: i < n ==> Sent(chunks, i, api)
  }

  lemma PostsUnfold(chunks: seq<Text>, i: nat, api: (nat, nat) -> Attempt)
    ensures i < |chunks| ==>
      PostsFrom(chunks, i, api) == SendChunk(chunks, i, api).0 + PostsFrom(chunks, i + 1, api)
    ensures i >= |chunks| ==> PostsFrom(chunks, i, api) == []
  {
  }

  lemma PostsGrow(posts: seq<Text>, texts: seq<Text>, rest: seq<Text>)
    ensures posts + (texts + rest) == posts + texts + rest
  {
  }

  lemma AllSentGrows(chunks: seq<Text>, n: nat, api: (nat, nat) -> Attempt)
    requires n < |chunks|
    ensures AllSent(chunks, n + 1, api) <==> AllSent(chunks, n, api) && Sent(chunks, n, api)
  {
  }

  lemma OneChunk(chunks: seq<Text>, api: (nat, nat) -> Attempt)
    requires |chunks| == 1
    ensures Send(chunks[0], Meets(api, 0), 0, true) == SendChunk(chunks, 0, api)
    ensures PostsFrom(chunks, 0, api) == SendChunk(chunks, 0, api).0
    ensures SendChunk(chunks, 0, api).1 <==> AllSent(chunks, |chunks|, api)
  {
    PostsUnfold(chunks, 0, api);
    PostsUnfold(chunks, 1, api);
    assert SendChunk(chunks, 0, api).1 == Sent(chunks, 0, api);
  }

  /** sendTextMessage. api(i, k) is what attempt k for chunk i meets. A short text is sent as it is. */
  method SendTextMessage(content: Text, api: (nat, nat) -> Attempt) returns (success: bool, posts: seq<Text>)
    ensures var chunks := if |content| <= MAX_LENGTH then [content] else Chunks(content);
            && posts == PostsFrom(chunks, 0, api)
            && (success <==> AllSent(chunks, |chunks|, api))
  {
    if |content| <= MAX_LENGTH {
      OneChunk([content], api);
      posts, success := Send(content, Meets(api, 0), 0, true).0, Send(content, Meets(api, 0), 0, true).1;
      return;
    }
    var chunks := Split(content);
    success, posts := SendChunks(chunks, api);
  }

  /** The sending loop. */
  method SendChunks(chunks: seq<Text>, api: (nat, nat) -> Attempt) returns (success: bool, posts: seq<Text>)
    ensures posts == PostsFrom(chunks, 0, api)
    ensures success <==> AllSent(chunks, |chunks|, api)
  {
    success, posts := true, [];
    assert posts + PostsFrom(chunks, 0, api) == PostsFrom(chunks, 0, api);
    for i := 0 to |chunks|
      invariant posts + PostsFrom(chunks, i, api) == PostsFrom(chunks, 0, api)
      invariant success <==> AllSent(chunks, i, api)
    {
      var texts, result := SendNumbered(chunks, i, api);
      PostsGrow(posts, texts, PostsFrom(chunks, i + 1, api));
      AllSentGrows(chunks, i, api);
      posts := posts + texts;
      if !result {
        success := false;
      }
    }
    PostsUnfold(chunks, |chunks|, api);
    assert posts + [] == posts;
  }

  /** The body of the loop: chunk i with its number. */
  method SendNumbered(chunks: seq<Text>, i: nat, api: (nat, nat) -> Attempt) returns (texts: seq<Text>, result: bool)
    requires i < |chunks|
    ensures PostsFrom(chunks, i, api) == texts + PostsFrom(chunks, i + 1, api)
    ensures result == Sent(chunks, i, api)
  {
    var chunk := Numbered(i, |chunks|, chunks[i]);
    var (posted, sent) := Send(chunk, Meets(api, i), 0, true);
    PostsUnfold(chunks, i, api);
    return posted, sent;
  }

  lemma SendPostsTwiceAtMost(text: Text, attempts: nat -> Attempt)
    ensures var (posts, sent) := Send(text, attempts, 0, true);
            && |posts| <= 2 && (forall i :: 0 <= i < |posts| ==> posts[i] == text)
            && (sent <==> attempts(0).Delivered? || (attempts(0).TokenExpired? && attempts(1).Delivered?))
            && (|posts| == 2 ==> attempts(0).TokenExpired?)
            && |posts| == (if attempts(0).NoToken? then 0
                           else if attempts(0).TokenExpired? && !attempts(1).NoToken? then 2 else 1)
  {
  }

  lemma ChunkPosts(chunks: seq<Text>, i: nat, api: (nat, nat) -> Attempt)
    requires i < |chunks|
    ensures var posts := SendChunk(chunks, i, api).0;
            |posts| <= 2 && forall p :: p in posts ==> p == Numbered(i, |chunks|, chunks[i])
  {
    SendPostsTwiceAtMost(Numbered(i, |chunks|, chunks[i]), Meets(api, i));
  }

  /** Everything posted is a numbered chunk, in order, each at most twice. */
  lemma {:induction false} PostsAreNumberedChunks(chunks: seq<Text>, i: nat, api: (nat, nat) -> Attempt)
    ensures |PostsFrom(chunks, i, api)| <= (if i < |chunks| then 2 * (|chunks| - i) else 0)
    ensures forall p :: p in PostsFrom(chunks, i, api) ==>
                          exists j: nat :: i <= j < |chunks| && p == Numbered(j, |chunks|, chunks[j])
    decreases |chunks| - i
  {
    PostsUnfold(chunks, i, api);
    if i < |chunks| {
      ChunkPosts(chunks, i, api);
      PostsAreNumberedChunks(chunks, i + 1, api);
    }
  }

  /** The units of "(j/n) ". */
  function PrefixLength(j: nat, n: nat): nat
  {
    4 + |Numerals.Decimal(j + 1)| + |Numerals.Decimal(n)|
  }

  /** The numbered text of chunk i of n, read as "(<i + 1>/<n>) " and the chunk. */
  lemma NumberedReads(i: nat, n: nat, chunk: Text) returns (number: string, total: string)
    requires i > 0
    ensures forall j :: 0 <= j < |number| ==> '0' <= number[j] <= '9'
    ensures forall j :: 0 <= j < |total| ==> '0' <= total[j] <= '9'
    ensures Numbered(i, n, chunk) == Ascii("(" + number + "/" + total + ") ") + chunk
    ensures Numerals.ValueOf(number) == i + 1 && Numerals.ValueOf(total) == n
  {
    number, total := Numerals.Decimal(i + 1), Numerals.Decimal(n);
    Numerals.DecimalReadsBack(i + 1);
    Numerals.DecimalReadsBack(n);
  }

  /** The prefix of the second of three chunks. */
  lemma SecondOfThree(chunk: Text)
    ensures Numbered(1, 3, chunk) == [40, 50, 47, 51, 41, 32] + chunk
  {
    assert Numerals.Decimal(2) == "2" && Numerals.Decimal(3) == "3";
    assert "(" + "2" + "/" + "3" + ") " == "(2/3) ";
    assert Ascii("(2/3) ") == [40, 50, 47, 51, 41, 32];
  }

  lemma NumberLength(i: nat, n: nat, chunk: Text)
    ensures |Numbered(i, n, chunk)| == |chunk| + (if i == 0 then 0 else PrefixLength(i, n))
  {
  }

  /** order[k] is the chunk that post k carries. */
  ghost predicate Carries(posts: seq<Text>, order: seq<nat>, chunks: seq<Text>)
  {
    && |order| == |posts|
    && forall k :: 0 <= k < |posts| ==> order[k] < |chunks| && CarriesChunk(posts[k], order[k], chunks)
  }

  predicate CarriesChunk(post: Text, j: nat, chunks: seq<Text>)
    requires j < |chunks|
  {
    post == Numbered(j, |chunks|, chunks[j])
  }

  /** Chunks from i on, never backwards, and none more than twice. */
  ghost predicate GoesOn(order: seq<nat>, i: nat)
  {
    && (forall k :: 0 <= k < |order| ==> i <= order[k])
    && (forall k, l :: 0 <= k < l < |order| ==> order[k] <= order[l])
    && (forall k :: 0 <= k < |order| - 2 ==> order[k] < order[k + 2])
  }

  /** The posts come in the order of the chunks. */
  lemma {:induction false} PostsInOrder(chunks: seq<Text>, i: nat, api: (nat, nat) -> Attempt) returns (order: seq<nat>)
    ensures Carries(PostsFrom(chunks, i, api), order, chunks) && GoesOn(order, i)
    decreases |chunks| - i
  {
    PostsUnfold(chunks, i, api);
    order := [];
    if i < |chunks| {
      var posts := SendChunk(chunks, i, api).0;
      ChunkPosts(chunks, i, api);
      var rest := PostsInOrder(chunks, i + 1, api);
      SamePosts(posts, i, chunks);
      CarryOn(posts, Repeat(i, |posts|), PostsFrom(chunks, i + 1, api), rest, chunks);
      RepeatGoesOn(i, |posts|, rest);
      order := Repeat(i, |posts|) + rest;
    }
  }

  function Repeat(i: nat, n: nat): (order: seq<nat>)
    ensures |order| == n && forall k :: 0 <= k < n ==> order[k] == i
  {
    seq(n, _ => i)
  }

  lemma SamePosts(posts: seq<Text>, i: nat, chunks: seq<Text>)
    requires i < |chunks| && forall p :: p in posts ==> p == Numbered(i, |chunks|, chunks[i])
    ensures Carries(posts, Repeat(i, |posts|), chunks)
  {
    assert forall k :: 0 <= k < |posts| ==> posts[k] in posts;
  }

  lemma CarryOn(posts: seq<Text>, order: seq<nat>, more: seq<Text>, rest: seq<nat>, chunks: seq<Text>)
    requires Carries(posts, order, chunks) && Carries(more, rest, chunks)
    ensures Carries(posts + more, order + rest, chunks)
  {
    var n, all, both := |posts|, posts + more, order + rest;
    forall k | 0 <= k < |all|
      ensures both[k] < |chunks| && CarriesChunk(all[k], both[k], chunks)
    {
      assert if k < n then all[k] == posts[k] && both[k] == order[k] else all[k] == more[k - n] && both[k] == rest[k - n];
      assert k < n ==> CarriesChunk(posts[k], order[k], chunks);
      assert k >= n ==> CarriesChunk(more[k - n], rest[k - n], chunks);
    }
  }

  lemma RepeatGoesOn(i: nat, n: nat, rest: seq<nat>)
    requires n <= 2 && GoesOn(rest, i + 1)
    ensures GoesOn(Repeat(i, n) + rest, i)
  {
    var order := Repeat(i, n) + rest;
    assert forall k :: 0 <= k < |order| ==> order[k] == if k < n then i else rest[k - n];
    forall k | 0 <= k < |order| - 2
      ensures order[k] < order[k + 2]
    {
      assert order[k + 2] == rest[k + 2 - n];
    }
  }

  ghost predicate AreNumbered(posts: seq<Text>, chunks: seq<Text>, i: nat)
  {
    i + |posts| == |chunks| && forall k :: 0 <= k < |posts| ==> posts[k] == Numbered(i + k, |chunks|, chunks[i + k])
  }

  lemma {:induction false} AllDeliveredFrom(chunks: seq<Text>, i: nat, api: (nat, nat) -> Attempt)
    requires i <= |chunks| && forall j: nat :: i <= j < |chunks| ==> api(j, 0).Delivered?
    ensures AreNumbered(PostsFrom(chunks, i, api), chunks, i)
    decreases |chunks| - i
  {
    PostsUnfold(chunks, i, api);
    if i < |chunks| {
      DeliveredPosts(chunks, i, api);
      AllDeliveredFrom(chunks, i + 1, api);
      OneMoreNumbered(PostsFrom(chunks, i, api), PostsFrom(chunks, i + 1, api), chunks, i);
    }
  }

  lemma OneMoreNumbered(posts: seq<Text>, rest: seq<Text>, chunks: seq<Text>, i: nat)
    requires i < |chunks| && posts == [Numbered(i, |chunks|, chunks[i])] + rest && AreNumbered(rest, chunks, i + 1)
    ensures AreNumbered(posts, chunks, i)
  {
    forall k | 0 <= k < |posts|
      ensures posts[k] == Numbered(i + k, |chunks|, chunks[i + k])
    {
      if k > 0 {
        assert posts[k] == rest[k - 1] == Numbered(i + 1 + (k - 1), |chunks|, chunks[i + 1 + (k - 1)]);
      }
    }
  }

  /** When every first attempt is delivered, the posts are the numbered chunks, each once, in order. */
  lemma AllDelivered(chunks: seq<Text>, api: (nat, nat) -> Attempt)
    requires forall j: nat :: j < |chunks| ==> api(j, 0).Delivered?
    ensures AreNumbered(PostsFrom(chunks, 0, api), chunks, 0)
  {
    AllDeliveredFrom(chunks, 0, api);
  }

  /** A long text makes at most twice as many posts as it has chunks. */
  lemma PostCount(content: Text, api: (nat, nat) -> Attempt)
    requires |content| > MAX_LENGTH
    ensures |PostsFrom(Chunks(content), 0, api)| <= 2 * |Chunks(content)| <= 2 * ((|content| - 1) / 300 + 1)
  {
    PostsAreNumberedChunks(Chunks(content), 0, api);
    ChunkCount(content);
  }

  /** Each post of a long text has at most 600 units plus those of its number "(j/n) ". */
  lemma PostLength(content: Text, api: (nat, nat) -> Attempt, p: Text) returns (j: nat)
    requires |content| > MAX_LENGTH && p in PostsFrom(Chunks(content), 0, api)
    ensures var cs := Chunks(content);
            && j < |cs| && p == Numbered(j, |cs|, cs[j])
            && |p| <= MAX_LENGTH + PrefixLength(j, |cs|)
  {
    var cs := Chunks(content);
    PostsAreNumberedChunks(cs, 0, api);
    j :| 0 <= j < |cs| && p == Numbered(j, |cs|, cs[j]);
    ChunkShapes(content);
    assert GoodChunk(cs[j], j == |cs| - 1);
    NumberLength(j, |cs|, cs[j]);
  }

  /** Post j is longer than WeChat's 600 exactly when it is numbered and its chunk leaves no room for the
      number. */
  lemma PostExceedsIff(content: Text, j: nat)
    requires j < |Chunks(content)|
    ensures var cs := Chunks(content);
            |Numbered(j, |cs|, cs[j])| > MAX_LENGTH <==> j > 0 && |cs[j]| > MAX_LENGTH - PrefixLength(j, |cs|)
  {
    var cs := Chunks(content);
    ChunkShapes(content);
    assert GoodChunk(cs[j], j == |cs| - 1);
    NumberLength(j, |cs|, cs[j]);
  }

  /** It does happen: the second chunk of 1200 equal non-space units is posted with 606. */
  lemma SolidTextExceeds(u: CodeUnit, api: (nat, nat) -> Attempt) returns (p: Text)
    requires !IsSpace(u) && api(0, 0).Delivered? && api(1, 0).Delivered?
    ensures p in PostsFrom(Chunks(Solid(1200, u)), 0, api) && |p| == 606
  {
    var cs := Chunks(Solid(1200, u));
    SolidTextLosesItsWord(u);
    p := Numbered(1, 2, cs[1]);
    NumberLength(1, 2, cs[1]);
    OneDigit(2);
    PostsUnfold(cs, 0, api);
    PostsUnfold(cs, 1, api);
    DeliveredPosts(cs, 1, api);
  }

  lemma OneDigit(n: nat)
    requires n < 10
    ensures |Numerals.Decimal(n)| == 1
  {
  }

  lemma DeliveredPosts(chunks: seq<Text>, i: nat, api: (nat, nat) -> Attempt)
    requires i < |chunks| && api(i, 0).Delivered?
    ensures SendChunk(chunks, i, api) == ([Numbered(i, |chunks|, chunks[i])], true)
  {
    assert Meets(api, i)(0) == api(i, 0);
  }
}
