/**
 Splitting text into overlapping chunks for embedding.

 The character-based splitter takes 4 characters per token: a piece has at most half + half characters,
 fewer if its second half holds a sentence break, and the next piece starts `o` characters before
 that one ends.  The token-based splitter cuts every `size` tokens.  What counts as white space is a
 parameter.
*/
module Chunker {
  import opened Arith
  import opened Wrappers

  datatype Span = Span(start: nat, end: nat) {
    predicate Has(i: nat) {
      start <= i < end
    }
  }

  function Min(a: int, b: int): int {
    if a < b then a else b
  }

  // ------------------------------------------------------------------ one cut

  predicate BreakAt(text: string, k: int)
    requires 0 <= k && k + 2 <= |text|
  {
    text[k] == '.' && text[k + 1] == ' '
  }

  /** The last sentence break that lies within text[lo..hi], or -1. */
  function RFind(text: string, lo: nat, hi: nat): (at: int)
    requires lo <= hi <= |text|
    ensures at == -1 || (lo <= at && at + 2 <= hi)
    decreases hi
  {
    if hi < lo + 2 then -1
    else if BreakAt(text, hi - 2) then hi - 2
    else RFind(text, lo, hi - 1)
  }

  lemma {:induction false} RFindIsLast(text: string, lo: nat, hi: nat)
    requires lo <= hi <= |text|
    ensures var at := RFind(text, lo, hi);
      && (at != -1 ==> BreakAt(text, at))
      && (forall k :: at < k && lo <= k && k + 2 <= hi ==> !BreakAt(text, k))
    decreases hi
  {
    if lo + 2 <= hi && !BreakAt(text, hi - 2) {
      RFindIsLast(text, lo, hi - 1);
    }
  }

  /** Where the piece that starts at `start` ends. */
  function Cut(text: string, half: Pos, start: nat): (end: nat)
    requires start < |text|
    ensures start < end <= |text|
  {
    var end := Min(start + half + half, |text|);
    if end == |text| then end
    else
      var at := RFind(text, start, end);
      if at > start + half then at + 2 else end
  }

  /** Where the piece after the one at `start` starts. */
  function Next(text: string, half: Pos, o: nat, start: nat): int
    requires start < |text|
  {
    Cut(text, half, start) - o
  }

  // ------------------------------------------------------------------ all pieces

  function Slice(text: string, from: nat, upTo: nat): string {
    if from <= upTo <= |text| then text[from..upTo] else ""
  }

  /** The pieces from `start` on. */
  function SpansFrom(text: string, half: Pos, o: nat, start: nat): (spans: seq<Span>)
    ensures |spans| == 0 <==> |text| <= start
    decreases |text| - start
  {
    if |text| <= start then []
    else
      var first, next := [Span(start, Cut(text, half, start))], Next(text, half, o, start);
      if next <= start then first else first + SpansFrom(text, half, o, next)
  }

  function Spans(text: string, half: Pos, o: nat): seq<Span> {
    SpansFrom(text, half, o, 0)
  }

  /** A sentence break in the second half of a piece that starts at `start`. */
  predicate LateBreak(text: string, half: Pos, start: nat, k: int) {
    start + half < k && k + 2 <= start + half + half && k + 2 <= |text| && BreakAt(text, k)
  }

  /** The piece ends with the text if that is near enough; or else behind the last sentence break in its second
      half; or else it is a full piece. */
  ghost predicate CutWell(text: string, half: Pos, piece: Span) {
    var full := piece.start + half + half;
    && piece.start < piece.end <= |text|
    && (|text| <= full ==> piece.end == |text|)
    && (full < |text| && (exists k :: LateBreak(text, half, piece.start, k)) ==>
          piece.end >= 2 && LateBreak(text, half, piece.start, piece.end - 2))
    && (full < |text| && (forall k :: !LateBreak(text, half, piece.start, k)) ==> piece.end == full)
    && (full < |text| ==> forall k :: LateBreak(text, half, piece.start, k) ==> k + 2 <= piece.end)
  }

  lemma CutExactly(text: string, half: Pos, start: nat)
    requires start < |text|
    ensures CutWell(text, half, Span(start, Cut(text, half, start)))
  {
    var full := start + half + half;
    if full < |text| {
      var at := RFind(text, start, full);
      RFindIsLast(text, start, full);
      if start + half < at {
        assert LateBreak(text, half, start, at);
      }
      forall k | LateBreak(text, half, start, k) ensures k <= at {
      }
    }
  }

  lemma {:induction false} PieceIsCut(text: string, half: Pos, o: nat, start: nat, k: nat)
    requires k < |SpansFrom(text, half, o, start)|
    ensures var piece := SpansFrom(text, half, o, start)[k];
      piece.start < |text| && piece.end == Cut(text, half, piece.start)
    decreases k
  {
    if 0 < k {
      PieceIsCut(text, half, o, Next(text, half, o, start), k - 1);
    }
  }

  /** Every piece, for every overlap, is cut well. */
  lemma EveryPieceCutWell(text: string, half: Pos, o: nat, k: nat)
    requires k < |Spans(text, half, o)|
    ensures CutWell(text, half, Spans(text, half, o)[k])
  {
    PieceIsCut(text, half, o, 0, k);
    CutExactly(text, half, Spans(text, half, o)[k].start);
  }

  // ------------------------------------------------------------------ no text is lost

  ghost predicate Somewhere(spans: seq<Span>, i: nat) {
    exists k :: 0 <= k < |spans| && spans[k].Has(i)
  }

  /** The first `count` pieces put together again: the first one, and every later one without its
      first `o` characters. */
  function Rejoin(text: string, spans: seq<Span>, o: nat, count: nat): string
    requires count <= |spans|
  {
    if count == 0 then ""
    else
      var span := spans[count - 1];
      Rejoin(text, spans, o, count - 1)
      + Slice(text, if count == 1 then span.start else span.start + o, span.end)
  }

  ghost predicate Lossless(text: string, half: Pos, o: nat) {
    var spans := Spans(text, half, o);
    && (forall i: nat :: i < |text| ==> Somewhere(spans, i))
    && Rejoin(text, spans, o, |spans|) == text
  }

  /** Each piece but the first starts exactly `o` characters before its predecessor ends. */
  lemma {:induction false} ExactOverlap(text: string, half: Pos, o: nat, start: nat, k: nat)
    requires k + 1 < |SpansFrom(text, half, o, start)|
    ensures SpansFrom(text, half, o, start)[k + 1].start == SpansFrom(text, half, o, start)[k].end - o
    decreases k
  {
    if 0 < k {
      ExactOverlap(text, half, o, Next(text, half, o, start), k - 1);
    }
  }

  /** Below the threshold every later position lies in some piece. */
  lemma {:induction false} SpanOf(text: string, half: Pos, o: nat, start: nat, i: nat) returns (k: nat)
    requires o < half + half && o <= half + 2
    requires start <= i < |text|
    ensures k < |SpansFrom(text, half, o, start)|
    ensures SpansFrom(text, half, o, start)[k].Has(i)
    decreases |text| - start
  {
    if i < Cut(text, half, start) {
      k := 0;
    } else {
      k := SpanOf(text, half, o, Next(text, half, o, start), i);
      k := k + 1;
    }
  }

  /** Pieces stay within the text and the last one ends with it; their ends never fall back. */
  lemma {:induction false} PieceEnds(text: string, half: Pos, o: nat, start: nat, k: nat)
    requires o < half + half && o <= half + 2
    requires k < |SpansFrom(text, half, o, start)|
    ensures var spans := SpansFrom(text, half, o, start);
      && spans[0].start == start
      && spans[k].start < spans[k].end <= |text|
      && (k + 1 == |spans| ==> spans[k].end == |text|)
      && (k + 1 < |spans| ==> spans[k].end <= spans[k + 1].end)
    decreases k
  {
    if 0 < k {
      PieceEnds(text, half, o, Next(text, half, o, start), k - 1);
    }
  }

  /** What the four facts above say of a sequence of pieces. */
  predicate Chained(spans: seq<Span>, o: nat, n: nat) {
    && 0 < |spans|
    && spans[0].start == 0 && spans[|spans| - 1].end == n
    && (forall k :: 0 <= k < |spans| ==> spans[k].start < spans[k].end <= n)
    && (forall j, k :: 0 <= j < |spans| && 0 <= k < |spans| && k == j + 1 ==>
          spans[k].start == spans[j].end - o && spans[j].end <= spans[k].end)
  }

  lemma SpansChained(text: string, half: Pos, o: nat)
    requires o < half + half && o <= half + 2 && 0 < |text|
    ensures Chained(Spans(text, half, o), o, |text|)
  {
    var spans := Spans(text, half, o);
    forall k | 0 <= k < |spans| ensures spans[k].start < spans[k].end <= |text| {
      PieceEnds(text, half, o, 0, k);
    }
    forall j, k | 0 <= j < |spans| && 0 <= k < |spans| && k == j + 1
      ensures spans[k].start == spans[j].end - o && spans[j].end <= spans[k].end
    {
      PieceEnds(text, half, o, 0, j);
      ExactOverlap(text, half, o, 0, j);
    }
    PieceEnds(text, half, o, 0, |spans| - 1);
  }

  lemma {:induction false} ChainRejoins(text: string, spans: seq<Span>, o: nat, count: nat)
    requires Chained(spans, o, |text|) && 1 <= count <= |spans|
    ensures Rejoin(text, spans, o, count) == text[0..spans[count - 1].end]
  {
    if count == 1 {
      assert Rejoin(text, spans, o, 0) == "";
    } else {
      ChainRejoins(text, spans, o, count - 1);
      var middle, end := spans[count - 2].end, spans[count - 1].end;
      assert spans[count - 1].start == middle - o && middle <= end;
      Glue(text, 0, middle, end);
    }
  }

  lemma WholeChainRejoins(text: string, spans: seq<Span>, o: nat)
    requires Chained(spans, o, |text|)
    ensures Rejoin(text, spans, o, |spans|) == text
  {
    ChainRejoins(text, spans, o, |spans|);
    assert text[0..|text|] == text;
  }

  lemma Glue(s: string, a: nat, b: nat, c: nat)
    requires a <= b <= c <= |s|
    ensures s[a..b] + s[b..c] == s[a..c]
  {
  }

  lemma SpansLossless(text: string, half: Pos, o: nat)
    requires o < half + half && o <= half + 2
    ensures Lossless(text, half, o)
  {
    forall i: nat | i < |text| ensures Somewhere(Spans(text, half, o), i) {
      var k := SpanOf(text, half, o, 0, i);
    }
    if 0 < |text| {
      SpansChained(text, half, o);
      WholeChainRejoins(text, Spans(text, half, o), o);
    }
  }

  /** A text whose first piece is cut so early that the overlap would not advance. */
  function Stuck(half: Pos): string {
    seq(half + 1, _ => 'x') + ". " + seq(half + half, _ => 'x')
  }

  lemma StuckLosesTail(half: Pos, o: nat)
    requires half + 2 < o < half + half
    ensures var text := Stuck(half);
      && Spans(text, half, o) == [Span(0, half + 3)]
      && half + 3 < |text| && text[|text| - 1] == 'x'
      && !Lossless(text, half, o)
  {
    var text := Stuck(half);
    var h := half + 1;
    assert text[h] == '.' && text[h + 1] == ' ';
    assert BreakAt(text, h);
    forall k | h < k && k + 2 <= half + half ensures !BreakAt(text, k) {
    }
    RFindIsLast(text, 0, half + half);
    assert RFind(text, 0, half + half) == h;
    assert Cut(text, half, 0) == h + 2;
    assert Spans(text, half, o) == [Span(0, h + 2)];
    assert !Somewhere([Span(0, h + 2)], |text| - 1);
  }

  /** The splitter loses no text, whatever the text, exactly when the overlap is at most half a
      piece and 2 characters. */
  lemma LosslessExactly(half: Pos, o: nat)
    requires o < half + half
    ensures (forall text :: Lossless(text, half, o)) <==> o <= half + 2
  {
    if o <= half + 2 {
      forall text ensures Lossless(text, half, o) {
        SpansLossless(text, half, o);
      }
    } else {
      StuckLosesTail(half, o);
    }
  }

  /** The least distance between the starts of two pieces, the last two aside. */
  function LeastAdvance(half: Pos, o: nat): int {
    Min(half + half, half + 3) - o
  }

  function Times(m: nat, d: int): int {
    if m == 0 then 0 else Times(m - 1, d) + d
  }

  lemma {:induction false} TimesIsProduct(m: nat, d: int)
    ensures Times(m, d) == m * d
  {
    if m > 0 {
      TimesIsProduct(m - 1, d);
      MulStep(m - 1, d);
    }
  }

  function CountFrom(text: string, half: Pos, o: nat, start: nat): nat
    decreases |text| - start
  {
    if |text| <= start then 0
    else
      var next := Next(text, half, o, start);
      1 + if next <= start then 0 else CountFrom(text, half, o, next)
  }

  lemma {:induction false} CountIsLength(text: string, half: Pos, o: nat, start: nat)
    ensures |SpansFrom(text, half, o, start)| == CountFrom(text, half, o, start)
    decreases |text| - start
  {
    if start < |text| && start < Next(text, half, o, start) {
      CountIsLength(text, half, o, Next(text, half, o, start));
    }
  }

  lemma {:induction false} PiecesAdvance(text: string, half: Pos, o: nat, start: nat)
    requires start < |text| && o < half + half && o <= half + 2
    ensures var count := CountFrom(text, half, o, start);
      && 1 <= count
      && (2 <= count ==> Times(count - 2, LeastAdvance(half, o)) < |text| - start)
    decreases |text| - start
  {
    if start < Next(text, half, o, start) < |text| && Cut(text, half, start) < |text| {
      PiecesAdvance(text, half, o, Next(text, half, o, start));
    }
  }

  /** Below the threshold there are at most (n - 1) / d + 2 pieces, d being the least advance. */
  lemma PieceCount(text: string, half: Pos, o: nat)
    requires text != "" && o < half + half && o <= half + 2
    ensures (|Spans(text, half, o)| - 2) * LeastAdvance(half, o) < |text|
  {
    CountIsLength(text, half, o, 0);
    PiecesAdvance(text, half, o, 0);
    var count, d := CountFrom(text, half, o, 0), LeastAdvance(half, o);
    if 2 <= count {
      TimesIsProduct(count - 2, d);
    } else {
      assert (count - 2) * d == -d;
    }
  }

  // ------------------------------------------------------------------ stripping

  /** The first position in [from, upTo) whose character is not white space, or upTo. */
  function FirstSolid(text: string, spaces: set<char>, from: nat, upTo: nat): (k: nat)
    requires from <= upTo <= |text|
    ensures from <= k <= upTo
    decreases upTo - from
  {
    if from == upTo || text[from] !in spaces then from else FirstSolid(text, spaces, from + 1, upTo)
  }

  /** The position after the last character of [from, upTo) that is not white space, or from. */
  function AfterSolid(text: string, spaces: set<char>, from: nat, upTo: nat): (k: nat)
    requires from <= upTo <= |text|
    ensures from <= k <= upTo
    decreases upTo
  {
    if from == upTo || text[upTo - 1] !in spaces then upTo else AfterSolid(text, spaces, from, upTo - 1)
  }

  /** What is left of a piece when white space is stripped from both its ends. */
  function Stripped(text: string, spaces: set<char>, from: nat, upTo: nat): (span: Span)
    requires from <= upTo <= |text|
    ensures from <= span.start <= span.end <= upTo
  {
    var first := FirstSolid(text, spaces, from, upTo);
    Span(first, AfterSolid(text, spaces, first, upTo))
  }

  lemma {:induction false} FirstSolidAtMost(text: string, spaces: set<char>, from: nat, upTo: nat, i: nat)
    requires from <= i < upTo <= |text| && text[i] !in spaces
    ensures FirstSolid(text, spaces, from, upTo) <= i
    decreases upTo - from
  {
    if text[from] in spaces {
      FirstSolidAtMost(text, spaces, from + 1, upTo, i);
    }
  }

  lemma {:induction false} AfterSolidBeyond(text: string, spaces: set<char>, from: nat, upTo: nat, i: nat)
    requires from <= i < upTo <= |text| && text[i] !in spaces
    ensures i < AfterSolid(text, spaces, from, upTo)
  {
    if text[upTo - 1] in spaces {
      AfterSolidBeyond(text, spaces, from, upTo - 1, i);
    }
  }

  lemma {:induction false} SpacesBefore(text: string, spaces: set<char>, from: nat, upTo: nat, i: nat)
    requires from <= upTo <= |text| && from <= i < FirstSolid(text, spaces, from, upTo)
    ensures text[i] in spaces
    decreases upTo - from
  {
    if from < i {
      SpacesBefore(text, spaces, from + 1, upTo, i);
    }
  }

  lemma {:induction false} SpacesBehind(text: string, spaces: set<char>, from: nat, upTo: nat, i: nat)
    requires from <= upTo <= |text| && AfterSolid(text, spaces, from, upTo) <= i < upTo
    ensures text[i] in spaces
    decreases upTo
  {
    if i < upTo - 1 {
      SpacesBehind(text, spaces, from, upTo - 1, i);
    }
  }

  lemma {:induction false} FirstIsSolid(text: string, spaces: set<char>, from: nat, upTo: nat)
    requires from <= upTo <= |text| && FirstSolid(text, spaces, from, upTo) < upTo
    ensures text[FirstSolid(text, spaces, from, upTo)] !in spaces
    decreases upTo - from
  {
    if text[from] in spaces {
      FirstIsSolid(text, spaces, from + 1, upTo);
    }
  }

  lemma {:induction false} LastIsSolid(text: string, spaces: set<char>, from: nat, upTo: nat)
    requires from <= upTo <= |text| && from < AfterSolid(text, spaces, from, upTo)
    ensures text[AfterSolid(text, spaces, from, upTo) - 1] !in spaces
    decreases upTo
  {
    if text[upTo - 1] in spaces {
      LastIsSolid(text, spaces, from, upTo - 1);
    }
  }

  /** A stretch of text with something in it, and no white space at its ends. */
  predicate Solid(text: string, spaces: set<char>, span: Span) {
    span.start < span.end <= |text| && text[span.start] !in spaces && text[span.end - 1] !in spaces
  }

  /** Stripping takes away white space only, and all of it at both ends. */
  lemma StrippedExactly(text: string, spaces: set<char>, from: nat, upTo: nat)
    requires from <= upTo <= |text|
    ensures var left := Stripped(text, spaces, from, upTo);
      && (forall i :: from <= i < left.start || left.end <= i < upTo ==> text[i] in spaces)
      && (left.start < left.end ==> Solid(text, spaces, left))
  {
    var left := Stripped(text, spaces, from, upTo);
    forall i | from <= i < left.start || left.end <= i < upTo ensures text[i] in spaces {
      if i < left.start {
        SpacesBefore(text, spaces, from, upTo, i);
      } else {
        SpacesBehind(text, spaces, left.start, upTo, i);
      }
    }
    if left.start < left.end {
      FirstIsSolid(text, spaces, from, upTo);
      LastIsSolid(text, spaces, left.start, upTo);
    }
  }

  /** Appends what is left of a piece, unless nothing is. */
  function AddSolid(kept: seq<Span>, span: Span): seq<Span> {
    if span.start < span.end then kept + [span] else kept
  }

  /** The stretches of text handed out as chunks: `done`, and those of the pieces from `start` on. */
  function ChunksFrom(text: string, half: Pos, o: nat, spaces: set<char>,
                      done: seq<Span>, start: nat): seq<Span>
    decreases |text| - start
  {
    if |text| <= start then done
    else
      var end := Cut(text, half, start);
      var kept := AddSolid(done, Stripped(text, spaces, start, end));
      var next := Next(text, half, o, start);
      if next <= start then kept else ChunksFrom(text, half, o, spaces, kept, next)
  }

  function Chunks(text: string, half: Pos, o: nat, spaces: set<char>): seq<Span> {
    ChunksFrom(text, half, o, spaces, [], 0)
  }

  /** One turn of the loop. */
  lemma ChunksStep(text: string, half: Pos, o: nat, spaces: set<char>, all: seq<Span>,
                   kept: seq<Span>, start: nat, end: nat, kept': seq<Span>)
    requires start < |text| && end == Cut(text, half, start)
    requires kept' == AddSolid(kept, Stripped(text, spaces, start, end))
    requires ChunksFrom(text, half, o, spaces, kept, start) == all
    ensures var next := Next(text, half, o, start);
      && (next <= start || |text| <= next ==> kept' == all)
      && (start < next ==> ChunksFrom(text, half, o, spaces, kept', next) == all)
  {
  }

  lemma {:induction false} DoneKept(text: string, half: Pos, o: nat, spaces: set<char>,
                                    done: seq<Span>, start: nat, j: nat, all: seq<Span>)
    requires j < |done| && all == ChunksFrom(text, half, o, spaces, done, start)
    ensures j < |all| && all[j] == done[j]
    decreases |text| - start
  {
    if start < |text| {
      var end := Cut(text, half, start);
      var kept := AddSolid(done, Stripped(text, spaces, start, end));
      ChunksStep(text, half, o, spaces, all, done, start, end, kept);
      if start < Next(text, half, o, start) {
        DoneKept(text, half, o, spaces, kept, Next(text, half, o, start), j, all);
      }
    }
  }

  lemma FirstPieceKept(text: string, half: Pos, o: nat, spaces: set<char>,
                       done: seq<Span>, start: nat, all: seq<Span>)
    requires start < |text| && all == ChunksFrom(text, half, o, spaces, done, start)
    ensures var left := Stripped(text, spaces, start, Cut(text, half, start));
      left.start == left.end || (|done| < |all| && all[|done|] == left)
  {
    var end := Cut(text, half, start);
    var kept := AddSolid(done, Stripped(text, spaces, start, end));
    ChunksStep(text, half, o, spaces, all, done, start, end, kept);
    if |done| < |kept| && start < Next(text, half, o, start) {
      DoneKept(text, half, o, spaces, kept, Next(text, half, o, start), |done|, all);
    }
  }

  /** `span` is piece number `k` of those from `start` on. */
  predicate IsPiece(text: string, half: Pos, o: nat, start: nat, k: nat, span: Span)
    decreases k
  {
    && start < |text|
    && var next := Next(text, half, o, start);
       if k == 0 then span == Span(start, Cut(text, half, start))
       else start < next && IsPiece(text, half, o, next, k - 1, span)
  }

  lemma {:induction false} SpansArePieces(text: string, half: Pos, o: nat, start: nat, k: nat)
    requires k < |SpansFrom(text, half, o, start)|
    ensures IsPiece(text, half, o, start, k, SpansFrom(text, half, o, start)[k])
    decreases k
  {
    if 0 < k {
      SpansArePieces(text, half, o, Next(text, half, o, start), k - 1);
    }
  }

  lemma LaterPiece(text: string, half: Pos, o: nat, start: nat, k: nat, span: Span)
    requires 0 < k && IsPiece(text, half, o, start, k, span)
    ensures start < |text| && start < Next(text, half, o, start)
    ensures IsPiece(text, half, o, Next(text, half, o, start), k - 1, span)
  {
  }

  /** Where piece `k` ends up among the chunks, unless nothing but white space is in it. */
  lemma {:induction false} PieceKept(text: string, half: Pos, o: nat, spaces: set<char>,
                                     done: seq<Span>, start: nat, k: nat, span: Span, all: seq<Span>)
      returns (j: nat)
    requires IsPiece(text, half, o, start, k, span) && span.start <= span.end <= |text|
    requires all == ChunksFrom(text, half, o, spaces, done, start)
    ensures var left := Stripped(text, spaces, span.start, span.end);
      left.start == left.end || (j < |all| && all[j] == left)
    decreases k
  {
    if k == 0 {
      j := |done|;
      FirstPieceKept(text, half, o, spaces, done, start, all);
    } else {
      LaterPiece(text, half, o, start, k, span);
      var end, next := Cut(text, half, start), Next(text, half, o, start);
      var kept := AddSolid(done, Stripped(text, spaces, start, end));
      ChunksStep(text, half, o, spaces, all, done, start, end, kept);
      j := PieceKept(text, half, o, spaces, kept, next, k - 1, span, all);
    }
  }

  /** Below the threshold every character that is not white space is inside some chunk. */
  lemma SolidTextSurvives(text: string, half: Pos, o: nat, spaces: set<char>, i: nat)
    requires o < half + half && o <= half + 2
    requires i < |text| && text[i] !in spaces
    ensures Somewhere(Chunks(text, half, o, spaces), i)
  {
    var k := SpanOf(text, half, o, 0, i);
    var span := Spans(text, half, o)[k];
    SpansArePieces(text, half, o, 0, k);
    PieceEnds(text, half, o, 0, k);
    var j := PieceKept(text, half, o, spaces, [], 0, k, span, Chunks(text, half, o, spaces));
    FirstSolidAtMost(text, spaces, span.start, span.end, i);
    AfterSolidBeyond(text, spaces, FirstSolid(text, spaces, span.start, span.end), span.end, i);
    assert Chunks(text, half, o, spaces)[j].Has(i);
  }

  /** Non-empty chunks, stripped, and no longer than a piece. */
  ghost predicate AllSolid(text: string, half: Pos, spaces: set<char>, chunks: seq<Span>) {
    forall j :: 0 <= j < |chunks| ==>
      Solid(text, spaces, chunks[j]) && chunks[j].end - chunks[j].start <= half + half
  }

  lemma {:induction false} ChunksStaySolid(text: string, half: Pos, o: nat, spaces: set<char>,
                                           done: seq<Span>, start: nat)
    requires AllSolid(text, half, spaces, done)
    ensures AllSolid(text, half, spaces, ChunksFrom(text, half, o, spaces, done, start))
    decreases |text| - start
  {
    if start < |text| {
      var end, next := Cut(text, half, start), Next(text, half, o, start);
      StrippedExactly(text, spaces, start, end);
      var kept := AddSolid(done, Stripped(text, spaces, start, end));
      if start < next {
        ChunksStaySolid(text, half, o, spaces, kept, next);
      }
    }
  }

  /** Every chunk is stripped of white space and not empty, whatever the overlap. */
  lemma ChunksAreSolid(text: string, half: Pos, o: nat, spaces: set<char>)
    ensures AllSolid(text, half, spaces, Chunks(text, half, o, spaces))
  {
    ChunksStaySolid(text, half, o, spaces, [], 0);
  }

  // ------------------------------------------------------------------ splitting by tokens

  /** The body of the token loop, for `n` tokens: where the piece after the one at `start` starts. */
  function NextTokenStart(n: nat, size: Pos, o: nat, start: int): int {
    Min(start + size, n) - o
  }

  /** Where the loop stands after `k` turns. */
  function TokenStart(n: nat, size: Pos, o: nat, k: nat): int {
    if k == 0 then 0 else NextTokenStart(n, size, o, TokenStart(n, size, o, k - 1))
  }

  lemma {:induction false} TokenStartAt(n: nat, size: Pos, o: nat, k: nat)
    requires o < size && 0 < k
    ensures TokenStart(n, size, o, k) == Min(Times(k, size - o), n - o)
  {
    if k == 1 {
      assert TokenStart(n, size, o, 0) == 0 && Times(0, size - o) == 0;
    } else {
      TokenStartAt(n, size, o, k - 1);
    }
  }

  lemma {:induction false} TimesAtLeast(m: nat, d: Pos)
    ensures m <= Times(m, d)
  {
    if 0 < m {
      TimesAtLeast(m - 1, d);
    }
  }

  /** With an overlap the loop comes to stand `o` tokens before the end, where its guard still holds
      and its body changes nothing. */
  lemma TokenLoopSticks(n: nat, size: Pos, o: nat)
    requires 0 < n && 0 < o < size
    ensures forall k: nat :: TokenStart(n, size, o, k) < n
    ensures forall k: nat :: n <= k ==> TokenStart(n, size, o, k) == n - o
    ensures NextTokenStart(n, size, o, n - o) == n - o < n
  {
    forall k: nat ensures TokenStart(n, size, o, k) < n && (n <= k ==> TokenStart(n, size, o, k) == n - o) {
      if 0 < k {
        TokenStartAt(n, size, o, k);
        TimesAtLeast(k, size - o);
      }
    }
  }

  /** The token loop ends exactly when there are no tokens or there is no overlap. */
  lemma TokenLoopEndsExactly(n: nat, size: Pos, o: nat)
    requires o < size
    ensures (exists k: nat :: n <= TokenStart(n, size, o, k)) <==> n == 0 || o == 0
  {
    if n == 0 {
      assert n <= TokenStart(n, size, o, 0);
    } else if o == 0 {
      TokenStartAt(n, size, o, n);
      TimesAtLeast(n, size);
      assert n <= TokenStart(n, size, o, n);
    } else {
      TokenLoopSticks(n, size, o);
    }
  }

  /** tokens[start:end] for a start that may count from the back. */
  function TokenSlice<T>(tokens: seq<T>, start: int, end: int): seq<T> {
    var from := if start < 0 then Max(0, |tokens| + start) else start;
    if from <= end <= |tokens| then tokens[from..end] else []
  }

  function Max(a: int, b: int): int {
    if a < b then b else a
  }

  /** The first `k` pieces. */
  function TokenPieces<T>(tokens: seq<T>, size: Pos, o: nat, k: nat): seq<seq<T>> {
    if k == 0 then []
    else
      var start := TokenStart(|tokens|, size, o, k - 1);
      TokenPieces(tokens, size, o, k - 1) + [TokenSlice(tokens, start, Min(start + size, |tokens|))]
  }

  /** How many of the last tokens the loop that does not advance repeats: as many as overlap; but a start before the
      first token counts from the back. */
  function Repeated(n: nat, o: nat): (w: nat)
    requires 0 < o
    ensures w <= n
  {
    if o <= n then o else Min(n, o - n)
  }

  lemma StuckSlice<T>(tokens: seq<T>, size: Pos, o: nat)
    requires 0 < |tokens| && 0 < o < size
    ensures var n, start := |tokens|, |tokens| - o;
      TokenSlice(tokens, start, Min(start + size, n)) == tokens[n - Repeated(n, o)..]
  {
    var n := |tokens|;
    assert Min(n - o + size, n) == n;
    assert tokens[n - Repeated(n, o)..n] == tokens[n - Repeated(n, o)..];
  }

  /** From turn `n` on, with an overlap, every turn adds the same last tokens once more. */
  lemma TokenLoopRepeats<T>(tokens: seq<T>, size: Pos, o: nat, k: nat)
    requires 0 < |tokens| <= k && 0 < o < size
    ensures TokenPieces(tokens, size, o, k + 1)
         == TokenPieces(tokens, size, o, k) + [tokens[|tokens| - Repeated(|tokens|, o)..]]
  {
    TokenLoopSticks(|tokens|, size, o);
    StuckSlice(tokens, size, o);
    assert TokenStart(|tokens|, size, o, k) == |tokens| - o;
  }

  function Flatten<T>(pieces: seq<seq<T>>): seq<T> {
    if |pieces| == 0 then []
    else Flatten(pieces[..|pieces| - 1]) + pieces[|pieces| - 1]
  }

  lemma FlattenAppend<T>(pieces: seq<seq<T>>, piece: seq<T>)
    ensures Flatten(pieces + [piece]) == Flatten(pieces) + piece
  {
    assert (pieces + [piece])[..|pieces|] == pieces;
  }

  lemma PrefixGrows<T>(tokens: seq<T>, start: nat, end: nat)
    requires start <= end <= |tokens|
    ensures tokens[..start] + TokenSlice(tokens, start, end) == tokens[..end]
  {
  }

  /** Without an overlap the pieces partition the tokens, in order. */
  lemma {:induction false} TokenPiecesPartition<T>(tokens: seq<T>, size: Pos, k: nat)
    ensures 0 <= TokenStart(|tokens|, size, 0, k) <= |tokens|
    ensures Flatten(TokenPieces(tokens, size, 0, k)) == tokens[..TokenStart(|tokens|, size, 0, k)]
  {
    if 0 < k {
      TokenPiecesPartition(tokens, size, k - 1);
      var start := TokenStart(|tokens|, size, 0, k - 1);
      var end := Min(start + size, |tokens|);
      FlattenAppend(TokenPieces(tokens, size, 0, k - 1), TokenSlice(tokens, start, end));
      PrefixGrows(tokens, start, end);
    }
  }

  /** The token loop, stopped after `budget` turns if it has not ended by then. */
  method ChunkTokens<T>(tokens: seq<T>, size: Pos, o: nat, budget: nat) returns (pieces: seq<seq<T>>, ended: bool)
    requires o < size
    ensures pieces == TokenPieces(tokens, size, o, |pieces|) && |pieces| <= budget
    ensures ended <==> |tokens| <= TokenStart(|tokens|, size, o, |pieces|)
    ensures !ended ==> |pieces| == budget && (0 < |tokens|)
    ensures ended ==> Flatten(pieces) == tokens
    ensures |tokens| <= budget ==> (ended <==> |tokens| == 0 || o == 0)
  {
    pieces := [];
    var start := 0;
    while start < |tokens| && |pieces| < budget
      invariant |pieces| <= budget
      invariant pieces == TokenPieces(tokens, size, o, |pieces|)
      invariant start == TokenStart(|tokens|, size, o, |pieces|)
      invariant |tokens| == 0 ==> |pieces| == 0
      decreases budget - |pieces|
    {
      var end := Min(start + size, |tokens|);
      pieces := pieces + [TokenSlice(tokens, start, end)];
      start := end - o;
    }
    ended := start >= |tokens|;
    if ended {
      EndedPieces(tokens, size, o, |pieces|);
    }
    EndedInTime(tokens, size, o, |pieces|, budget);
  }

  lemma EndedPieces<T>(tokens: seq<T>, size: Pos, o: nat, k: nat)
    requires o < size && |tokens| <= TokenStart(|tokens|, size, o, k)
    ensures Flatten(TokenPieces(tokens, size, o, k)) == tokens
  {
    if o == 0 {
      TokenPiecesPartition(tokens, size, k);
    } else if 0 < |tokens| {
      TokenLoopSticks(|tokens|, size, o);
    } else if 0 < k {
      TokenStartAt(0, size, o, k);
    }
  }

  lemma EndedInTime<T>(tokens: seq<T>, size: Pos, o: nat, k: nat, budget: nat)
    requires o < size && k <= budget
    requires |tokens| <= TokenStart(|tokens|, size, o, k) || k == budget
    ensures |tokens| <= budget ==>
      (|tokens| <= TokenStart(|tokens|, size, o, k) <==> (|tokens| == 0 && k == 0) || o == 0)
  {
    if o == 0 {
      if k == budget && 0 < k {
        TokenStartAt(|tokens|, size, 0, k);
        TimesAtLeast(k, size);
      }
    } else if 0 < |tokens| {
      TokenLoopSticks(|tokens|, size, o);
    } else if 0 < k {
      TokenStartAt(0, size, o, k);
    }
  }

  // ------------------------------------------------------------------ the splitter

  /** int(length * overlap) */
  function OverlapSize(length: Pos, overlap: real): (o: nat)
    requires 0.0 <= overlap < 1.0
    ensures o < length
  {
    assert 0.0 <= length as real * overlap < length as real;
    (length as real * overlap).Floor
  }

  /** The overlap is the ratio of the piece, rounded down. */
  lemma OverlapIsFloor(length: Pos, overlap: real)
    requires 0.0 <= overlap < 1.0
    ensures var o := OverlapSize(length, overlap) as real; o <= length as real * overlap < o + 1.0
  {
    var x := length as real * overlap;
    assert x.Floor as real <= x < x.Floor as real + 1.0;
  }

  lemma OverlapAtMostHalf(length: Pos, overlap: real)
    requires 0.0 <= overlap <= 0.5
    ensures OverlapSize(length, overlap) + OverlapSize(length, overlap) <= length
  {
    AtMostHalf(length as real, overlap);
    FloorAtMostHalf(length as real * overlap, length);
  }

  lemma FloorAtMostHalf(x: real, length: int)
    requires x + x <= length as real
    ensures x.Floor + x.Floor <= length
  {
    assert x.Floor as real <= x;
  }

  lemma AtMostHalf(x: real, y: real)
    requires 0.0 < x && 0.0 <= y <= 0.5
    ensures x * y + x * y <= x
  {
    assert x * y + x * y == x * (y + y);
  }

  /** An overlap ratio of at most one half is safe for every piece length. */
  lemma HalfOverlapIsSafe(half: Pos, overlap: real, text: string)
    requires 0.0 <= overlap <= 0.5
    ensures Lossless(text, half, OverlapSize(half + half, overlap))
  {
    OverlapAtMostHalf(half + half, overlap);
    SpansLossless(text, half, OverlapSize(half + half, overlap));
  }

  class TextChunker {
    const chunkSize: Pos
    const overlap: real

    ghost predicate Valid() {
      100 <= chunkSize <= 1000 && 0.0 <= overlap < 1.0
    }

    constructor (chunkSize: Pos, overlap: real)
      requires 100 <= chunkSize <= 1000 && 0.0 <= overlap < 1.0
      ensures Valid() && this.chunkSize == chunkSize && this.overlap == overlap
    {
      this.chunkSize, this.overlap := chunkSize, overlap;
    }

    static method Create(chunkSize: int, overlap: real) returns (chunker: Result<TextChunker, string>)
      ensures chunker.Ok? <==> 100 <= chunkSize <= 1000 && 0.0 <= overlap < 1.0
      ensures chunker.Ok? ==>
        chunker.value.Valid() && chunker.value.chunkSize == chunkSize && chunker.value.overlap == overlap
    {
      if !(100 <= chunkSize <= 1000) {
        return Err("chunk_size must be between 100 and 1000");
      }
      if !(0.0 <= overlap < 1.0) {
        return Err("overlap must be between 0.0 and 1.0");
      }
      var c := new TextChunker(chunkSize, overlap);
      return Ok(c);
    }

    method ChunkFallback(text: string, spaces: set<char>) returns (chunks: seq<string>)
      requires Valid()
      ensures var half: Pos := chunkSize + chunkSize;
        AreSlices(text, Chunks(text, half, OverlapSize(half + half, overlap), spaces), chunks)
    {
      var half: Pos := chunkSize + chunkSize;  // a full piece has 4 characters per token
      var overlapSize := OverlapSize(half + half, overlap);
      chunks := SplitAt(text, half, overlapSize, spaces);
    }
  }

  /** The chunks are the marked stretches of the text, in order. */
  predicate AreSlices(text: string, spans: seq<Span>, chunks: seq<string>) {
    && |chunks| == |spans|
    && forall j :: 0 <= j < |spans| ==> chunks[j] == Slice(text, spans[j].start, spans[j].end)
  }

  /** Cuts after the last sentence break, if it lies in the second half of the piece. */
  method FindCut(text: string, half: Pos, start: nat) returns (end: nat)
    requires start < |text|
    ensures end == Cut(text, half, start)
  {
    end := Min(start + half + half, |text|);
    if end < |text| {
      var sentenceEnd := RFind(text, start, end);
      if sentenceEnd > start + half {
        end := sentenceEnd + 2;
      }
    }
  }

  /** Strips the piece from `start` to `end` and keeps what is left, if anything is. */
  method KeepPiece(text: string, spaces: set<char>, start: nat, end: nat,
                   done: seq<string>, ghost kept: seq<Span>) returns (chunks: seq<string>)
    requires start <= end <= |text| && AreSlices(text, kept, done)
    ensures AreSlices(text, AddSolid(kept, Stripped(text, spaces, start, end)), chunks)
  {
    var left := Stripped(text, spaces, start, end);
    var chunk := text[left.start..left.end];
    chunks := if |chunk| != 0 then done + [chunk] else done;
  }

  /** The splitting loop, for half a piece length and an overlap. */
  method SplitAt(text: string, half: Pos, o: nat, spaces: set<char>) returns (chunks: seq<string>)
    ensures AreSlices(text, Chunks(text, half, o, spaces), chunks)
  {
    ghost var all, kept: seq<Span> := Chunks(text, half, o, spaces), [];
    chunks := [];
    var start := 0;
    while start < |text|
      invariant 0 <= start
      invariant AreSlices(text, kept, chunks)
      invariant ChunksFrom(text, half, o, spaces, kept, start) == all
      decreases |text| - start
    {
      var end := FindCut(text, half, start);
      ghost var kept' := AddSolid(kept, Stripped(text, spaces, start, end));
      ChunksStep(text, half, o, spaces, all, kept, start, end, kept');
      chunks := KeepPiece(text, spaces, start, end, chunks, kept);
      kept := kept';
      var newStart := end - o;
      assert newStart == Next(text, half, o, start);
      if newStart <= start || newStart >= |text| {
        return;
      }
      start := newStart;
    }
  }
}
