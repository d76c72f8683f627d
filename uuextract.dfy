/**
 * `extractAllUUEncodedAttachments`: the search for `begin` headers with the
 * multiline, global form of the header pattern, the block ranges that end
 * just after the next "\nend", the attachment records of the blocks that
 * decode to some bytes, and the removal of the ranges from the text.
 */
module UUExtract {
  import opened Wrappers
  import opened Strings
  import opened Mail
  import opened UUDecode

  // -----------------------------------------------------------------------
  // The header pattern in multiline mode

  /** Where `$` matches in multiline mode: at the end of the text or before a line terminator. */
  predicate AtLineEnd(text: string, q: nat)
  {
    q == |text| || (q < |text| && IsLineTerminator(text[q]))
  }

  /** Where `^` matches in multiline mode: at the start of the text or after a line terminator. */
  predicate AtLineStart(text: string, p: nat)
  {
    p == 0 || (0 < p <= |text| && IsLineTerminator(text[p - 1]))
  }

  /** The greatest `q` in `lo..hi` where `$` matches: the greedy `\s*` gives back characters until `$` holds. */
  function LastLineEnd(text: string, lo: nat, hi: nat): (r: Option<nat>)
    requires lo <= hi <= |text|
    ensures r.Some? ==> lo <= r.value <= hi && AtLineEnd(text, r.value)
    ensures r.Some? ==> forall q :: r.value < q <= hi ==> !AtLineEnd(text, q)
    ensures r.None? ==> forall q :: lo <= q <= hi ==> !AtLineEnd(text, q)
    decreases hi
  {
    if AtLineEnd(text, hi) then Some(hi)
    else if hi == lo then None
    else LastLineEnd(text, lo, hi - 1)
  }

  /**
   * The end of the match of `/^begin\s+(\d+)\s+(\S+)\s*$/m` that starts at
   * `p`, if there is one.
   */
  function BeginMatchAt(text: string, p: nat): (r: Option<nat>)
    ensures r.Some? ==> p < r.value <= |text| && AtLineStart(text, p) && StartsWith(text[p..], "begin")
  {
    if p > |text| || !AtLineStart(text, p) then None
    else
      match ParseHeader(text[p..])
      case None => None
      case Some(h) =>
        var f := p + h.nameEnd;
        LastLineEnd(text, f, f + WsSpan(text[f..]))
  }

  /**
   * The pattern as `exec` sees it: for each position, where a match that
   * starts there ends. A matcher for a text of length `n` only ends matches
   * after their start and inside the text.
   */
  type Matcher = nat -> Option<nat>

  ghost predicate MatcherIn(m: Matcher, n: nat)
  {
    forall p: nat :: m(p).Some? ==> p < m(p).value <= n
  }

  /** The header pattern over `text`. */
  function HeaderMatcher(text: string): (m: Matcher)
    ensures MatcherIn(m, |text|)
  {
    var m := (p: nat) => BeginMatchAt(text, p);
    assert forall p: nat :: m(p) == BeginMatchAt(text, p);
    m
  }

  /** One match of the header pattern: where it starts and where it ends. */
  datatype Match = Match(start: nat, stop: nat)

  /** `exec` with `lastIndex == from` on a text of length `n`: the first match that starts at or after `from`. */
  function NextMatch(m: Matcher, n: nat, from: nat): (r: Option<Match>)
    requires MatcherIn(m, n)
    ensures r.Some? ==> from <= r.value.start < r.value.stop <= n
    ensures r.Some? ==> m(r.value.start) == Some(r.value.stop)
    decreases n + 1 - from
  {
    if from > n then None
    else
      match m(from)
      case Some(q) => Some(Match(from, q))
      case None => NextMatch(m, n, from + 1)
  }

  /** `exec` finds the first match: nothing matches between `from` and the match found, nor after `from` when none is found. */
  lemma {:induction false} NextMatchFirst(m: Matcher, n: nat, from: nat)
    requires MatcherIn(m, n)
    ensures NextMatch(m, n, from).Some? ==>
      forall p :: from <= p < NextMatch(m, n, from).value.start ==> m(p).None?
    ensures NextMatch(m, n, from).None? ==> forall p :: from <= p ==> m(p).None?
    decreases n + 1 - from
  {
    if from <= n && m(from).None? {
      NextMatchFirst(m, n, from + 1);
    }
  }

  // -----------------------------------------------------------------------
  // Blocks

  /** A recorded range `[start, stop)` of the text. */
  datatype Block = Block(start: nat, stop: nat)

  const END_MARK: string := "\nend"

  /** The range of the block whose header starts at `start`: up to just after the next "\nend", if any. */
  function RangeAt(text: string, start: nat): (r: seq<Block>)
    ensures |r| <= 1
    ensures |r| == 1 ==> start == r[0].start && r[0].start + 4 <= r[0].stop <= |text| && OccursAt(text, END_MARK, r[0].stop - 4)
  {
    match IndexOf(text, END_MARK, start)
    case None => []
    case Some(e) => [Block(start, e + 4)]
  }

  /**
   * The ranges recorded by the `exec` loop from `lastIndex == from` on: one per
   * header match that has a later "\nend", in match order. Every range lies in
   * the text, starts at a header match and ends just after a "\nend", and the
   * starts strictly increase.
   */
  function BlocksFrom(m: Matcher, text: string, from: nat): (r: seq<Block>)
    requires MatcherIn(m, |text|)
    ensures PlacedFrom(text, r, from) && Ascending(r)
    decreases |text| + 1 - from
  {
    match NextMatch(m, |text|, from)
    case None => []
    case Some(h) =>
      var first := RangeAt(text, h.start);
      var rest := BlocksFrom(m, text, h.stop);
      PlacedAppend(text, from, h.start, h.stop, first, rest);
      first + rest
  }

  /** Every range starts at or after `from`, lies in the text and ends just after a "\nend". */
  predicate PlacedFrom(text: string, r: seq<Block>, from: nat)
  {
    forall k :: 0 <= k < |r| ==>
      from <= r[k].start && r[k].start + 4 <= r[k].stop <= |text| && OccursAt(text, END_MARK, r[k].stop - 4)
  }

  /** The starts strictly increase. */
  predicate Ascending(r: seq<Block>)
  {
    forall j, k :: 0 <= j < k < |r| ==> r[j].start < r[k].start
  }

  lemma PlacedAppend(text: string, from: nat, start: nat, next: nat, first: seq<Block>, rest: seq<Block>)
    requires from <= start < next && |first| <= 1
    requires |first| == 1 ==> start == first[0].start && PlacedFrom(text, first, start)
    requires PlacedFrom(text, rest, next) && Ascending(rest)
    ensures PlacedFrom(text, first + rest, from) && Ascending(first + rest)
  {
    PlacedJoin(text, from, start, next, first, rest);
    AscendingJoin(start, next, first, rest, text);
  }

  lemma PlacedJoin(text: string, from: nat, start: nat, next: nat, first: seq<Block>, rest: seq<Block>)
    requires from <= start < next && |first| <= 1
    requires |first| == 1 ==> start == first[0].start && PlacedFrom(text, first, start)
    requires PlacedFrom(text, rest, next)
    ensures PlacedFrom(text, first + rest, from)
  {
    var r := first + rest;
    forall k | 0 <= k < |r|
      ensures from <= r[k].start && r[k].start + 4 <= r[k].stop <= |text| && OccursAt(text, END_MARK, r[k].stop - 4)
    {
      if k < |first| {
        assert r[k] == first[k];
      } else {
        assert r[k] == rest[k - |first|];
      }
    }
  }

  lemma AscendingJoin(start: nat, next: nat, first: seq<Block>, rest: seq<Block>, text: string)
    requires start < next && |first| <= 1
    requires |first| == 1 ==> start == first[0].start
    requires PlacedFrom(text, rest, next) && Ascending(rest)
    ensures Ascending(first + rest)
  {
    var r := first + rest;
    forall j, k | 0 <= j < k < |r|
      ensures r[j].start < r[k].start
    {
      assert r[k] == rest[k - |first|];
      if j < |first| {
        assert r[j] == first[0];
      } else {
        assert r[j] == rest[j - |first|];
      }
    }
  }

  /**
   * No header match starts inside the range of an earlier header: after a
   * header at `p` whose "\nend" is at `e`, the next header starts at `e + 4`
   * or later.
   */
  ghost predicate Unnested(m: Matcher, text: string)
  {
    forall p: nat, q: nat :: m(p).Some? && m(q).Some? && p < q && IndexOf(text, END_MARK, p).Some? ==>
      IndexOf(text, END_MARK, p).value + 4 <= q
  }

  /** The first recorded range starts at a header match. */
  lemma {:induction false} FirstBlockAtMatch(m: Matcher, text: string, from: nat)
    requires MatcherIn(m, |text|)
    ensures |BlocksFrom(m, text, from)| > 0 ==> m(BlocksFrom(m, text, from)[0].start).Some?
    decreases |text| + 1 - from
  {
    match NextMatch(m, |text|, from)
    case None =>
    case Some(h) =>
      if RangeAt(text, h.start) == [] {
        FirstBlockAtMatch(m, text, h.stop);
      }
  }

  /** When no header sits inside an earlier range, the recorded ranges are ordered and do not overlap. */
  lemma {:induction false} BlocksOrdered(m: Matcher, text: string, from: nat)
    requires MatcherIn(m, |text|) && Unnested(m, text) && from <= |text|
    ensures Ordered(BlocksFrom(m, text, from), from, |text|)
    decreases |text| + 1 - from
  {
    match NextMatch(m, |text|, from)
    case None =>
    case Some(h) =>
      var first := RangeAt(text, h.start);
      var rest := BlocksFrom(m, text, h.stop);
      BlocksOrdered(m, text, h.stop);
      FirstBlockAtMatch(m, text, h.stop);
      assert BlocksFrom(m, text, from) == first + rest;
      if first == [] {
        OrderedRebase(rest, h.stop, from, |text|);
      } else {
        var b := first[0];
        OrderedRebase(rest, h.stop, b.stop, |text|);
        assert (first + rest)[1..] == rest;
      }
  }

  /** Only the first range is compared with the lower bound. */
  lemma OrderedRebase(ps: seq<Block>, lo: nat, lo': nat, hi: nat)
    requires Ordered(ps, lo, hi) && lo' <= hi && (|ps| > 0 ==> lo' <= ps[0].start)
    ensures Ordered(ps, lo', hi)
  {
  }

  /**
   * Two headers before one "\nend" record two ranges with the same end, the
   * second inside the first.
   */
  lemma NestedHeadersShareStop(m: Matcher, text: string, h1: Match, h2: Match, e: nat)
    requires MatcherIn(m, |text|) && NextMatch(m, |text|, 0) == Some(h1) && NextMatch(m, |text|, h1.stop) == Some(h2)
    requires IndexOf(text, END_MARK, h1.start) == Some(e) && h2.start <= e
    ensures |BlocksFrom(m, text, 0)| >= 2
    ensures BlocksFrom(m, text, 0)[0] == Block(h1.start, e + 4)
    ensures BlocksFrom(m, text, 0)[1] == Block(h2.start, e + 4)
    ensures !Ordered(BlocksFrom(m, text, 0), 0, |text|)
  {
    IndexOfLater(text, END_MARK, h1.start, h2.start, e);
    FirstBlock(m, text, 0, h1, Block(h1.start, e + 4));
    FirstBlock(m, text, h1.stop, h2, Block(h2.start, e + 4));
    var ps := BlocksFrom(m, text, 0);
    assert ps[1] == ps[1..][0];
    SecondInsideNotOrdered(ps, |text|);
  }

  /** A header whose range is `b` records `b` first, then the ranges from the end of its match. */
  lemma FirstBlock(m: Matcher, text: string, from: nat, h: Match, b: Block)
    requires MatcherIn(m, |text|) && NextMatch(m, |text|, from) == Some(h) && RangeAt(text, h.start) == [b]
    ensures |BlocksFrom(m, text, from)| >= 1 && BlocksFrom(m, text, from)[0] == b
    ensures BlocksFrom(m, text, from)[1..] == BlocksFrom(m, text, h.stop)
  {
    assert BlocksFrom(m, text, from) == [b] + BlocksFrom(m, text, h.stop);
  }

  /** Ranges where the second starts inside the first are not ordered. */
  lemma SecondInsideNotOrdered(ps: seq<Block>, n: nat)
    requires |ps| >= 2 && ps[1].start < ps[0].stop
    ensures !Ordered(ps, 0, n)
  {
    assert ps[1..][0] == ps[1];
  }

  /** A search started later, but not past the first occurrence, finds the same occurrence. */
  lemma IndexOfLater(s: string, pat: string, a: nat, b: nat, e: nat)
    requires |pat| > 0 && a <= b <= e && IndexOf(s, pat, a) == Some(e)
    ensures IndexOf(s, pat, b) == Some(e)
  {
  }

  /**
   * The decoded blocks that hold at least one byte, in match order; `decode`
   * is the decoder the loop calls on each range.
   */
  function ResultsFrom(m: Matcher, decode: string -> Decoded, text: string, from: nat): (r: seq<Decoded>)
    requires MatcherIn(m, |text|)
    ensures forall k :: 0 <= k < |r| ==> |r[k].data| > 0
    decreases |text| + 1 - from
  {
    match NextMatch(m, |text|, from)
    case None => []
    case Some(h) => ResultAt(decode, text, h.start) + ResultsFrom(m, decode, text, h.stop)
  }

  /** The decoded block whose header starts at `start`, when it has a later "\nend" and decodes to some bytes. */
  function ResultAt(decode: string -> Decoded, text: string, start: nat): (r: seq<Decoded>)
    ensures |r| <= 1
    ensures |r| == 1 ==> |r[0].data| > 0 && IndexOf(text, END_MARK, start).Some?
  {
    match IndexOf(text, END_MARK, start)
    case None => []
    case Some(e) => Kept(decode(text[start..e + 4]))
  }

  /** A decoded block is kept when it holds at least one byte. */
  function Kept(d: Decoded): (r: seq<Decoded>)
    ensures r == [] <==> |d.data| == 0
  {
    if |d.data| > 0 then [d] else []
  }

  lemma RangeAtFound(decode: string -> Decoded, text: string, start: nat, e: nat)
    requires IndexOf(text, END_MARK, start) == Some(e)
    ensures RangeAt(text, start) == [Block(start, e + 4)]
    ensures ResultAt(decode, text, start) == Kept(decode(text[start..e + 4]))
  {
  }

  lemma RangeAtMissing(decode: string -> Decoded, text: string, start: nat)
    requires IndexOf(text, END_MARK, start).None?
    ensures RangeAt(text, start) == [] && ResultAt(decode, text, start) == []
  {
  }

  lemma BlocksStep(m: Matcher, decode: string -> Decoded, text: string, from: nat, h: Match)
    requires MatcherIn(m, |text|) && NextMatch(m, |text|, from) == Some(h)
    ensures BlocksFrom(m, text, from) == RangeAt(text, h.start) + BlocksFrom(m, text, h.stop)
    ensures ResultsFrom(m, decode, text, from) == ResultAt(decode, text, h.start) + ResultsFrom(m, decode, text, h.stop)
  {
  }

  /** The attachment record of one decoded block; `md5` is the digest library, as a parameter. */
  function AttachmentOf(d: Decoded, md5: seq<byte> -> string): Attachment
  {
    Attachment(d.fileName.GetOr(""), Some(d.data), |d.data|, md5(d.data), "application/octet-stream")
  }

  // -----------------------------------------------------------------------
  // Removing the ranges

  /** `t.substring(0, b.start) + t.substring(b.stop)`. */
  function Cut(t: string, b: Block): string
  {
    Take(t, b.start) + Drop(t, b.stop)
  }

  /** The reverse loop: the last range is cut first, then the one before, down to the first. */
  function RemoveRanges(t: string, ps: seq<Block>): string
    decreases |ps|
  {
    if |ps| == 0 then t else RemoveRanges(Cut(t, ps[|ps| - 1]), ps[..|ps| - 1])
  }

  /** The reverse loop over the recorded ranges. */
  method CutAll(messageText: string, positions: seq<Block>) returns (text: string)
    ensures text == RemoveRanges(messageText, positions)
  {
    text := messageText;
    var i := |positions|;
    assert positions[..i] == positions;
    while i > 0
      invariant 0 <= i <= |positions|
      invariant RemoveRanges(text, positions[..i]) == RemoveRanges(messageText, positions)
    {
      i := i - 1;
      assert positions[..i + 1][..i] == positions[..i];
      text := Take(text, positions[i].start) + Drop(text, positions[i].stop);
    }
  }

  /**
   * Ranges in ascending order that do not overlap and lie between `lo` and
   * `hi`: each starts at or after the end of the one before.
   */
  predicate Ordered(ps: seq<Block>, lo: nat, hi: nat)
    decreases |ps|
  {
    lo <= hi && (|ps| == 0 || (lo <= ps[0].start <= ps[0].stop && Ordered(ps[1..], ps[0].stop, hi)))
  }

  lemma OrderedWithin(ps: seq<Block>, lo: nat, hi: nat)
    requires Ordered(ps, lo, hi)
    ensures lo <= hi
  {
  }

  /** The text outside the ranges, read from left to right starting at `lo`. */
  function Gaps(t: string, ps: seq<Block>, lo: nat): string
    requires Ordered(ps, lo, |t|)
    decreases |ps|
  {
    if |ps| == 0 then t[lo..]
    else
      assert ps[0].stop <= |t| by { OrderedWithin(ps[1..], ps[0].stop, |t|); }
      t[lo..ps[0].start] + Gaps(t, ps[1..], ps[0].stop)
  }

  /** Ordered ranges are the ordered ranges before the last one, then the last one. */
  lemma {:induction false} OrderedLast(ps: seq<Block>, lo: nat, hi: nat)
    requires |ps| > 0
    ensures Ordered(ps, lo, hi) <==>
      Ordered(ps[..|ps| - 1], lo, ps[|ps| - 1].start) && ps[|ps| - 1].start <= ps[|ps| - 1].stop <= hi
    decreases |ps|
  {
    if |ps| > 1 {
      OrderedLast(ps[1..], ps[0].stop, hi);
      assert ps[1..][..|ps| - 2] == ps[..|ps| - 1][1..];
    }
  }

  /** Ordered ranges stay ordered under a larger upper bound. */
  lemma {:induction false} OrderedWiden(ps: seq<Block>, lo: nat, hi: nat, hi': nat)
    requires Ordered(ps, lo, hi) && hi <= hi'
    ensures Ordered(ps, lo, hi')
    decreases |ps|
  {
    if |ps| > 0 {
      OrderedWiden(ps[1..], ps[0].stop, hi, hi');
    }
  }

  /** Cutting ranges that lie in `u` leaves whatever follows `u` in place. */
  lemma {:induction false} RemoveRangesAppend(u: string, v: string, qs: seq<Block>)
    requires Ordered(qs, 0, |u|)
    ensures RemoveRanges(u + v, qs) == RemoveRanges(u, qs) + v
    decreases |qs|
  {
    if |qs| > 0 {
      var b := qs[|qs| - 1];
      OrderedLast(qs, 0, |u|);
      assert Cut(u + v, b) == Cut(u, b) + v by {
        assert Take(u + v, b.start) == u[..b.start];
        assert Drop(u + v, b.stop) == Drop(u, b.stop) + v;
      }
      OrderedWiden(qs[..|qs| - 1], 0, b.start, |Cut(u, b)|);
      RemoveRangesAppend(Cut(u, b), v, qs[..|qs| - 1]);
    }
  }

  /** Reading the gaps up to the start of a last range, then the text after it. */
  lemma {:induction false} GapsLast(t: string, ps: seq<Block>, b: Block, lo: nat)
    requires Ordered(ps + [b], lo, |t|)
    ensures Ordered(ps, lo, b.start) && b.start <= b.stop <= |t|
    ensures Gaps(t[..b.start], ps, lo) + t[b.stop..] == Gaps(t, ps + [b], lo)
    decreases |ps|
  {
    OrderedLast(ps + [b], lo, |t|);
    assert (ps + [b])[..|ps|] == ps;
    if |ps| > 0 {
      assert (ps + [b])[1..] == ps[1..] + [b];
      GapsLast(t, ps[1..], b, ps[0].stop);
      assert t[..b.start][lo..ps[0].start] == t[lo..ps[0].start];
    }
  }

  /**
   * The reverse loop removes every range: on ordered ranges, the text it
   * leaves is exactly the text between them.
   */
  lemma {:induction false} RemoveOrdered(t: string, ps: seq<Block>)
    requires Ordered(ps, 0, |t|)
    ensures RemoveRanges(t, ps) == Gaps(t, ps, 0)
    decreases |ps|
  {
    if |ps| > 0 {
      var b := ps[|ps| - 1];
      var init := ps[..|ps| - 1];
      assert init + [b] == ps;
      GapsLast(t, init, b, 0);
      assert Cut(t, b) == t[..b.start] + t[b.stop..];
      RemoveRangesAppend(t[..b.start], t[b.stop..], init);
      RemoveOrdered(t[..b.start], init);
    }
  }

  /** The text `extractAllUUEncodedAttachments` returns: the input with no range, `''` with one. */
  function ExtractedText(text: string, ps: seq<Block>): string
  {
    if |ps| == 0 then text
    else if |ps| == 1 then ""
    else RemoveRanges(text, ps)
  }

  /**
   * Overlapping ranges combined: a range that starts before the end of the
   * range kept before it is merged into that one.
   */
  function Merged(ps: seq<Block>): (r: seq<Block>)
    ensures |r| <= |ps|
    decreases |ps|
  {
    if |ps| == 0 then []
    else
      var r := Merged(ps[..|ps| - 1]);
      var b := ps[|ps| - 1];
      if |r| > 0 && b.start < r[|r| - 1].stop then
        r[..|r| - 1] + [Block(r[|r| - 1].start, if b.stop <= r[|r| - 1].stop then r[|r| - 1].stop else b.stop)]
      else r + [b]
  }

  /** Every range lies in a text of length `n`. */
  predicate InText(ps: seq<Block>, n: nat)
  {
    forall k :: 0 <= k < |ps| ==> ps[k].start <= ps[k].stop <= n
  }

  /** Merging leaves ordered, non-overlapping ranges. */
  lemma {:induction false} MergedOrdered(ps: seq<Block>, n: nat)
    requires InText(ps, n)
    ensures Ordered(Merged(ps), 0, n)
    decreases |ps|
  {
    if |ps| > 0 {
      var init := ps[..|ps| - 1];
      var b := ps[|ps| - 1];
      MergedOrdered(init, n);
      var r := Merged(init);
      if |r| > 0 {
        OrderedLast(r, 0, n);
      }
      if |r| > 0 && b.start < r[|r| - 1].stop {
        var r' := Merged(ps);
        assert r'[..|r'| - 1] == r[..|r| - 1];
        OrderedLast(r', 0, n);
      } else {
        var r' := r + [b];
        assert r'[..|r'| - 1] == r;
        if |r| > 0 {
          OrderedLast(r, 0, b.start);
        }
        OrderedLast(r', 0, n);
      }
    }
  }

  /** Ranges that are already ordered are left as they are. */
  lemma {:induction false} MergedKeepsOrdered(ps: seq<Block>, n: nat)
    requires Ordered(ps, 0, n)
    ensures Merged(ps) == ps
    decreases |ps|
  {
    if |ps| > 0 {
      var init := ps[..|ps| - 1];
      var b := ps[|ps| - 1];
      OrderedLast(ps, 0, n);
      MergedKeepsOrdered(init, b.start);
      if |init| > 0 {
        OrderedLast(init, 0, b.start);
      }
      assert init + [b] == ps;
    }
  }

  /**
   * The text with every range removed, whatever their number and however
   * they overlap: the reverse cut applied to the merged ranges.
   */
  function CleanedText(text: string, ps: seq<Block>): (r: string)
    ensures InText(ps, |text|) ==> Ordered(Merged(ps), 0, |text|) && r == Gaps(text, Merged(ps), 0)
    ensures Ordered(ps, 0, |text|) ==> r == Gaps(text, ps, 0)
  {
    var r := RemoveRanges(text, Merged(ps));
    if InText(ps, |text|) then
      MergedOrdered(ps, |text|);
      RemoveOrdered(text, Merged(ps));
      if Ordered(ps, 0, |text|) then MergedKeepsOrdered(ps, |text|); r else r
    else if Ordered(ps, 0, |text|) then
      MergedKeepsOrdered(ps, |text|);
      RemoveOrdered(text, ps);
      r
    else r
  }

  /** Except with exactly one range, the returned text is the cleaned text as long as the ranges do not overlap. */
  lemma ExtractedCleaned(text: string, ps: seq<Block>)
    ensures |ps| != 1 && Ordered(ps, 0, |text|) ==> ExtractedText(text, ps) == CleanedText(text, ps)
    ensures |ps| == 0 ==> ExtractedText(text, ps) == text
  {
    if |ps| > 1 && Ordered(ps, 0, |text|) {
      MergedKeepsOrdered(ps, |text|);
    }
  }

  /**
   * With exactly one range the returned text is empty, although the text
   * around the block is not removed by the cut.
   */
  lemma SingleRangeEmptiesText(text: string, b: Block)
    requires b.start <= b.stop <= |text|
    ensures ExtractedText(text, [b]) == ""
    ensures CleanedText(text, [b]) == text[..b.start] + text[b.stop..]
    ensures 0 < b.start || b.stop < |text| ==> CleanedText(text, [b]) != ""
  {
    assert Ordered([b], 0, |text|);
    assert Gaps(text, [b], 0) == text[..b.start] + text[b.stop..];
  }

  /**
   * Two nested ranges with a common end, as two headers before one "\nend"
   * record them: the reverse cut removes the inner range, then cuts the outer
   * range's bounds out of the shortened text, so the `t - s2` characters after
   * the block are lost as well.
   */
  lemma NestedCutLosesTail(text: string, s1: nat, s2: nat, t: nat)
    requires s1 < s2 < t && t + (t - s2) <= |text|
    ensures !Ordered([Block(s1, t), Block(s2, t)], 0, |text|)
    ensures RemoveRanges(text, [Block(s1, t), Block(s2, t)]) == text[..s1] + text[t + (t - s2)..]
  {
    var u := text[..s2] + text[t..];
    NestedNotOrdered(s1, s2, t, |text|);
    RemoveTwo(text, Block(s1, t), Block(s2, t));
    CutInside(text, Block(s2, t));
    CutInside(u, Block(s1, t));
    DropAfterCut(text, s2, t);
    assert u[..s1] == text[..s1];
  }

  /** For two nested ranges, the returned text is shorter than the cleaned text by `t - s2` characters. */
  lemma NestedExtractedDiffers(text: string, s1: nat, s2: nat, t: nat)
    requires s1 < s2 < t && t + (t - s2) <= |text|
    ensures ExtractedText(text, [Block(s1, t), Block(s2, t)]) == text[..s1] + text[t + (t - s2)..]
    ensures |ExtractedText(text, [Block(s1, t), Block(s2, t)])| + (t - s2)
         == |CleanedText(text, [Block(s1, t), Block(s2, t)])|
  {
    NestedCutLosesTail(text, s1, s2, t);
    NestedCleaned(text, s1, s2, t);
  }

  lemma NestedNotOrdered(s1: nat, s2: nat, t: nat, n: nat)
    requires s2 < t
    ensures !Ordered([Block(s1, t), Block(s2, t)], 0, n)
  {
    assert [Block(s1, t), Block(s2, t)][1..] == [Block(s2, t)];
  }

  /** The reverse loop over two ranges cuts the second, then the first. */
  lemma RemoveTwo(text: string, a: Block, b: Block)
    ensures RemoveRanges(text, [a, b]) == Cut(Cut(text, b), a)
  {
    var ps := [a, b];
    assert ps[..1] == [a];
    assert RemoveRanges(text, ps) == RemoveRanges(Cut(text, b), [a]);
    assert [a][..0] == [];
    assert RemoveRanges(Cut(text, b), [a]) == RemoveRanges(Cut(Cut(text, b), a), []);
  }

  /** Past the point `t`, the text with `[s, t)` cut out runs `t - s` characters ahead. */
  lemma DropAfterCut(text: string, s: nat, t: nat)
    requires s <= t && t + (t - s) <= |text|
    ensures (text[..s] + text[t..])[t..] == text[t + (t - s)..]
  {
    var u := text[..s] + text[t..];
    assert u[t..] == text[t..][t - s..];
  }

  lemma CutInside(t: string, b: Block)
    requires b.start <= b.stop <= |t|
    ensures Cut(t, b) == t[..b.start] + t[b.stop..]
  {
  }

  /** The cleaned text of two nested ranges is the text around the outer one. */
  lemma NestedCleaned(text: string, s1: nat, s2: nat, t: nat)
    requires s1 < s2 < t <= |text|
    ensures CleanedText(text, [Block(s1, t), Block(s2, t)]) == text[..s1] + text[t..]
  {
    var ps := [Block(s1, t), Block(s2, t)];
    assert ps[..1] == [Block(s1, t)];
    assert ps[..1][..0] == [];
    assert Merged(ps[..1]) == [Block(s1, t)];
    assert Merged(ps) == [Block(s1, t)];
    assert InText(ps, |text|);
    assert Ordered([Block(s1, t)], 0, |text|);
    assert Gaps(text, [Block(s1, t)], 0) == text[..s1] + text[t..];
  }

  /**
   * When no header sits inside an earlier range, the text the extraction
   * returns for any number of ranges but one is the text between the ranges.
   */
  lemma ExtractedGaps(text: string)
    requires Unnested(HeaderMatcher(text), text)
    ensures var ps := BlocksFrom(HeaderMatcher(text), text, 0);
      Ordered(ps, 0, |text|) && (|ps| != 1 ==> ExtractedText(text, ps) == Gaps(text, ps, 0))
  {
    var ps := BlocksFrom(HeaderMatcher(text), text, 0);
    BlocksOrdered(HeaderMatcher(text), text, 0);
    ExtractedCleaned(text, ps);
  }

  lemma Regroup<T>(a: seq<T>, x: seq<T>, rest: seq<T>)
    ensures (a + x) + rest == a + (x + rest)
  {
  }

  /** The result of the extraction. */
  datatype Extraction = Extraction(attachments: seq<Attachment>, positions: seq<Block>, text: string)

  /**
   * One pass of the `exec` loop for the header at `startPos`: when a "\nend"
   * follows, the range is recorded and the block decoded with `decode` is kept
   * if it holds bytes.
   */
  method CollectBlock(decode: string -> Decoded, messageText: string, startPos: nat, positions: seq<Block>, results: seq<Decoded>)
    returns (positions': seq<Block>, results': seq<Decoded>)
    ensures positions' == positions + RangeAt(messageText, startPos)
    ensures results' == results + ResultAt(decode, messageText, startPos)
  {
    positions', results' := positions, results;
    var endPos := IndexOf(messageText, END_MARK, startPos);
    if endPos.Some? {
      var decoded := decode(messageText[startPos..endPos.value + 4]);
      RangeAtFound(decode, messageText, startPos, endPos.value);
      if |decoded.data| > 0 {
        results' := results' + [decoded];
      }
      positions' := positions' + [Block(startPos, endPos.value + 4)];
    } else {
      RangeAtMissing(decode, messageText, startPos);
    }
  }

  /**
   * The `exec` loop of `extractAllUUEncodedAttachments`: from `lastIndex == 0`
   * it records a range for every header with a later "\nend" and keeps the
   * decoded blocks that hold bytes, until `exec` finds no further match.
   */
  method FindBlocks(beginRegex: Matcher, decode: string -> Decoded, messageText: string)
    returns (positions: seq<Block>, results: seq<Decoded>)
    requires MatcherIn(beginRegex, |messageText|)
    ensures positions == BlocksFrom(beginRegex, messageText, 0)
    ensures results == ResultsFrom(beginRegex, decode, messageText, 0)
  {
    results, positions := [], [];
    var lastIndex: nat := 0;
    var found := NextMatch(beginRegex, |messageText|, lastIndex);
    while found.Some?
      invariant found == NextMatch(beginRegex, |messageText|, lastIndex)
      invariant positions + BlocksFrom(beginRegex, messageText, lastIndex) == BlocksFrom(beginRegex, messageText, 0)
      invariant results + ResultsFrom(beginRegex, decode, messageText, lastIndex) == ResultsFrom(beginRegex, decode, messageText, 0)
      decreases |messageText| + 1 - lastIndex
    {
      var startPos := found.value.start;
      BlocksStep(beginRegex, decode, messageText, lastIndex, found.value);
      ghost var before, kept := positions, results;
      positions, results := CollectBlock(decode, messageText, startPos, positions, results);
      Regroup(before, RangeAt(messageText, startPos), BlocksFrom(beginRegex, messageText, found.value.stop));
      Regroup(kept, ResultAt(decode, messageText, startPos), ResultsFrom(beginRegex, decode, messageText, found.value.stop));
      lastIndex := found.value.stop;
      found := NextMatch(beginRegex, |messageText|, lastIndex);
    }
  }

  /**
   * `extractAllUUEncodedAttachments(messageText)`: the ranges of the header
   * pattern's blocks in match order, one attachment record per block that
   * decodes to some bytes, and the text rebuilt by cutting the ranges from
   * last to first when there is more than one.
   */
  method ExtractAllAttachments(messageText: string, md5: seq<byte> -> string) returns (r: Extraction)
    ensures r.positions == BlocksFrom(HeaderMatcher(messageText), messageText, 0)
    ensures |r.attachments| == |ResultsFrom(HeaderMatcher(messageText), Decode, messageText, 0)|
    ensures forall i :: 0 <= i < |r.attachments| ==>
      r.attachments[i] == AttachmentOf(ResultsFrom(HeaderMatcher(messageText), Decode, messageText, 0)[i], md5)
    ensures forall i :: 0 <= i < |r.attachments| ==>
      r.attachments[i].size > 0 && r.attachments[i].contentType == "application/octet-stream"
    ensures r.text == ExtractedText(messageText, r.positions)
  {
    var positions, results := FindBlocks(HeaderMatcher(messageText), Decode, messageText);
    var text := RemainingText(messageText, positions);
    r := Extraction(AttachmentsOf(results, md5), positions, text);
  }

  /** The text left once the ranges are taken out, branch by branch as the extraction writes it. */
  method RemainingText(messageText: string, positions: seq<Block>) returns (text: string)
    ensures text == ExtractedText(messageText, positions)
  {
    text := "";
    if |positions| == 0 {
      text := messageText;
    }
    if |positions| > 1 {
      text := CutAll(messageText, positions);
    }
  }

  /** One attachment per decoded block, in order. */
  function AttachmentsOf(results: seq<Decoded>, md5: seq<byte> -> string): (a: seq<Attachment>)
    ensures |a| == |results|
    ensures forall i :: 0 <= i < |a| ==> a[i] == AttachmentOf(results[i], md5)
    ensures forall i :: 0 <= i < |a| ==> a[i].contentType == "application/octet-stream"
    ensures forall i :: 0 <= i < |a| ==> |results[i].data| > 0 ==> a[i].size > 0
  {
    seq(|results|, i requires 0 <= i < |results| => AttachmentOf(results[i], md5))
  }
}
