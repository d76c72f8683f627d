/**
 * The quoted-text truncator: up to three passes that collapse runs of quoted
 * lines (only for replies), then a hard cut to the length budget.
 */
module Truncate {
  import opened Wrappers
  import opened Strings

  const ROOT_BUDGET: nat := 8000
  const REPLY_BUDGET: nat := 4000
  const LEVEL3_THRESHOLD: nat := 1000
  const LEVEL2_THRESHOLD: nat := 1000
  const LEVEL1_THRESHOLD: nat := 2500
  /** How much of a collapsed line is kept before the marker. */
  const KEPT: nat := 49
  const MARK := " ...[truncated]"

  datatype QuoteResult = QuoteResult(truncatedText: string, isTruncated: bool)

  /** `fullTextFile` stands for the `File` object, as the text it holds. */
  datatype Truncation = Truncation(text: string, isTruncated: bool, fullTextFile: Option<string>)

  function Budget(isRoot: bool): nat
  {
    if isRoot then ROOT_BUDGET else REPLY_BUDGET
  }

  // -----------------------------------------------------------------------
  // One quote pass

  /** A trimmed line is quoted at `level` when it starts with that many `>`. */
  predicate Quoted(line: string, level: nat)
  {
    StartsWith(line, Repeat('>', level))
  }

  /** Line `k` survives the filter: it is not quoted, or it opens a run of quoted lines. */
  predicate Survives(lines: seq<string>, level: nat, k: nat)
    requires k < |lines|
  {
    !Quoted(lines[k], level) || k == 0 || !Quoted(lines[k - 1], level)
  }

  /** The surviving lines among the first `n`, in order. */
  function Filtered(lines: seq<string>, level: nat, n: nat): (r: seq<string>)
    requires n <= |lines|
    ensures |r| <= n
    ensures n > 0 ==> |r| > 0
  {
    if n == 0 then []
    else Filtered(lines, level, n - 1) + (if Survives(lines, level, n - 1) then [lines[n - 1]] else [])
  }

  /** A quoted line is cut to its first 49 characters and marked; any other line is kept as it is. */
  function Marked(line: string, level: nat): string
  {
    if Quoted(line, level) then Take(line, KEPT) + MARK else line
  }

  function MarkAll(lines: seq<string>, level: nat): (r: seq<string>)
    ensures |r| == |lines| && forall i :: 0 <= i < |r| ==> r[i] == Marked(lines[i], level)
  {
    seq(|lines|, i requires 0 <= i < |lines| => Marked(lines[i], level))
  }

  function TrimLines(lines: seq<string>): (r: seq<string>)
    ensures |r| == |lines| && forall i :: 0 <= i < |r| ==> r[i] == Trim(lines[i])
  {
    seq(|lines|, i requires 0 <= i < |lines| => Trim(lines[i]))
  }

  /** Some line before index `n` is quoted at `level`. */
  predicate QuotedBefore(lines: seq<string>, level: nat, n: nat)
  {
    exists i :: 0 <= i < n && i < |lines| && Quoted(lines[i], level)
  }

  /** The trimmed lines of `text`. */
  function LinesOf(text: string): seq<string>
  {
    TrimLines(Split(text, "\n"))
  }

  /**
   * What a pass at `level` computes: every run of consecutive quoted lines is
   * reduced to its first line, cut and marked, and the flag is raised when
   * some line is quoted.
   */
  function Quotes(text: string, isTruncated: bool, level: nat): QuoteResult
  {
    var lines := LinesOf(text);
    QuoteResult(
      Join(MarkAll(Filtered(lines, level, |lines|), level), "\n"),
      isTruncated || QuotedBefore(lines, level, |lines|))
  }

  /**
   * `truncateQuotes`: trim the lines, filter them with the flag that says
   * whether the previous line was quoted, mark what is left and join.
   */
  method TruncateQuotes(text: string, isTruncated: bool, level: nat) returns (r: QuoteResult)
    ensures r == Quotes(text, isTruncated, level)
  {
    var lines := TrimLines(Split(text, "\n"));
    var levelString := Repeat('>', level);
    var currentlyInNestedQuote := false;
    var truncated := isTruncated;
    var kept: seq<string> := [];
    for k := 0 to |lines|
      invariant currentlyInNestedQuote == (k > 0 && Quoted(lines[k - 1], level))
      invariant truncated == (isTruncated || QuotedBefore(lines, level, k))
      invariant kept == Filtered(lines, level, k)
    {
      var line := lines[k];
      QuotedBeforeStep(lines, level, k);
      if StartsWith(line, levelString) {
        truncated := true;
        if !currentlyInNestedQuote {
          kept := kept + [line];
        }
        currentlyInNestedQuote := true;
      } else {
        kept := kept + [line];
        currentlyInNestedQuote := false;
      }
    }
    r := QuoteResult(Join(MarkAll(kept, level), "\n"), truncated);
  }

  lemma QuotedBeforeStep(lines: seq<string>, level: nat, k: nat)
    requires k < |lines|
    ensures QuotedBefore(lines, level, k + 1) <==> QuotedBefore(lines, level, k) || Quoted(lines[k], level)
  {
    if QuotedBefore(lines, level, k + 1) && !Quoted(lines[k], level) {
      var i :| 0 <= i < k + 1 && i < |lines| && Quoted(lines[i], level);
      assert i < k;
    }
  }

  // -----------------------------------------------------------------------
  // Properties of a pass

  /** A pass never produces more lines than it was given. */
  lemma QuotesLineCount(text: string, isTruncated: bool, level: nat)
    ensures |Split(Quotes(text, isTruncated, level).truncatedText, "\n")| <= |Split(text, "\n")|
  {
    var lines := LinesOf(text);
    var out := MarkAll(Filtered(lines, level, |lines|), level);
    LinesFree(text);
    FilteredFree(lines, level, |lines|);
    forall k | 0 <= k < |out|
      ensures SeparatorFree(out[k], "\n")
    {
      MarkedFree(Filtered(lines, level, |lines|)[k], level);
      SingleSeparatorFree(out[k], '\n');
    }
    SplitJoin(out, "\n");
  }

  /** The trimmed lines of a text hold no line feed. */
  lemma LinesFree(text: string)
    ensures forall k :: 0 <= k < |LinesOf(text)| ==> '\n' !in LinesOf(text)[k]
  {
    var parts := Split(text, "\n");
    SplitPiecesFree(text, "\n");
    forall k | 0 <= k < |parts|
      ensures '\n' !in Trim(parts[k])
    {
      NoCharOccurs(parts[k], '\n');
      TrimKeepsOut(parts[k], '\n');
    }
  }

  lemma {:induction false} FilteredFree(lines: seq<string>, level: nat, n: nat)
    requires n <= |lines|
    requires forall k :: 0 <= k < |lines| ==> '\n' !in lines[k]
    ensures forall k :: 0 <= k < |Filtered(lines, level, n)| ==> '\n' !in Filtered(lines, level, n)[k]
  {
    if n > 0 {
      FilteredFree(lines, level, n - 1);
    }
  }

  lemma MarkedFree(line: string, level: nat)
    requires '\n' !in line
    ensures '\n' !in Marked(line, level)
  {
    if Quoted(line, level) {
      var t := Take(line, KEPT);
      assert t == line[..|t|];
      assert '\n' !in MARK;
    }
  }

  /** Trimming removes characters only, so a character absent before is absent after. */
  lemma TrimKeepsOut(s: string, c: char)
    requires c !in s
    ensures c !in Trim(s)
  {
    var t := TrimStart(s);
    assert t == s[|s| - |t|..];
    var u := TrimEnd(t);
    assert u == t[..|u|];
  }

  lemma TrimEndKeeps(s: string)
    requires |s| > 0 && !IsSpace(s[|s| - 1])
    ensures TrimEnd(s) == s
  {
  }

  /**
   * A pass is not idempotent: a quoted one-line text shorter than 49 characters
   * is marked, and a second pass marks the marked line again.
   */
  lemma QuotesNotIdempotent(line: string, level: nat)
    requires 1 <= level && '\n' !in line && Trim(line) == line
    requires Quoted(line, level) && |line| < KEPT
    ensures var once := Quotes(line, false, level).truncatedText;
      once == line + MARK && Quotes(once, true, level).truncatedText != once
  {
    QuotesSingleLine(line, false, level);
    MarkedTwice(line, level);
    MarkedPlain(line, level);
    QuotesSingleLine(line + MARK, true, level);
  }

  /** Marking a short quoted line appends the marker, and marking the result changes it again. */
  lemma MarkedTwice(line: string, level: nat)
    requires Quoted(line, level) && |line| < KEPT
    ensures Marked(line, level) == line + MARK
    ensures Marked(line + MARK, level) != line + MARK
  {
    var once := line + MARK;
    var p := Repeat('>', level);
    assert once[..|p|] == line[..|p|];
    assert Quoted(once, level);
    assert |Take(once, KEPT)| > |line|;
  }

  /** A marked line that was trimmed and free of line feeds still is. */
  lemma MarkedPlain(line: string, level: nat)
    requires 1 <= level && '\n' !in line && Quoted(line, level)
    ensures '\n' !in line + MARK && Trim(line + MARK) == line + MARK
  {
    var once := line + MARK;
    assert line[0] == Repeat('>', level)[0] == '>';
    assert once[0] == '>' && once[|once| - 1] == ']';
    TrimStartKeeps(once);
    TrimEndKeeps(once);
    assert '\n' !in MARK;
  }

  /** A text of one trimmed line without a line feed comes out as that line, marked. */
  lemma QuotesSingleLine(line: string, isTruncated: bool, level: nat)
    requires '\n' !in line && Trim(line) == line
    ensures Quotes(line, isTruncated, level).truncatedText == Marked(line, level)
  {
    SingleSeparatorFree(line, '\n');
    FreeHasNoOccurrence(line, "\n");
    assert Split(line, "\n") == [line];
    assert LinesOf(line) == [line];
  }

  // -----------------------------------------------------------------------
  // The whole truncation

  /** A pass at `level`, run only for a reply whose current text is longer than `threshold`. */
  function Pass(q: QuoteResult, isRoot: bool, threshold: nat, level: nat): QuoteResult
  {
    if |q.truncatedText| > threshold && !isRoot then Quotes(q.truncatedText, q.isTruncated, level) else q
  }

  /** The three passes in order: level 3, then level 2, then level 1. */
  function Passes(text: string, isRoot: bool): (q: QuoteResult)
    ensures isRoot ==> q == QuoteResult(text, false)
  {
    var q3 := Pass(QuoteResult(text, false), isRoot, LEVEL3_THRESHOLD, 3);
    var q2 := Pass(q3, isRoot, LEVEL2_THRESHOLD, 2);
    Pass(q2, isRoot, LEVEL1_THRESHOLD, 1)
  }

  /** One of the three conditional blocks of `truncateText`. */
  method RunPass(q: QuoteResult, isRoot: bool, threshold: nat, level: nat) returns (r: QuoteResult)
    ensures r == Pass(q, isRoot, threshold, level)
  {
    r := q;
    if |q.truncatedText| > threshold && !isRoot {
      r := TruncateQuotes(q.truncatedText, q.isTruncated, level);
    }
  }

  /** `truncateText`; a missing text is read as the empty string. */
  method TruncateText(originalText: Option<string>, isRoot: bool) returns (r: Truncation)
    ensures var q := Passes(originalText.GetOr(""), isRoot);
      && r.isTruncated == q.isTruncated
      && r.text == Take(q.truncatedText, Budget(isRoot))
      && (r.fullTextFile.Some? <==> q.isTruncated || |q.truncatedText| > Budget(isRoot))
    ensures r.fullTextFile.Some? ==> r.fullTextFile.value == originalText.GetOr("")
    ensures |r.text| <= Budget(isRoot)
    ensures isRoot ==> !r.isTruncated && r.text == Take(originalText.GetOr(""), ROOT_BUDGET)
  {
    var original := originalText.GetOr("");
    var allowedLength := Budget(isRoot);
    var q := QuoteResult(original, false);
    q := RunPass(q, isRoot, LEVEL3_THRESHOLD, 3);
    q := RunPass(q, isRoot, LEVEL2_THRESHOLD, 2);
    q := RunPass(q, isRoot, LEVEL1_THRESHOLD, 1);
    var txt, isTruncated := q.truncatedText, q.isTruncated;
    var truncateMore := |txt| > allowedLength;
    var fullTextFile := if isTruncated || truncateMore then Some(original) else None;
    var text := if truncateMore then txt[..allowedLength] else txt;
    r := Truncation(text, isTruncated, fullTextFile);
  }

  /** The passes never add lines. */
  lemma PassesLineCount(text: string, isRoot: bool)
    ensures |Split(Passes(text, isRoot).truncatedText, "\n")| <= |Split(text, "\n")|
  {
    var q3 := Pass(QuoteResult(text, false), isRoot, LEVEL3_THRESHOLD, 3);
    PassLineCount(QuoteResult(text, false), isRoot, LEVEL3_THRESHOLD, 3);
    var q2 := Pass(q3, isRoot, LEVEL2_THRESHOLD, 2);
    PassLineCount(q3, isRoot, LEVEL2_THRESHOLD, 2);
    PassLineCount(q2, isRoot, LEVEL1_THRESHOLD, 1);
  }

  lemma PassLineCount(q: QuoteResult, isRoot: bool, threshold: nat, level: nat)
    ensures |Split(Pass(q, isRoot, threshold, level).truncatedText, "\n")| <= |Split(q.truncatedText, "\n")|
  {
    if |q.truncatedText| > threshold && !isRoot {
      QuotesLineCount(q.truncatedText, q.isTruncated, level);
    }
  }

  /** A short reply is left alone: no pass runs and nothing is flagged or cut. */
  lemma ShortReplyUntouched(text: string)
    requires |text| <= LEVEL3_THRESHOLD
    ensures Passes(text, false) == QuoteResult(text, false)
  {
  }

  /**
   * The flag reports the quote passes only: a root text above the budget is cut
   * and keeps its full text, yet it is not flagged as truncated.
   */
  lemma HardCutNotFlagged(text: string)
    requires |text| > ROOT_BUDGET
    ensures var q := Passes(text, true);
      !q.isTruncated && |Take(q.truncatedText, ROOT_BUDGET)| < |text|
      && |q.truncatedText| > Budget(true)
  {
  }
}
