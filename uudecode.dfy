/**
 * `uudecode`: the line scanner that picks the data lines of one
 * `begin <mode> <name>` ... `end` block, and the 4-to-3 character decoding of
 * the historical uuencode format (the `uuencode` utility of IEEE Std 1003.1).
 *
 * Text is a sequence of Unicode code points; the regular expressions of the
 * source are written out as the functions `MatchBegin`, `IsEndLine` and
 * `IsDataLine`.
 */
module UUDecode {
  import opened Wrappers
  import opened Strings

  // -----------------------------------------------------------------------
  // Lines

  /** `p` without one trailing carriage return. */
  function DropCR(p: string): string
  {
    if |p| > 0 && p[|p| - 1] == '\r' then p[..|p| - 1] else p
  }

  /** The pieces with the carriage return before each line feed removed: all but the last lose one trailing CR. */
  function DropCRs(pieces: seq<string>): (lines: seq<string>)
    ensures |lines| == |pieces|
    ensures forall i :: 0 <= i < |pieces| ==> StartsWith(pieces[i], lines[i])
  {
    seq(|pieces|, i requires 0 <= i < |pieces| =>
      if i < |pieces| - 1 then DropCR(pieces[i]) else pieces[i])
  }

  /**
   * `text.split(/\r?\n/)`: the pieces between line feeds, each piece but the
   * last without the carriage return that precedes its line feed.
   */
  function SplitLines(text: string): (lines: seq<string>)
    ensures |lines| >= 1
    ensures forall i, j :: 0 <= i < |lines| && 0 <= j < |lines[i]| ==> lines[i][j] != '\n'
  {
    var pieces := Split(text, "\n");
    SplitPiecesFree(text, "\n");
    forall i | 0 <= i < |pieces|
      ensures forall j :: 0 <= j < |pieces[i]| ==> pieces[i][j] != '\n'
    {
      NoCharOccurs(pieces[i], '\n');
    }
    DropCRs(pieces)
  }

  /** A line without a line feed, which does not end in a carriage return unless it is the last. */
  predicate PlainLine(lines: seq<string>, i: nat)
    requires i < |lines|
  {
    (forall j :: 0 <= j < |lines[i]| ==> lines[i][j] != '\n')
    && (i < |lines| - 1 ==> DropCR(lines[i]) == lines[i])
  }

  /** Lines joined with line feeds are split back into the same lines. */
  lemma SplitLinesJoin(lines: seq<string>)
    requires |lines| >= 1
    requires forall i :: 0 <= i < |lines| ==> PlainLine(lines, i)
    ensures SplitLines(Join(lines, "\n")) == lines
  {
    forall k | 0 <= k < |lines|
      ensures SeparatorFree(lines[k], "\n")
    {
      assert PlainLine(lines, k);
      SingleSeparatorFree(lines[k], '\n');
    }
    SplitJoin(lines, "\n");
    DropCRsPlain(lines);
  }

  lemma DropCRsPlain(lines: seq<string>)
    requires forall i :: 0 <= i < |lines| ==> PlainLine(lines, i)
    ensures DropCRs(lines) == lines
  {
    forall i | 0 <= i < |lines|
      ensures DropCRs(lines)[i] == lines[i]
    {
      assert PlainLine(lines, i);
    }
  }

  // -----------------------------------------------------------------------
  // Character runs

  /** The length of the run of `\s` characters at the start of `s`. */
  function WsSpan(s: string): (n: nat)
    ensures n <= |s|
    ensures forall i :: 0 <= i < n ==> IsSpace(s[i])
    ensures n == |s| || !IsSpace(s[n])
  {
    if |s| > 0 && IsSpace(s[0]) then 1 + WsSpan(s[1..]) else 0
  }

  /** The length of the run of `\S` characters at the start of `s`. */
  function NonWsSpan(s: string): (n: nat)
    ensures n <= |s|
    ensures forall i :: 0 <= i < n ==> !IsSpace(s[i])
    ensures n == |s| || IsSpace(s[n])
  {
    if |s| > 0 && !IsSpace(s[0]) then 1 + NonWsSpan(s[1..]) else 0
  }

  /** The run lengths are determined by their contracts. */
  lemma WsSpanIs(s: string, n: nat)
    requires n <= |s| && (forall i :: 0 <= i < n ==> IsSpace(s[i])) && (n == |s| || !IsSpace(s[n]))
    ensures WsSpan(s) == n
  {
    var m := WsSpan(s);
    assert m == |s| || !IsSpace(s[m]);
  }

  lemma NonWsSpanIs(s: string, n: nat)
    requires n <= |s| && (forall i :: 0 <= i < n ==> !IsSpace(s[i])) && (n == |s| || IsSpace(s[n]))
    ensures NonWsSpan(s) == n
  {
    var m := NonWsSpan(s);
    assert m == |s| || IsSpace(s[m]);
  }

  lemma DigitRunIs(s: string, d: string)
    requires StartsWith(s, d) && (forall i :: 0 <= i < |d| ==> IsDigit(d[i]))
    requires |d| == |s| || !IsDigit(s[|d|])
    ensures DigitRun(s) == d
  {
    var r := DigitRun(s);
    PrefixDigits(s, d);
    PrefixDigits(s, r);
    assert |r| == |d|;
  }

  lemma PrefixDigits(s: string, d: string)
    requires StartsWith(s, d) && (forall i :: 0 <= i < |d| ==> IsDigit(d[i]))
    ensures forall i :: 0 <= i < |d| ==> IsDigit(s[i])
  {
    forall i | 0 <= i < |d|
      ensures IsDigit(s[i])
    {
      assert s[..|d|][i] == s[i];
    }
  }

  // -----------------------------------------------------------------------
  // The `begin` header

  /** The fields of a `begin` header, and where its name ends. */
  datatype BeginHeader = BeginHeader(mode: string, name: string, nameEnd: nat)

  /** A non-empty run of decimal digits. */
  predicate IsMode(mode: string)
  {
    |mode| > 0 && forall i :: 0 <= i < |mode| ==> IsDigit(mode[i])
  }

  /** A non-empty run of `\S` characters. */
  predicate IsName(name: string)
  {
    |name| > 0 && forall i :: 0 <= i < |name| ==> !IsSpace(name[i])
  }

  /**
   * The part `begin\s+(\d+)\s+(\S+)` of the header pattern, read at the start
   * of `s`. Each run is maximal: a shorter run would leave the next part of the
   * pattern facing a character it cannot match.
   */
  function ParseHeader(s: string): (r: Option<BeginHeader>)
    ensures r.Some? ==> 0 < r.value.nameEnd <= |s|
  {
    if !StartsWith(s, "begin") then None
    else
      var w1 := WsSpan(s[5..]);
      var b := 5 + w1;
      var mode := DigitRun(s[b..]);
      var c := b + |mode|;
      var w2 := WsSpan(s[c..]);
      var e := c + w2;
      var n := NonWsSpan(s[e..]);
      if w1 == 0 || |mode| == 0 || w2 == 0 || n == 0 then None
      else Some(BeginHeader(mode, s[e..e + n], e + n))
  }

  /**
   * What `ParseHeader` reads: a line starting with `begin`, a mode of digits and
   * a name of non-space characters that ends where the whitespace or the line
   * ends.
   */
  lemma ParseHeaderMatch(s: string)
    ensures var r := ParseHeader(s);
      r.Some? ==>
      && StartsWith(s, "begin") && IsMode(r.value.mode) && IsName(r.value.name)
      && EndsWith(s[..r.value.nameEnd], r.value.name)
      && (r.value.nameEnd == |s| || IsSpace(s[r.value.nameEnd]))
  {
    if ParseHeader(s).Some? {
      var h := ParseHeader(s).value;
      var e := h.nameEnd - |h.name|;
      var n := NonWsSpan(s[e..]);
      assert h.name == s[e..e + n] == s[e..][..n];
      assert s[..h.nameEnd][h.nameEnd - |h.name|..] == h.name;
    }
  }

  /** The fields of a matched `begin` line. */
  datatype BeginLine = BeginLine(mode: string, name: string)

  /** `line.match(/^begin\s+(\d+)\s+(\S+)\s*$/)`: the header must fill the whole line. */
  function MatchBegin(line: string): (r: Option<BeginLine>)
    ensures r.Some? ==> StartsWith(line, "begin") && IsMode(r.value.mode) && IsName(r.value.name)
  {
    match ParseHeader(line)
    case None => None
    case Some(h) =>
      ParseHeaderMatch(line);
      if WsSpan(line[h.nameEnd..]) == |line| - h.nameEnd then Some(BeginLine(h.mode, h.name)) else None
  }

  /** The header `ParseHeader` reads from a written `begin` line followed by `rest`. */
  lemma {:induction false} ParseHeaderWritten(mode: string, name: string, rest: string)
    requires IsMode(mode) && IsName(name)
    requires rest == [] || IsSpace(rest[0])
    ensures var s := "begin " + mode + " " + name + rest;
      ParseHeader(s) == Some(BeginHeader(mode, name, 7 + |mode| + |name|))
  {
    WrittenSpans(mode, name, rest);
    ParseHeaderSpans("begin " + mode + " " + name + rest, mode, name);
  }

  /** The runs the header pattern reads from a written `begin` line. */
  lemma WrittenSpans(mode: string, name: string, rest: string)
    requires IsMode(mode) && IsName(name)
    requires rest == [] || IsSpace(rest[0])
    ensures var s := "begin " + mode + " " + name + rest;
      HeaderRuns(s, mode, |name|) && s[7 + |mode|..7 + |mode| + |name|] == name
  {
    WrittenFront(mode, name, rest);
    WrittenBack(mode, name, rest);
  }

  lemma WrittenFront(mode: string, name: string, rest: string)
    requires IsMode(mode) && IsName(name)
    ensures var s := "begin " + mode + " " + name + rest;
      && StartsWith(s, "begin") && |s| >= 7 + |mode| + |name|
      && WsSpan(s[5..]) == 1 && DigitRun(s[6..]) == mode
  {
    var s := "begin " + mode + " " + name + rest;
    HeaderPieces(mode, name, rest);
    SpaceThen(s[5..], mode + " " + name + rest);
    DigitsThen(s[6..], mode, " " + name + rest);
  }

  lemma WrittenBack(mode: string, name: string, rest: string)
    requires IsName(name)
    requires rest == [] || IsSpace(rest[0])
    ensures var s := "begin " + mode + " " + name + rest;
      && WsSpan(s[6 + |mode|..]) == 1 && NonWsSpan(s[7 + |mode|..]) == |name|
      && s[7 + |mode|..7 + |mode| + |name|] == name
  {
    var s := "begin " + mode + " " + name + rest;
    var e := 7 + |mode|;
    HeaderPieces(mode, name, rest);
    SpaceThen(s[e - 1..], name + rest);
    NameThen(s[e..], name, rest);
    assert s[e..e + |name|] == s[e..][..|name|];
  }

  lemma SpaceThen(t: string, x: string)
    requires t == " " + x && (x == [] || !IsSpace(x[0]))
    ensures WsSpan(t) == 1
  {
    WsSpanIs(t, 1);
  }

  lemma DigitsThen(t: string, mode: string, x: string)
    requires t == mode + x && IsMode(mode) && (x == [] || !IsDigit(x[0]))
    ensures DigitRun(t) == mode
  {
    assert t[..|mode|] == mode;
    DigitRunIs(t, mode);
  }

  lemma NameThen(t: string, name: string, rest: string)
    requires t == name + rest && IsName(name) && (rest == [] || IsSpace(rest[0]))
    ensures NonWsSpan(t) == |name|
  {
    NonWsSpanIs(t, |name|);
  }

  lemma HeaderPieces(mode: string, name: string, rest: string)
    ensures var s := "begin " + mode + " " + name + rest;
      && StartsWith(s, "begin")
      && s[5..] == " " + mode + " " + name + rest
      && s[6..] == mode + " " + name + rest
      && s[6 + |mode|..] == " " + name + rest
      && s[7 + |mode|..] == name + rest
  {
  }

  /** `s` is `begin`, one space, the digits `mode`, one space and an `n`-character name. */
  predicate HeaderRuns(s: string, mode: string, n: nat)
  {
    && StartsWith(s, "begin") && |s| >= 7 + |mode| + n
    && WsSpan(s[5..]) == 1 && DigitRun(s[6..]) == mode && |mode| > 0
    && WsSpan(s[6 + |mode|..]) == 1 && NonWsSpan(s[7 + |mode|..]) == n && n > 0
  }

  lemma ParseHeaderSpans(s: string, mode: string, name: string)
    requires HeaderRuns(s, mode, |name|) && s[7 + |mode|..7 + |mode| + |name|] == name
    ensures ParseHeader(s) == Some(BeginHeader(mode, name, 7 + |mode| + |name|))
  {
  }

  /** A `begin` line written with single spaces is matched, and its mode and name are read back. */
  lemma MatchBeginWritten(mode: string, name: string)
    requires IsMode(mode) && IsName(name)
    ensures MatchBegin("begin " + mode + " " + name) == Some(BeginLine(mode, name))
  {
    ParseHeaderWritten(mode, name, []);
    assert "begin " + mode + " " + name + [] == "begin " + mode + " " + name;
  }

  /** `/^end\s*$/.test(line)`. */
  predicate IsEndLine(line: string)
  {
    StartsWith(line, "end") && WsSpan(line[3..]) == |line| - 3
  }

  /** `/^[M-` ]/.test(line)`: the line starts with a space or a character from `M` to the backquote. */
  predicate IsDataLine(line: string)
  {
    |line| > 0 && (line[0] == ' ' || 'M' <= line[0] <= '`')
  }

  // -----------------------------------------------------------------------
  // Collecting the data lines

  /** The variables of the line loop of `uudecode`. */
  datatype Scan = Scan(collecting: bool, fileName: Option<string>, fileMode: Option<string>, encoded: seq<string>)

  /**
   * One iteration of the line loop: a `begin` line starts collecting and
   * records its fields, an `end` line stops collecting, and a data line is
   * kept while collecting.
   */
  function ScanLine(st: Scan, line: string): Scan
  {
    match MatchBegin(line)
    case Some(b) => Scan(true, Some(b.name), Some(b.mode), st.encoded)
    case None =>
      if IsEndLine(line) then st.(collecting := false)
      else if st.collecting && IsDataLine(line) then st.(encoded := st.encoded + [line])
      else st
  }

  /** The line loop of `uudecode` over `lines`, from the initial state. */
  function ScanLines(lines: seq<string>): (st: Scan)
    ensures |st.encoded| <= |lines|
    ensures forall i :: 0 <= i < |st.encoded| ==> IsDataLine(st.encoded[i])
    ensures st.fileName.Some? <==> st.fileMode.Some?
  {
    if |lines| == 0 then Scan(false, None, None, [])
    else ScanLine(ScanLines(lines[..|lines| - 1]), lines[|lines| - 1])
  }

  lemma ScanLinesStep(lines: seq<string>, k: nat)
    requires k < |lines|
    ensures ScanLines(lines[..k + 1]) == ScanLine(ScanLines(lines[..k]), lines[k])
  {
    PrefixOfPrefix(lines, k);
  }

  /** How the line loop treats a line, in the order of its tests. */
  datatype LineKind = BeginKind | EndKind | DataKind | OtherKind

  function KindOf(line: string): (k: LineKind)
    ensures k == BeginKind <==> MatchBegin(line).Some?
    ensures k == EndKind <==> MatchBegin(line).None? && IsEndLine(line)
    ensures k == DataKind <==> MatchBegin(line).None? && !IsEndLine(line) && IsDataLine(line)
  {
    if MatchBegin(line).Some? then BeginKind
    else if IsEndLine(line) then EndKind
    else if IsDataLine(line) then DataKind
    else OtherKind
  }

  /** The kind of every line, in order. */
  function Kinds(lines: seq<string>): (ks: seq<LineKind>)
    ensures |ks| == |lines|
  {
    if |lines| == 0 then [] else Kinds(lines[..|lines| - 1]) + [KindOf(lines[|lines| - 1])]
  }

  lemma {:induction false} KindsAt(lines: seq<string>, i: nat)
    requires i < |lines|
    ensures Kinds(lines)[i] == KindOf(lines[i])
    decreases |lines|
  {
    var n := |lines| - 1;
    if i < n {
      KindsAt(lines[..n], i);
    }
  }

  /**
   * Position `k` lies inside a block: the last `begin` or `end` line before it
   * is a `begin` line.
   */
  predicate OpenBefore(ks: seq<LineKind>, k: nat)
    requires k <= |ks|
  {
    exists j :: 0 <= j < k && ks[j] == BeginKind && Quiet(ks, j + 1, k)
  }

  /** No line in `[from, to)` is a `begin` or an `end` line. */
  predicate Quiet(ks: seq<LineKind>, from: nat, to: nat)
    requires to <= |ks|
  {
    forall m :: from <= m < to ==> ks[m] != BeginKind && ks[m] != EndKind
  }

  /** The lines the loop collects, in order: the data lines that lie inside a block. */
  function Collected(lines: seq<string>): (r: seq<string>)
  {
    if |lines| == 0 then []
    else
      var n := |lines| - 1;
      var keep := KindOf(lines[n]) == DataKind && OpenBefore(Kinds(lines[..n]), n);
      Collected(lines[..n]) + (if keep then [lines[n]] else [])
  }

  /** The loop's `collecting` flag says exactly whether a block is open after the lines. */
  lemma {:induction false} ScanCollecting(lines: seq<string>)
    ensures ScanLines(lines).collecting <==> OpenBefore(Kinds(lines), |lines|)
    decreases |lines|
  {
    if |lines| > 0 {
      var n := |lines| - 1;
      ScanCollecting(lines[..n]);
      OpenBeforeStep(Kinds(lines[..n]), KindOf(lines[n]));
      ScanLineCollecting(ScanLines(lines[..n]), lines[n]);
    }
  }

  /** One step of the loop sets `collecting` on a `begin` line, clears it on an `end` line and keeps it otherwise. */
  lemma ScanLineCollecting(st: Scan, line: string)
    ensures ScanLine(st, line).collecting
      <==> KindOf(line) == BeginKind || (KindOf(line) != EndKind && st.collecting)
  {
  }

  /** A step keeps the line exactly when it is a data line and the loop is collecting. */
  lemma ScanLineEncoded(st: Scan, line: string)
    ensures ScanLine(st, line).encoded
      == st.encoded + (if KindOf(line) == DataKind && st.collecting then [line] else [])
  {
  }

  /** A block is open after one more line when it is a `begin` line, or when it is not an `end` line and a block was open before it. */
  lemma OpenBeforeStep(ks: seq<LineKind>, k: LineKind)
    ensures OpenBefore(ks + [k], |ks| + 1)
      <==> k == BeginKind || (k != EndKind && OpenBefore(ks, |ks|))
  {
    var n := |ks|;
    var ks' := ks + [k];
    assert ks'[n] == k;
    if k == BeginKind {
      assert Quiet(ks', n + 1, n + 1);
    } else if k == EndKind {
    } else {
      if OpenBefore(ks', n + 1) {
        OpenBeforeDrop(ks, k);
      }
      if OpenBefore(ks, n) {
        OpenBeforeKeep(ks, k);
      }
    }
  }

  lemma OpenBeforeDrop(ks: seq<LineKind>, k: LineKind)
    requires k != BeginKind && OpenBefore(ks + [k], |ks| + 1)
    ensures OpenBefore(ks, |ks|)
  {
    var n := |ks|;
    var ks' := ks + [k];
    var j :| 0 <= j < n + 1 && ks'[j] == BeginKind && Quiet(ks', j + 1, n + 1);
    assert j < n && ks[j] == BeginKind;
    forall m | j + 1 <= m < n
      ensures ks[m] != BeginKind && ks[m] != EndKind
    {
      assert ks'[m] == ks[m];
    }
  }

  lemma OpenBeforeKeep(ks: seq<LineKind>, k: LineKind)
    requires k != BeginKind && k != EndKind && OpenBefore(ks, |ks|)
    ensures OpenBefore(ks + [k], |ks| + 1)
  {
    var n := |ks|;
    var ks' := ks + [k];
    var j :| 0 <= j < n && ks[j] == BeginKind && Quiet(ks, j + 1, n);
    assert ks'[j] == BeginKind;
    forall m | j + 1 <= m < n + 1
      ensures ks'[m] != BeginKind && ks'[m] != EndKind
    {
      if m < n {
        assert ks'[m] == ks[m];
      }
    }
  }

  /**
   * The loop keeps exactly the data lines that lie inside a block and are
   * neither `begin` nor `end` lines, in their order.
   */
  lemma {:induction false} ScanEncoded(lines: seq<string>)
    ensures ScanLines(lines).encoded == Collected(lines)
    decreases |lines|
  {
    if |lines| > 0 {
      var n := |lines| - 1;
      ScanEncoded(lines[..n]);
      ScanCollecting(lines[..n]);
      ScanLineEncoded(ScanLines(lines[..n]), lines[n]);
    }
  }

  /** Line `j` is a `begin` line and no later line is. */
  predicate LastBeginAt(lines: seq<string>, j: nat)
  {
    j < |lines| && MatchBegin(lines[j]).Some? && NoBegin(lines, j + 1, |lines|)
  }

  /** No line in `lines[from..to]` is a `begin` line. */
  predicate NoBegin(lines: seq<string>, from: nat, to: nat)
    requires to <= |lines|
  {
    forall m :: from <= m < to ==> MatchBegin(lines[m]).None?
  }

  lemma NoBeginExtend(lines: seq<string>, from: nat, to: nat)
    requires to < |lines| && NoBegin(lines, from, to) && MatchBegin(lines[to]).None?
    ensures NoBegin(lines, from, to + 1)
  {
  }

  lemma NoBeginPrefix(lines: seq<string>, n: nat, from: nat, to: nat)
    requires to <= n <= |lines|
    ensures NoBegin(lines[..n], from, to) <==> NoBegin(lines, from, to)
  {
    assert forall m :: from <= m < to ==> lines[..n][m] == lines[m];
  }

  /** The header of the last `begin` line among `lines`, if any. */
  ghost predicate HeaderIs(lines: seq<string>, st: Scan)
  {
    exists j: nat :: (LastBeginAt(lines, j)
      && st.fileName.Some? && st.fileMode.Some?
      && MatchBegin(lines[j]) == Some(BeginLine(st.fileMode.value, st.fileName.value)))
  }

  /** Without a `begin` line the name and mode stay unset. */
  lemma {:induction false} ScanNoHeader(lines: seq<string>)
    ensures ScanLines(lines).fileName.None? ==> NoBegin(lines, 0, |lines|)
    decreases |lines|
  {
    if |lines| > 0 {
      var n := |lines| - 1;
      ScanNoHeader(lines[..n]);
      ScanLineNoName(ScanLines(lines[..n]), lines[n]);
      if ScanLines(lines).fileName.None? {
        NoBeginPrefix(lines, n, 0, n);
        NoBeginExtend(lines, 0, n);
      }
    }
  }

  /** A step that leaves the name unset saw no `begin` line and started from an unset name. */
  lemma ScanLineNoName(st: Scan, line: string)
    ensures ScanLine(st, line).fileName.None? ==> st.fileName.None? && MatchBegin(line).None?
  {
  }

  /** The recorded name and mode are those of the last `begin` line: a later `begin` overrides. */
  lemma {:induction false} ScanFields(lines: seq<string>)
    ensures ScanLines(lines).fileName.Some? ==> HeaderIs(lines, ScanLines(lines))
    decreases |lines|
  {
    if |lines| > 0 {
      var n := |lines| - 1;
      if MatchBegin(lines[n]).Some? {
        assert LastBeginAt(lines, n);
      } else {
        ScanFields(lines[..n]);
        ScanFieldsKept(lines);
      }
    }
  }

  /** A line that is not a `begin` line keeps the recorded name and mode, and the header they came from. */
  lemma ScanFieldsKept(lines: seq<string>)
    requires |lines| > 0 && MatchBegin(lines[|lines| - 1]).None?
    requires var st0 := ScanLines(lines[..|lines| - 1]); st0.fileName.Some? ==> HeaderIs(lines[..|lines| - 1], st0)
    ensures ScanLines(lines).fileName.Some? ==> HeaderIs(lines, ScanLines(lines))
  {
    var n := |lines| - 1;
    var st0 := ScanLines(lines[..n]);
    var st := ScanLines(lines);
    assert st.fileName == st0.fileName && st.fileMode == st0.fileMode;
    if st.fileName.Some? {
      LastBeginExtends(lines, st0, st);
    }
  }

  lemma LastBeginExtends(lines: seq<string>, st0: Scan, st: Scan)
    requires |lines| > 0 && MatchBegin(lines[|lines| - 1]).None?
    requires HeaderIs(lines[..|lines| - 1], st0)
    requires st.fileName == st0.fileName && st.fileMode == st0.fileMode
    ensures HeaderIs(lines, st)
  {
    var n := |lines| - 1;
    var init := lines[..n];
    var j: nat :| LastBeginAt(init, j)
      && st0.fileName.Some? && st0.fileMode.Some?
      && MatchBegin(init[j]) == Some(BeginLine(st0.fileMode.value, st0.fileName.value));
    assert init[j] == lines[j];
    NoBeginPrefix(lines, n, j + 1, n);
    NoBeginExtend(lines, j + 1, n);
    assert LastBeginAt(lines, j);
  }

  // -----------------------------------------------------------------------
  // Decoding

  /** `(c.charCodeAt(0) - 32) & 0x3F`: the low six bits of the code less 32 (never negative). */
  function Sextet(c: char): (v: nat)
    ensures v < 64
    ensures 32 <= c as int < 96 ==> v == (c as int) - 32
  {
    ((c as int) - 32) % 64
  }

  /**
   * The three bytes of one group of four 6-bit values. Each is at most 255:
   * 63 * 4 + 3, 15 * 16 + 15 and 3 * 64 + 63.
   */
  function GroupBytes(c0: nat, c1: nat, c2: nat, c3: nat): (r: seq<byte>)
    requires c0 < 64 && c1 < 64 && c2 < 64 && c3 < 64
    ensures |r| == 3
  {
    [(c0 * 4 + c1 / 16) as byte, ((c1 % 16) * 16 + c2 / 4) as byte, ((c2 % 4) * 64 + c3) as byte]
  }

  /**
   * The byte formulas are the source's shift and mask expressions on 32-bit
   * integers: `(c0 << 2) | (c1 >> 4)`, `((c1 & 0x0F) << 4) | (c2 >> 2)` and
   * `((c2 & 0x03) << 6) | c3`.
   */
  lemma ShiftMaskFormulas(c0: bv32, c1: bv32, c2: bv32, c3: bv32)
    requires c0 < 64 && c1 < 64 && c2 < 64 && c3 < 64
    ensures (c0 << 2) | (c1 >> 4) == c0 * 4 + c1 / 16
    ensures ((c1 & 0x0F) << 4) | (c2 >> 2) == (c1 % 16) * 16 + c2 / 4
    ensures ((c2 & 0x03) << 6) | c3 == (c2 % 4) * 64 + c3
    ensures c0 * 4 + c1 / 16 < 256 && (c1 % 16) * 16 + c2 / 4 < 256 && (c2 % 4) * 64 + c3 < 256
  {
  }

  /** The bytes of the group of four characters at `i`. */
  function GroupAt(line: string, i: nat): (r: seq<byte>)
    requires i + 3 < |line|
    ensures |r| == 3
  {
    GroupBytes(Sextet(line[i]), Sextet(line[i + 1]), Sextet(line[i + 2]), Sextet(line[i + 3]))
  }

  /** The bytes of every complete group of four characters from index `i` on. */
  function Groups(line: string, i: nat): (r: seq<byte>)
    ensures |r| == if i <= |line| then 3 * ((|line| - i) / 4) else 0
    decreases |line| - i
  {
    if i + 3 >= |line| then [] else GroupAt(line, i) + Groups(line, i + 4)
  }

  function Min(a: int, b: int): int
  {
    if a < b then a else b
  }

  /**
   * The bytes one collected line contributes: none for a line of at most one
   * character or with declared length 0, otherwise the first `length` bytes of
   * its complete groups.
   */
  function DecodeLine(line: string): (r: seq<byte>)
    ensures |line| <= 1 || Sextet(line[0]) == 0 ==> r == []
    ensures |line| > 1 && Sextet(line[0]) > 0 ==> |r| == Min(Sextet(line[0]), 3 * ((|line| - 1) / 4))
  {
    if |line| <= 1 then []
    else
      var length := Sextet(line[0]);
      if length == 0 then [] else Take(Groups(line, 1), length)
  }

  /** The decoded data: the lines' bytes concatenated in line order. */
  function DecodeData(lines: seq<string>): (r: seq<byte>)
    ensures |r| <= 63 * |lines|
  {
    if |lines| == 0 then [] else DecodeData(lines[..|lines| - 1]) + DecodeLine(lines[|lines| - 1])
  }

  /** What `uudecode` returns. */
  datatype Decoded = Decoded(fileName: Option<string>, fileMode: Option<string>, data: seq<byte>)

  /** `uudecode(text)`. */
  function Decode(text: string): Decoded
  {
    var st := ScanLines(SplitLines(text));
    Decoded(st.fileName, st.fileMode, DecodeData(st.encoded))
  }

  /** Cutting to `n` after appending is cutting to `n` once. */
  lemma TakeAppendTake(x: seq<byte>, y: seq<byte>, n: nat)
    requires |x| <= n
    ensures Take(x + y, n) == x + Take(y, n - |x|)
  {
    if n < |x + y| {
      assert (x + y)[..n] == x + y[..n - |x|];
    }
  }

  /** `if (bytes.length < n) bytes.push(x)`. */
  function PushBelow(bytes: seq<byte>, x: byte, n: nat): seq<byte>
  {
    if |bytes| < n then bytes + [x] else bytes
  }

  /** The three guarded pushes of one group keep at most `n` bytes and agree with cutting at `n`. */
  lemma GuardedPushes(bytes: seq<byte>, g: seq<byte>, rest: seq<byte>, n: nat)
    requires |bytes| <= n && |g| == 3
    ensures var b3 := PushBelow(PushBelow(PushBelow(bytes, g[0], n), g[1], n), g[2], n);
      |b3| <= n && Take(b3 + rest, n) == Take(bytes + (g + rest), n)
  {
    var b3 := PushBelow(PushBelow(PushBelow(bytes, g[0], n), g[1], n), g[2], n);
    PushesPrefix(bytes, g, n);
    var k := |b3| - |bytes|;
    TakeAppendTake(bytes, g + rest, n);
    TakeAppendTake(b3, rest, n);
    TakeThrough(g, rest, k, n - |bytes|);
    assert bytes + (g[..k] + Take(rest, n - |bytes| - k)) == b3 + Take(rest, n - |b3|);
  }

  /** The guarded pushes append the first `k` bytes of the group, and stop early only at `n`. */
  lemma PushesPrefix(bytes: seq<byte>, g: seq<byte>, n: nat)
    requires |bytes| <= n && |g| == 3
    ensures var b3 := PushBelow(PushBelow(PushBelow(bytes, g[0], n), g[1], n), g[2], n);
      && |bytes| <= |b3| <= |bytes| + 3 && |b3| <= n
      && b3 == bytes + g[..|b3| - |bytes|]
      && (|b3| < |bytes| + 3 ==> |b3| == n)
  {
    if n - |bytes| == 0 {
      assert g[..0] == [];
    } else if n - |bytes| == 1 {
      assert g[..1] == [g[0]];
    } else if n - |bytes| == 2 {
      assert g[..2] == [g[0], g[1]];
    } else {
      assert g[..3] == [g[0], g[1], g[2]];
    }
  }

  /** Cutting `g + rest` at `m` keeps `k` elements of `g`: all of it, or exactly `m` of it. */
  lemma TakeThrough(g: seq<byte>, rest: seq<byte>, k: nat, m: nat)
    requires k <= |g| && k <= m && (k < |g| ==> k == m)
    ensures Take(g + rest, m) == g[..k] + Take(rest, m - k)
  {
    if k < |g| {
      assert (g + rest)[..m] == g[..k];
    } else {
      assert g[..k] == g;
      TakeAppendTake(g, rest, m);
    }
  }

  /**
   * The inner loop of the reducer: for a line of more than one character with
   * a non-zero declared length, push the bytes of each complete group of four
   * characters while fewer than `length` bytes have been pushed.
   */
  method DecodeLineBytes(line: string) returns (bytes: seq<byte>)
    ensures bytes == DecodeLine(line)
  {
    if |line| <= 1 {
      return [];
    }
    var length := Sextet(line[0]);
    if length == 0 {
      return [];
    }
    bytes := [];
    var i := 1;
    while i < |line|
      invariant 1 <= i
      invariant |bytes| <= length
      invariant Take(bytes + Groups(line, i), length) == Take(Groups(line, 1), length)
      decreases |line| - i
    {
      if i + 3 >= |line| {
        break;
      }
      var c0, c1, c2, c3 := Sextet(line[i]), Sextet(line[i + 1]), Sextet(line[i + 2]), Sextet(line[i + 3]);
      ghost var g := GroupAt(line, i);
      ghost var rest := Groups(line, i + 4);
      assert Groups(line, i) == g + rest;
      GuardedPushes(bytes, g, rest, length);
      bytes := PushGroup(bytes, c0, c1, c2, c3, length);
      i := i + 4;
    }
    TakeAppendTake(bytes, [], length);
    assert bytes + [] == bytes;
  }

  /**
   * The three guarded pushes of one group, with the source's shift and mask
   * expressions written as multiplication, division and remainder.
   */
  method PushGroup(bytes: seq<byte>, c0: nat, c1: nat, c2: nat, c3: nat, length: nat) returns (out: seq<byte>)
    requires c0 < 64 && c1 < 64 && c2 < 64 && c3 < 64
    ensures var g := GroupBytes(c0, c1, c2, c3);
      out == PushBelow(PushBelow(PushBelow(bytes, g[0], length), g[1], length), g[2], length)
  {
    out := bytes;
    if |out| < length {
      out := out + [(c0 * 4 + c1 / 16) as byte];
    }
    if |out| < length {
      out := out + [((c1 % 16) * 16 + c2 / 4) as byte];
    }
    if |out| < length {
      out := out + [((c2 % 4) * 64 + c3) as byte];
    }
  }

  /**
   * `uudecode(text)`: the line loop that collects the data lines and records
   * the last header, then the reducer that concatenates every line's bytes.
   */
  method Uudecode(text: string) returns (r: Decoded)
    ensures r == Decode(text)
  {
    var lines := SplitLines(text);
    var collecting := false;
    var fileName: Option<string> := None;
    var fileMode: Option<string> := None;
    var encoded: seq<string> := [];
    for k := 0 to |lines|
      invariant Scan(collecting, fileName, fileMode, encoded) == ScanLines(lines[..k])
    {
      var line := lines[k];
      ScanLinesStep(lines, k);
      var beginMatch := MatchBegin(line);
      if beginMatch.Some? {
        collecting := true;
        fileMode := Some(beginMatch.value.mode);
        fileName := Some(beginMatch.value.name);
      } else if IsEndLine(line) {
        collecting := false;
      } else if collecting && IsDataLine(line) {
        encoded := encoded + [line];
      }
    }
    WholePrefix(lines);
    var data := DecodeAll(encoded);
    r := Decoded(fileName, fileMode, data);
  }

  /** The reducer of `uudecode`: every collected line's bytes, concatenated in order. */
  method DecodeAll(encoded: seq<string>) returns (data: seq<byte>)
    ensures data == DecodeData(encoded)
  {
    data := [];
    for j := 0 to |encoded|
      invariant data == DecodeData(encoded[..j])
    {
      var bytes := DecodeLineBytes(encoded[j]);
      DecodeDataStep(encoded, j);
      data := data + bytes;
    }
    WholePrefix(encoded);
  }

  lemma DecodeDataStep(lines: seq<string>, j: nat)
    requires j < |lines|
    ensures DecodeData(lines[..j + 1]) == DecodeData(lines[..j]) + DecodeLine(lines[j])
  {
    PrefixOfPrefix(lines, j);
  }

  // -----------------------------------------------------------------------
  // Round trip for full lines

  /** The uuencode character of a 6-bit value, with the backquote for 0. */
  function EncodeChar(v: nat): (c: char)
    requires v < 64
    ensures Sextet(c) == v
    ensures 'M' <= c <= '`' || c == '!' || ('"' <= c < 'M')
  {
    if v == 0 then '`' else (v + 32) as char
  }

  /** Three bytes as four characters. */
  function EncodeGroup(b0: byte, b1: byte, b2: byte): (r: string)
    ensures |r| == 4
  {
    var x, y, z := b0 as int, b1 as int, b2 as int;
    [EncodeChar(x / 4), EncodeChar((x % 4) * 16 + y / 16), EncodeChar((y % 16) * 4 + z / 64), EncodeChar(z % 64)]
  }

  function EncodeGroups(bs: seq<byte>): (r: string)
    requires |bs| % 3 == 0
    ensures |r| == |bs| / 3 * 4
  {
    if |bs| == 0 then [] else EncodeGroup(bs[0], bs[1], bs[2]) + EncodeGroups(bs[3..])
  }

  /** A full data line: the length character `M` (45) and fifteen groups. */
  function EncodeFullLine(bs: seq<byte>): (line: string)
    requires |bs| == 45
    ensures |line| == 61 && line[0] == 'M'
  {
    [EncodeChar(45)] + EncodeGroups(bs)
  }

  /** The decoding formulas invert the encoding of a group. */
  lemma GroupRoundTrip(b0: byte, b1: byte, b2: byte)
    ensures var e := EncodeGroup(b0, b1, b2);
      GroupBytes(Sextet(e[0]), Sextet(e[1]), Sextet(e[2]), Sextet(e[3])) == [b0, b1, b2]
  {
    var x, y, z := b0 as int, b1 as int, b2 as int;
    var s0, s1, s2, s3 := x / 4, (x % 4) * 16 + y / 16, (y % 16) * 4 + z / 64, z % 64;
    assert s1 / 16 == x % 4 && s1 % 16 == y / 16;
    assert s2 / 4 == y % 16 && s2 % 4 == z / 64;
    assert s0 * 4 + s1 / 16 == x;
    assert (s1 % 16) * 16 + s2 / 4 == y;
    assert (s2 % 4) * 64 + s3 == z;
  }

  lemma GroupAtEncoded(line: string, i: nat, bs: seq<byte>)
    requires |bs| >= 3 && |bs| % 3 == 0 && i <= |line| && line[i..] == EncodeGroups(bs)
    ensures i + 3 < |line| && GroupAt(line, i) == bs[..3]
  {
    var e := EncodeGroup(bs[0], bs[1], bs[2]);
    assert line[i..][..4] == e;
    GroupAtChars(line, i, e);
    GroupRoundTrip(bs[0], bs[1], bs[2]);
    FirstThree(bs);
  }

  lemma FirstThree<T>(s: seq<T>)
    requires |s| >= 3
    ensures s[..3] == [s[0], s[1], s[2]]
  {
  }

  /** The group at `i` is read from the four characters there. */
  lemma GroupAtChars(line: string, i: nat, e: string)
    requires |e| == 4 && i + 4 <= |line| && line[i..][..4] == e
    ensures GroupAt(line, i) == GroupBytes(Sextet(e[0]), Sextet(e[1]), Sextet(e[2]), Sextet(e[3]))
  {
    assert line[i] == e[0] && line[i + 1] == e[1] && line[i + 2] == e[2] && line[i + 3] == e[3];
  }

  lemma EncodedTail(line: string, i: nat, bs: seq<byte>)
    requires |bs| >= 3 && |bs| % 3 == 0 && i <= |line| && line[i..] == EncodeGroups(bs)
    ensures i + 4 <= |line| && line[i + 4..] == EncodeGroups(bs[3..])
  {
    assert line[i..][4..] == EncodeGroups(bs[3..]);
  }

  lemma {:induction false} GroupsOfEncoded(line: string, i: nat, bs: seq<byte>)
    requires |bs| % 3 == 0 && i <= |line| && line[i..] == EncodeGroups(bs)
    ensures Groups(line, i) == bs
    decreases |bs|
  {
    if |bs| > 0 {
      EncodedTail(line, i, bs);
      GroupsOfEncoded(line, i + 4, bs[3..]);
      GroupAtEncoded(line, i, bs);
      assert bs == bs[..3] + bs[3..];
    }
  }

  /** A full line decodes to the 45 bytes it encodes. */
  lemma FullLineRoundTrip(bs: seq<byte>)
    requires |bs| == 45
    ensures DecodeLine(EncodeFullLine(bs)) == bs
  {
    var line := EncodeFullLine(bs);
    assert line[1..] == EncodeGroups(bs);
    GroupsOfEncoded(line, 1, bs);
  }

  /** The full data lines of a payload cut into 45-byte chunks. */
  function EncodeLines(chunks: seq<seq<byte>>): (lines: seq<string>)
    requires forall k :: 0 <= k < |chunks| ==> |chunks[k]| == 45
    ensures |lines| == |chunks|
    ensures forall k :: 0 <= k < |lines| ==> lines[k] == EncodeFullLine(chunks[k])
  {
    if |chunks| == 0 then []
    else EncodeLines(chunks[..|chunks| - 1]) + [EncodeFullLine(chunks[|chunks| - 1])]
  }

  /** Decoding the full lines of a payload gives back the payload. */
  lemma {:induction false} DecodeFullLines(chunks: seq<seq<byte>>)
    requires forall k :: 0 <= k < |chunks| ==> |chunks[k]| == 45
    ensures DecodeData(EncodeLines(chunks)) == Flatten(chunks)
    decreases |chunks|
  {
    if |chunks| > 0 {
      var n := |chunks| - 1;
      DecodeFullLines(chunks[..n]);
      DecodeDataSnoc(EncodeLines(chunks[..n]), EncodeFullLine(chunks[n]));
      FullLineRoundTrip(chunks[n]);
    }
  }

  lemma DecodeDataSnoc(lines: seq<string>, line: string)
    ensures DecodeData(lines + [line]) == DecodeData(lines) + DecodeLine(line)
  {
    assert (lines + [line])[..|lines|] == lines;
  }

  /** A full data line is neither a `begin` nor an `end` line, and it is collected. */
  lemma FullLineKind(line: string)
    requires |line| > 0 && line[0] == 'M'
    ensures MatchBegin(line).None? && !IsEndLine(line) && IsDataLine(line)
  {
  }

  lemma CollectFullLine(st: Scan, line: string)
    requires st.collecting && |line| > 0 && line[0] == 'M'
    ensures ScanLine(st, line) == st.(encoded := st.encoded + [line])
  {
    FullLineKind(line);
  }

  /** After the header, every full data line is collected and the header stays recorded. */
  lemma {:induction false} ScanAfterHeader(head: string, enc: seq<string>, mode: string, name: string)
    requires MatchBegin(head) == Some(BeginLine(mode, name))
    requires forall k :: 0 <= k < |enc| ==> |enc[k]| > 0 && enc[k][0] == 'M'
    ensures ScanLines([head] + enc) == Scan(true, Some(name), Some(mode), enc)
    decreases |enc|
  {
    if |enc| == 0 {
      assert [head] == [] + [head];
      ScanLinesSnoc([], head);
    } else {
      var n := |enc| - 1;
      ScanAfterHeader(head, enc[..n], mode, name);
      ConsSnoc(head, enc);
      ScanLinesSnoc([head] + enc[..n], enc[n]);
      CollectFullLine(Scan(true, Some(name), Some(mode), enc[..n]), enc[n]);
      InitLast(enc);
    }
  }

  lemma ScanLinesSnoc(init: seq<string>, line: string)
    ensures ScanLines(init + [line]) == ScanLine(ScanLines(init), line)
  {
    assert (init + [line])[..|init|] == init;
  }

  /** A header line written with single spaces has no line feed and does not end in CR. */
  lemma HeaderLinePlain(mode: string, name: string)
    requires IsMode(mode) && IsName(name)
    ensures var h := "begin " + mode + " " + name;
      (forall j :: 0 <= j < |h| ==> h[j] != '\n') && DropCR(h) == h
  {
    var h := "begin " + mode + " " + name;
    forall j | 0 <= j < |h|
      ensures h[j] != '\n'
    {
      if j >= 7 + |mode| {
        assert h[j] == name[j - 7 - |mode|];
      } else if j >= 6 {
        if j < 6 + |mode| {
          assert h[j] == mode[j - 6];
        }
      }
    }
    assert h[|h| - 1] == name[|name| - 1];
  }

  /** The lines of a block of full data lines, as `uuencode` writes it. */
  function BlockLines(mode: string, name: string, chunks: seq<seq<byte>>): seq<string>
    requires forall k :: 0 <= k < |chunks| ==> |chunks[k]| == 45
  {
    ["begin " + mode + " " + name] + EncodeLines(chunks) + ["end"]
  }

  lemma BlockLinesPlain(mode: string, name: string, chunks: seq<seq<byte>>)
    requires IsMode(mode) && IsName(name)
    requires forall k :: 0 <= k < |chunks| ==> |chunks[k]| == 45
    ensures var lines := BlockLines(mode, name, chunks);
      forall i :: 0 <= i < |lines| ==> PlainLine(lines, i)
  {
    var lines := BlockLines(mode, name, chunks);
    var enc := EncodeLines(chunks);
    HeaderLinePlain(mode, name);
    forall i | 0 <= i < |lines|
      ensures PlainLine(lines, i)
    {
      if 0 < i <= |enc| {
        var line := lines[i];
        assert line == EncodeFullLine(chunks[i - 1]);
        forall j | 0 <= j < |line|
          ensures line[j] != '\n' && line[j] != '\r'
        {
          if j > 0 {
            assert line[1..] == EncodeGroups(chunks[i - 1]);
            EncodedCharsPrintable(chunks[i - 1], j - 1);
          }
        }
      }
    }
  }

  lemma {:induction false} EncodedCharsPrintable(bs: seq<byte>, j: nat)
    requires |bs| % 3 == 0 && j < |EncodeGroups(bs)|
    ensures '!' <= EncodeGroups(bs)[j] <= '`'
    decreases |bs|
  {
    if j >= 4 {
      EncodedCharsPrintable(bs[3..], j - 4);
    }
  }

  /**
   * Decoding a block of full data lines joined with line feeds gives back
   * the payload, the name and the mode.
   */
  lemma DecodeBlock(mode: string, name: string, chunks: seq<seq<byte>>)
    requires IsMode(mode) && IsName(name)
    requires forall k :: 0 <= k < |chunks| ==> |chunks[k]| == 45
    ensures Decode(Join(BlockLines(mode, name, chunks), "\n")) == Decoded(Some(name), Some(mode), Flatten(chunks))
  {
    BlockLinesPlain(mode, name, chunks);
    SplitLinesJoin(BlockLines(mode, name, chunks));
    BlockScan(mode, name, chunks);
    DecodeFullLines(chunks);
  }

  /** The line loop over a block ends outside the block, with the header's fields and the data lines. */
  lemma BlockScan(mode: string, name: string, chunks: seq<seq<byte>>)
    requires IsMode(mode) && IsName(name)
    requires forall k :: 0 <= k < |chunks| ==> |chunks[k]| == 45
    ensures ScanLines(BlockLines(mode, name, chunks)) == Scan(false, Some(name), Some(mode), EncodeLines(chunks))
  {
    var head := "begin " + mode + " " + name;
    var enc := EncodeLines(chunks);
    MatchBeginWritten(mode, name);
    ScanAfterHeader(head, enc, mode, name);
    ScanLinesSnoc([head] + enc, "end");
    EndLineKind();
  }

  lemma EndLineKind()
    ensures MatchBegin("end").None? && IsEndLine("end")
  {
    assert "end"[3..] == [];
  }
}
