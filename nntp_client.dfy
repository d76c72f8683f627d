/**
 * The NNTP client (RFC 3977): one outstanding-command slot, a byte and a text
 * accumulator fed by socket `data` chunks, the fixed command table, and the
 * pure parsers applied to a completed response (LIST, GROUP, ARTICLE).
 *
 * A socket `data` event is the method `Client.Receive`; the promise that
 * `sendCommand` returns is the `CommandResult` that `Receive` hands back when
 * the response completes. Written bytes are recorded in the `written` field.
 */
module Nntp {
  import opened Wrappers
  import opened Strings
  import opened Mail

  const CRLF: string := "\r\n"

  /** CRLF and the multi-line terminator CRLF "." CRLF of RFC 3977 section 3.1.1, as octets. */
  const CRLF_BYTES: seq<byte> := [13, 10]
  const TERMINATOR_BYTES: seq<byte> := [13, 10, 46, 13, 10]

  datatype Command = Connect | ListGroups | SelectGroup | Disconnect | GetArticle

  /** One row of the command table: wire verb, expected status code, completion indicator. */
  datatype CommandDef = CommandDef(verb: string, responseCode: string, completeIndicator: string)

  /**
   * The command table: greeting (RFC 3977 section 5.1), LIST (7.6.1), GROUP
   * (6.1.1), QUIT (5.4) and ARTICLE (6.2.1). LIST completes on ".\r\n", not on
   * the full "\r\n.\r\n" terminator.
   */
  function Def(c: Command): (d: CommandDef)
    ensures IsStatusCode(d.responseCode)
    ensures EndsWith(d.completeIndicator, "\r\n")
    ensures IsVerb(d.verb)
  {
    match c
    case Connect => CommandDef("", "200", "\r\n")
    case ListGroups => CommandDef("LIST", "215", ".\r\n")
    case SelectGroup => CommandDef("GROUP", "211", "\r\n")
    case Disconnect => CommandDef("QUIT", "205", "\r\n")
    case GetArticle => CommandDef("ARTICLE", "220", "\r\n.\r\n")
  }

  /** A three-digit status code (RFC 3977 section 3.2). */
  predicate IsStatusCode(code: string)
  {
    |code| == 3 && IsDigit(code[0]) && IsDigit(code[1]) && IsDigit(code[2])
  }

  /** A command verb: upper-case letters only. */
  predicate IsVerb(verb: string)
  {
    forall i :: 0 <= i < |verb| ==> 'A' <= verb[i] <= 'Z'
  }

  datatype Status = Success | Error

  /** What a completed command resolves with. */
  datatype CommandResult = CommandResult(
    command: Command,
    status: Status,
    statusLine: string,
    responseString: string,
    responseBuffer: seq<byte>)

  /** What the `data` handler does with one chunk. */
  datatype Delivery =
    | Unsolicited          // no command outstanding: the handler throws
    | Pending              // appended; the response is not complete yet
    | Completed(result: CommandResult)

  datatype SendOutcome = Sent | Busy

  /** The line `sendCommand` writes: the verb, then " " and the parameters when they are non-empty, then CRLF. */
  function CommandLine(c: Command, params: string): string
  {
    RequestLine(Def(c).verb, params)
  }

  function RequestLine(verb: string, params: string): string
  {
    verb + (if params != "" then " " + params else "") + CRLF
  }

  /** Text without a CR, followed by text without a CRLF, contains no CRLF. */
  lemma NoCrLfAfter(pre: string, rest: string)
    requires forall i :: 0 <= i < |pre| ==> pre[i] != '\r'
    requires IndexOf(rest, CRLF, 0).None?
    ensures IndexOf(pre + rest, CRLF, 0).None?
  {
    forall j | 0 <= j
      ensures !OccursAt(pre + rest, CRLF, j)
    {
      NoCrLfAt(pre, rest, j);
    }
  }

  lemma NoCrLfAt(pre: string, rest: string, j: nat)
    requires forall i :: 0 <= i < |pre| ==> pre[i] != '\r'
    requires IndexOf(rest, CRLF, 0).None?
    ensures !OccursAt(pre + rest, CRLF, j)
  {
    var s := pre + rest;
    if j + 2 > |s| {
    } else if j < |pre| {
      assert s[j] == pre[j];
      assert s[j..j + 2][0] == s[j];
    } else {
      assert s[j..j + 2] == rest[j - |pre|..j - |pre| + 2];
      assert !OccursAt(rest, CRLF, j - |pre|);
    }
  }

  /**
   * A command line is a single line (RFC 3977 section 3.1) from which the verb
   * and the parameters can be read back.
   */
  lemma CommandLineFraming(c: Command, params: string)
    requires IndexOf(params, CRLF, 0).None?
    ensures IndexOf(CommandLine(c, params), CRLF, 0) == Some(|CommandLine(c, params)| - 2)
    ensures StartsWith(CommandLine(c, params), Def(c).verb)
    ensures params == "" ==> CommandLine(c, params) == Def(c).verb + CRLF
    ensures params != "" ==> ParamsAt(CommandLine(c, params), |Def(c).verb|, params)
  {
    RequestLineFraming(Def(c).verb, params);
  }

  lemma RequestLineFraming(verb: string, params: string)
    requires IsVerb(verb)
    requires IndexOf(params, CRLF, 0).None?
    ensures IndexOf(RequestLine(verb, params), CRLF, 0) == Some(|RequestLine(verb, params)| - 2)
    ensures StartsWith(RequestLine(verb, params), verb)
    ensures params == "" ==> RequestLine(verb, params) == verb + CRLF
    ensures params != "" ==> ParamsAt(RequestLine(verb, params), |verb|, params)
  {
    var body := if params != "" then verb + " " + params else verb;
    BodySingleLine(verb, params, body);
    LineAtEnd(body);
    if params != "" {
      assert body + CRLF == RequestLine(verb, params);
      ParamsReadBack(verb, params);
    } else {
      assert body + CRLF == RequestLine(verb, params);
      assert RequestLine(verb, params)[..|verb|] == verb;
    }
  }

  /** `line` holds a space at `i`, then `params`, then its final CRLF. */
  predicate ParamsAt(line: string, i: nat, params: string)
  {
    i + 1 <= |line| - 2 && line[i] == ' ' && line[i + 1..|line| - 2] == params
  }

  lemma LineAtEnd(body: string)
    requires SeparatorFree(body, CRLF)
    ensures IndexOf(body + CRLF, CRLF, 0) == Some(|body|)
  {
    FirstSeparatorAfter(body, CRLF, []);
    assert body + CRLF + [] == body + CRLF;
  }

  lemma ParamsReadBack(verb: string, params: string)
    ensures StartsWith(verb + " " + params + CRLF, verb)
    ensures ParamsAt(verb + " " + params + CRLF, |verb|, params)
  {
    var line := verb + " " + params + CRLF;
    assert line[..|verb|] == verb;
    assert line[|verb| + 1..|line| - 2] == params;
  }

  /** The verb, optionally followed by a space and CRLF-free parameters, contains no CRLF. */
  lemma BodySingleLine(verb: string, params: string, body: string)
    requires IsVerb(verb)
    requires IndexOf(params, CRLF, 0).None?
    requires body == if params != "" then verb + " " + params else verb
    ensures SeparatorFree(body, CRLF)
  {
    var pre := if params != "" then verb + " " else verb;
    var rest := if params != "" then params else "";
    assert body == pre + rest;
    assert forall i :: 0 <= i < |pre| ==> pre[i] != '\r';
    NoCrLfAfter(pre, rest);
    PairSeparatorFree(body, CRLF);
  }

  /** `text.split('\r\n')[0]`: the status line. */
  function StatusLine(text: string): (line: string)
    ensures StartsWith(text, line)
    ensures IndexOf(line, CRLF, 0).None?
    ensures line == text || OccursAt(text, CRLF, |line|)
  {
    SplitPiecesFree(text, CRLF);
    Split(text, CRLF)[0]
  }

  /**
   * The completion rule of the `data` handler: the response is complete when
   * the accumulated text ends with the indicator or does not start with the
   * expected code, and it is a success exactly when it starts with the code.
   * `None` means "keep waiting".
   */
  function Classify(d: CommandDef, text: string): (r: Option<Status>)
    ensures r == Some(Success) <==> StartsWith(text, d.responseCode) && EndsWith(text, d.completeIndicator)
    ensures r == Some(Error) <==> !StartsWith(text, d.responseCode)
    ensures r.None? <==> StartsWith(text, d.responseCode) && !EndsWith(text, d.completeIndicator)
  {
    if EndsWith(text, d.completeIndicator) || !StartsWith(text, d.responseCode) then
      Some(if StartsWith(text, d.responseCode) then Success else Error)
    else None
  }

  class Client {
    var currentCommand: Option<Command>
    var responseString: string
    var responseBuffer: seq<byte>
    var selectedGroup: Option<string>
    /** Every line written to the socket, oldest first. */
    var written: seq<string>

    constructor ()
      ensures currentCommand == None && responseString == [] && responseBuffer == []
      ensures selectedGroup == None && written == []
    {
      currentCommand := None;
      responseString := [];
      responseBuffer := [];
      selectedGroup := None;
      written := [];
    }

    /** `connect()`: the server's greeting is framed as the response to the implicit `connect` command. */
    method Connect()
      modifies this`currentCommand
      ensures currentCommand == Some(Command.Connect)
    {
      currentCommand := Some(Command.Connect);
    }

    /**
     * The socket `data` handler. The chunk is appended to both accumulators
     * (its text is the socket's decoding of its bytes); with no command
     * outstanding the handler throws and the data stays accumulated.
     */
    method Receive(chunk: seq<byte>, chunkText: string) returns (delivery: Delivery)
      modifies this`currentCommand, this`responseString, this`responseBuffer
      ensures var buffer, text := old(responseBuffer) + chunk, old(responseString) + chunkText;
        match old(currentCommand)
        case None =>
          delivery == Unsolicited && currentCommand == None
          && responseBuffer == buffer && responseString == text
        case Some(c) =>
          match Classify(Def(c), text)
          case None =>
            delivery == Pending && currentCommand == Some(c)
            && responseBuffer == buffer && responseString == text
          case Some(status) =>
            delivery == Completed(CommandResult(c, status, StatusLine(text), text, buffer))
            && currentCommand == None && responseBuffer == [] && responseString == []
    {
      responseBuffer := responseBuffer + chunk;
      responseString := responseString + chunkText;
      if currentCommand.None? {
        return Unsolicited;
      }
      var c := currentCommand.value;
      var d := Def(c);
      if EndsWith(responseString, d.completeIndicator) || !StartsWith(responseString, d.responseCode) {
        var status := if StartsWith(responseString, d.responseCode) then Success else Error;
        delivery := Completed(CommandResult(c, status, StatusLine(responseString), responseString, responseBuffer));
        responseBuffer := [];
        responseString := [];
        currentCommand := None;
      } else {
        delivery := Pending;
      }
    }

    /**
     * `sendCommand`: with a command outstanding it rejects and writes nothing;
     * otherwise it takes the slot and writes the command line.
     */
    method SendCommand(c: Command, params: string) returns (outcome: SendOutcome)
      modifies this`currentCommand, this`written
      ensures outcome == Busy <==> old(currentCommand).Some?
      ensures outcome == Busy ==> currentCommand == old(currentCommand) && written == old(written)
      ensures outcome == Sent ==> currentCommand == Some(c) && written == old(written) + [CommandLine(c, params)]
    {
      if currentCommand.Some? {
        return Busy;
      }
      currentCommand := Some(c);
      written := written + [CommandLine(c, params)];
      outcome := Sent;
    }

    /** `!this.selectedGroup` is false: a non-empty group name is remembered. */
    predicate HasSelectedGroup()
      reads this
    {
      selectedGroup.Some? && selectedGroup.value != ""
    }

    /**
     * `selectGroup(name)` once its GROUP response has arrived: an error leaves
     * the remembered group alone, a success remembers the fifth token.
     */
    method CompleteSelectGroup(result: CommandResult) returns (outcome: SelectOutcome)
      modifies this`selectedGroup
      ensures result.status == Error ==>
        outcome == SelectFailed(result.statusLine) && selectedGroup == old(selectedGroup)
      ensures result.status == Success ==>
        outcome == Selected(ParseGroupStatus(result.statusLine))
        && selectedGroup == ParseGroupStatus(result.statusLine).groupName
    {
      if result.status == Error {
        return SelectFailed(result.statusLine);
      }
      var status := ParseGroupStatus(result.statusLine);
      selectedGroup := status.groupName;
      outcome := Selected(status);
    }

    /**
     * The part of `getArticle(number)` before the response: without a selected
     * group it throws before anything is sent; otherwise it issues ARTICLE.
     */
    method RequestArticle(number: int) returns (outcome: Result<(), ArticleError>)
      modifies this`currentCommand, this`written
      ensures !old(HasSelectedGroup()) ==>
        outcome == Err(NoGroupSelected) && currentCommand == old(currentCommand) && written == old(written)
      ensures old(HasSelectedGroup()) && old(currentCommand).Some? ==>
        outcome == Err(CommandBusy) && currentCommand == old(currentCommand) && written == old(written)
      ensures old(HasSelectedGroup()) && old(currentCommand).None? ==>
        outcome == Ok(()) && currentCommand == Some(GetArticle)
        && written == old(written) + [CommandLine(GetArticle, IntString(number))]
    {
      if !HasSelectedGroup() {
        return Err(NoGroupSelected);
      }
      var sent := SendCommand(GetArticle, IntString(number));
      if sent == Busy {
        return Err(CommandBusy);
      }
      outcome := Ok(());
    }
  }

  // -----------------------------------------------------------------------
  // LIST

  /** One line of the LIST response body. `None` stands for `undefined` or `NaN`. */
  datatype GroupListing = GroupListing(group: string, last: Option<int>, first: Option<int>, flag: Option<string>)

  function Field(tokens: seq<string>, i: nat): Option<string>
  {
    if i < |tokens| then Some(tokens[i]) else None
  }

  /** `parseInt` of a field that may be `undefined`. */
  function ParseField(field: Option<string>): Option<int>
  {
    match field
    case None => None
    case Some(s) => ParseInt(s)
  }

  /** `const [group, last, first, flag] = line.split(' ')`. */
  function ParseListLine(line: string): (r: GroupListing)
    ensures PieceAt(line, r.group, ' ')
    ensures ' ' !in line ==> r == GroupListing(line, None, None, None)
  {
    var tokens := Split(line, " ");
    SplitFirstPiece(line, ' ');
    SplitSingle(line, ' ');
    GroupListing(tokens[0], ParseField(Field(tokens, 1)), ParseField(Field(tokens, 2)), Field(tokens, 3))
  }

  /** `responseString.split('\r\n').slice(1, -2)`. */
  function BodyLines(responseString: string): seq<string>
  {
    var lines := Split(responseString, CRLF);
    if |lines| >= 3 then lines[1..|lines| - 2] else []
  }

  /** `listGroups()` applied to the completed LIST response. */
  function ParseGroupList(responseString: string): (r: seq<GroupListing>)
    ensures var lines := Split(responseString, CRLF);
      && |r| == (if |lines| >= 3 then |lines| - 3 else 0)
      && forall i :: 0 <= i < |r| ==> r[i] == ParseListLine(lines[i + 1])
  {
    var body := BodyLines(responseString);
    seq(|body|, i requires 0 <= i < |body| => ParseListLine(body[i]))
  }

  /** Lines without CRLF are safe to join with CRLF and split again. */
  lemma CrLfFreeParts(parts: seq<string>)
    requires forall k :: 0 <= k < |parts| ==> IndexOf(parts[k], CRLF, 0).None?
    ensures forall k :: 0 <= k < |parts| ==> SeparatorFree(parts[k], CRLF)
  {
    forall k | 0 <= k < |parts|
      ensures SeparatorFree(parts[k], CRLF)
    {
      PairSeparatorFree(parts[k], CRLF);
    }
  }

  /**
   * For a well-framed LIST response (status line, body lines, "." line, each
   * ending in CRLF), `listGroups` yields one record per body line, in order.
   */
  lemma ParseGroupListFramed(status: string, lines: seq<string>)
    requires IndexOf(status, CRLF, 0).None?
    requires forall k :: 0 <= k < |lines| ==> IndexOf(lines[k], CRLF, 0).None?
    ensures var response := Join([status] + lines + [".", ""], CRLF);
      ParseGroupList(response) == seq(|lines|, i requires 0 <= i < |lines| => ParseListLine(lines[i]))
  {
    var parts := [status] + lines + [".", ""];
    FramedPartsFree(status, lines);
    SplitJoin(parts, CRLF);
    assert parts[1..|parts| - 2] == lines;
    assert BodyLines(Join(parts, CRLF)) == lines;
  }

  /** The parts of a framed LIST response are CRLF-free. */
  lemma FramedPartsFree(status: string, lines: seq<string>)
    requires IndexOf(status, CRLF, 0).None?
    requires forall k :: 0 <= k < |lines| ==> IndexOf(lines[k], CRLF, 0).None?
    ensures var parts := [status] + lines + [".", ""];
      forall k :: 0 <= k < |parts| ==> SeparatorFree(parts[k], CRLF)
  {
    var parts := [status] + lines + [".", ""];
    assert IndexOf(".", CRLF, 0).None?;
    assert IndexOf("", CRLF, 0).None?;
    forall k | 0 <= k < |parts|
      ensures IndexOf(parts[k], CRLF, 0).None?
    {
      if 0 < k <= |lines| {
        assert parts[k] == lines[k - 1];
      }
    }
    CrLfFreeParts(parts);
  }

  /** A LIST line of four space-free tokens is read back field by field. */
  lemma ParseListLineFields(group: string, last: int, first: int, flag: string)
    requires forall i :: 0 <= i < |group| ==> group[i] != ' '
    requires forall i :: 0 <= i < |flag| ==> flag[i] != ' '
    ensures ParseListLine(Join([group, IntString(last), IntString(first), flag], " "))
         == GroupListing(group, Some(last), Some(first), Some(flag))
  {
    var tokens := [group, IntString(last), IntString(first), flag];
    NumeralSpaceFree(last);
    NumeralSpaceFree(first);
    forall k | 0 <= k < 4
      ensures SeparatorFree(tokens[k], " ")
    {
      SingleSeparatorFree(tokens[k], ' ');
    }
    SplitJoin(tokens, " ");
    ParseIntString(last);
    ParseIntString(first);
  }

  lemma NumeralSpaceFree(n: int)
    ensures forall i :: 0 <= i < |IntString(n)| ==> IntString(n)[i] != ' '
  {
    var s := IntString(n);
    var m: nat := if n < 0 then -n else n;
    forall i | 0 <= i < |s|
      ensures s[i] != ' '
    {
      if n < 0 && i > 0 {
        assert s[i] == NatString(m)[i - 1];
      }
    }
  }

  // -----------------------------------------------------------------------
  // GROUP

  /** `const [statusCode, totalEstimate, first, last, groupName] = statusLine.split(' ')`. */
  datatype GroupStatus = GroupStatus(
    statusCode: string,
    totalEstimate: Option<int>,
    first: Option<int>,
    last: Option<int>,
    groupName: Option<string>)

  datatype SelectOutcome = SelectFailed(message: string) | Selected(status: GroupStatus)

  function ParseGroupStatus(statusLine: string): (r: GroupStatus)
    ensures PieceAt(statusLine, r.statusCode, ' ')
    ensures ' ' !in statusLine ==> r == GroupStatus(statusLine, None, None, None, None)
    ensures r.groupName.Some? <==> |Split(statusLine, " ")| >= 5
  {
    var tokens := Split(statusLine, " ");
    SplitFirstPiece(statusLine, ' ');
    SplitSingle(statusLine, ' ');
    GroupStatus(tokens[0], ParseField(Field(tokens, 1)), ParseField(Field(tokens, 2)),
                ParseField(Field(tokens, 3)), Field(tokens, 4))
  }

  /**
   * The GROUP status line of RFC 3977 section 6.1.1, "211 number low high
   * group", is read back field by field.
   */
  lemma ParseGroupStatusFields(code: string, total: int, first: int, last: int, group: string)
    requires forall i :: 0 <= i < |code| ==> code[i] != ' '
    requires forall i :: 0 <= i < |group| ==> group[i] != ' '
    ensures ParseGroupStatus(Join([code, IntString(total), IntString(first), IntString(last), group], " "))
         == GroupStatus(code, Some(total), Some(first), Some(last), Some(group))
  {
    var tokens := [code, IntString(total), IntString(first), IntString(last), group];
    NumeralSpaceFree(total);
    NumeralSpaceFree(first);
    NumeralSpaceFree(last);
    forall k | 0 <= k < 5
      ensures SeparatorFree(tokens[k], " ")
    {
      SingleSeparatorFree(tokens[k], ' ');
    }
    SplitJoin(tokens, " ");
    ParseIntString(total);
    ParseIntString(first);
    ParseIntString(last);
  }

  // -----------------------------------------------------------------------
  // ARTICLE

  datatype ArticleError = NoGroupSelected | CommandBusy | ProtocolError(statusLine: string)

  /** `buffer.slice(start, end)` for non-negative bounds. */
  function Slice<T>(s: seq<T>, start: nat, end: nat): (r: seq<T>)
    ensures start <= end <= |s| ==> r == s[start..end]
    ensures start < |s| < end ==> r == s[start..]
    ensures end <= start || |s| <= start ==> r == []
    ensures |r| <= |s|
  {
    var a := if start < |s| then start else |s|;
    var b := if end < |s| then end else |s|;
    if a < b then s[a..b] else []
  }

  /** A JavaScript index result: -1 for "not found". */
  function IndexValue(r: Option<nat>): int
  {
    match r
    case None => -1
    case Some(i) => i
  }

  /**
   * The payload `getArticle` hands to the MIME parser: the bytes after the
   * first CRLF up to and including the CRLF before the last CRLF "." CRLF;
   * an error status fails with the status line.
   */
  function ArticleBytes(result: CommandResult): (r: Result<seq<byte>, ArticleError>)
    ensures r.Err? <==> result.status == Error
    ensures r.Err? ==> r.error == ProtocolError(result.statusLine)
    ensures r.Ok? ==> |r.value| <= |result.responseBuffer|
    ensures r.Ok? && IndexOf(result.responseBuffer, CRLF_BYTES, 0).Some?
                  && LastIndexOf(result.responseBuffer, TERMINATOR_BYTES).Some? ==>
      var i := IndexOf(result.responseBuffer, CRLF_BYTES, 0).value;
      var j := LastIndexOf(result.responseBuffer, TERMINATOR_BYTES).value;
      r.value == if i <= j then result.responseBuffer[i + 2..j + 2] else []
  {
    if result.status == Error then Err(ProtocolError(result.statusLine))
    else
      var buffer := result.responseBuffer;
      var start := IndexValue(IndexOf(buffer, CRLF_BYTES, 0)) + 2;
      var end := IndexValue(LastIndexOf(buffer, TERMINATOR_BYTES)) + 2;
      Ok(Slice(buffer, start, end))
  }

  /** The article `getArticle` resolves with: the parser's reading of the payload. */
  function FetchedArticle(result: CommandResult, parse: MimeParser): (r: Result<ParsedMail, ArticleError>)
    ensures r.Err? <==> result.status == Error
    ensures r.Err? ==> r.error == ProtocolError(result.statusLine)
    ensures r.Ok? ==> r.value == parse(ArticleBytes(result).value)
  {
    match ArticleBytes(result)
    case Err(e) => Err(e)
    case Ok(payload) => Ok(parse(payload))
  }

  /**
   * For a success response framed as status line, CRLF, body, terminator, the
   * payload is the body with its final CRLF: the status line and the "." line
   * are gone and no byte is decoded or unstuffed.
   */
  lemma ArticleBytesFramed(result: CommandResult, head: seq<byte>, body: seq<byte>)
    requires result.status == Success
    requires result.responseBuffer == head + CRLF_BYTES + body + TERMINATOR_BYTES
    requires IndexOf(head, CRLF_BYTES, 0).None?
    ensures ArticleBytes(result) == Ok(body + CRLF_BYTES)
  {
    var buffer := result.responseBuffer;
    PairSeparatorFree(head, CRLF_BYTES);
    FirstOfFramed(head, CRLF_BYTES, body, TERMINATOR_BYTES);
    LastOccurrenceAtEnd(head + CRLF_BYTES + body, TERMINATOR_BYTES);
    assert buffer == (head + CRLF_BYTES + body) + TERMINATOR_BYTES;
    ArticleSliceAt(result, |head|, |head| + 2 + |body|);
    MiddleSlice(head + CRLF_BYTES, body, TERMINATOR_BYTES, 2);
    assert TERMINATOR_BYTES[..2] == CRLF_BYTES;
  }

  /** The payload runs from after the first CRLF to after the CRLF that opens the last terminator. */
  lemma ArticleSliceAt(result: CommandResult, i: nat, j: nat)
    requires result.status == Success && i <= j
    requires IndexOf(result.responseBuffer, CRLF_BYTES, 0) == Some(i)
    requires LastIndexOf(result.responseBuffer, TERMINATOR_BYTES) == Some(j)
    ensures j + 2 <= |result.responseBuffer|
    ensures ArticleBytes(result) == Ok(result.responseBuffer[i + 2..j + 2])
  {
  }

  lemma FirstOfFramed<T>(head: seq<T>, sep: seq<T>, body: seq<T>, term: seq<T>)
    requires |sep| > 0 && SeparatorFree(head, sep)
    ensures IndexOf(head + sep + body + term, sep, 0) == Some(|head|)
  {
    FirstSeparatorAfter(head, sep, body + term);
    assert head + sep + body + term == head + sep + (body + term);
  }

  lemma MiddleSlice<T>(a: seq<T>, body: seq<T>, term: seq<T>, k: nat)
    requires k <= |term|
    ensures (a + body + term)[|a|..|a| + |body| + k] == body + term[..k]
  {
    var s := a + body + term;
    assert s[|a|..] == body + term;
    assert s[|a|..|a| + |body| + k] == s[|a|..][..|body| + k];
    assert (body + term)[..|body| + k] == body + term[..k];
  }

  /** A failed ARTICLE response yields its status line as the error. */
  lemma ArticleBytesError(result: CommandResult)
    requires result.status == Error
    ensures ArticleBytes(result) == Err(ProtocolError(result.statusLine))
  {
  }

  // -----------------------------------------------------------------------
  // Properties of the completion rule

  /** A success is a response that starts with the expected code and ends with the indicator. */
  lemma SuccessFraming(c: Command, text: string)
    requires Classify(Def(c), text) == Some(Success)
    ensures StartsWith(text, Def(c).responseCode) && EndsWith(text, Def(c).completeIndicator)
    ensures EndsWith(text, CRLF)
  {
    var ind := Def(c).completeIndicator;
    assert text[|text| - 2..] == ind[|ind| - 2..];
  }

  /**
   * The error short-cut fires on the first chunk that does not start with the
   * code, before any CRLF: the single byte "2" of a greeting "200 ..." already
   * completes the connect command as an error.
   */
  lemma EarlyErrorOnSplitCode()
    ensures Classify(Def(Connect), "2") == Some(Error)
    ensures Classify(Def(Connect), "200 ready\r\n") == Some(Success)
  {
    assert !StartsWith("2", "200");
    assert "200 ready\r\n"[..3] == "200";
    assert "200 ready\r\n"[9..] == "\r\n";
  }

  /** LIST completes on any chunk ending in ".\r\n", before the "\r\n.\r\n" terminator has arrived. */
  lemma ListCompletesOnDotLine()
    ensures Classify(Def(ListGroups), "215 list\r\nalt.x 1 1 y.\r\n") == Some(Success)
  {
    var t := "215 list\r\nalt.x 1 1 y.\r\n";
    assert t[..3] == "215";
    assert t[|t| - 3..] == ".\r\n";
  }

  /**
   * Completion as intended by the framing rule: a response that does not start
   * with the expected code is an error only once its first line is complete.
   */
  function ClassifyAtLineEnd(d: CommandDef, text: string): Option<Status>
  {
    if StartsWith(text, d.responseCode) then
      (if EndsWith(text, d.completeIndicator) then Some(Success) else None)
    else if Contains(text, CRLF) then Some(Error)
    else None
  }

  /**
   * With the intended rule, no prefix of a response that starts with the
   * expected code is ever taken for an error, however the bytes are chunked.
   */
  lemma NoEarlyError(c: Command, full: string, k: nat)
    requires StartsWith(full, Def(c).responseCode) && k <= |full|
    ensures ClassifyAtLineEnd(Def(c), full[..k]) != Some(Error)
  {
    var code := Def(c).responseCode;
    var p := full[..k];
    if !StartsWith(p, code) {
      assert k < 3;
      forall i | 0 <= i < |p|
        ensures p[i] != '\r'
      {
        assert p[i] == code[i];
      }
      NoCrLfAfter(p, "");
      assert p + "" == p;
    }
  }
}
