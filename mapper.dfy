/**
 * Header mapping: recognising a `message/partial` content type (RFC 2046,
 * section 5.2.2) and turning a parsed mail into the fields of an article
 * record, with the Newsgroups and Xref headers of RFC 5536 (sections 3.1.4
 * and 3.2.14) and the References/In-Reply-To parent rule.
 */
module Mapper {
  import opened Wrappers
  import opened Strings
  import opened Mail

  /** The parameters of a `message/partial` content type; `None` is a `NaN` from `parseInt`. */
  datatype PartialParams = PartialParams(number: Option<int>, total: Option<int>, id: string)

  /** One `group:number` entry of the Xref header; `None` when the entry has no `:`. */
  datatype GroupRef = GroupRef(groupName: string, messageNumber: Option<string>)

  datatype Article = Article(
    groups: seq<string>,
    subject: Option<string>,
    from: Option<string>,
    date: Option<string>,
    articleId: Option<string>,
    inGroups: seq<GroupRef>,
    references: seq<string>,
    parent: Option<string>,
    text: Option<string>,
    attachments: seq<Attachment>,
    headers: Headers)

  /** Calling `split` on a header that is missing or is not a string throws. */
  datatype MapError = NotAString(header: string)

  // -----------------------------------------------------------------------
  // checkPartialContentType

  /** The parameter is present and not the empty string. */
  predicate HasParam(params: map<string, string>, key: string)
  {
    key in params && params[key] != ""
  }

  /** A content type the check accepts: `message/partial` with non-empty `number`, `total` and `id`. */
  predicate IsPartialType(headers: Headers)
  {
    && "content-type" in headers
    && headers["content-type"].Structured?
    && Contains(headers["content-type"].value, "message/partial")
    && HasParam(headers["content-type"].params, "number")
    && HasParam(headers["content-type"].params, "total")
    && HasParam(headers["content-type"].params, "id")
  }

  function CheckPartialContentType(headers: Headers): (r: Option<PartialParams>)
    ensures r.Some? <==> IsPartialType(headers)
    ensures r.Some? ==>
      var params := headers["content-type"].params;
      r.value == PartialParams(ParseInt(params["number"]), ParseInt(params["total"]), params["id"])
  {
    if "content-type" !in headers then None
    else
      match headers["content-type"]
      case Structured(value, params) =>
        if !Contains(value, "message/partial") then None
        else if !HasParam(params, "number") || !HasParam(params, "total") || !HasParam(params, "id") then None
        else Some(PartialParams(ParseInt(params["number"]), ParseInt(params["total"]), params["id"]))
      case _ => None
  }

  /** The content-type header of fragment `number` of `total` of the message `id`. */
  function PartialHeader(number: int, total: int, id: string): HeaderValue
  {
    Structured("message/partial", map["number" := IntString(number), "total" := IntString(total), "id" := id])
  }

  /** The parameters written into a `message/partial` content type are read back. */
  lemma PartialRoundTrip(headers: Headers, number: int, total: int, id: string)
    requires id != ""
    ensures CheckPartialContentType(headers["content-type" := PartialHeader(number, total, id)])
      == Some(PartialParams(Some(number), Some(total), id))
  {
    var h := headers["content-type" := PartialHeader(number, total, id)];
    PartialHeaderAccepted(number, total, id);
    assert h["content-type"] == PartialHeader(number, total, id);
    ParseIntString(number);
    ParseIntString(total);
  }

  lemma PartialHeaderAccepted(number: int, total: int, id: string)
    requires id != ""
    ensures var p := PartialHeader(number, total, id);
      && Contains(p.value, "message/partial")
      && HasParam(p.params, "number") && p.params["number"] == IntString(number)
      && HasParam(p.params, "total") && p.params["total"] == IntString(total)
      && HasParam(p.params, "id") && p.params["id"] == id
  {
    assert OccursAt("message/partial", "message/partial", 0);
  }

  // -----------------------------------------------------------------------
  // mapParsedMailToArticle

  /** `headers.get('references') || []`, with a single string made into a one-element list. */
  function References(headers: Headers): (r: seq<string>)
    ensures "references" !in headers ==> r == []
    ensures "references" in headers && headers["references"].Text? ==>
      r == if headers["references"].text == "" then [] else [headers["references"].text]
    ensures "references" in headers && headers["references"].TextList? ==> r == headers["references"].items
  {
    if "references" !in headers then []
    else
      match headers["references"]
      case Text(t) => if t == "" then [] else [t]
      case TextList(items) => items
      case Structured(_, _) => []
  }

  /** `In-Reply-To` when present, else the last reference. */
  function Parent(headers: Headers, references: seq<string>): (r: Option<string>)
    ensures TextHeader(headers, "in-reply-to").Some? ==> r == TextHeader(headers, "in-reply-to")
    ensures r.None? <==> TextHeader(headers, "in-reply-to").None? && |references| == 0
    ensures r.Some? && TextHeader(headers, "in-reply-to").None? ==> r.value == references[|references| - 1]
  {
    if TextHeader(headers, "in-reply-to").Some? then TextHeader(headers, "in-reply-to")
    else if |references| == 0 then None
    else Some(references[|references| - 1])
  }

  /**
   * An Xref entry: the text before the first `:` and the segment between the
   * first `:` and the next one (or the end).
   */
  function GroupRefOf(entry: string): (g: GroupRef)
    ensures PieceAt(entry, g.groupName, ':')
    ensures g.messageNumber.None? <==> ':' !in entry
    ensures g.messageNumber.Some? ==>
      |g.groupName| < |entry| && PieceAt(entry[|g.groupName| + 1..], g.messageNumber.value, ':')
  {
    var parts := Split(entry, ":");
    SplitFirstPiece(entry, ':');
    SplitSecondPiece(entry, ':');
    SplitSingle(entry, ':');
    GroupRef(parts[0], if |parts| > 1 then Some(parts[1]) else None)
  }

  /** The group entries of an Xref header, one per space-separated token. */
  function InGroups(xref: string): (r: seq<GroupRef>)
    ensures |r| == |Split(xref, " ")|
    ensures forall i :: 0 <= i < |r| ==> r[i] == GroupRefOf(Split(xref, " ")[i])
  {
    var entries := Split(xref, " ");
    seq(|entries|, i requires 0 <= i < |entries| => GroupRefOf(entries[i]))
  }

  /** `header.split(...)` needs a string header. */
  function TextHeader(headers: Headers, name: string): Option<string>
  {
    if name in headers && headers[name].Text? then Some(headers[name].text) else None
  }

  function MapParsedMailToArticle(article: ParsedMail, attachments: seq<Attachment>): (r: Result<Article, MapError>)
    ensures r.Ok? <==> TextHeader(article.headers, "newsgroups").Some? && TextHeader(article.headers, "xref").Some?
    ensures TextHeader(article.headers, "newsgroups").None? ==> r == Err(NotAString("newsgroups"))
    ensures TextHeader(article.headers, "newsgroups").Some? && TextHeader(article.headers, "xref").None? ==>
      r == Err(NotAString("xref"))
    ensures r.Ok? ==>
      var groups := TextHeader(article.headers, "newsgroups").value;
      var xref := TextHeader(article.headers, "xref").value;
      && r.value.groups == Split(groups, ",") && Join(r.value.groups, ",") == groups
      && r.value.inGroups == InGroups(xref)
      && |r.value.inGroups| == |Split(xref, " ")|
      && r.value.references == References(article.headers)
      && r.value.parent == Parent(article.headers, References(article.headers))
      && r.value.subject == article.subject && r.value.from == article.from && r.value.date == article.date
      && r.value.attachments == attachments
      && r.value.articleId == article.messageId && r.value.text == article.text
      && r.value.headers == article.headers
  {
    var references := References(article.headers);
    match TextHeader(article.headers, "newsgroups")
    case None => Err(NotAString("newsgroups"))
    case Some(groups) =>
      match TextHeader(article.headers, "xref")
      case None => Err(NotAString("xref"))
      case Some(xref) =>
        JoinSplit(groups, ",");
        Ok(Article(
          Split(groups, ","),
          article.subject,
          article.from,
          article.date,
          article.messageId,
          InGroups(xref),
          references,
          Parent(article.headers, references),
          article.text,
          attachments,
          article.headers))
  }

  // -----------------------------------------------------------------------
  // Round trips and the parent rule

  /** A Newsgroups header written from group names without commas maps back to those names. */
  lemma GroupsRoundTrip(article: ParsedMail, attachments: seq<Attachment>, names: seq<string>)
    requires |names| >= 1 && forall k :: 0 <= k < |names| ==> ',' !in names[k]
    requires "newsgroups" in article.headers && article.headers["newsgroups"] == Text(Join(names, ","))
    requires TextHeader(article.headers, "xref").Some?
    ensures MapParsedMailToArticle(article, attachments).Ok?
    ensures MapParsedMailToArticle(article, attachments).value.groups == names
  {
    forall k | 0 <= k < |names|
      ensures SeparatorFree(names[k], ",")
    {
      SingleSeparatorFree(names[k], ',');
    }
    SplitJoin(names, ",");
  }

  /** The Xref text of a list of entries `name:number`. */
  function XrefLine(refs: seq<(string, string)>): string
  {
    Join(seq(|refs|, i requires 0 <= i < |refs| => refs[i].0 + ":" + refs[i].1), " ")
  }

  /** Names and numbers free of spaces and colons are read back from the Xref text written from them. */
  lemma XrefRoundTrip(refs: seq<(string, string)>)
    requires |refs| >= 1
    requires forall k :: 0 <= k < |refs| ==> ' ' !in refs[k].0 && ':' !in refs[k].0
    requires forall k :: 0 <= k < |refs| ==> ' ' !in refs[k].1 && ':' !in refs[k].1
    ensures var g := InGroups(XrefLine(refs));
      |g| == |refs| && forall k :: 0 <= k < |g| ==> g[k] == GroupRef(refs[k].0, Some(refs[k].1))
  {
    var entries := seq(|refs|, i requires 0 <= i < |refs| => refs[i].0 + ":" + refs[i].1);
    forall k | 0 <= k < |entries|
      ensures SeparatorFree(entries[k], " ")
    {
      EntryFree(refs[k].0, refs[k].1);
      SingleSeparatorFree(entries[k], ' ');
    }
    SplitJoin(entries, " ");
    forall k | 0 <= k < |entries|
      ensures GroupRefOf(entries[k]) == GroupRef(refs[k].0, Some(refs[k].1))
    {
      EntryRoundTrip(refs[k].0, refs[k].1);
    }
  }

  lemma EntryFree(name: string, number: string)
    requires ' ' !in name && ' ' !in number
    ensures ' ' !in name + ":" + number
  {
  }

  lemma EntryRoundTrip(name: string, number: string)
    requires ':' !in name && ':' !in number
    ensures GroupRefOf(name + ":" + number) == GroupRef(name, Some(number))
  {
    SingleSeparatorFree(name, ':');
    SingleSeparatorFree(number, ':');
    SplitJoin([name, number], ":");
    assert Join([name, number], ":") == name + ":" + number;
  }

  /** Without In-Reply-To, the parent is the last reference, and there is none without references. */
  lemma ParentFromReferences(headers: Headers)
    requires "in-reply-to" !in headers
    ensures var refs := References(headers);
      Parent(headers, refs) == if |refs| == 0 then None else Some(refs[|refs| - 1])
  {
  }

  /** An In-Reply-To string wins over the references, even an empty one. */
  lemma ParentFromInReplyTo(headers: Headers, refs: seq<string>, inReplyTo: string)
    ensures Parent(headers["in-reply-to" := Text(inReplyTo)], refs) == Some(inReplyTo)
  {
  }
}
