/**
 * Reassembly of `message/partial` fragments (RFC 2046, section 5.2.2) from a
 * staging store. The store holds, per fragment, the attachment bytes and the
 * article record written when the fragment arrived; both are keyed by the
 * message id and the fragment number.
 */
module Partial {
  import opened Wrappers
  import opened Strings
  import opened Mail
  import opened Mapper

  /** The staging key `<id>-part_<number>`; `None` is the number `NaN`. */
  datatype PartKey = PartKey(id: string, number: Option<int>)

  /** The two fields of a staged article record that the reassembly reads. */
  datatype StagedArticle = StagedArticle(articleId: Option<string>, xref: Option<string>)

  datatype Outcome =
    | InvalidLength            // `Array(total)` throws: `total` is not a valid array length
    | Pending                  // some fragment is not staged yet (the source returns null)
    | IdentityMissing          // fragment 1 has no message id (the source throws)
    | Combined(mail: ParsedMail)

  /** The largest array length JavaScript accepts. */
  const MAX_ARRAY_LENGTH: int := 0xFFFF_FFFF

  predicate ValidTotal(total: Option<int>)
  {
    total.Some? && 0 <= total.value <= MAX_ARRAY_LENGTH
  }

  function Key(id: string, i: int): PartKey
  {
    PartKey(id, Some(i))
  }

  /** The keys of fragments 1 to `n`. */
  function PartKeys(id: string, n: nat): (s: set<PartKey>)
    ensures forall i :: 1 <= i <= n ==> Key(id, i) in s
  {
    set i | 1 <= i <= n :: Key(id, i)
  }

  /** Both artifacts of fragments 1 to `n` are staged. */
  predicate AllStaged(blobs: map<PartKey, seq<byte>>, records: map<PartKey, StagedArticle>, id: string, n: nat)
  {
    forall i :: 1 <= i <= n ==> Key(id, i) in blobs && Key(id, i) in records
  }

  /** The blobs of fragments 1 to `n`, concatenated in ascending order. */
  function Concatenated(blobs: map<PartKey, seq<byte>>, id: string, n: nat): seq<byte>
    requires forall i :: 1 <= i <= n ==> Key(id, i) in blobs
  {
    if n == 0 then [] else Concatenated(blobs, id, n - 1) + blobs[Key(id, n)]
  }

  /** The Xref tokens of one record; a missing or empty Xref contributes nothing. */
  function XrefTokens(a: StagedArticle): seq<string>
  {
    if a.xref.Some? && a.xref.value != "" then Split(a.xref.value, " ") else []
  }

  /** The Xref tokens of fragments 1 to `n`, fragment by fragment. */
  function Xrefs(records: map<PartKey, StagedArticle>, id: string, n: nat): seq<string>
    requires forall i :: 1 <= i <= n ==> Key(id, i) in records
  {
    if n == 0 then [] else Xrefs(records, id, n - 1) + XrefTokens(records[Key(id, n)])
  }

  /** The id fragment 1 was stored with, `''` when it has none or there is no fragment. */
  function Identity(records: map<PartKey, StagedArticle>, id: string, n: nat): string
    requires forall i :: 1 <= i <= n ==> Key(id, i) in records
  {
    if n == 0 then "" else records[Key(id, 1)].articleId.GetOr("")
  }

  // -----------------------------------------------------------------------
  // The insertion-ordered set of Xref tokens

  predicate NoDuplicates(s: seq<string>)
  {
    forall i, j :: 0 <= i < j < |s| ==> s[i] != s[j]
  }

  /** `tokens.forEach(t => set.add(t))` on a set listed in insertion order. */
  function Added(acc: seq<string>, tokens: seq<string>): (r: seq<string>)
    ensures StartsWith(r, acc)
    ensures forall x :: x in r <==> x in acc || x in tokens
    ensures NoDuplicates(acc) ==> NoDuplicates(r)
  {
    if |tokens| == 0 then acc
    else
      var a := Added(acc, tokens[..|tokens| - 1]);
      var t := tokens[|tokens| - 1];
      assert forall x :: x in tokens <==> x in tokens[..|tokens| - 1] || x == t by {
        InitLast(tokens);
      }
      if t in a then a else a + [t]
  }

  /** Adding two lists of tokens is adding the first, then the second. */
  lemma {:induction false} AddedConcat(acc: seq<string>, a: seq<string>, b: seq<string>)
    ensures Added(acc, a + b) == Added(Added(acc, a), b)
    decreases |b|
  {
    if |b| > 0 {
      var n := |b| - 1;
      assert (a + b)[..|a + b| - 1] == a + b[..n];
      assert (a + b)[|a + b| - 1] == b[n];
      AddedConcat(acc, a, b[..n]);
    } else {
      assert a + b == a;
    }
  }

  /** The distinct tokens of `s` in the order of their first occurrence. */
  function Distinct(s: seq<string>): (r: seq<string>)
    ensures NoDuplicates(r) && forall x :: x in r <==> x in s
  {
    Added([], s)
  }

  /** Tokens seen later never move an earlier one: the distinct tokens of a prefix come first. */
  lemma DistinctPrefix(s: seq<string>, k: nat)
    requires k <= |s|
    ensures StartsWith(Distinct(s), Distinct(s[..k]))
  {
    assert s == s[..k] + s[k..];
    AddedConcat([], s[..k], s[k..]);
  }

  /** The parsed message with the merged Xref and the identity of fragment 1. */
  function WithIdentity(parsed: ParsedMail, xrefs: seq<string>, identity: string): ParsedMail
  {
    parsed.(
      headers := parsed.headers["xref" := Text(Join(xrefs, " "))]["messageId" := Text(identity)],
      messageId := Some(identity))
  }

  // -----------------------------------------------------------------------
  // The store

  class StagingStore {
    var attachments: map<PartKey, seq<byte>>
    var articles: map<PartKey, StagedArticle>

    constructor()
      ensures attachments == map[] && articles == map[]
    {
      attachments := map[];
      articles := map[];
    }

    /** Writing a fragment's attachment overwrites whatever was staged under its key. */
    method StageAttachment(id: string, number: Option<int>, content: seq<byte>)
      modifies this
      ensures attachments == old(attachments)[PartKey(id, number) := content]
      ensures articles == old(articles)
    {
      attachments := attachments[PartKey(id, number) := content];
    }

    /** Writing a fragment's article record overwrites whatever was staged under its key. */
    method StageArticle(id: string, number: Option<int>, record: StagedArticle)
      modifies this
      ensures articles == old(articles)[PartKey(id, number) := record]
      ensures attachments == old(attachments)
    {
      articles := articles[PartKey(id, number) := record];
    }

    predicate Complete(id: string, n: nat)
      reads this
    {
      AllStaged(attachments, articles, id, n)
    }

    /**
     * `checkAndCombinePartial`: when every fragment is staged, parse the
     * concatenated attachments, merge the Xref tokens, take the identity of
     * fragment 1 and delete every staged artifact of the message.
     */
    method CheckAndCombine(p: PartialParams, parse: MimeParser) returns (r: Outcome)
      modifies this
      ensures !ValidTotal(p.total) ==> r == InvalidLength
      ensures ValidTotal(p.total) && !old(Complete(p.id, p.total.value)) ==> r == Pending
      ensures ValidTotal(p.total) && old(Complete(p.id, p.total.value)) ==>
        var n := p.total.value;
        var identity := Identity(old(articles), p.id, n);
        if identity == "" then r == IdentityMissing
        else r == Combined(WithIdentity(
          parse(Concatenated(old(attachments), p.id, n)),
          Distinct(Xrefs(old(articles), p.id, n)),
          identity))
      ensures !r.Combined? ==> attachments == old(attachments) && articles == old(articles)
      ensures r.Combined? ==>
        && attachments == old(attachments) - PartKeys(p.id, p.total.value)
        && articles == old(articles) - PartKeys(p.id, p.total.value)
      ensures r.Combined? ==> !Complete(p.id, p.total.value)
    {
      if !ValidTotal(p.total) {
        return InvalidLength;
      }
      var total: nat := p.total.value;
      var id := p.id;
      if !Complete(id, total) {
        return Pending;
      }

      var file := ReadAttachments(id, total);
      var parsed := parse(file);
      var xrefs, articleId := ReadArticles(id, total);
      if articleId == "" {
        return IdentityMissing;
      }

      DeleteAll(id, total);
      r := Combined(WithIdentity(parsed, xrefs, articleId));
    }

    /** The attachment reads and `Buffer.concat`. */
    method ReadAttachments(id: string, n: nat) returns (file: seq<byte>)
      requires Complete(id, n)
      ensures file == Concatenated(attachments, id, n)
    {
      file := [];
      for i := 0 to n
        invariant file == Concatenated(attachments, id, i)
      {
        file := file + attachments[Key(id, i + 1)];
      }
    }

    /** The article reads: the identity of fragment 1 and the Xref tokens added to the set in order. */
    method ReadArticles(id: string, n: nat) returns (xrefs: seq<string>, articleId: string)
      requires Complete(id, n)
      ensures xrefs == Distinct(Xrefs(articles, id, n))
      ensures articleId == Identity(articles, id, n)
    {
      xrefs, articleId := [], "";
      for index := 0 to n
        invariant xrefs == Distinct(Xrefs(articles, id, index))
        invariant articleId == Identity(articles, id, index)
      {
        var article := articles[Key(id, index + 1)];
        if index == 0 {
          articleId := article.articleId.GetOr("");
        }
        AddedConcat([], Xrefs(articles, id, index), XrefTokens(article));
        xrefs := AddTokens(xrefs, XrefTokens(article));
      }
    }

    /** The `forEach` over one fragment's tokens. */
    method AddTokens(acc: seq<string>, tokens: seq<string>) returns (r: seq<string>)
      ensures r == Added(acc, tokens)
    {
      r := acc;
      for k := 0 to |tokens|
        invariant r == Added(acc, tokens[..k])
      {
        PrefixOfPrefix(tokens, k);
        if tokens[k] !in r {
          r := r + [tokens[k]];
        }
      }
      WholePrefix(tokens);
    }

    /** The `unlink` calls: both artifacts of every fragment 1 to `n`. */
    method DeleteAll(id: string, n: nat)
      modifies this
      ensures attachments == old(attachments) - PartKeys(id, n)
      ensures articles == old(articles) - PartKeys(id, n)
      ensures n > 0 ==> !Complete(id, n)
    {
      for index := 0 to n
        invariant attachments == old(attachments) - PartKeys(id, index)
        invariant articles == old(articles) - PartKeys(id, index)
      {
        PartKeysStep(id, index);
        articles := map k | k in articles && k != Key(id, index + 1) :: articles[k];
        attachments := map k | k in attachments && k != Key(id, index + 1) :: attachments[k];
      }
      if n > 0 {
        assert Key(id, 1) in PartKeys(id, n);
      }
    }
  }

  lemma PartKeysStep(id: string, n: nat)
    ensures PartKeys(id, n + 1) == PartKeys(id, n) + {Key(id, n + 1)}
  {
  }

  /** Fragments 1 to `n` have `n` distinct keys, so a combine deletes `2 * n` staged entries. */
  lemma {:induction false} PartKeysCount(id: string, n: nat)
    ensures |PartKeys(id, n)| == n
  {
    if n > 0 {
      PartKeysCount(id, n - 1);
      PartKeysStep(id, n - 1);
      assert Key(id, n) !in PartKeys(id, n - 1);
    }
  }

  /** The concatenation holds each fragment's blob, in place, in ascending order. */
  lemma {:induction false} ConcatenatedParts(blobs: map<PartKey, seq<byte>>, id: string, n: nat, k: nat)
    requires forall i :: 1 <= i <= n ==> Key(id, i) in blobs
    requires 1 <= k <= n
    ensures var pre := Concatenated(blobs, id, k - 1);
      StartsWith(Concatenated(blobs, id, n), pre + blobs[Key(id, k)])
    decreases n
  {
    if k < n {
      ConcatenatedParts(blobs, id, n - 1, k);
    }
  }
}
