# nntp-worker core in Dafny

This project models the part of the nntp-worker that does its own computing.
The worker mirrors a Usenet server into a record store. It does four things:

- It talks NNTP (RFC 3977) through a client with one outstanding-command slot.
- It extracts uuencoded attachments from article text.
- It collapses quoted text in replies.
- It reassembles `message/partial` fragments (RFC 2046, section 5.2.2).

It also maps parsed mail headers to article records and walks each group's
article numbers from a stored sync cursor.

Modules (one file each):

- `Wrappers` (`wrappers.dfy`): `Option` and `Result`.
- `Strings` (`strings.dfy`): the JavaScript string operations the source relies on.
  - `split`/`join`, `trim` and `parseInt`, with their round trips.
  - `Number.prototype.toString`.
- `Mail` (`mail.dfy`): the parsed mail that the external MIME parser delivers, and the attachment record.
- `Nntp` (`nntp_client.dfy`): the client as a class.
  - Fields: the command slot, the byte and text accumulators, the selected group, and the lines written to the socket.
  - A socket `data` event is the method `Client.Receive`.
  - Beside the class: the pure parsers for LIST, GROUP and the ARTICLE payload.
- `UUDecode` (`uudecode.dfy`): the line loop of `uudecode` and its 4-to-3 character decoding.
  - The format is that of the `uuencode` utility of IEEE Std 1003.1.
  - It carries a round trip for payloads written as full 45-byte lines.
- `UUExtract` (`uuextract.dfy`): `extractAllUUEncodedAttachments`.
  - The multiline header pattern driven by `exec`.
  - The ranges up to the next "\nend", the attachment records, and the removal of the ranges from the text.
- `Truncate` (`truncate.dfy`): `truncateText` and its quote pass `truncateQuotes`.
- `Mapper` (`mapper.dfy`): `checkPartialContentType` and `mapParsedMailToArticle`.
  - This includes the Newsgroups and Xref headers of RFC 5536 (sections 3.1.4 and 3.2.14).
- `Partial` (`partial.dfy`): `checkAndCombinePartial` as a method of a staging store.
  - The store is a class with two `map` fields: the attachment blobs and the article records, keyed by message id and fragment number.
- `Groups` (`groups.dfy`): `updateGroupsList` and `downloadAndProcessGroup` as methods of a group store.
  - The repository is reduced to the map from group name to its row (sync cursor and listed bounds).

Each stateful operation has two parts. The method is proved against a function that
specifies it, and the properties are proved as lemmas about that function. External
steps are function-typed parameters:

- the MIME parser;
- the md5 digest;
- the per-article processing step.

## Model

| member | source | states |
|---|---|---|
| Nntp.Def | worker/nntp-client.ts:12-38 | Each command's expected response code is a three-digit status code. Its completion indicator ends in CRLF. Its verb is upper case. The rows are the greeting, LIST (".\r\n"), GROUP, QUIT and ARTICLE. |
| Nntp.Client.constructor | worker/nntp-client.ts:52-65 | A new client has no outstanding command, empty accumulators, no selected group and nothing written. |
| Nntp.Client.Connect | worker/nntp-client.ts:96-99 | Connecting frames the server greeting as the response to the implicit `connect` command. |
| Nntp.Client.Receive | worker/nntp-client.ts:69-93 | Every chunk is appended to both accumulators. With no outstanding command the chunk is unsolicited, and the data stays accumulated. Otherwise the response completes exactly when the text ends with the indicator or does not start with the code. It succeeds exactly when the text starts with the code. On completion, the status line and both accumulators are handed over, and the slot and accumulators are cleared. Otherwise everything waits. |
| Nntp.StatusLine | worker/nntp-client.ts:80 | The status line is a prefix of the response and contains no CRLF. It is the whole text, or it is followed by a CRLF. |
| Nntp.Client.SendCommand | worker/nntp-client.ts:114-125 | With a command outstanding, the call is rejected, and neither the slot nor the written lines change. Otherwise it takes the slot and writes exactly one command line. |
| Nntp.CommandLineFraming | worker/nntp-client.ts:125 | The written command line is a single line ending in CRLF. It starts with the verb. It is the verb alone when the parameters are empty; otherwise a space and the parameters follow. |
| Nntp.RequestLineFraming | worker/nntp-client.ts:125 | The same framing, for any upper-case verb. |
| Nntp.ParseGroupListFramed | worker/nntp-client.ts:134-146 | For a LIST response framed as status line, body lines, "." line, each followed by CRLF, `listGroups` yields one record per body line, in order. |
| Nntp.ParseGroupList | worker/nntp-client.ts:134-146 | One record per CRLF-separated line strictly between the status line and the last two pieces, in order; none when there are fewer than three pieces. |
| Nntp.ParseListLine | worker/nntp-client.ts:137-144 | The group name is the line up to its first space; a line without a space is a group name with no numbers and no flag. |
| Nntp.ParseListLineFields | worker/nntp-client.ts:137-144 | A LIST line of group, last, first and flag tokens is read back field by field. The numbers go through `parseInt`. |
| Nntp.Client.CompleteSelectGroup | worker/nntp-client.ts:152-173 | An error response returns its status line and leaves the selected group unchanged. A success selects the fifth token of the status line. |
| Nntp.ParseGroupStatus | worker/nntp-client.ts:162-171 | The status code is the status line up to its first space. A line without a space is all code and has no numbers and no group name. The group name is present exactly when the line has at least five space-separated tokens. |
| Nntp.ParseGroupStatusFields | worker/nntp-client.ts:162-171 | A GROUP status line "211 number low high group" (RFC 3977 section 6.1.1) is read back field by field. |
| Nntp.Client.RequestArticle | worker/nntp-client.ts:175-179 | Without a selected group, the call fails before anything is written. With a command outstanding, it is rejected. Otherwise it sends ARTICLE with the decimal number. |
| Nntp.Classify | worker/nntp-client.ts:79-84 | A response is a success exactly when it starts with the expected code and ends with the completion indicator, an error exactly when it does not start with the code, and still pending otherwise. |
| Nntp.Slice | worker/nntp-client.ts:188 | `Buffer.slice` with bounds clamped to the buffer: the bytes from `start` to `end` when both lie in it, up to the end when only `end` lies past it, nothing when `end` is not after `start`. |
| Nntp.ArticleBytes | worker/nntp-client.ts:181-188 | The call fails exactly on an error status, with the status line. On success the payload runs from after the first CRLF to after the CRLF that opens the last CRLF "." CRLF, and is empty when the terminator comes first. |
| Nntp.ArticleSliceAt | worker/nntp-client.ts:188 | With the first CRLF at `i` and the last terminator at `j ≥ i`, the payload is the bytes from `i + 2` to `j + 2`. |
| Nntp.FetchedArticle | worker/nntp-client.ts:175-193 | The article fails exactly on an error status, with the status line; otherwise it is the parser's reading of the payload. |
| Nntp.ArticleBytesFramed | worker/nntp-client.ts:188 | For a success framed as status line, CRLF, body, CRLF "." CRLF, the payload is the body with its final CRLF. The bytes are neither decoded nor dot-unstuffed. |
| Nntp.ArticleBytesError | worker/nntp-client.ts:181-183 | An error status fails with the status line. |
| Nntp.SuccessFraming | worker/nntp-client.ts:79-84 | A success starts with the expected code and ends with the indicator, and hence with CRLF. |
| Nntp.EarlyErrorOnSplitCode | worker/nntp-client.ts:79 | A chunk holding only "2" completes the greeting as an error, while the full greeting succeeds. |
| Nntp.ListCompletesOnDotLine | worker/nntp-client.ts:21 | LIST completes on any chunk ending in ".\r\n", before the "\r\n.\r\n" terminator. |
| Nntp.NoEarlyError | worker/nntp-client.ts:79 | Under a rule that reports an error only once the first line is complete, no prefix of a response that starts with the code is an error. |
| UUDecode.SplitLines | worker/uudecode.ts:12 | `split(/\r?\n/)` yields at least one line, and no line holds a line feed. |
| UUDecode.SplitLinesJoin | worker/uudecode.ts:12 | Lines joined with line feeds split back into the same lines. |
| UUDecode.ParseHeaderMatch | worker/uudecode.ts:7 | A header read by `begin\s+(\d+)\s+(\S+)` has a digit mode and a non-space name, and the name ends at whitespace or at the end. |
| UUDecode.MatchBegin | worker/uudecode.ts:22 | A matched `begin` line starts with "begin" and has a digit mode and a non-space name. |
| UUDecode.ParseHeaderWritten | worker/uudecode.ts:7 | A `begin <mode> <name>` line written with single spaces is read back with that mode and name. |
| UUDecode.ScanLines | worker/uudecode.ts:14-40 | The loop collects only data lines, no more than there are lines. Name and mode are set together. |
| UUDecode.KindOf | worker/uudecode.ts:22-39 | A line is classified by the loop's tests in order: `begin`, then `end`, then data line. |
| UUDecode.ScanCollecting | worker/uudecode.ts:22-34 | After the loop, `collecting` holds exactly when the last `begin` or `end` line seen is a `begin` line. |
| UUDecode.ScanEncoded | worker/uudecode.ts:20-39 | The collected lines are exactly the data lines inside a block, in order. |
| UUDecode.ScanFields | worker/uudecode.ts:22-28 | The recorded name and mode are those of the last `begin` line: a later `begin` overrides. |
| UUDecode.ScanNoHeader | worker/uudecode.ts:15-28 | Without a `begin` line the name and mode stay null. |
| UUDecode.Uudecode | worker/uudecode.ts:5-71 | `uudecode` returns the name and mode of the line loop and the data of the reducer, as `Decode` specifies. |
| UUDecode.DecodeAll | worker/uudecode.ts:43-64 | The reducer concatenates every collected line's bytes in line order. |
| UUDecode.DecodeLineBytes | worker/uudecode.ts:44-63 | The inner loop pushes bytes group by group while fewer than the declared length are held. The result equals the declared-length prefix of all complete groups' bytes. |
| UUDecode.DecodeLine | worker/uudecode.ts:44-61 | A line of length at most 1, or with declared length 0, contributes nothing. Any other line contributes min(declared length, 3 × complete groups) bytes. |
| UUDecode.Sextet | worker/uudecode.ts:47 | `(c - 32) & 0x3F` is below 64, and equals c - 32 on the printable range. |
| UUDecode.ShiftMaskFormulas | worker/uudecode.ts:58-60 | The three shift/mask expressions on 32-bit values equal the arithmetic used in the model, and each is below 256. |
| UUDecode.PushGroup | worker/uudecode.ts:58-60 | The three guarded pushes append the group's bytes while fewer than the declared length are held. |
| UUDecode.Groups | worker/uudecode.ts:52-53 | Only complete groups of four characters after the first decode: 3 bytes per group. |
| UUDecode.DecodeData | worker/uudecode.ts:43-64 | Each collected line adds at most 63 bytes. |
| UUDecode.GroupRoundTrip | worker/uudecode.ts:56-60 | The decoding formulas invert the encoding of three bytes as four characters. |
| UUDecode.FullLineRoundTrip | worker/uudecode.ts:44-61 | A full `M` line decodes to the 45 bytes it encodes. |
| UUDecode.DecodeFullLines | worker/uudecode.ts:43-64 | Decoding the full lines of a payload gives back the payload. |
| UUDecode.BlockScan | worker/uudecode.ts:20-40 | Over a written block, the loop ends outside the block with the header's name and mode and every data line. |
| UUDecode.DecodeBlock | worker/uudecode.ts:5-71 | A block written as header, full data lines and `end` decodes to its name, mode and payload. |
| UUDecode.EncodeChar | worker/uudecode.ts:56 | The encoding character of a 6-bit value is read back by the sextet rule. |
| UUExtract.LastLineEnd | worker/uudecode.ts:74 | The greedy `\s*$` ends at the last position in reach where `$` matches in multiline mode. |
| UUExtract.BeginMatchAt | worker/uudecode.ts:74 | A match of the header pattern starts at a line start with "begin" and ends inside the text. |
| UUExtract.NextMatch | worker/uudecode.ts:80 | `exec` from `lastIndex` returns a match at or after it that the pattern accepts there. |
| UUExtract.NextMatchFirst | worker/uudecode.ts:80 | That match is the first one: nothing matches between `lastIndex` and it, nor anywhere after `lastIndex` when none is found. |
| UUExtract.RangeAt | worker/uudecode.ts:83-92 | A header with a later "\nend" records the range from the header to just after that "\nend". |
| UUExtract.BlocksFrom | worker/uudecode.ts:80-94 | The recorded ranges lie in the text, each ends just after a "\nend", and their starts strictly increase. |
| UUExtract.ResultsFrom | worker/uudecode.ts:80-94 | Only blocks that decode to at least one byte are kept. |
| UUExtract.ResultAt | worker/uudecode.ts:85-90 | A block is kept only when a "\nend" follows and it decodes to some bytes. |
| UUExtract.FindBlocks | worker/uudecode.ts:80-94 | The `exec` loop records the ranges and keeps the decoded blocks in match order, as `BlocksFrom` and `ResultsFrom` specify. |
| UUExtract.CollectBlock | worker/uudecode.ts:82-93 | One loop pass appends the block's range and, when it decodes to bytes, its result. |
| UUExtract.CutAll | worker/uudecode.ts:102-109 | The reverse loop cuts the ranges from last to first. |
| UUExtract.RemainingText | worker/uudecode.ts:97-109 | The returned text is the input with no range, empty with one range, and the cut text with more. |
| UUExtract.RemoveOrdered | worker/uudecode.ts:102-109 | On ordered, non-overlapping ranges, the reverse cutting leaves exactly the text between the ranges. |
| UUExtract.RemoveRangesAppend | worker/uudecode.ts:105-108 | Cutting ranges that lie in a prefix leaves what follows it in place. |
| UUExtract.GapsLast | worker/uudecode.ts:105-108 | The text between ordered ranges is the text up to the last range, then the text after it. |
| UUExtract.ExtractedCleaned | worker/uudecode.ts:97-109 | With no range the text is returned unchanged. With more than one range that are ordered and do not overlap, the returned text is the text with every range removed. |
| UUExtract.SingleRangeEmptiesText | worker/uudecode.ts:97-109 | With exactly one range the returned text is empty. The text around the block, which a cut keeps, is lost. |
| UUExtract.CleanedText | worker/uudecode.ts:102-109 | The intended text: the reverse cut applied to the merged ranges, which is the text between the merged ranges, and the text between the ranges themselves when they are already ordered. |
| UUExtract.Merged | worker/uudecode.ts:102-109 | Merging overlapping ranges never adds a range. |
| UUExtract.MergedOrdered | worker/uudecode.ts:102-109 | Merged ranges that lie in the text are ordered and do not overlap. |
| UUExtract.MergedKeepsOrdered | worker/uudecode.ts:102-109 | Ranges that are already ordered are left as they are. |
| UUExtract.BlocksOrdered | worker/uudecode.ts:80-94 | When no header match starts inside the range of an earlier header, the recorded ranges are ordered and do not overlap. |
| UUExtract.FirstBlockAtMatch | worker/uudecode.ts:80-92 | The first recorded range starts at a header match. |
| UUExtract.ExtractedGaps | worker/uudecode.ts:73-109 | When no header sits inside an earlier range, the returned text for any number of ranges but one is exactly the text between the ranges. |
| UUExtract.NestedHeadersShareStop | worker/uudecode.ts:80-92 | Two headers before one "\nend" record two ranges with the same end, the second inside the first, so the ranges are not ordered. |
| UUExtract.NestedCutLosesTail | worker/uudecode.ts:105-108 | On two nested ranges with a common end `t`, the reverse cut leaves the text before the outer range and the text from `t + (t − s2)` on: `t − s2` characters after the block are lost. |
| UUExtract.NestedExtractedDiffers | worker/uudecode.ts:97-109 | For two nested ranges the returned text is `t − s2` characters shorter than the cleaned text. |
| UUExtract.NestedCleaned | worker/uudecode.ts:97-109 | The cleaned text of two nested ranges is the text around the outer one. |
| UUExtract.AttachmentsOf | worker/uudecode.ts:116-125 | One record per kept block, in order. The content type is "application/octet-stream" and the size is positive. |
| UUExtract.ExtractAllAttachments | worker/uudecode.ts:73-135 | The result holds the ranges of the header pattern's blocks in match order. It holds one record per block decoding to some bytes: file name or "", size = decoded length, md5 checksum, "application/octet-stream". Its text is the input with no range, "" with one, and the cut text with more. |
| Truncate.Filtered | worker/truncate.ts:57-67 | The filter keeps at most as many lines as it is given, and some line when given any. |
| Truncate.MarkAll | worker/truncate.ts:68-72 | A quoted line becomes its first 49 characters plus " ...[truncated]". Other lines pass unchanged. |
| Truncate.TrimLines | worker/truncate.ts:55-56 | Every line is trimmed. |
| Truncate.TruncateQuotes | worker/truncate.ts:51-79 | The loop computes `Quotes`. In each run of consecutive trimmed lines starting with `level` `>`s, only the first survives. The flag becomes true once any line is quoted and never resets. |
| Truncate.QuotedBeforeStep | worker/truncate.ts:58-59 | The flag after a line is the flag before it, or that line being quoted. |
| Truncate.QuotesLineCount | worker/truncate.ts:52-73 | A pass never outputs more lines than it was given. |
| Truncate.QuotesSingleLine | worker/truncate.ts:52-73 | A single trimmed line comes out marked when quoted and unchanged otherwise. |
| Truncate.MarkedTwice | worker/truncate.ts:69-71 | Marking a short quoted line appends the marker, and marking it again changes it. |
| Truncate.QuotesNotIdempotent | worker/truncate.ts:51-79 | The pass is not idempotent: a quoted line shorter than 49 characters is marked again by a second pass. |
| Truncate.Passes | worker/truncate.ts:13-29 | For a root article no pass runs and nothing is flagged. |
| Truncate.RunPass | worker/truncate.ts:13-17 | A pass runs only for a reply whose current text is longer than the threshold. |
| Truncate.TruncateText | worker/truncate.ts:1-40 | The flag comes from the passes only. The text is the post-pass text cut to the budget (8000 for roots, 4000 otherwise), so never longer. The full-text file is present exactly when flagged or cut, and holds the original. A root returns its first 8000 characters, unflagged. |
| Truncate.PassesLineCount | worker/truncate.ts:13-29 | The passes never add lines. |
| Truncate.ShortReplyUntouched | worker/truncate.ts:13-29 | A reply of at most 1000 characters goes through no pass. |
| Truncate.HardCutNotFlagged | worker/truncate.ts:31-33 | A root text over the budget is cut, and has its full text kept, without being flagged. |
| Mapper.CheckPartialContentType | worker/mapper.ts:4-21 | The result is present exactly when the content type contains `message/partial` and has non-empty `number`, `total` and `id`. The numbers are parsed with `parseInt`, and the id is copied. |
| Mapper.PartialRoundTrip | worker/mapper.ts:4-21 | The parameters written into a `message/partial` content type are read back. |
| Mapper.References | worker/mapper.ts:24-27 | A missing References header gives the empty list, a string a one-element list, and a list itself. |
| Mapper.GroupRefOf | worker/mapper.ts:40-43 | The group name is the entry up to its first `:` (all of it without one). The message number is absent exactly when there is no `:`; otherwise it is the text after the first `:` up to the next `:` or the end. |
| Mapper.InGroups | worker/mapper.ts:39-44 | One entry per space-separated Xref token, in order. |
| Mapper.MapParsedMailToArticle | worker/mapper.ts:23-51 | The mapping succeeds exactly when Newsgroups and Xref are strings; a missing Newsgroups fails on Newsgroups, otherwise a missing Xref fails on Xref. The groups are the comma pieces of Newsgroups and join back to it; `inGroups` has one `GroupRefOf` entry per Xref token; references and parent follow `References` and `Parent`. Subject, from, date, attachments, article id, text and headers pass through. |
| Mapper.GroupsRoundTrip | worker/mapper.ts:29-34 | A Newsgroups header written from comma-free names maps back to those names. |
| Mapper.XrefRoundTrip | worker/mapper.ts:30-44 | Xref entries `name:number` free of spaces and colons are read back. |
| Mapper.EntryRoundTrip | worker/mapper.ts:41-42 | One `name:number` entry is read back. |
| Mapper.Parent | worker/mapper.ts:31 | An In-Reply-To string is the parent. Without one, the parent is the last reference, and there is none exactly when there are no references either. |
| Mapper.ParentFromReferences | worker/mapper.ts:31 | Without In-Reply-To, the parent is the last reference, or none without references. |
| Mapper.ParentFromInReplyTo | worker/mapper.ts:31 | An In-Reply-To string is the parent, even an empty one. |
| Partial.StagingStore.constructor | worker/partial.ts:6-20 | The staging store starts empty: no fragment is staged. |
| Partial.StagingStore.StageAttachment | worker/attachments.ts:12-16 | Staging a fragment's attachment overwrites whatever was staged under its key. |
| Partial.StagingStore.StageArticle | worker/article.ts:47-49 | Staging a fragment's article record overwrites whatever was staged under its key. |
| Partial.StagingStore.CheckAndCombine | worker/partial.ts:5-79 | An invalid `total` throws. Unless every fragment's two artifacts are staged, the result is null. A missing identity throws. In those cases the store is unchanged. Otherwise the parsed result gets the concatenated blobs, the distinct Xref tokens and fragment 1's identity; exactly the 2×total entries are deleted, and a second call is no longer complete. |
| Partial.StagingStore.ReadAttachments | worker/partial.ts:23-32 | The blobs are read and concatenated in ascending fragment order. |
| Partial.StagingStore.ReadArticles | worker/partial.ts:36-57 | The identity comes from fragment 1. The Xref tokens are added to the set fragment by fragment and token by token. |
| Partial.StagingStore.AddTokens | worker/partial.ts:55 | Adding one fragment's tokens appends the unseen ones in order. |
| Partial.StagingStore.DeleteAll | worker/partial.ts:65-74 | Both artifacts of every fragment 1..total are deleted and nothing else. Afterwards the message is not complete. |
| Partial.Added | worker/partial.ts:53-57 | Adding tokens keeps the earlier ones first, holds exactly the old and new tokens, and keeps them distinct. |
| Partial.AddedConcat | worker/partial.ts:53-57 | Adding two lists of tokens is adding the first, then the second. |
| Partial.Distinct | worker/partial.ts:35-59 | The set's contents are the tokens, each once. |
| Partial.DistinctPrefix | worker/partial.ts:53-57 | Tokens seen later never move an earlier one. |
| Partial.PartKeys | worker/partial.ts:65-72 | The key set of fragments 1..n holds the key of every fragment from 1 to n. |
| Partial.PartKeysCount | worker/partial.ts:65-72 | Fragments 1..n have n distinct keys, so a combine deletes 2n entries. |
| Partial.ConcatenatedParts | worker/partial.ts:30-32 | The concatenation holds each fragment's blob in place, in ascending order. |
| Groups.WantedGroups | worker/groups.ts:11-33 | The kept groups are exactly the listed groups that start with `omnitel.` and are not `omnitel.binaries`. |
| Groups.Registered | worker/groups.ts:11-31 | The listing update never removes a row. |
| Groups.Find | worker/groups.ts:42 | None exactly when no listed group has the name; otherwise a listed group with the name, and no earlier listed group has it. |
| Groups.FirstFailure | worker/groups.ts:61-65 | The first number in the range whose processing fails: all before it succeed, and none exactly when all succeed. |
| Groups.GroupStore.constructor | worker/repository.ts:6-15 | The store holds the given rows. |
| Groups.GroupStore.LastSynced | worker/repository.ts:178-190 | 0 for a group the store does not know; otherwise the stored cursor. |
| Groups.GroupStore.CreateGroup | worker/repository.ts:159-164 | A created group has cursor 0. |
| Groups.GroupStore.UpdateGroupData | worker/repository.ts:47-58 | A known group gets the listed bounds; an unknown one is left alone. |
| Groups.GroupStore.UpdateLastSynced | worker/repository.ts:166-176 | A known group's cursor is set and read back; an unknown one is left alone and still reads 0. |
| Groups.GroupStore.UpdateGroupsList | worker/groups.ts:5-34 | Returns the wanted groups in listing order. Creates the unknown wanted groups and updates the bounds of the known ones, as `Registered` specifies. |
| Groups.GroupStore.DownloadAndProcessGroup | worker/groups.ts:36-68 | An absent group, a NaN last number or a cursor ≥ last processes nothing, returns 0 and changes nothing. Otherwise the numbers cursor+1 to last are processed in order, each once, and the cursor follows each. The call returns last − cursor, or on a failure at n stops with the cursor at n − 1. |
| Groups.GroupStore.SyncNumbers | worker/groups.ts:57-67 | The `for` loop: processed numbers, cursor and count as `FirstFailure` dictates. |
| Groups.FailureAt | worker/groups.ts:61-63 | A failing number all of whose predecessors succeed is the first failure. |
| Groups.SetCursorTwice | worker/groups.ts:63 | The last cursor written is the one that stays. |
| Groups.UnwantedUntouched | worker/groups.ts:12-17 | A group that is not wanted is neither created nor updated. |
| Groups.WantedRegistered | worker/groups.ts:20-28 | Every wanted listed group has a row afterwards. A new one starts at cursor 0. |
| Groups.KnownTakesLastListing | worker/groups.ts:20-28 | A known wanted group ends with the `first` and `last` of its last listing and keeps its cursor. |
| Groups.NewRowsStayAtZero | worker/groups.ts:20-28 | The listing update never moves a cursor: known groups keep theirs, new ones get 0. |
| Strings.ParseIntString | worker/mapper.ts:17-18 | `parseInt` reads back what `toString` writes, for every integer. |
| Strings.HexParse | worker/mapper.ts:17-18 | Without a radix, `parseInt` reads a `0x` prefix as base 16: "0x1A" is 26, and "0x" alone is `NaN`. |

## Left out

- Sockets and event plumbing are left out: the socket connection, the `error` listener and the EventEmitter promises. A `data` event is a call of `Client.Receive`, and a resolved promise is the `Completed` result it returns.
- Nntp.Client.Receive: the text of a chunk is a second parameter beside its bytes. The socket's UTF-8 decoding is not modelled, so nothing ties the two accumulators together.
- Strings are sequences of Unicode code points. `charCodeAt` and `length` in the source count UTF-16 code units, so the two differ for characters outside the Basic Multilingual Plane.
- The MIME parser (`simpleParser`) is a library outside the model. It is the function parameter `parse` of type `MimeParser`, and `ParsedMail` keeps only the fields the worker reads.
- The md5 digest is the function parameter `md5`.
- `File` objects are their bytes (attachments) or their text (the full article text). `crypto.randomUUID` names are not modelled.
- Console logging is not modelled.
- `getArticle` awaits the parser after the request. The request is `Client.RequestArticle` and the parsing is `Nntp.FetchedArticle`; the wait in between is the `Receive` call that completes the command.
- The file system under `./partials` is the two maps of `Partial.StagingStore`. Paths are keys `(id, number)`. The JSON encoding of an article record is not modelled; the record keeps the two fields the reassembly reads.
- `Promise.all` and `Promise.allSettled` in partial.ts and groups.ts are modelled as sequential loops. The code relies only on their order-preserving results.
- worker/repository.ts is not part of this model beyond the group rows. The Pocketbase client, the group-id cache and the article, reply and thread collections are network stores.
- worker/article.ts, worker/attachments.ts (apart from the staging write), index.ts, assign-thread.ts and last-reply-date.ts are not part of this model. They cover orchestration, scheduling, an HTTP status server and paginated remote updates.
- Mapper.References: a References value that the parser delivers as a structured header is read as no references.
- Mapper.Parent: an In-Reply-To value that the parser delivers as a list of strings or as a structured header is read as no In-Reply-To, and the parent falls back to the last reference. The source would return that list or object itself as the parent; the record's parent field holds a string only.
- Partial.StagingStore.CheckAndCombine: a fragment count that is `NaN` or outside the array-length range fails as `InvalidLength`. A negative fraction cannot occur, because `parseInt` yields integers.
- Groups.GroupStore.DownloadAndProcessGroup: a `last` of `NaN` makes every comparison false, so nothing is processed and 0 is returned. The model reads this from the `None` bound.
- The per-article step `downloadAndProcessArticle` is the function parameter `process`, where `false` is a step that throws.
- UUDecode.DecodeFullLines: the decoding round trip covers only payloads written as full 45-byte lines. A short final line usually starts with a length character below `M`, so the line loop does not collect it at all.

## Findings

| source | as written | input that shows it | evidently intended | confidence | as-written member | corrected member |
|---|---|---|---|---|---|---|
| worker/uudecode.ts:97-109 | The text is rebuilt only when there are no ranges or more than one, so exactly one range leaves the text empty | "hello\nbegin 644 a\n!80``\nend\nbye": one block, and "hello" and "bye" are lost | The text with the block removed, as for any other number of non-overlapping blocks | high (not executed) | UUExtract.SingleRangeEmptiesText | UUExtract.RemoveOrdered |
| worker/uudecode.ts:80-108 | A header that lies inside an earlier block (two `begin` lines before one "\nend") records a second range with the same end inside the first; the reverse cut then removes the inner range and cuts the outer range's old bounds out of the shortened text | "begin 644 a\nbegin 644 b\n`\nend" followed by a tail of at least 17 characters: the ranges are [0, 29) and [12, 29), and the first 17 characters of the tail are cut as well (all of a shorter tail) | The text with the union of the ranges removed | medium (not executed) | UUExtract.NestedCutLosesTail | UUExtract.CleanedText |
| worker/nntp-client.ts:79 | A response that does not yet start with the full code completes at once as an error | A greeting "200 ready\r\n" delivered in the chunks "2" and "00 ready\r\n" completes as an error on "2" | An error only once the status line is complete | medium (not executed) | Nntp.EarlyErrorOnSplitCode | Nntp.NoEarlyError |
