# gmail-to-sheets: a Dafny model of the parser and the run

The system reads unread mail and appends one spreadsheet row per message. Each row holds
the sender, subject, date and body. A local store of message ids keeps a later run from
adding the same message twice. This project models two parts of it in Dafny and proves
properties of each.

**The message parser** (`src/email_parser.py`):
- `HTMLToTextParser` is modelled as a class. It has one tag slot and a list of text
  fragments, and the fragments pass through the `get_text` clean-up.
- The recursive body extractor works over the message's part tree.
- The header dictionary lowercases names, and the last header of a name wins.
- The no-reply and subject filters.
- The date fallback.
- The whitespace clean-up of the body.
- The 10,000-character body cap.

**The run** (`src/main.py`):
- `StateManager` is modelled as a class over a set of ids.
- The processing loop and its skip and mark rules.
- `safe_truncate_field` and the four-cell row, with its 49,990 and 50,000 ceilings.
- The append step and its fallback in batches of 50 rows, then row by row.
- When ids get marked.

Modules:
- `Wrappers`: `Option`.
- `TextUtil`: Python's string operations over ASCII whitespace, and a view of a string as its maximal word and whitespace runs.
- `HtmlText`: the converter.
- `EmailParser`: the extractor and `parse_email_message`.
- `Pipeline`: `main`.
- `Examples`: small documents run through the converter's feed loop and its handlers.

Calls into libraries and services are values of function type. They appear as record
fields or parameters:
- base64url decoding (section 5 of RFC 4648) and quoted-printable decoding (section 6.7
  of RFC 2045);
- the `html.parser` tokenizer, modelled as a function from text to a sequence of
  start, end and data events, or to nothing when `feed` raises;
- the two date conversions;
- fetching a message: `None` when the Gmail call raises;
- appending rows: `false` when the Sheets call raises.

Three behaviours of the code are worth stating outright:
- **The paragraph example.** In the code, the end of `p` and the `<br>` each emit a line
  feed, and the clean-up keeps a single blank line. So `<p>Hello <b>World</b></p><br>Bye`
  converts to `"Hello World\n\nBye"` (`Examples.ParagraphExample`).
- **Plain text versus HTML.** The comment at `src/email_parser.py:113` says plain text is
  preferred and HTML is used only when there is no plain text. The code returns the first
  content-bearing part it meets, and every caller passes an empty `body_text`. So an HTML
  part listed before a plain-text part wins (`EmailParser.HtmlBeforePlainWins`). In
  general, the first content-bearing part in depth-first order wins
  (`EmailParser.ExtractFirstInWalkWins`, `EmailParser.FirstBearingSiblingWins`).
- **Rows appended one by one.** Rows that go through only one at a time do not count as
  success. If every batch fails, the run re-raises and marks no parsed id, even though
  some rows are already on the sheet. A later run then appends those rows again
  (`Pipeline.SingleRowsDoNotCount`, `Pipeline.RunMarks`).

## Model

| member | source | states |
|---|---|---|
| TextUtil.Lower | src/email_parser.py:142 | `str.lower()` keeps the length and lowercases each character in place |
| TextUtil.ContainsAt | src/email_parser.py:153 | `sub in s` holds whenever `sub` occurs at some position of `s` |
| TextUtil.ContainsWitness | src/email_parser.py:153 | if `sub in s` holds, some position of `s` holds `sub`; with `ContainsAt` this gives both directions of the `in` operator |
| TextUtil.Contains | src/email_parser.py:153 | Python's `sub in s`; its meaning, both directions, is stated by `ContainsAt` and `ContainsWitness` |
| TextUtil.Strip | src/email_parser.py:195 | `strip()` leaves no whitespace at either end and removes no non-whitespace character |
| TextUtil.CollapseRuns | src/email_parser.py:194 | `re.sub` of a run class to one space: the first character becomes a space exactly when it is in the class; every class character left is a space; no two class characters are adjacent. `CollapseRunsTokens` states that each maximal run becomes exactly one space |
| TextUtil.CollapseRunsKeepsWords | src/email_parser.py:194 | collapsing runs keeps the non-whitespace characters, in order |
| TextUtil.Tokens | src/email_parser.py:53-55 | a string read as its maximal word and gap runs for a class: empty exactly for the empty string, opening with a gap exactly when the string opens with a class character |
| TextUtil.TokensLast | src/email_parser.py:53-55 | the last run is a gap exactly when the last character is of the class |
| TextUtil.TokensAlternate | src/email_parser.py:53-55 | the runs are maximal: neighbours alternate between word and gap, and every word is non-empty and free of class characters |
| TextUtil.TokensGapRun | src/email_parser.py:53-55 | a non-empty class run in front of a word (or of nothing) is one gap carrying exactly its own line-feed count |
| TextUtil.TokensWordRun | src/email_parser.py:53-55 | a non-empty word in front of a class character (or of nothing) is one word run, unchanged |
| TextUtil.CollapseRunsTokens | src/email_parser.py:194 | collapsing keeps every word and every word/run boundary: each maximal run of the class becomes exactly one run (with the postconditions of `CollapseRuns`, exactly one space) |
| TextUtil.CollapseBlanksTokens | src/email_parser.py:54 | squeezing spaces and tabs keeps every whitespace word and every gap's line-feed count |
| TextUtil.CollapseBlanksKeepsNl | src/email_parser.py:54 | squeezing spaces and tabs adds and removes no line feed |
| TextUtil.SkipRunTokens | src/email_parser.py:195 | stripping the left end removes a leading gap and nothing else |
| TextUtil.StripRightTokens | src/email_parser.py:195 | stripping the right end removes a trailing gap and nothing else |
| TextUtil.StripTokens | src/email_parser.py:195 | `strip()` removes the gaps at both ends and keeps every word and every inner gap |
| TextUtil.CollapseWhitespace | src/email_parser.py:192-195 | the body clean-up: no edge whitespace, every whitespace character is a space, no two are adjacent, and the non-whitespace characters are kept in order |
| TextUtil.CollapseWhitespaceTokens | src/email_parser.py:192-195 | the cleaned body's runs are the input's words, each inner gap becoming a single line-feed-free gap and the edge gaps gone; so `Words` of the result equals `Words` of the input |
| TextUtil.CollapseWhitespaceIdempotent | src/email_parser.py:192-195 | cleaning a cleaned body changes nothing |
| TextUtil.StripKeepsNoAdjacent | src/email_parser.py:195 | stripping keeps "no two adjacent class characters" |
| TextUtil.CollapseRunsFixpoint | src/email_parser.py:194 | text whose class characters are already isolated single spaces is left unchanged by the substitution |
| HtmlText.HtmlToTextParser.constructor | src/email_parser.py:29-33 | a new converter has no fragments and an empty tag slot |
| HtmlText.HtmlToTextParser.HandleStartTag | src/email_parser.py:35-38 | the slot holds the lowercased tag; exactly one line feed is appended for `br`, nothing otherwise |
| HtmlText.HtmlToTextParser.HandleEndTag | src/email_parser.py:40-43 | a line feed is appended for `p`, `div` and `li`; the slot is emptied for every end tag |
| HtmlText.HtmlToTextParser.HandleData | src/email_parser.py:45-47 | the text is appended unless the slot holds `script`, `style`, `head` or `meta`; the slot is unchanged |
| HtmlText.HtmlToTextParser.Handle | src/email_parser.py:35-47 | one event's handler extends the fragments by `Emit` and moves the slot by `NextTag` |
| HtmlText.HtmlToTextParser.Feed | src/email_parser.py:110-111 | feeding a run of events appends exactly `Fragments` of them and leaves the slot at `TagAfter` of them |
| HtmlText.HtmlToTextParser.GetText | src/email_parser.py:49-55 | the result equals `CleanText` of the joined fragments: no edge whitespace, no two adjacent spaces or tabs, at most one blank line between blocks, and every non-whitespace character kept in order (the words and gaps by `CleanTextTokens`) |
| HtmlText.ConvertHtml | src/email_parser.py:110-112 | a fresh converter fed the tokenizer's events returns `HtmlToText` of them |
| HtmlText.TagAfterLastEvent | src/email_parser.py:35-43 | the slot after a run of events is fixed by the most recent tag event: the lowercased name for a start tag, empty for an end tag |
| HtmlText.TagAfterNoEvent | src/email_parser.py:45-47 | data events never change the slot |
| HtmlText.SkippingIffSkipTagOpen | src/email_parser.py:35-47 | after a document prefix, the converter is dropping text exactly when the most recent tag event opened a skipped tag |
| HtmlText.LastEventDecides | src/email_parser.py:35-43 | for a prefix ending in a tag event, that event alone decides whether a skipped tag is open |
| HtmlText.DataKeptUnlessSkipTagOpen | src/email_parser.py:45-47 | a text event adds its text exactly when no skipped tag is open; an end tag nested inside a skipped element re-enables text |
| HtmlText.NextTag | src/email_parser.py:35-47 | the slot after one event; stated by `TagAfterLastEvent`, `TagAfterNoEvent` and the handler methods |
| HtmlText.Emit | src/email_parser.py:35-47 | the fragments one event appends; stated by `DataKeptUnlessSkipTagOpen` and the handler methods |
| HtmlText.TagAfter | src/email_parser.py:35-47 | the slot after a run of events; stated by `TagAfterLastEvent`, `TagAfterNoEvent`, `SkippingIffSkipTagOpen` and `Feed` |
| HtmlText.Fragments | src/email_parser.py:35-47 | the fragments a run of events appends; stated by `DataKeptUnlessSkipTagOpen` and `Feed` |
| HtmlText.Join | src/email_parser.py:51 | `''.join` of the fragments; `Examples.ParagraphExample` shows it on a document |
| HtmlText.JoinConcat | src/email_parser.py:51 | joining two fragment lists one after the other joins their texts in that order |
| HtmlText.TagAfterConcat | src/email_parser.py:35-47 | after two runs of events the slot is where the second run, started from the first's slot, leaves it |
| HtmlText.FragmentsConcat | src/email_parser.py:35-47 | the fragments of two runs of events are the first run's followed by the second's, handled from the slot the first leaves |
| HtmlText.HtmlToText | src/email_parser.py:110-112 | the whole converter; `ConvertHtml` computes it and `CleanText`'s lemmas state its output |
| HtmlText.AfterLastNewline | src/email_parser.py:53 | the part of a whitespace run after its last line feed: a suffix with no line feed, preceded by a line feed unless it is the whole run |
| HtmlText.KeptRun | src/email_parser.py:53 | what becomes of one whitespace run that starts with a line feed; stated by `KeptRunShape` |
| HtmlText.KeptRunShape | src/email_parser.py:53 | a whitespace run stays a non-empty whitespace run after the blank-line substitution and keeps its line feeds up to two: `min(2, n)` of its `n` |
| HtmlText.CollapseBlankLines | src/email_parser.py:53 | the blank-line substitution; stated by `CollapseBlankLinesTokens`, `CollapseBlankLinesScan` and `CollapseBlankLinesFixpoint` |
| HtmlText.CollapseBlankLinesTokens | src/email_parser.py:53 | the blank-line substitution keeps every word and every gap, each gap keeping `min(2, n)` of its `n` line feeds |
| HtmlText.CollapseBlankLinesScan | src/email_parser.py:53 | after the first substitution, no whitespace run holds three line feeds |
| HtmlText.CollapseBlankLinesKeepsWords | src/email_parser.py:53 | the first substitution removes whitespace only |
| HtmlText.CollapseBlankLinesFixpoint | src/email_parser.py:53 | the first substitution does not change text with at most one blank line between blocks |
| HtmlText.SqueezeKeepsScan | src/email_parser.py:54 | collapsing space and tab runs adds no line feed to any run |
| HtmlText.SqueezeBlankRun | src/email_parser.py:54 | for text that starts with a space or tab, squeezing keeps "at most two line feeds per whitespace run" for every starting count |
| HtmlText.StripKeepsShape | src/email_parser.py:55 | stripping keeps both shape properties |
| HtmlText.StripKeepsScan | src/email_parser.py:55 | stripping keeps "at most one blank line between blocks" |
| HtmlText.CleanText | src/email_parser.py:51-55 | the three clean-up steps: no edge whitespace, no two adjacent blanks, every blank a space, at most one blank line between blocks, the non-whitespace characters kept in order |
| HtmlText.CleanTextTokens | src/email_parser.py:51-55 | the cleaned text's runs are the joined text's words in order; the gap between two neighbouring words keeps `min(2, n)` of its `n` line feeds, and no gap is left at either end |
| HtmlText.CleanTextKeepsWords | src/email_parser.py:51-55 | `Words` of the cleaned text equals `Words` of the joined text |
| HtmlText.FewNewlinesScan | src/email_parser.py:53 | text with at most two line feeds in all never has three in one whitespace run |
| HtmlText.CleanTextFixpoint | src/email_parser.py:49-55 | text already in clean shape passes the clean-up unchanged |
| HtmlText.CleanTextIdempotent | src/email_parser.py:49-55 | cleaning the converter's output a second time changes nothing |
| EmailParser.DecodePlain | src/email_parser.py:97-104 | a plain part's text: base64url, then quoted-printable, keeping the first stage when the second raises; used by `PartOutcome` |
| EmailParser.DecodeHtml | src/email_parser.py:107-112 | an HTML part's text: base64url, then the converter, or nothing when `feed` raises; its output is stated by `CleanText`'s lemmas through `HtmlToText` |
| EmailParser.PartOutcome | src/email_parser.py:91-121 | one turn of the sibling loop: end the search, move on, or raise; stated by `PartNothingFound`, `PartFirstInWalkWins`, `PartComesFromWalk` and `NestedResultRule` |
| EmailParser.ExtractBody | src/email_parser.py:76-123 | `extract_email_body`, or nothing when the tokenizer raises; stated by `ExtractNothingFound`, `ExtractFirstInWalkWins`, `FirstBearingSiblingWins`, `ExtractComesFromWalk`, `ExtractWithBodyNeverHtml` and `HtmlRaiseAborts` |
| EmailParser.FirstBearingSiblingWins | src/email_parser.py:91-121 | when every earlier sibling lets the search go on, the first content-bearing sibling decides the result: its decoded text, even when empty, or a raise |
| EmailParser.ExtractNothingFound | src/email_parser.py:76-123 | with no content-bearing part anywhere in the tree, the accumulated `body_text` comes back |
| EmailParser.PartNothingFound | src/email_parser.py:91-121 | a subtree with no content-bearing part ends the search only through a nested non-empty `body_text` |
| EmailParser.ExtractFirstInWalkWins | src/email_parser.py:91-121 | with an empty accumulator, the first content-bearing part in depth-first order decides the result unless its text is empty: its text, or nothing when its HTML tokenizer raises |
| EmailParser.PartFirstInWalkWins | src/email_parser.py:96-121 | the same for one part and its subtree |
| EmailParser.ExtractComesFromWalk | src/email_parser.py:76-123 | the result is the accumulator or what one content-bearing part makes of it: its decoded text or a raise |
| EmailParser.PartComesFromWalk | src/email_parser.py:91-121 | the same for one part's outcome |
| EmailParser.WalkWithBodyIsPlain | src/email_parser.py:106-115 | with a non-empty accumulator only `text/plain` parts with data and HTML parts whose tokenizer raises bear content |
| EmailParser.ExtractWithBodyNeverHtml | src/email_parser.py:106-115 | with a non-empty accumulator the result is the accumulator, some plain part's decoded text, or a raise, never HTML text |
| EmailParser.NestedResultRule | src/email_parser.py:117-121 | a nested list ends the search with a non-empty result or a raise; an empty result lets the next sibling be tried |
| EmailParser.HtmlBeforePlainWins | src/email_parser.py:96-115 | an HTML part before a plain-text sibling gives the body, or raises |
| EmailParser.HtmlRaiseAborts | src/email_parser.py:106-111 | an HTML part is converted whenever the search reaches it, so a raising tokenizer aborts the search even when the accumulator is non-empty |
| EmailParser.HeaderMap | src/email_parser.py:142 | the header dictionary; stated by `HeaderMapFails`, `HeaderLastWins` and `HeaderAbsent` |
| EmailParser.HeaderMapFails | src/email_parser.py:142 | building the header dictionary fails exactly when some header lacks its name or value |
| EmailParser.HeaderLastWins | src/email_parser.py:142 | a header name, lowercased, maps to its last occurrence's value |
| EmailParser.HeaderAbsent | src/email_parser.py:142-146 | a name that no header carries is absent, so the default is used |
| EmailParser.Lookup | src/email_parser.py:144-146 | `dict.get` with a default; with `HeaderLastWins` and `HeaderAbsent` it gives the last value or the default |
| EmailParser.IsNoReply | src/email_parser.py:152-155 | the no-reply test on the lowercased sender; `ParseEmailMessage` states that a record is dropped exactly when it or the subject filter rejects |
| EmailParser.FailsSubjectFilter | src/email_parser.py:157-160 | the case-insensitive subject test, off for an empty keyword; used in `ParseEmailMessage`'s contract |
| EmailParser.DateIso | src/email_parser.py:162-178 | no date header and no internal date give ""; a failing header conversion gives the raw header; a failing timestamp conversion gives "" |
| EmailParser.CapBody | src/email_parser.py:197-216 | the content is never empty and at most 10,000 characters; an empty body gives "(No content)"; a body that fits is kept; a longer one keeps 9,986 characters plus "...[TRUNCATED]" and is flagged |
| EmailParser.CapBodyIdempotent | src/email_parser.py:197-216 | capped content is not truncated again |
| EmailParser.BlankBodyNoContent | src/email_parser.py:191-203 | a body that is only whitespace becomes "(No content)", untruncated |
| EmailParser.RawBody | src/email_parser.py:180-189 | the body before clean-up, or nothing when the extractor raises; stated by `EmptyPartsNoBody` and `EmptyBodyGivesNoContent` |
| EmailParser.ParseEmailMessage | src/email_parser.py:126-229 | `None` when a header is malformed; otherwise `None` exactly when the no-reply filter or the subject filter rejects the defaulted sender or subject, or when the HTML tokenizer raises during extraction (the `except` at lines 227-229); a record carries those fields, the message id, the `DateIso` of the defaulted date header and internal date, and the cleaned, capped body |
| EmailParser.EmptyBodyGivesNoContent | src/email_parser.py:180-203 | a message whose extracted body is blank is recorded with "(No content)" |
| EmailParser.EmptyPartsNoBody | src/email_parser.py:182-183 | an empty top-level part list yields an empty body, even when top-level data exists |
| Pipeline.StateManager.constructor | src/main.py:59-68 | the store starts as the loaded set |
| Pipeline.StateManager.IsProcessed | src/main.py:98-108 | true exactly when the id is in the store |
| Pipeline.StateManager.MarkProcessed | src/main.py:110-118 | the store gains exactly the id |
| Pipeline.StateManager.MarkMultipleProcessed | src/main.py:120-129 | the store gains exactly the listed ids |
| Pipeline.PyPrefix | src/main.py:233-234 | Python's `s[:k]` for any `k`: its length, clamped, counting from the end for negative `k`, and a prefix of `s` |
| Pipeline.SafeTruncateField | src/main.py:218-235 | an empty or fitting field is unchanged; a longer one is its first `max_len - len(suffix)` characters plus the suffix; the result is never longer than `max_len` |
| Pipeline.SafeTruncateIdempotent | src/main.py:218-235 | truncating a truncated field changes nothing |
| Pipeline.CellCapAsWritten | src/main.py:249-252 | the final per-cell cap exactly as written; stated by `CellCapAsWrittenOverflows` and `CellCapAgrees` |
| Pipeline.RecheckAsWritten | src/main.py:256-261 | the re-check of one built cell; stated by `CellAsWrittenLosesMarker` and `EmailRowShape` |
| Pipeline.CellCapAsWrittenOverflows | src/main.py:252 | the content cell's final cap as written yields 50,001 characters |
| Pipeline.CellAsWrittenLosesMarker | src/main.py:252-261 | after the re-check, that cell ends in "..." instead of "...[TRUNCATED]" |
| Pipeline.CellCap | src/main.py:249-252 | the corrected cap: a cell within 50,000 characters is unchanged, and a longer one is cut to 49,990 including its suffix |
| Pipeline.CellCapAgrees | src/main.py:249-252 | the corrected cap equals the written one for the three-dot cells and for every cell within the limit |
| Pipeline.CellAsWritten | src/main.py:241-261 | one cell: truncation, the cap as written, the re-check; stated by `EmailRowShape` |
| Pipeline.EmailRow | src/main.py:241-261 | one row as the code builds it; stated by `EmailRowShape` and `EmailRowCorrectedAgrees` |
| Pipeline.EmailRowShape | src/main.py:237-263 | a row is from, subject, date, content, each its field truncated to at most 49,990 characters; neither the cap as written nor the re-check ever fires; parser-capped content passes unchanged |
| Pipeline.EmailRowCorrectedAgrees | src/main.py:248-253 | the row built with the cap as written equals the row built with the corrected cap |
| Pipeline.BuildRows | src/main.py:237-271 | the loop computes `Rows`: one row per parsed email, in order, each equal to `EmailRow` of it |
| Pipeline.BuildRow | src/main.py:241-263 | one turn of the row loop: the truncated fields, capped as written, then re-checked, give `EmailRow` of the email |
| Pipeline.RecheckRow | src/main.py:256-261 | the re-check loop replaces every cell by its `RecheckAsWritten` form, in place |
| Pipeline.Rows | src/main.py:237-263 | the rows as a function: one per email |
| Pipeline.RowsEach | src/main.py:237-263 | the `k`-th row is `EmailRow` of the `k`-th email: one row per email, in order |
| Pipeline.Step | src/main.py:174-204 | one turn of the processing loop; stated by `StepFacts` |
| Pipeline.RunLoop | src/main.py:174-204 | the processing loop as a function; stated by `RunLoopLast`, `RunLoopProcessed`, `RunLoopFetched`, `RunLoopPending` and `RunLoopRecords` |
| Pipeline.StepFacts | src/main.py:174-204 | one loop turn: a processed id is skipped before fetching; a failed fetch changes nothing else; a `None` parse marks the id; a record is kept with its id pending |
| Pipeline.RunLoopLast | src/main.py:174-204 | the loop over a list is one turn after the loop over all but its last id |
| Pipeline.RunLoopProcessed | src/main.py:178-193 | after the loop an id is processed exactly when it already was, or it was listed and filtered out |
| Pipeline.RunLoopFetched | src/main.py:174-184 | an id is fetched exactly when listed and not already processed |
| Pipeline.RunLoopPending | src/main.py:189-196 | an id is pending exactly when listed, new, and parsed into a record |
| Pipeline.RunLoopRecords | src/main.py:195-196 | the records and the pending ids line up, each record being its id's parse |
| Pipeline.ProcessMessages | src/main.py:171-204 | the loop with the store leaves the store and the lists as `RunLoop` gives them |
| Pipeline.FirstBatch | src/main.py:292-293 | the first batch is the first `min(50, n)` rows |
| Pipeline.AfterFirstBatch | src/main.py:292-293 | the rows are the first batch followed by the rest |
| Pipeline.Batches | src/main.py:292-293 | the batches of 50; stated by `BatchesPartition` and `AnyBatchOkIff` |
| Pipeline.BatchesPartition | src/main.py:288-293 | the batches concatenate back to the rows; each holds 1 to 50 rows, all but the last exactly 50 |
| Pipeline.AnyBatchOkIff | src/main.py:292-311 | "some batch went through" means exactly that some batch of the partition was accepted |
| Pipeline.AllBatchesOkImpliesAny | src/main.py:311 | with rows present, no failed batch implies a successful one |
| Pipeline.RowsOneByOne | src/main.py:301-309 | the rows of a failed batch that go through alone; stated by `RowsOneByOneFromBatch`, `RowsOneByOneAll` and `AppendOneByOne` |
| Pipeline.FallbackAppended | src/main.py:292-309 | the rows the fallback puts on the sheet; stated by `FallbackAppendedSpec` and `AppendInBatches` |
| Pipeline.AppendedRows | src/main.py:282-309 | the rows on the sheet after the append step; stated by `AppendWithFallback` and `SingleRowsDoNotCount` |
| Pipeline.RowsOneByOneFromBatch | src/main.py:301-309 | a failed batch's rows reach the sheet exactly when each is accepted alone |
| Pipeline.RowsOneByOneAll | src/main.py:302-309 | when every single row is accepted, all of a failed batch's rows reach the sheet |
| Pipeline.FallbackAppendedSpec | src/main.py:286-309 | the fallback appends only listed rows, and all of them in order when every batch goes through |
| Pipeline.FallbackUnfold | src/main.py:292-309 | one batch of the fallback in terms of the rest of the rows |
| Pipeline.BatchStep | src/main.py:292-309 | the fallback loop's invariant on the rows appended so far, carried across one batch |
| Pipeline.BatchStepAny | src/main.py:292-297 | the fallback loop's invariant on "some batch went through", carried across one batch |
| Pipeline.BatchStepAll | src/main.py:292-300 | the fallback loop's invariant on "no batch failed", carried across one batch |
| Pipeline.SingleRowsDoNotCount | src/main.py:298-315 | with a sheet that accepts only single rows, every row is appended, yet the step counts as failed |
| Pipeline.AppendOneByOne | src/main.py:302-309 | the per-row retry appends `RowsOneByOne` of the batch |
| Pipeline.AppendBatch | src/main.py:293-309 | one batch: accepted whole, or its rows retried one by one |
| Pipeline.AppendInBatches | src/main.py:288-309 | the success count is positive exactly when some batch goes through; the failure count is zero exactly when all do; the rows appended are `FallbackAppended` |
| Pipeline.AppendWithFallback | src/main.py:282-315 | the step succeeds exactly when the whole list, or some batch, is accepted, or there are no rows; the rows on the sheet are `AppendedRows` |
| Pipeline.RunMarks | src/main.py:164-323 | after a run an id is processed exactly when it already was, or it was listed and filtered out, or it was new and accepted and the append step succeeded |
| Pipeline.FailedNeverMarked | src/main.py:201-204 | an id whose fetch fails is never marked, so a later run retries it |
| Pipeline.RunSpec | src/main.py:160-323 | how a run ends and what it leaves; stated by `RunMarks` and `FailedNeverMarked` |
| Pipeline.Run | src/main.py:160-323 | `main` leaves the status, the store and the sheet as `RunSpec` gives them |
| Examples.LowerFixed | src/email_parser.py:36 | a lowercase name is its own lowercase form |
| Examples.CleanLine | src/email_parser.py:49-55 | a single clean line passes `get_text`'s clean-up unchanged |
| Examples.BlankLineKept | src/email_parser.py:53-55 | two clean lines separated by one blank line pass the clean-up unchanged |
| Examples.ParagraphFragments | src/email_parser.py:35-47 | the paragraph document's events append "Hello ", "World", two line feeds and "Bye" |
| Examples.ParagraphExample | src/email_parser.py:108-112 | `<p>Hello <b>World</b></p><br>Bye`, fed through the converter's loop, converts to "Hello World\n\nBye" |
| Examples.ParagraphByHandlers | src/email_parser.py:35-55 | the same document handled one call at a time gives the same text |
| Examples.ScriptExample | src/email_parser.py:32-47 | the text inside `<script>` is dropped |
| Examples.NestedInSkippedExample | src/email_parser.py:35-47 | `<head><title>Sale</title></head>Hi` keeps "Sale": the slot holds one tag, so `title` replaces `head` |

## Left out

- Network calls are not modelled: OAuth, the Gmail and Sheets services, and the query that lists unread mail. The listed ids, fetching and appending are parameters.
- State persistence is not modelled: reading and writing the JSON state file, its timestamp, and a failed load that falls back to the empty set. The constructor takes the loaded set.
- Logging, the `SPREADSHEET_ID` check with `sys.exit`, sheet and header creation, and the outer exception handlers of `main` are not modelled; they only log or exit.
- `mark_multiple_as_read` is not modelled: in the service it catches its own errors, so it never affects control flow, and the model has no mailbox read state.
- `decode_base64`, quoted-printable decoding, `parsedate_to_datetime`, `fromtimestamp` and the `html.parser` tokenizer are not modelled internally; they are function-typed parameters. Which inputs make `feed` raise is part of the tokenizer parameter. Attributes on start tags are not represented because the converter ignores them.
- DateIso: the ISO text of a successful conversion is whatever the date library returns; only the fallbacks are stated.
- Whitespace is Python's whitespace within ASCII: space, tab, line feed, carriage return, vertical tab, form feed and the four separators U+1C to U+1F. Lowercasing maps only `A`–`Z`. The non-ASCII whitespace (such as U+0085 and U+00A0) that Python's `\s` and `str.strip()` also match, and non-ASCII lowercasing, are not modelled.
- Characters are code points, as in Python `str`. The UTF-8 byte handling inside the decoders is part of the decoder parameters.
- Message shapes that Python would reject with an exception other than a missing header key are not modelled: a non-list `parts`, a non-string value, a missing `id` in a listing. The typed model cannot express them. A missing `payload`, `body`, `data`, `mimeType` or `internalDate` is modelled by its default ("" or no parts).
- The `try`/`except` around building each row (main.py:265-271) and the `if not rows` exit are not modelled: nothing in the modelled row code can raise, so every parsed email gives a row.
- The append call is modelled as a deterministic predicate of the rows passed. A service that answers the same rows differently on a retry is not modelled.
- SafeTruncateField: when `0 <= max_len < len(suffix)`, only the length of the result (`max_len`) is stated, not its characters. For a negative `max_len` only the unchanged cases are stated. The run uses only `max_len = 49990`.
- Logged subject previews (`[:50]` encoded to ASCII) are not modelled; they only go to the log.

## Findings

| source | as written | input that shows it | evidently intended | confidence | as-written member | corrected member |
|---|---|---|---|---|---|---|
| src/main.py:252 | a content cell over 50,000 characters keeps 49,987 characters plus the 14-character "...[TRUNCATED]", which is 50,001 characters. The re-check at lines 256-261 then cuts it to 49,987 characters plus "...", so the truncation marker is lost | any content string longer than 50,000 characters reaching the row builder | keep `49,990 - len(suffix)` characters, as the three-dot cells effectively do, so the cell fits with its marker | not executed; the branch is unreachable from `main`, because `safe_truncate_field` has already cut every field to 49,990 characters | Pipeline.CellAsWrittenLosesMarker | Pipeline.CellCap |
