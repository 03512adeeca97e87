# janeway_to_escholarship, modelled in Dafny

This project models the core of the Janeway plugin that deposits published articles
and issues into eScholarship, the University of California's open-access repository.

- **Current connector** (`logic.py`, `models.py`, `views.py`):
  - builds the deposit item of an article (`get_article_json`, with `xml_galley_to_html`);
  - posts the item and reads the answer (`send_article`);
  - uploads an issue's cover (`send_issue_meta`);
  - sends whole issues and single articles (`issue_to_eschol`, `article_to_eschol`);
  - guards issue publication with a task (`publish_issue_task`);
  - serves files to the repository through one-day access tokens (`access_article_file`).
- **Legacy connector** (`eschol/logic.py`, `eschol/views.py`, `eschol/models.py`): the
  older version of the same functions, modelled in full and compared with the current one.
- **Management commands** `add_arks` and `add_source_ids`: they import arks, sources and
  DOIs from a repository export into the `EscholArticle` table.

## Modules

- `Wrappers`, `Text`: the Python built-ins the source relies on. These cover `split(...)[-1]`,
  `[-n:]`, `in` on strings, `join`, `str(int)`, `zfill` and `int(str)`.
- `Records`: the platform's entities, as values: journal, section, issue, author, funder,
  file, galley, article.
- `Models`: the plugin's models and their `__str__`, `get_short_ark`, `get_eschol_url`,
  `has_doi_error` and `generate_token`.
- `Storage`: the `Store` class, which holds the `EscholArticle` rows, the token table, the
  token counter and the articles' remote addresses. It also holds `get_file_url`.
- `Normalize`, `Entries`: the field rules of the payload. These are rights, data
  availability, section header, `orderInSection`, local ids, authors, grants, supplementary
  files and images.
- `Assembler`: `get_article_json` as methods over the store, proved against the function
  `ArticleJson`.
- `PayloadContent`, `PayloadFields`, `PayloadProperties`: what the payload contains, when the
  build raises, and the fact that every download link has its token row.
- `Deposit`: `send_article`, `send_issue_meta`, `issue_to_eschol` and `article_to_eschol`.
- `Views`: the token gate of `access_article_file`, and `publish_issue_task`.
- `LegacyAssembler`, `LegacyPayloadProperties`, `LegacyDeposit`, `LegacyViews`: the legacy
  connector, with lemmas comparing it with the current one.
- `AddArks`, `AddSourceIds`: the two management commands.

Code that updates state step by step is written as methods with loops over a `Store` or an
`ImportDb` object. Each such method is proved equal to a pure function of the old state, and
the properties are proved about those functions.

Python exceptions are modelled as values:
- the `Outcome.Raised(msg)` alternative, carrying the exception's text, replaces a raise;
- a `try`/`except` becomes a case on that alternative.

Randomness is modelled as follows. `token_urlsafe` becomes `TokenText(k)`, the `k`-th draw
of a counter. Different draws are different texts, which is all the source relies on.

Behaviour the model keeps exactly as the code has it:
- Unconfigured, the current `send_article` still creates a provisional `EscholArticle` for an
  XML galley. It does this through `xml_galley_to_html` (logic.py:144-146).
- The token lifetime is "older than yesterday" on a `DateField` (views.py:83), counted in
  whole days.
- A private render galley is skipped (logic.py:337): the payload then has no content.
- The legacy code reads `EscholArticle` through `plugins.eschol.models`. Once the plugin is
  installed as `plugins/eschol`, that is the root `models.py`. The legacy model therefore
  uses the current record, with `source_name` and `is_doi_registered`.

## Model

| member | source | states |
|---|---|---|
| Text.Contains | models.py:35 | Python's `sub in s`: true exactly when `sub` occurs at some index of `s` |
| Text.LastSegment | models.py:29 | `split(sep)[-1]`: holds no separator, ends `s`, and is preceded by a separator when shorter than `s` |
| Text.LastSegmentAfterSeparator | models.py:29 | the segment after a final separator is exactly the text written after it |
| Text.TakeLast | models.py:29 | `s[-n:]`: the last `min(|s|, n)` characters, a suffix of `s` |
| Text.Join | logic.py:514 | `sep.join(parts)`: empty for no parts, the part itself for one, starts with the first part |
| Text.NatToDecimal | logic.py:208 | `str(n)`: a non-empty digit string |
| Text.DecimalRoundTrip | logic.py:293 | reading back `str(n)` gives `n` |
| Text.NatToDecimalInjective | logic.py:293 | different numbers print differently |
| Text.DecimalValueConcat | logic.py:293 | concatenated digits read as the left value times a power of ten plus the right value |
| Text.ZFill | logic.py:293 | `zfill(width)`: length is the larger of the width and the length, and the text is a suffix |
| Text.ZFillValue | logic.py:293 | zero padding keeps the value of a digit string |
| Text.DecimalLength | logic.py:293 | a number below 10^k has at most k digits |
| Text.ParseInt | logic.py:504 | `int(s)` succeeds only on non-empty text |
| Text.ParseIntRoundTrip | logic.py:504 | `int(str(i)) == i` for every integer |
| Records.AnswersTo | logic.py:269 | the answers to one custom field, never more than all answers |
| Records.AnswersToMembers | logic.py:269 | a text is among the answers to the field exactly when some answer to that field gives it |
| Records.NonEmptyWords | logic.py:255 | `filter(None, words)` keeps at most all words |
| Records.NonEmptyWordsMembers | logic.py:255 | a word is kept exactly when it is a keyword and non-empty |
| Records.Select | logic.py:173-175 | a galley query's result is no longer than the galley list |
| Records.SelectMembers | logic.py:173-175 | a galley is returned exactly when it is the article's and matches the query |
| Records.FirstMatchIsFirst | logic.py:330-332 | `[0]` of a query is the matching galley at the smallest position; none exactly when none matches |
| Records.FirstMatchSelect | logic.py:177-178 | the first match is the head of the query's result, absent exactly when the result is empty |
| Models.EscholArticleText | models.py:25-26 | `__str__` starts with the article's text and ends with the ark |
| Models.JournalUnitText | models.py:13-14 | `__str__` starts with the journal and ends with the unit |
| Models.ShortArk | models.py:28-29 | the last `min(n, 8)` characters of the ark's final segment, with no "/" |
| Models.EscholUrl | models.py:31-32 | the item page starts with `JSCHOL_URL + "uc/item/"` and ends with the short ark |
| Models.CanonicalArkParts | models.py:28-32 | for "ark:/13030/qt" + 8 characters the short ark is those characters and the page ends with them |
| Models.HasDoiErrorAsWritten | models.py:34-35 | as written, it raises exactly for a registered record with a null result text; unregistered means an error |
| Models.HasDoiError | models.py:34-35 | corrected: an error unless the DOI is registered and the result text is empty, null or mentions "success" |
| Models.HasDoiErrorAgrees | models.py:34-35 | wherever the expression as written answers, it answers as the corrected one |
| Models.HasDoiErrorOnImportedRecord | management/commands/add_arks.py:111-120 | on a record that `add_arks` marks registered without result text, as written raises and corrected reports no error |
| Models.TokenText | models.py:44 | the `k`-th token draw has length `k + 1` |
| Models.TokenTextInjective | models.py:44 | different draws give different tokens |
| Models.AccessToken.Create | logic.py:100 | a new token row has the article, the file, today's date and no token yet |
| Models.AccessToken.GenerateToken | models.py:43-45 | the token is replaced and nothing else changes |
| Models.ArticleHistoryText | models.py:54-59 | "<article> publication <successful/failed> on <date>", ending " with <issue>" exactly for an issue batch |
| Models.SuccessCount | models.py:68 | the successful children: at most all, all exactly when every one succeeded, none exactly when none did |
| Models.Successful | models.py:68 | `children.filter(success=True)`: only successful children, each one of the issue's, in their order, never more than all |
| Models.SuccessfulCount | models.py:68 | the filter keeps exactly as many children as succeeded |
| Models.IssueHistoryText | models.py:67-72 | the summary ends "<k> of <n> articles published." with k the length of the successful filter and n the attempts |
| Models.IssueSummaryCounts | models.py:67-72 | the summary's count k is the number of successes, never above the attempts; k equals n exactly when every attempt succeeded and is 0 exactly when none did |
| Storage.FileLink | logic.py:102-103 | the address of `access_article_file` for the article and file, ending with the token |
| Storage.Store.constructor | logic.py:99-103 | the store starts with the given records, tokens, counter and remote addresses |
| Storage.IssuedTokenFresh | logic.py:99-103 | when no stored row holds a draw from `k` on, the row issued with draw `k` holds a token no earlier row holds, and the table afterwards holds no draw from `k + 1` on |
| Storage.Store.FileUrl | logic.py:99-103 | `get_file_url`: appends exactly one token row for the file with the next draw, returns its address, and changes nothing else; when the counter is ahead of every stored token, the new token differs from all of them |
| Normalize.GetUnit | logic.py:393-398 | `get_unit`: the `JournalUnit`'s unit when the journal has one, else the journal code, and never anything else |
| Normalize.ReadDataAvailability | logic.py:269-277 | the data availability block, one condition at a time, arrives at `DataAvailabilityFields`: the code only when converted, the first "Data URL" answer only for "publicRepo" |
| Normalize.WithTrailingSlash | logic.py:260-262 | the licence URL ends with "/", and is unchanged when it already did |
| Normalize.WithTrailingSlashIdempotent | logic.py:260-262 | normalising twice is normalising once |
| Normalize.Rights | logic.py:259-264 | `rights` is the normalised URL when on the allow-list, absent otherwise and without a licence |
| Normalize.NoDoubleSlash | logic.py:22-27 | no allowed licence ends with "//" |
| Normalize.RightsAccepted | logic.py:259-264 | a licence is accepted exactly when its URL, with or without the final "/", is one of the six, and is sent with the "/" |
| Normalize.FirstDataCodeIsFirstMatch | logic.py:114-126 | a code is found exactly when some answer is in the vocabulary, and it is the first such answer's code |
| Normalize.ConvertDataAvailability | logic.py:114-126 | the loop returns the code of the first recognised answer, or nothing |
| Normalize.DataURLRule | logic.py:269-277 | a data URL only with "publicRepo", and then the first "Data URL" answer whenever one exists |
| Normalize.SectionHeading | logic.py:248-253 | the plural when set and the count exceeds one, the name otherwise |
| Normalize.OrderPosition | logic.py:281-288 | the stored order plus one, or 1 without an ordering row; never 0 |
| Normalize.OrderInSectionValue | logic.py:293 | while the article position has at most four digits, the value is 10000 per section step plus the article position |
| Normalize.OrderInSectionSorts | logic.py:293 | in that range the encoding sorts by section, then article, and never collides |
| Normalize.OrderInSectionCollides | logic.py:293 | beyond four digits two different positions share the value 110001 |
| Normalize.LocalIdOf | logic.py:361-368 | a "doi" identifier is scheme "DOI" without sub-scheme; any other is "OTHER_ID" with its type |
| Normalize.NativeLocalIds | logic.py:359-368 | one local id per identifier |
| Normalize.NativeLocalIdsEach | logic.py:359-368 | each identifier becomes the local id at the same position |
| Normalize.CollectNativeLocalIds | logic.py:359-368 | the loop builds exactly the native local ids |
| Normalize.DepositIssn | logic.py:224-225 | the ISSN is sent exactly when set, non-empty and not "0000-0000" |
| Normalize.ArkFileNames | logic.py:150-151 | for a canonical ark the generated file names keep the "qt" of the final segment |
| Entries.IfPresent | logic.py:304-314 | a nullable text is kept exactly when it is non-empty |
| Entries.AuthorEntryOf | logic.py:301-315 | first and last name always; institution, middle name, e-mail and ORCID only when non-empty |
| Entries.AuthorEntries | logic.py:300-315 | one entry per frozen author |
| Entries.AuthorEntriesEach | logic.py:300-315 | the `i`-th entry is the `i`-th author's |
| Entries.CollectAuthors | logic.py:300-315 | the author loop builds exactly those entries |
| Entries.Grants | logic.py:320-325 | one grant per funder |
| Entries.GrantsEach | logic.py:320-325 | the `i`-th grant has the `i`-th funder's name and reference |
| Entries.CollectGrants | logic.py:320-325 | the funder loop builds exactly those grants |
| Entries.NonEmpty | logic.py:317-318 | a list is sent exactly when it is non-empty |
| Entries.ArticleSupp | logic.py:350-351 | one entry and one token row per supplementary file |
| Entries.ArticleSuppEach | logic.py:105-112 | the `i`-th file is listed under its own name with the `k + i`-th token, whose row opens that file |
| Entries.CollectArticleSupp | logic.py:350-351 | the loop returns those entries and appends exactly those token rows to the store |
| Entries.LinkFile | logic.py:184 | a remote file links to its address without a token; a stored one draws one token for itself |
| Entries.Images | logic.py:183-184 | one entry per image, tokens only for stored images |
| Entries.ImagesEach | logic.py:183-184 | the `i`-th entry is the `i`-th image, remote or linked through a token row for it |
| Entries.CollectImages | logic.py:183-184 | the image loop returns those entries and appends exactly those rows |
| Entries.ArticleSuppLinked | logic.py:350-351 | every supplementary file has its token row |
| Entries.ImagesLinked | logic.py:183-184 | every stored image has its token row |
| Entries.SuppLinkedGrow | logic.py:99-103 | rows added before or after keep every link open |
| Entries.FilesLinkedGrow | logic.py:99-103 | rows added before or after keep every image link open |
| Assembler.AddPdfSupp | logic.py:173-181 | the PDF entry of the XML branch, as `PdfSupp` says, with its token row |
| Assembler.AddCss | logic.py:186-189 | the style sheet entry, as `Css` says |
| Assembler.AddMedia | logic.py:183-189 | the images then the style sheet, as `MediaOf` says |
| Assembler.AddXmlExtras | logic.py:173-189 | PDF, images and style sheet, or the exception, as `XmlExtrasOf` says |
| Assembler.AddXmlFiles | logic.py:155-166 | the HTML file then the XML file, each with its token |
| Assembler.ConvertXml | logic.py:155-189 | the conversion, as `XmlConversion` says |
| Assembler.XmlGalleyToHtml | logic.py:128-191 | takes or creates the record (minted or placeholder ark), stores it, then converts with its ark |
| Assembler.AddGalleyContent | logic.py:329-348 | the galley part, as `GalleyContent` says |
| Assembler.AddArticleSupp | logic.py:350-351 | the supplementary file loop after the galley part, one entry and one token row per file, as `WithArticleSupp` says; the legacy build runs the same loop (eschol/logic.py:311-315) |
| Assembler.ReadSource | logic.py:194-204 | "janeway" and the article key, replaced by the record's source and source id when the record names a source |
| Assembler.ReadOptionalKeys | logic.py:221-246 | each optional key under its own condition: abstract, ISSN unless "0000-0000", dates, citation, pages printed in decimal, language, publisher, each absent when unset |
| Assembler.ReadSectionHeading | logic.py:248-253 | the plural name when set and the section has more than one article, else the name |
| Assembler.ReadRights | logic.py:259-264 | the licence URL with a final "/", kept only when it is one of the allowed rights |
| Assembler.ReadIssueFields | logic.py:279-298 | the issue keys, with both ordering rows defaulting to position 1 and the optional description and caption |
| Assembler.BuildBaseItem | logic.py:193-327 | the item `get_article_json` writes before the galley part, key by key under the source's conditions, proved equal to the function `BaseItem` |
| Assembler.AddFiles | logic.py:329-357 | the galley part then the supplementary file loop, as `ArticleContent` says |
| Assembler.GetArticleJson | logic.py:193-377 | `get_article_json`: result, record and token rows exactly as `ArticleJson` says |
| PayloadContent.RenderCandidateRule | logic.py:329-332 | the render galley, else the first public PDF galley; none without such a galley |
| PayloadContent.PdfCandidateRule | logic.py:173-175 | the first public PDF-type galley; only when there is none, the first public untyped galley with a PDF mime type |
| PayloadContent.XmlConversionRaises | logic.py:177-178 | the conversion raises exactly when the PDF galley has no file, after the HTML and XML tokens were issued |
| PayloadContent.GalleyContentRaises | logic.py:337-348 | the galley part raises exactly in that case, with the record already created |
| PayloadContent.ArticleJsonRaises | logic.py:193-377 | the build raises exactly without an owner, without a publication date, or for a PDF galley without a file |
| PayloadContent.ArticleJsonContentOf | logic.py:337-357 | a built payload carries the content fields and record of the article's content |
| PayloadContent.WithArticleSuppKeeps | logic.py:350-354 | the article's own files come after the galley's supplementary files |
| PayloadContent.ArticleJsonNoGalley | logic.py:336-337 | without a public candidate there are no content fields and the record is unchanged |
| PayloadContent.ArticleJsonRemoteGalley | logic.py:338-339 | a remote galley gives only `externalLinks` |
| PayloadContent.ArticleJsonFileGalley | logic.py:344-348 | a local non-XML file is the content, with the first token and its original name |
| PayloadContent.GalleyContentXml | logic.py:341-343 | for an XML galley the galley part stores the record, takes its ark as `id`, links the HTML file with the first token and lists the XML file first among the supplementary files with the next |
| PayloadContent.ArticleJsonXmlGalley | logic.py:341-343 | an XML galley gives `id` from the record, the HTML file as content, and the XML file first among the supplementary files |
| PayloadFields.ArticleJsonDone | logic.py:193-377 | a built payload is the base item plus the content fields |
| PayloadFields.ArticleJsonRequired | logic.py:206-219 | the always-sent keys: submitter, title, type, publication date, peer review, journal, `units == [unit]` |
| PayloadFields.ArticleJsonSource | logic.py:194-208 | the recorded source and id when the record names a source, "janeway" and the key otherwise |
| PayloadFields.ArticleJsonOptional | logic.py:221-246 | each optional scalar is sent exactly when truthy, with its value; ISSN not when "0000-0000" |
| PayloadFields.ArticleJsonRights | logic.py:259-264 | `rights` exactly for an allowed licence, written with the "/" |
| PayloadFields.ArticleJsonSectionHeader | logic.py:248-253 | the plural for a section with more than one article and a plural, else the name; none without a section |
| PayloadFields.ArticleJsonIssue | logic.py:279-298 | the issue keys exactly with an issue; `orderInSection` is 10000 per section position plus the article position |
| PayloadFields.ArticleJsonLocalIds | logic.py:359-375 | `localIDs` always: the native ids in order, then "janeway_<pk>" |
| PayloadFields.ArticleJsonKeywords | logic.py:255-257 | keywords exactly when some is non-empty, and then exactly the non-empty ones |
| PayloadFields.KeywordsKept | logic.py:255-257 | the kept list is present exactly when some keyword is non-empty |
| PayloadFields.ArticleJsonPeople | logic.py:300-327 | authors and grants exactly when there are some, one entry each in order, grants with the FundRef id |
| PayloadFields.ArticleJsonDataAvailability | logic.py:269-277 | the first recognised code; the data URL only with "publicRepo" |
| PayloadProperties.PdfSuppLinked | logic.py:177-181 | the PDF entry has its token row |
| PayloadProperties.MediaLinked | logic.py:183-189 | images and style sheet have their rows |
| PayloadProperties.WithMediaLinked | logic.py:177-189 | the extras after the PDF entry have their rows |
| PayloadProperties.XmlExtrasLinked | logic.py:173-189 | the XML branch's extras have their rows |
| PayloadProperties.ConvertedLinked | logic.py:155-189 | the converted content's links have their rows |
| PayloadProperties.XmlFilesOfLinked | logic.py:155-166 | the HTML and XML files have their rows |
| PayloadProperties.XmlConversionLinked | logic.py:155-189 | the conversion's links all have their rows |
| PayloadProperties.GalleyContentLinked | logic.py:337-348 | the galley part's links have their rows |
| PayloadProperties.WithSuppLinked | logic.py:350-354 | appended files with their rows keep the content's links open |
| PayloadProperties.WithArticleSuppLinked | logic.py:350-354 | the article's own files keep every link open |
| PayloadProperties.ArticleContentLinked | logic.py:329-357 | the content's links have their rows |
| PayloadProperties.ArticleJsonLinked | logic.py:193-377 | every download link in the payload points into the article and has a row among those the build created |
| Deposit.ReadAnswer | logic.py:455-482 | the reading of the answer: "data" stores the record (the given one or a new one with the answer's id) and the remote address; a null "data" or "depositItem" raises the `TypeError`; "errors" is a message; without either key the `KeyError`; an undecodable answer the fixed message |
| Deposit.Post | logic.py:451-489 | the posting half: outcome, records, remote addresses and tokens exactly as `Deliver` says |
| Deposit.SendArticle | logic.py:420-489 | `send_article`: outcome and new state exactly as `SendArticleOf` says |
| Deposit.DeliverOutcome | logic.py:447-489 | deposited exactly when the build succeeded, configured and the answer has "data"; the posted item carries the record's ark |
| Deposit.SendArticleOutcome | logic.py:420-489 | a failed check stops everything; past them it raises exactly on a missing date, a PDF galley without file, or an answer with neither key or with a null "data" or "depositItem" |
| Deposit.SendArticleUnconfigured | logic.py:483-487 | unconfigured: nothing posted, nothing deposited, the remote address untouched |
| Deposit.SendIssueMetaSucceeds | logic.py:491-523 | success exactly without a cover, unconfigured with an integer number, or on "Cover Image uploaded"; only undecodable answers and a null "data" or "updateIssue" raise |
| Deposit.IssueNumberAccepted | logic.py:502-508 | a cover issue whose number prints an integer gets past the number check |
| Deposit.SendInBatchApply | logic.py:545 | inside a batch an article is sent as on its own |
| Deposit.SendArticlesNext | logic.py:544-549 | one more article extends the batch by its sending, unless stopped |
| Deposit.TokenPositions | logic.py:544-549 | the next token position is the start plus the rows created |
| Deposit.StoppedStays | logic.py:550-554 | once an exception ended the batch, the remaining articles change nothing |
| Deposit.BatchCounts | logic.py:544-549 | each article adds exactly one record or message; only an exception stops early |
| Deposit.NoDeposits | logic.py:544-549 | a sender that never deposits collects no records and marks nothing remote |
| Deposit.CoverFirst | logic.py:539-554 | a failed cover's message is the first error; a raising cover sends no article |
| Deposit.InBatchUnconfigured | logic.py:483-487 | unconfigured, a batch's sender never deposits |
| Deposit.IssueUnconfigured | logic.py:532-556 | unconfigured, an issue deposit collects no records and marks nothing remote |
| Deposit.SendNext | logic.py:545-549 | one article of the loop: the batch and the store move as `SendInto` says |
| Deposit.SendAll | logic.py:544-549 | the loop over the articles, as `SendArticles` says |
| Deposit.IssueToEschol | logic.py:532-556 | `issue_to_eschol`: objects, errors and new state as `IssueToEscholOf` says |
| Deposit.ArticleToEschol | logic.py:558-570 | `article_to_eschol`: the result of `send_article`, an exception turned into its message |
| Views.UnexpiredMembers | views.py:83 | the sweep keeps exactly the rows not dated before yesterday |
| Views.Sweep | views.py:83 | deletes exactly the expired rows and nothing else |
| Views.Lookup | views.py:84 | found exactly when some row opens the file for the token |
| Views.AccessArticleFile | views.py:78-89 | `access_article_file`: the answer `AccessOf` gives; the table swept only when the parameter is there |
| Views.AccessGate | views.py:78-89 | through exactly with a token and a live row matching article, file and token; then 404 exactly for a missing article or file |
| Views.LinkOpens | views.py:78-89 | an address whose row is in the table opens its file on the row's day and the next |
| Views.ContentLinkOpens | logic.py:344-348 | the content file of a built payload can be fetched on the deposit day and the next |
| Views.PublishIssueGuardAsWritten | views.py:21 | as written, with the fields models.py:61-65 declares, the guard raises `FieldError` whatever is stored; with the flag declared it answers whether some stored deposit is incomplete |
| Views.PublishIssueTask | views.py:19-25 | corrected: the issue is deposited, with `issue_to_eschol`'s records and messages, exactly when no stored deposit of it is incomplete; otherwise the "in process" message and nothing changes |
| Views.IssuedTokenOpensOnlyItsFile | logic.py:99-103 | a freshly issued token opens exactly its own article's file and no other |
| LegacyAssembler.AddLegacyPdfSupp | eschol/logic.py:283-297 | the legacy PDF entry, as `LegacyPdfSupp` says |
| LegacyAssembler.AddLegacyXmlExtras | eschol/logic.py:283-304 | PDF entry, images and style sheet |
| LegacyAssembler.ConvertLegacyXml | eschol/logic.py:269-304 | the legacy conversion, as `LegacyXmlConversion` says |
| LegacyAssembler.LegacyXmlToHtml | eschol/logic.py:246-304 | takes or creates the record, then converts with its ark |
| LegacyAssembler.AddLegacyGalleyContent | eschol/logic.py:236-309 | the galley part, as `LegacyGalleyContent` says |
| LegacyAssembler.ReadLegacyOptionalKeys | eschol/logic.py:158-179 | citation, pages as numbers and publisher, each only when set |
| LegacyAssembler.ReadLegacyIssueFields | eschol/logic.py:191-205 | the issue keys with the description as it is, the section position defaulting to 1, the article position from its ordering row |
| LegacyAssembler.BuildLegacyBaseItem | eschol/logic.py:127-234 | the item the legacy `get_article_json` writes before the galley part, key by key under the source's conditions, proved equal to the function `LegacyBaseItem` |
| LegacyAssembler.AddLegacyFiles | eschol/logic.py:236-318 | the galley part then the supplementary files |
| LegacyAssembler.LegacyGetArticleJson | eschol/logic.py:127-334 | legacy `get_article_json`: result, record and token rows as `LegacyArticleJson` says |
| LegacyPayloadProperties.LegacyJsonDone | eschol/logic.py:127-334 | a built payload is the base item plus the content fields |
| LegacyPayloadProperties.LegacyRenderGalleyRule | eschol/logic.py:236-239 | the render galley, else the first PDF galley public or not; raises only when there is none |
| LegacyPayloadProperties.LegacyXmlConversionDone | eschol/logic.py:283-297 | the legacy conversion never raises |
| LegacyPayloadProperties.LegacyGalleyContentRaises | eschol/logic.py:236-309 | the galley part raises only without a content galley, before anything is written |
| LegacyPayloadProperties.LegacyJsonRaises | eschol/logic.py:136-239 | raises exactly without owner, publication, submission or acceptance date, section, article ordering row, or content galley; before any write |
| LegacyPayloadProperties.LegacyOrderingRequired | eschol/logic.py:197 | an issue article without an ordering row cannot be deposited, where the current code places it at 1 |
| LegacyPayloadProperties.ArticleJsonIssuePosition | logic.py:285-293 | the current payload's position encoding with defaults |
| LegacyPayloadProperties.LegacyJsonFixedKeys | eschol/logic.py:136-156 | the source id is always the article key; abstract, ISSN and language sent as they are; the section header counts published articles |
| LegacyPayloadProperties.LegacyJsonIssue | eschol/logic.py:191-205 | issue fields exactly with an issue; the description as it is; the position from both ordering rows |
| LegacyPayloadProperties.LegacyIssueFieldsValue | eschol/logic.py:198-203 | the issue fields of an article with an ordering row |
| LegacyPayloadProperties.LegacyJsonLocalIds | eschol/logic.py:320-332 | exactly the platform identifiers, absent when there are none; no "janeway_<pk>" entry |
| LegacyPayloadProperties.LegacyJsonGrants | eschol/logic.py:227-234 | one grant per funder with the funding id |
| LegacyPayloadProperties.LegacyJsonSharedRules | eschol/logic.py:167-189 | rights, keywords and data availability follow the current rules |
| LegacyPayloadProperties.LegacyJsonFileGalley | eschol/logic.py:305-309 | a local non-XML galley is linked, public or not |
| LegacyPayloadProperties.PrivateGalleyDiffers | eschol/logic.py:243-309 | for a private non-XML render galley the current payload has no content link and the legacy one links it |
| LegacyPayloadProperties.LegacyPdfFileRule | eschol/logic.py:283-297 | the first PDF-type galley's file, public or not; else the untyped PDF galley only when it is the only one |
| LegacyPayloadProperties.LegacyPdfSuppLinked | eschol/logic.py:293-297 | the PDF entry has its row |
| LegacyPayloadProperties.LegacyXmlExtrasLinked | eschol/logic.py:283-304 | the extras have their rows |
| LegacyPayloadProperties.LegacyXmlConversionLinked | eschol/logic.py:269-304 | the conversion's links have their rows |
| LegacyPayloadProperties.LegacyGalleyContentLinked | eschol/logic.py:243-309 | the galley part's links have their rows |
| LegacyPayloadProperties.LegacyJsonLinked | eschol/logic.py:127-334 | every download link of the legacy payload points into the article and has a row the build created |
| LegacyDeposit.LegacyRead | eschol/logic.py:389-406 | the reading of the answer: "data" stores the record (the given one or a new one with the answer's id) and the remote address and reports message and id; "errors" is the message; a null "data" or "depositItem" the `TypeError`'s text; without either key the missing key's text; an undecodable answer the fixed text |
| LegacyDeposit.LegacyPost | eschol/logic.py:384-408 | the posting half: message and new state as `LegacyDeliver` says |
| LegacyDeposit.LegacySendArticle | eschol/logic.py:374-412 | legacy `send_article`: message and new state as `LegacySendArticleOf` says |
| LegacyDeposit.LegacyDeliverOutcome | eschol/logic.py:380-412 | a failed build gives its text; unconfigured the item is the message; configured the answer decides, and only "data" stores a record |
| LegacyDeposit.LegacyItemId | eschol/logic.py:381-382 | the item carries the record's ark when there is a record |
| LegacyDeposit.LegacySendArticleOutcome | eschol/logic.py:374-412 | never raises; deposits exactly on a built payload, configured, "data"; does so for an unpublished article the current code refuses |
| LegacyDeposit.LegacySendUnconfigured | eschol/logic.py:407-408 | unconfigured nothing is posted and nothing marked remote; a built payload is the message |
| LegacyDeposit.LegacySendInBatchApply | eschol/logic.py:432-433 | inside a batch an article is sent as on its own |
| LegacyDeposit.LegacyCoverFirst | eschol/logic.py:419-434 | a cover exception is passed on before any article; otherwise the cover's messages first, then one per article |
| LegacyDeposit.SendEachNext | eschol/logic.py:432-433 | one more article appends its sending |
| LegacyDeposit.SendEachCounts | eschol/logic.py:432-433 | one message per article after the initial ones; token positions follow one another |
| LegacyDeposit.SendEachMessages | eschol/logic.py:432-433 | each appended message is that article's, sent after the ones before |
| LegacyDeposit.SendEachUnconfigured | eschol/logic.py:407-408 | unconfigured, a batch marks nothing remote |
| LegacyDeposit.LegacyIssueOutcome | eschol/logic.py:414-434 | raises exactly with a cover and a non-integer number; otherwise the cover message (exactly with a cover) and one message per article |
| LegacyDeposit.LegacyIssueNumberAccepted | eschol/logic.py:419-424 | a cover issue whose number prints an integer never raises |
| LegacyDeposit.LegacySendNext | eschol/logic.py:432-433 | one article of the loop appends its message |
| LegacyDeposit.LegacyIssueToEschol | eschol/logic.py:414-434 | legacy `issue_to_eschol`: messages and state as `LegacyIssueToEscholOf` says; on a raise the store is unchanged |
| LegacyDeposit.LegacyArticleToEschol | eschol/logic.py:436-438 | the one message of `send_article` |
| LegacyViews.LegacyAccessArticleFile | eschol/views.py:59-78 | legacy `access_article_file`: the answer `LegacyAccessOf` gives, the table swept when the parameter is there |
| LegacyViews.LegacyAlwaysResponds | eschol/views.py:67-78 | the view never falls off its end: the id "None" is refused by the integer lookup first |
| LegacyViews.LegacyAccessAgrees | eschol/views.py:59-78 | for a numbered file, as the current view, except that a missing article raises instead of 404 |
| LegacyViews.LegacyLinkOpens | eschol/views.py:59-78 | an address whose row is in the table opens its file on the row's day and the next |
| AddArks.LastMatchRule | management/commands/add_arks.py:54-61 | the last local id with the prefix wins; none exactly when no local id has it |
| AddArks.ArkMapKeys | management/commands/add_arks.py:66 | `ark_map` holds exactly the export's arks |
| AddArks.ArkMapLastRow | management/commands/add_arks.py:66 | an ark's entry is the source and DOI of the last row with it |
| AddArks.IdMapKeys | management/commands/add_arks.py:44-64 | `id_map` holds exactly the non-empty OJS ids of the rows |
| AddArks.IdMapLastRow | management/commands/add_arks.py:62-63 | an OJS id's entry is the ark, source and DOI of the last row with it |
| AddArks.ExportLeavesOjsId | management/commands/add_arks.py:41-66 | after reading, `ojs_id` holds the last row's OJS id, unassigned for an empty export |
| AddArks.LastNamedRule | management/commands/add_arks.py:83-91 | the last identifier with the name wins; none exactly when none has it |
| AddArks.FindRecord | management/commands/add_arks.py:105 | a found position holds a record matching article, ark and source; none found means none matches |
| AddArks.SaveRecordRule | management/commands/add_arks.py:103-121 | `get_or_create` then the DOI: one matching record afterwards, marked when the DOI is usable; a DOI row exactly then; no duplicate |
| AddArks.ImportFromRule | management/commands/add_arks.py:70-121 | no change without exactly one log entry; a record exactly when an ark is chosen, `id_map` first; the full ark stored |
| AddArks.ImportAllNoDuplicates | management/commands/add_arks.py:70-121 | the article loop keeps the records free of duplicates |
| AddArks.ImportFromKeeps | management/commands/add_arks.py:103-121 | one article only adds or marks records and only adds DOI rows |
| AddArks.ImportAllKeeps | management/commands/add_arks.py:70-121 | every earlier record stays at its place, possibly marked |
| AddArks.ImportAllAsWrittenNoDuplicates | management/commands/add_arks.py:70-121 | the article loop as written, `ojs_id` carried over, also never creates duplicate records |
| AddArks.ImportAllAsWrittenKeeps | management/commands/add_arks.py:70-121 | the loop as written also only adds or marks records, each earlier record at its place, and only adds DOI identifiers |
| AddArks.EmptyExportUnbound | management/commands/add_arks.py:41-93 | as written, with an empty export the first article with one log entry and no "source_id" raises `UnboundLocalError` and stores nothing; with the reset it can raise only the `KeyError` of a logged ark |
| AddArks.StaleOjsIdCounterexample | management/commands/add_arks.py:83-99 | as written, an article with no "source_id" gets the ark of the last export row's OJS id; reset, it gets nothing |
| AddArks.CorrectedOwnLog | management/commands/add_arks.py:83-109 | reset per article, the outcome depends only on the article's own log and the export |
| AddArks.ImportDb.constructor | management/commands/add_arks.py:105-118 | the tables start as given |
| AddArks.ReadRowOjsId | management/commands/add_arks.py:44-61 | one row's OJS id, as `RowOjsId` says |
| AddArks.ReadExport | management/commands/add_arks.py:41-66 | the export loop builds the two maps and `ojs_id` as `ReadRows` says |
| AddArks.ScanLog | management/commands/add_arks.py:83-91 | the last "source_id" (or the previous value) and the last "ark" |
| AddArks.ImportOne | management/commands/add_arks.py:70-121 | one article, `ojs_id` reset first: the tables change as `CorrectedImportArticle` says |
| AddArks.AddArksCommand | management/commands/add_arks.py:27-121 | the whole command, `ojs_id` reset per article: refused for an unknown journal, else the tables as `AddArksOf` says |
| AddArks.StoppedImport | management/commands/add_arks.py:70-121 | after an exception the remaining articles change nothing |
| AddSourceIds.JournalKey | management/commands/add_source_ids.py:20 | `code[:24]`: at most 24 characters, a prefix of the code, the code itself when short |
| AddSourceIds.ArkRowsLast | management/commands/add_source_ids.py:23-27 | an ark's entry is the source and id of the last row with it |
| AddSourceIds.ArkRowsKeys | management/commands/add_source_ids.py:23-27 | the map holds exactly the export's arks |
| AddSourceIds.UpdateRule | management/commands/add_source_ids.py:29-39 | only `source_id` changes, only on a journal record with a source whose row agrees, and then to the row's id |
| AddSourceIds.UpdateIdempotent | management/commands/add_source_ids.py:29-39 | running the command twice with the same export changes nothing more |
| AddSourceIds.StoredArkFound | management/commands/add_source_ids.py:30 | a record stored by `add_arks` from a canonical bare ark is found under that same bare ark |
| AddSourceIds.ReadArks | management/commands/add_source_ids.py:23-27 | the export loop builds the map `ArkRows` |
| AddSourceIds.UpdateOne | management/commands/add_source_ids.py:30-39 | one record updated as `Updated` says |
| AddSourceIds.AddSourceIdsCommand | management/commands/add_source_ids.py:19-39 | the table afterwards is `UpdateAll` of the old table |

## Left out

- HTTP calls to the repository API (`send_to_eschol`, `get_provisional_id`) are not made. Each
  answer is a parameter: a `DepositResponse`, a `CoverResponse`, and the ark that
  `Env.mintedArk` gives.
- `withdraw_item` and `register_doi` are not modelled. The first only posts and prints; the
  second calls into the `ezid` plugin, which is not part of this model. The missing-DOI
  warning is left out too.
- LegacyDeposit.LegacySendArticle: the `generate_crossref_doi_with_pattern` call for an
  article without a DOI (eschol/logic.py:378-379) is not modelled. In the source the DOI it
  creates would be among the identifiers that `localIDs` lists (eschol/logic.py:320-332),
  and an exception it raises would become the returned message. The model builds the
  payload from the article's identifiers as given, so LegacyJsonLocalIds holds only for
  those.
- Rendering the XML galley (`render_to_string`, `xmllint`) and writing the HTML file to disk
  (`save_article_file`) are not modelled. The stored file is a key given by `Env`, and the
  deletion of old HTML files with the same name is not modelled.
- `token_urlsafe`: tokens are the counter-indexed texts `TokenText(k)`, not random text.
- Dates are already formatted `"%Y-%m-%d"` texts, and token dates are day numbers. The
  `strftime` formatting itself is not modelled.
- Logging, `messages` to the request, and `print` are not modelled.
- Views.PublishIssueTask: returns the pair `(objs, errors)` of `issue_to_eschol`, not the
  text `str(ipub)` that views.py:23 returns.
- Views.UnknownFieldMsg: the `FieldError` text stops at "into field."; the list of
  choices Django appends is not modelled.
- Deposit and cover answers: JSON whose "data" is present but lacks "depositItem",
  "message" or "id" (logic.py:458-459), or lacks "updateIssue" or "message" (logic.py:515),
  raises a `KeyError` that is not modelled; a null "data", "depositItem" or "updateIssue" is. The legacy
  `send_issue_meta` only collects the answer's text, so the null case does not arise there.
- Text.ParseInt: accepts only an optional sign and digits. Python's `int()` also accepts
  surrounding whitespace and underscores between digits.
- The `async_task` queue of `publish_issue` is not modelled. The template-only views
  (`publish_issue`, `publish_article`, `list_articles`, `eschol_manager`, and their legacy
  versions) are not modelled either, because they only render templates around the
  functions above.
- `files.serve_file` is abstracted to `Served(article, file)`.
- Management commands: reading the TSV file and the JSON of `local_ids` and log entries is
  abstracted. Rows arrive parsed, and a log entry is its list of external identifiers.
  - A log entry without `external_identifiers` (a `KeyError`) is not modelled.
  - Malformed JSON is not modelled.
- Storage.Store: `records` holds at most one `EscholArticle` per article. The database
  does not promise that: `EscholArticle.article` is a plain foreign key (models.py:17,
  eschol/models.py:16), and `add_arks` can add a second row for an article that a deposit
  already recorded without a source (management/commands/add_arks.py:105). With two rows,
  `EscholArticle.objects.get(article=article)` raises `MultipleObjectsReturned`. The
  `ImportDb` table of `add_arks` is a sequence and can hold such rows, but it is not
  linked to `Store.records`.
- PayloadContent.ArticleJsonRaises: its "raises exactly" holds for an article with at
  most one `EscholArticle` row. The `MultipleObjectsReturned` raised at logic.py:197 for
  two or more rows is not modelled.
- Deposit.SendArticleOutcome: likewise, the uncaught `MultipleObjectsReturned` from
  logic.py:197 (through logic.py:447) for an article with several `EscholArticle` rows is
  not among its raises.
- LegacyPayloadProperties.LegacyJsonRaises: likewise, the `MultipleObjectsReturned` at
  eschol/logic.py:130 for several rows is not modelled. The legacy `send_article` would
  return its text as the message.
- AddArks.SaveRecordRule: `get_or_create` is modelled as taking the last matching record.
  The `MultipleObjectsReturned` path is not modelled; AddArks.ImportAllNoDuplicates proves
  the command never creates such duplicates itself.
- AddArks.AddArksCommand: models the command with `ojs_id` reset before each article's log
  entry is read, as listed under Findings; AddArks.ImportOne is that corrected per-article
  pass. The step as written is AddArks.ImportArticle, and the command as written is
  `AddArksAsWrittenOf`, which AddArks.EmptyExportUnbound,
  AddArks.ImportAllAsWrittenNoDuplicates and AddArks.ImportAllAsWrittenKeeps are about.
- The add_arks test at tests/test_import_arks.py:90-99 expects an existing DOI identifier to
  be replaced. The command only creates identifiers (add_arks.py:118), so the model appends one.
- UnboundLocalError text: `AddArks.UnboundOjsId` is the wording of Python up to 3.10. Later
  versions word it differently.
- LegacyDeposit.InvalidLiteralMsg: the `ValueError` text puts the issue number between
  plain single quotes. Python prints its `repr`, which differs for text holding a quote
  or a backslash.
- LegacyViews.LegacyAccessOf: the text of the `ValueError` for file id "None" is the one
  Django 1.11 gives for an `IntegerField` lookup. The URL pattern `\d+` would already keep
  "None" from reaching the view.

## Findings

| source | as written | input that shows it | evidently intended | confidence | as-written member | corrected member |
|---|---|---|---|---|---|---|
| models.py:35 | `"success" in self.doi_result_text` is evaluated before `not self.doi_result_text` | a record with `is_doi_registered=True` and `doi_result_text=None`, as `add_arks` creates (add_arks.py:119-120): `TypeError` | a registered record with no result text has no DOI error | not executed | Models.HasDoiErrorAsWritten, Models.HasDoiErrorOnImportedRecord | Models.HasDoiError, Models.HasDoiErrorAgrees |
| views.py:21 | `filter(issue=issue, is_complete=False)`, a field `IssuePublicationHistory` (models.py:61-65) does not declare | any call, e.g. an issue with no stored deposits: `FieldError` "Cannot resolve keyword 'is_complete' into field." | the history declares the completion flag, and the issue is deposited when no stored deposit of it is incomplete | not executed | Views.PublishIssueGuardAsWritten | Views.PublishIssueTask |
| management/commands/add_arks.py:83-99 | `ojs_id` is not reset before each article's log entry is read | an export with one OJS row ("qt00000001", "ojs", "100") and an article whose log entry has no "source_id": it gets ark:/13030/qt00000001 | an article without "source_id" gets only what its own log entry names | not executed | AddArks.ImportArticle, AddArks.StaleOjsIdCounterexample | AddArks.CorrectedImportArticle, AddArks.CorrectedOwnLog |
