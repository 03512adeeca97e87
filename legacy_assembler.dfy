/** The deposit payload of the legacy connector (eschol/logic.py, `get_article_json`).
    It shares the current connector's building blocks (rights, data availability,
    position encoding, author and grant entries, file entries and the XML file names)
    but follows older rules: several keys are always sent, possibly null; a missing
    date, section or `ArticleOrdering` row raises; the content galley need not be public
    and an article without one raises; grants carry the funding id; and there is no
    synthetic local identifier. `LegacyArticleJson` states what the payload is and the
    method `LegacyGetArticleJson` builds it and is proved to arrive at it. */
module LegacyAssembler {
  import opened Wrappers
  import opened Text
  import opened Records
  import opened Models
  import opened Normalize
  import opened Storage
  import opened Entries
  import opened Assembler

  /** The issue fields of the legacy payload; `issueDescription` is always sent and is
      null when the issue has none. */
  datatype LegacyIssueFields = LegacyIssueFields(
    volume: string,
    issue: string,
    issueTitle: string,
    issueDate: string,
    issueDescription: Option<string>,
    orderInSection: nat,
    issueCoverCaption: Option<string>)

  /** The legacy deposit item. The fields from `sourceName` to `datePublished` are
      always sent (`title`, `summary`, `issn` and `language` may be null); every `Option`
      after them is a key left out when `None`. Pages are sent as numbers. */
  datatype LegacyPayload = LegacyPayload(
    sourceName: string,
    sourceID: string,
    sourceURL: string,
    submitterEmail: string,
    title: Option<string>,
    itemType: string,
    published: string,
    isPeerReviewed: bool,
    contentVersion: string,
    summary: Option<string>,
    journal: string,
    sectionHeader: string,
    issn: Option<string>,
    units: seq<string>,
    language: Option<string>,
    pubRelation: string,
    dateSubmitted: string,
    dateAccepted: string,
    datePublished: string,
    customCitation: Option<string>,
    fpage: Option<nat>,
    lpage: Option<nat>,
    keywords: Option<seq<string>>,
    rights: Option<string>,
    publisher: Option<string>,
    dataAvailability: Option<string>,
    dataURL: Option<string>,
    issueFields: Option<LegacyIssueFields>,
    authors: Option<seq<AuthorEntry>>,
    grants: Option<seq<Grant>>,
    externalLinks: Option<seq<string>>,
    contentLink: Option<Download>,
    contentFileName: Option<string>,
    cssFiles: Option<LinkedFile>,
    suppFiles: Option<seq<SuppFile>>,
    imgFiles: Option<seq<LinkedFile>>,
    localIDs: Option<seq<LocalId>>,
    id: Option<string>)

  /** What building the legacy payload produced: the payload or the exception raised,
      the article's `EscholArticle` afterwards, and the token rows created. */
  datatype LegacyJsonStep = LegacyJsonStep(result: Outcome<LegacyPayload>, epub: Option<EscholArticle>, rows: seq<TokenRow>)

  const NoPlural := "'NoneType' object has no attribute 'plural'"
  const NoArticleOrdering := "ArticleOrdering matching query does not exist."
  const NoPdfGalley := "list index out of range"

  // ---------------------------------------------------------------------------
  // Fields that do not depend on galleys

  /** The exception raised before any file is looked at, in the order the keys are
      read: the owner's e-mail, the publication date, the section's plural, the
      submission and acceptance dates, then the `ArticleOrdering` row of an article in
      an issue. */
  function ItemError(a: Article): Option<string>
  {
    if a.owner.None? then Some(NoEmail)
    else if a.datePublished.None? then Some(NoDate)
    else if a.section.None? then Some(NoPlural)
    else if a.dateSubmitted.None? || a.dateAccepted.None? then Some(NoDate)
    else if a.issue.Some? && a.articleOrder.None? then Some(NoArticleOrdering)
    else None
  }

  /** The legacy grant reference: the funder's funding id. */
  function FundingId(f: Funder): Option<string>
  {
    f.fundingId
  }

  function NumberIfPresent(o: Option<nat>): Option<nat>
  {
    if PresentNumber(o) then o else None
  }

  /** The issue fields: the section position defaults to 1, the article position is
      read from its ordering row. */
  function LegacyIssueFieldsOf(a: Article, issue: Issue): LegacyIssueFields
    requires a.articleOrder.Some?
  {
    LegacyIssueFields(IntText(issue.volume), issue.number, issue.title, issue.date, issue.description,
      OrderInSection(OrderPosition(a.sectionOrder), a.articleOrder.value + 1),
      IfPresent(issue.shortDescription))
  }

  /** Every field that does not depend on galleys and files; the file fields are empty. */
  function LegacyBaseItem(a: Article, unit: string, epub: Option<EscholArticle>): LegacyPayload
    requires ItemError(a).None?
  {
    var data := DataAvailabilityFields(a.fieldAnswers);
    LegacyPayload(
      SourceName(epub), NatToDecimal(a.pk), a.journal.pressDomain, a.owner.value, a.title,
      "ARTICLE", a.datePublished.value, a.peerReviewed, "PUBLISHER_VERSION", a.summary, a.journal.name,
      SectionHeading(a.section.value, a.section.value.publishedCount), a.journal.issn, [unit], a.language,
      "EXTERNAL_PUB", a.dateSubmitted.value, a.dateAccepted.value, a.datePublished.value,
      IfPresent(a.customHowToCite), NumberIfPresent(a.firstPage), NumberIfPresent(a.lastPage),
      NonEmpty(NonEmptyWords(a.keywords)), Rights(a.license), IfPresent(a.publisherName),
      data.dataAvailability, data.dataURL,
      if a.issue.Some? then Some(LegacyIssueFieldsOf(a, a.issue.value)) else None,
      NonEmpty(AuthorEntries(a.authors)), NonEmpty(Grants(a.funders, FundingId)),
      None, None, None, None, None, None,
      NonEmpty(NativeLocalIds(a.identifiers)), None)
  }

  // ---------------------------------------------------------------------------
  // Galleys

  /** The content galley: the render galley, else the first galley (public or not)
      whose file is a PDF; indexing the empty query result raises. */
  function LegacyRenderGalley(a: Article): Outcome<Galley>
  {
    if a.renderGalley.Some? then Done(a.renderGalley.value)
    else
      var first := FirstMatch(a.galleys, GalleyQuery(false, false, Some({"application/pdf"})));
      if first.Some? then Done(first.value) else Raised(NoPdfGalley)
  }

  /** The PDF file of the XML branch: the file of the first galley of type PDF when
      there is one, else the file of the only untyped galley with a PDF mime type
      (none when there are several). Public or not. */
  function LegacyPdfFile(a: Article, env: Env): Option<StoredFile>
  {
    if |a.pdfs| > 0 then a.pdfs[0].file
    else
      var untyped := Select(a.galleys, GalleyQuery(false, true, Some(env.pdfMimeTypes)));
      if |untyped| == 1 then untyped[0].file else None
  }

  /** The PDF entry named after the ark, with the `k`-th token; looking for it never
      raises. */
  function LegacyPdfSupp(a: Article, ark: string, env: Env, k: nat): Attempt<seq<SuppFile>>
  {
    match LegacyPdfFile(a, env)
    case None => Attempt(Done([]), [])
    case Some(f) =>
      Attempt(Done([SuppEntry(f, a.pk, k, Some(PdfName(ark)), Some("[PDF] " + PyStr(a.title)))]),
              [IssuedRow(env, a.pk, f.pk, k)])
  }

  /** The PDF entry, then the galley's images and style sheet. */
  function LegacyXmlExtrasOf(a: Article, g: Galley, ark: string, env: Env, k: nat): Attempt<XmlExtras>
  {
    WithMedia(LegacyPdfSupp(a, ark, env, k), g, env, a.pk, k)
  }

  /** The content of the XML branch for a record with `ark`: the generated HTML file,
      the XML file, then the extras. */
  function LegacyXmlConversion(a: Article, g: Galley, gf: StoredFile, ark: string, env: Env, k: nat): Attempt<Content>
  {
    var files := XmlFilesOf(a, gf, ark, env, k);
    Converted(files, LegacyXmlExtrasOf(a, g, ark, env, k + |files.rows|), ark)
  }

  /** The XML branch: the record is taken or created first and its ark names the files. */
  function LegacyXmlContent(a: Article, g: Galley, gf: StoredFile, epub: Option<EscholArticle>, env: Env, k: nat): ContentStep
  {
    var rec := XmlRecord(a, epub, env);
    var conversion := LegacyXmlConversion(a, g, gf, rec.ark, env, k);
    ContentStep(conversion.result, Some(rec), conversion.rows)
  }

  /** The content galley's contribution: an external link for a remote galley, the XML
      conversion for an XML file, a download link for any other file, nothing for a
      galley without a file. */
  function LegacyGalleyContent(a: Article, epub: Option<EscholArticle>, env: Env, k: nat): ContentStep
  {
    match LegacyRenderGalley(a)
    case Raised(msg) => ContentStep(Raised(msg), epub, [])
    case Done(g) =>
      if g.isRemote then ContentStep(Done(NoContent.(externalLinks := Some([g.remoteFile]))), epub, [])
      else if g.file.None? then ContentStep(Done(NoContent), epub, [])
      else if IsXml(g.file.value.mimeType) then LegacyXmlContent(a, g, g.file.value, epub, env, k)
      else
        var f := g.file.value;
        ContentStep(Done(NoContent.(contentLink := Some(Link(a.pk, f.pk, k)), contentFileName := Some(f.originalFilename))),
                    epub, [IssuedRow(env, a.pk, f.pk, k)])
  }

  /** The galley's contribution followed by the article's own supplementary files. */
  function LegacyArticleContent(a: Article, epub: Option<EscholArticle>, env: Env, k: nat): ContentStep
  {
    WithArticleSupp(LegacyGalleyContent(a, epub, env, k), a.supplementaryFiles, env, a.pk, k)
  }

  // ---------------------------------------------------------------------------
  // The payload

  /** The payload with the content fields. */
  function LegacyWithContent(base: LegacyPayload, c: Content): LegacyPayload
  {
    base.(externalLinks := c.externalLinks, contentLink := c.contentLink, contentFileName := c.contentFileName,
          cssFiles := c.cssFiles, suppFiles := NonEmpty(c.supp), imgFiles := NonEmpty(c.images), id := c.id)
  }

  /** The legacy `get_article_json` for an article whose stored records are `records`,
      with tokens drawn from `k`. */
  function LegacyArticleJson(a: Article, unit: string, records: map<nat, EscholArticle>, env: Env, k: nat): LegacyJsonStep
  {
    var epub := RecordOf(records, a);
    var error := ItemError(a);
    if error.Some? then LegacyJsonStep(Raised(error.value), epub, [])
    else
      var content := LegacyArticleContent(a, epub, env, k);
      match content.result
      case Raised(msg) => LegacyJsonStep(Raised(msg), content.epub, content.rows)
      case Done(c) => LegacyJsonStep(Done(LegacyWithContent(LegacyBaseItem(a, unit, epub), c)), content.epub, content.rows)
  }

  // ---------------------------------------------------------------------------
  // Building the payload

  /** The PDF entry of the legacy XML branch. */
  method AddLegacyPdfSupp(store: Store, a: Article, ark: string, env: Env) returns (supp: seq<SuppFile>)
    modifies store
    ensures LegacyPdfSupp(a, ark, env, old(store.nextToken)).result == Done(supp)
    ensures store.tokens == old(store.tokens) + LegacyPdfSupp(a, ark, env, old(store.nextToken)).rows
    ensures store.nextToken == old(store.nextToken) + |LegacyPdfSupp(a, ark, env, old(store.nextToken)).rows|
    ensures store.records == old(store.records) && store.remoteUrls == old(store.remoteUrls)
  {
    var pdf := LegacyPdfFile(a, env);
    supp := [];
    if pdf.Some? {
      var f := pdf.value;
      var pdfLink := store.FileUrl(env, a.pk, f.pk);
      supp := [SuppFile(PdfName(ark), f.mimeType, f.size, pdfLink, Some("[PDF] " + PyStr(a.title)))];
    }
  }

  /** The PDF entry, images and style sheet of the legacy XML branch. */
  method AddLegacyXmlExtras(store: Store, a: Article, g: Galley, ark: string, env: Env) returns (extras: XmlExtras)
    modifies store
    ensures LegacyXmlExtrasOf(a, g, ark, env, old(store.nextToken)).result == Done(extras)
    ensures store.tokens == old(store.tokens) + LegacyXmlExtrasOf(a, g, ark, env, old(store.nextToken)).rows
    ensures store.nextToken == old(store.nextToken) + |LegacyXmlExtrasOf(a, g, ark, env, old(store.nextToken)).rows|
    ensures store.records == old(store.records) && store.remoteUrls == old(store.remoteUrls)
  {
    ghost var spec := LegacyXmlExtrasOf(a, g, ark, env, store.nextToken);
    ghost var p := LegacyPdfSupp(a, ark, env, store.nextToken);
    var pdf := AddLegacyPdfSupp(store, a, ark, env);
    ghost var m := MediaOf(g, env, a.pk, store.nextToken);
    var media := AddMedia(store, g, env, a.pk);
    AppendAssoc(old(store.tokens), p.rows, m.rows);
    extras := XmlExtras(pdf, media.images, media.css);
    assert spec.result == Done(extras) && spec.rows == p.rows + m.rows;
  }

  /** The conversion proper of the legacy XML branch. */
  method ConvertLegacyXml(store: Store, a: Article, g: Galley, gf: StoredFile, ark: string, env: Env) returns (content: Content)
    modifies store
    ensures LegacyXmlConversion(a, g, gf, ark, env, old(store.nextToken)).result == Done(content)
    ensures store.tokens == old(store.tokens) + LegacyXmlConversion(a, g, gf, ark, env, old(store.nextToken)).rows
    ensures store.nextToken == old(store.nextToken) + |LegacyXmlConversion(a, g, gf, ark, env, old(store.nextToken)).rows|
    ensures store.records == old(store.records) && store.remoteUrls == old(store.remoteUrls)
  {
    ghost var spec := LegacyXmlConversion(a, g, gf, ark, env, store.nextToken);
    ghost var f := XmlFilesOf(a, gf, ark, env, store.nextToken);
    var files := AddXmlFiles(store, a, gf, ark, env);
    ghost var e := LegacyXmlExtrasOf(a, g, ark, env, store.nextToken);
    var x := AddLegacyXmlExtras(store, a, g, ark, env);
    AppendAssoc(old(store.tokens), f.rows, e.rows);
    content := Content(None, Some(files.html), Some(HtmlName(ark)), Some(ark), x.css, [files.xml] + x.pdf, x.images);
    assert spec.result == Done(content) && spec.rows == f.rows + e.rows;
  }

  /** The legacy XML branch: takes or creates the article's record, then converts with
      its ark. */
  method LegacyXmlToHtml(store: Store, a: Article, g: Galley, gf: StoredFile, epub: Option<EscholArticle>, env: Env)
    returns (content: Content, epub': Option<EscholArticle>)
    requires epub == RecordOf(store.records, a)
    modifies store
    ensures LegacyXmlContent(a, g, gf, epub, env, old(store.nextToken)).result == Done(content)
    ensures epub' == LegacyXmlContent(a, g, gf, epub, env, old(store.nextToken)).epub
    ensures store.tokens == old(store.tokens) + LegacyXmlContent(a, g, gf, epub, env, old(store.nextToken)).rows
    ensures store.nextToken == old(store.nextToken) + |LegacyXmlContent(a, g, gf, epub, env, old(store.nextToken)).rows|
    ensures store.records == RecordsAfter(old(store.records), a, epub')
    ensures store.remoteUrls == old(store.remoteUrls)
  {
    var rec: EscholArticle;
    if epub.None? {
      var ark := if env.configured then env.mintedArk(a.pk) else PlaceholderArk;
      rec := EscholArticle(RefOf(a), ark, false, None, None, None);
      store.records := store.records[a.pk := rec];
    } else {
      rec := epub.value;
    }
    epub' := Some(rec);
    content := ConvertLegacyXml(store, a, g, gf, rec.ark, env);
  }

  /** The galley part of the legacy `get_article_json`. */
  method AddLegacyGalleyContent(store: Store, a: Article, epub: Option<EscholArticle>, env: Env)
    returns (result: Outcome<Content>, epub': Option<EscholArticle>)
    requires epub == RecordOf(store.records, a)
    modifies store
    ensures result == LegacyGalleyContent(a, epub, env, old(store.nextToken)).result
    ensures epub' == LegacyGalleyContent(a, epub, env, old(store.nextToken)).epub
    ensures store.tokens == old(store.tokens) + LegacyGalleyContent(a, epub, env, old(store.nextToken)).rows
    ensures store.nextToken == old(store.nextToken) + |LegacyGalleyContent(a, epub, env, old(store.nextToken)).rows|
    ensures store.records == RecordsAfter(old(store.records), a, epub')
    ensures store.remoteUrls == old(store.remoteUrls)
  {
    var rg := LegacyRenderGalley(a);
    epub' := epub;
    if rg.Raised? {
      return Raised(rg.msg), epub;
    }
    var g := rg.value;
    result := Done(NoContent);
    if g.isRemote {
      result := Done(NoContent.(externalLinks := Some([g.remoteFile])));
    } else if g.file.Some? {
      var f := g.file.value;
      if IsXml(f.mimeType) {
        var c;
        c, epub' := LegacyXmlToHtml(store, a, g, f, epub, env);
        result := Done(c);
      } else {
        var link := store.FileUrl(env, a.pk, f.pk);
        result := Done(NoContent.(contentLink := Some(link), contentFileName := Some(f.originalFilename)));
      }
    }
  }

  /** The optional keys of the legacy build, each set only when its value is truthy;
      pages are sent as numbers. */
  method ReadLegacyOptionalKeys(a: Article)
    returns (customCitation: Option<string>, fpage: Option<nat>, lpage: Option<nat>, publisher: Option<string>)
    ensures customCitation == IfPresent(a.customHowToCite) && publisher == IfPresent(a.publisherName)
    ensures fpage == NumberIfPresent(a.firstPage) && lpage == NumberIfPresent(a.lastPage)
  {
    customCitation, fpage, lpage, publisher := None, None, None, None;
    if Present(a.customHowToCite) {
      customCitation := a.customHowToCite;
    }
    if PresentNumber(a.firstPage) {
      fpage := a.firstPage;
    }
    if PresentNumber(a.lastPage) {
      lpage := a.lastPage;
    }
    if Present(a.publisherName) {
      publisher := a.publisherName;
    }
  }

  /** The legacy issue keys: the section position defaults to 1, the article position
      is read from its ordering row, the description is always sent and the cover
      caption only when set. */
  method ReadLegacyIssueFields(a: Article, issue: Issue) returns (fields: LegacyIssueFields)
    requires a.articleOrder.Some?
    ensures fields == LegacyIssueFieldsOf(a, issue)
  {
    var sorder := 1;
    if a.sectionOrder.Some? {
      sorder := a.sectionOrder.value + 1;
    }
    var aorder := a.articleOrder.value + 1;
    assert sorder == OrderPosition(a.sectionOrder);
    fields := LegacyIssueFields(IntText(issue.volume), issue.number, issue.title, issue.date,
      issue.description, OrderInSection(sorder, aorder), None);
    if Present(issue.shortDescription) {
      fields := fields.(issueCoverCaption := issue.shortDescription);
    }
  }

  /** The fields that do not depend on galleys, in the order the legacy
      `get_article_json` writes them: the always-sent keys (the section heading among
      them), each optional key under its own condition, the issue keys, then the author,
      funder and identifier loops. */
  method BuildLegacyBaseItem(a: Article, unit: string, epub: Option<EscholArticle>) returns (item: LegacyPayload)
    requires ItemError(a).None?
    ensures item == LegacyBaseItem(a, unit, epub)
  {
    var sourceName := "janeway";
    if epub.Some? && Present(epub.value.sourceName) {
      sourceName := epub.value.sourceName.value;
    }
    var h := ReadSectionHeading(a.section.value, a.section.value.publishedCount);
    var customCitation, fpage, lpage, publisher := ReadLegacyOptionalKeys(a);
    var keywords := NonEmptyWords(a.keywords);
    var rights := ReadRights(a.license);
    var data := ReadDataAvailability(a.fieldAnswers);
    var issueFields := None;
    if a.issue.Some? {
      var fields := ReadLegacyIssueFields(a, a.issue.value);
      issueFields := Some(fields);
    }
    var authors := CollectAuthors(a.authors);
    var grants := CollectGrants(a.funders, FundingId);
    var localIds := CollectNativeLocalIds(a.identifiers);
    item := LegacyPayload(sourceName, NatToDecimal(a.pk), a.journal.pressDomain, a.owner.value, a.title,
      "ARTICLE", a.datePublished.value, a.peerReviewed, "PUBLISHER_VERSION", a.summary, a.journal.name,
      h, a.journal.issn, [unit], a.language, "EXTERNAL_PUB",
      a.dateSubmitted.value, a.dateAccepted.value, a.datePublished.value,
      customCitation, fpage, lpage, NonEmpty(keywords), rights, publisher, data.dataAvailability, data.dataURL,
      issueFields, NonEmpty(authors), NonEmpty(grants), None, None, None, None, None, None,
      NonEmpty(localIds), None);
  }

  /** The file part: the content galley, then the article's supplementary files. */
  method AddLegacyFiles(store: Store, a: Article, epub: Option<EscholArticle>, env: Env)
    returns (result: Outcome<Content>, epub': Option<EscholArticle>)
    requires epub == RecordOf(store.records, a)
    modifies store
    ensures result == LegacyArticleContent(a, epub, env, old(store.nextToken)).result
    ensures epub' == LegacyArticleContent(a, epub, env, old(store.nextToken)).epub
    ensures store.tokens == old(store.tokens) + LegacyArticleContent(a, epub, env, old(store.nextToken)).rows
    ensures store.nextToken == old(store.nextToken) + |LegacyArticleContent(a, epub, env, old(store.nextToken)).rows|
    ensures store.records == RecordsAfter(old(store.records), a, epub')
    ensures store.remoteUrls == old(store.remoteUrls)
  {
    ghost var k := store.nextToken;
    ghost var cs := LegacyGalleyContent(a, epub, env, k);
    result, epub' := AddLegacyGalleyContent(store, a, epub, env);
    if result.Raised? {
      return;
    }
    var c := AddArticleSupp(store, a, env, result.value, cs, k, old(store.tokens));
    result := Done(c);
  }

  /** The legacy `get_article_json`: the payload built field by field, with the
      article's record afterwards; tokens and records change as `LegacyArticleJson` says. */
  method LegacyGetArticleJson(store: Store, a: Article, unit: string, env: Env)
    returns (result: Outcome<LegacyPayload>, epub: Option<EscholArticle>)
    modifies store
    ensures result == LegacyArticleJson(a, unit, old(store.records), env, old(store.nextToken)).result
    ensures epub == LegacyArticleJson(a, unit, old(store.records), env, old(store.nextToken)).epub
    ensures store.tokens == old(store.tokens) + LegacyArticleJson(a, unit, old(store.records), env, old(store.nextToken)).rows
    ensures store.nextToken == old(store.nextToken) + |LegacyArticleJson(a, unit, old(store.records), env, old(store.nextToken)).rows|
    ensures store.records == RecordsAfter(old(store.records), a, epub)
    ensures store.remoteUrls == old(store.remoteUrls)
  {
    epub := RecordOf(store.records, a);
    var error := ItemError(a);
    if error.Some? {
      return Raised(error.value), epub;
    }
    var item := BuildLegacyBaseItem(a, unit, epub);
    var content;
    content, epub := AddLegacyFiles(store, a, epub, env);
    if content.Raised? {
      return Raised(content.msg), epub;
    }
    result := Done(LegacyWithContent(item, content.value));
  }
}
