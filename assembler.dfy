/** The deposit payload of the current connector (logic.py, `get_article_json` and
    `xml_galley_to_html`). `ArticleJson` states what the payload is; the method
    `GetArticleJson` builds it the way the connector does, field by field and list by
    list, drawing access tokens and creating a provisional `EscholArticle` as it goes,
    and is proved to arrive at `ArticleJson`. */
module Assembler {
  import opened Wrappers
  import opened Text
  import opened Records
  import opened Models
  import opened Normalize
  import opened Storage
  import opened Entries

  /** The issue fields merged into the payload when the article has an issue. */
  datatype IssueFields = IssueFields(
    volume: string,
    issue: string,
    issueTitle: string,
    issueDate: string,
    orderInSection: nat,
    issueDescription: Option<string>,
    issueCoverCaption: Option<string>)

  /** The deposit item. The fields from `sourceName` to `pubRelation` are always sent
      (`title` may be null); every `Option` after them is a key that is left out when
      `None`. */
  datatype Payload = Payload(
    sourceName: string,
    sourceID: string,
    sourceURL: string,
    submitterEmail: string,
    title: Option<string>,
    itemType: string,
    published: string,
    isPeerReviewed: bool,
    contentVersion: string,
    journal: string,
    units: seq<string>,
    pubRelation: string,
    summary: Option<string>,
    issn: Option<string>,
    dateSubmitted: Option<string>,
    dateAccepted: Option<string>,
    datePublished: Option<string>,
    customCitation: Option<string>,
    fpage: Option<string>,
    lpage: Option<string>,
    language: Option<string>,
    sectionHeader: Option<string>,
    keywords: Option<seq<string>>,
    rights: Option<string>,
    publisher: Option<string>,
    dataAvailability: Option<string>,
    dataURL: Option<string>,
    issueFields: Option<IssueFields>,
    authors: Option<seq<AuthorEntry>>,
    grants: Option<seq<Grant>>,
    externalLinks: Option<seq<string>>,
    contentLink: Option<Download>,
    contentFileName: Option<string>,
    cssFiles: Option<LinkedFile>,
    suppFiles: Option<seq<SuppFile>>,
    imgFiles: Option<seq<LinkedFile>>,
    localIDs: Option<seq<LocalId>>,
    id: Option<string>)

  /** What building the payload produced: the payload or the exception raised, the
      article's `EscholArticle` afterwards, and the token rows created on the way
      (also those created before an exception). */
  datatype JsonStep = JsonStep(result: Outcome<Payload>, epub: Option<EscholArticle>, rows: seq<TokenRow>)

  const NoEmail := "'NoneType' object has no attribute 'email'"
  const NoDate := "'NoneType' object has no attribute 'strftime'"
  const NoMimeType := "'NoneType' object has no attribute 'mime_type'"

  /** The ark used for a provisional record when none exists yet. */
  const PlaceholderArk := "ark:/13030/qtXXXXXXXX"

  function RefOf(a: Article): ArticleRef
  {
    ArticleRef(a.pk, a.display, a.journal.code)
  }

  /** The article's `EscholArticle`, if it has one. */
  function RecordOf(records: map<nat, EscholArticle>, a: Article): Option<EscholArticle>
  {
    if a.pk in records then Some(records[a.pk]) else None
  }

  // ---------------------------------------------------------------------------
  // Scalar fields

  /** `sourceName` and `sourceID`: "janeway" and the article key, unless the article's
      record names another source, whose name and (possibly missing) id are used. */
  function SourceName(epub: Option<EscholArticle>): string
  {
    if epub.Some? && Present(epub.value.sourceName) then epub.value.sourceName.value else "janeway"
  }

  function SourceID(a: Article, epub: Option<EscholArticle>): string
  {
    if epub.Some? && Present(epub.value.sourceName) then PyStr(epub.value.sourceId) else NatToDecimal(a.pk)
  }

  function DecimalIfPresent(o: Option<nat>): Option<string>
  {
    if PresentNumber(o) then Some(NatToDecimal(o.value)) else None
  }

  /** The issue fields: positions default to 1 without an ordering row. */
  function IssueFieldsOf(a: Article, issue: Issue): IssueFields
  {
    IssueFields(IntText(issue.volume), issue.number, issue.title, issue.date,
      OrderInSection(OrderPosition(a.sectionOrder), OrderPosition(a.articleOrder)),
      IfPresent(issue.description), IfPresent(issue.shortDescription))
  }

  /** Every field that does not depend on galleys and files; the file fields are empty. */
  function BaseItem(a: Article, unit: string, epub: Option<EscholArticle>): Payload
    requires a.owner.Some? && a.datePublished.Some?
  {
    var data := DataAvailabilityFields(a.fieldAnswers);
    Payload(
      SourceName(epub), SourceID(a, epub), a.journal.pressDomain, a.owner.value, a.title,
      "ARTICLE", a.datePublished.value, a.peerReviewed, "PUBLISHER_VERSION", a.journal.name,
      [unit], "EXTERNAL_PUB",
      IfPresent(a.summary), DepositIssn(a.journal.issn), IfPresent(a.dateSubmitted), IfPresent(a.dateAccepted),
      a.datePublished, IfPresent(a.customHowToCite), DecimalIfPresent(a.firstPage), DecimalIfPresent(a.lastPage),
      IfPresent(a.language),
      if a.section.Some? then Some(SectionHeading(a.section.value, a.section.value.articleCount)) else None,
      NonEmpty(NonEmptyWords(a.keywords)), Rights(a.license), IfPresent(a.publisherName),
      data.dataAvailability, data.dataURL,
      if a.issue.Some? then Some(IssueFieldsOf(a, a.issue.value)) else None,
      NonEmpty(AuthorEntries(a.authors)), NonEmpty(Grants(a.funders, FundrefId)),
      None, None, None, None, None, None,
      NonEmpty(LocalIds(a)), None)
  }

  /** The current connector's grant reference: the funder's FundRef id. */
  function FundrefId(f: Funder): Option<string>
  {
    f.fundrefId
  }

  /** `localIDs`: the native identifiers followed by the synthetic "janeway_<pk>". */
  function LocalIds(a: Article): seq<LocalId>
  {
    NativeLocalIds(a.identifiers) + [JanewayId(a.pk)]
  }

  function JanewayId(pk: nat): LocalId
  {
    LocalId("janeway_" + NatToDecimal(pk), "OTHER_ID", Some("other"))
  }

  // ---------------------------------------------------------------------------
  // Galley

  /** The galley considered for content: the render galley, else the first public
      galley whose file is a PDF (galleys in sequence order). */
  function RenderCandidate(a: Article): Option<Galley>
  {
    if a.renderGalley.Some? then a.renderGalley
    else FirstMatch(a.galleys, GalleyQuery(true, false, Some({"application/pdf"})))
  }

  /** The candidate is used only when it is public; otherwise the payload has no content. */
  function ContentGalley(a: Article): Option<Galley>
  {
    var rg := RenderCandidate(a);
    if rg.Some? && rg.value.isPublic then rg else None
  }

  predicate IsXml(mime: string)
  {
    mime == "application/xml" || mime == "text/xml"
  }

  /** The PDF galley taken for the XML branch: the first public galley of type PDF,
      else the first public untyped galley whose file has a PDF mime type. */
  function PdfCandidate(a: Article, env: Env): Option<Galley>
  {
    var typed := FirstMatch(a.pdfs, GalleyQuery(true, false, None));
    if typed.Some? then typed else FirstMatch(a.galleys, GalleyQuery(true, true, Some(env.pdfMimeTypes)))
  }

  /** The fields that the content galley contributes. */
  datatype Content = Content(
    externalLinks: Option<seq<string>>,
    contentLink: Option<Download>,
    contentFileName: Option<string>,
    id: Option<string>,
    cssFiles: Option<LinkedFile>,
    supp: seq<SuppFile>,
    images: seq<LinkedFile>)

  const NoContent := Content(None, None, None, None, None, [], [])

  /** The content galley's contribution, the record afterwards and the token rows. */
  datatype ContentStep = ContentStep(result: Outcome<Content>, epub: Option<EscholArticle>, rows: seq<TokenRow>)

  /** The record of an article after its XML galley was converted: the existing one,
      else a new one with the ark the API mints (or the placeholder when unconfigured). */
  function XmlRecord(a: Article, epub: Option<EscholArticle>, env: Env): EscholArticle
  {
    if epub.Some? then epub.value
    else EscholArticle(RefOf(a), if env.configured then env.mintedArk(a.pk) else PlaceholderArk, false, None, None, None)
  }

  /** The files the XML branch adds after the XML file itself. */
  datatype XmlExtras = XmlExtras(pdf: seq<SuppFile>, images: seq<LinkedFile>, css: Option<LinkedFile>)

  /** A value or the exception raised, with the token rows created on the way. */
  datatype Attempt<+T> = Attempt(result: Outcome<T>, rows: seq<TokenRow>)

  /** The first PDF candidate's file named after the ark, with the `k`-th token, or the
      exception raised when that galley has no file. */
  function PdfSupp(a: Article, ark: string, env: Env, k: nat): Attempt<seq<SuppFile>>
  {
    match PdfCandidate(a, env)
    case None => Attempt(Done([]), [])
    case Some(pdf) =>
      if pdf.file.None? then Attempt(Raised(NoMimeType), [])
      else
        var f := pdf.file.value;
        Attempt(Done([SuppEntry(f, a.pk, k, Some(PdfName(ark)), Some("[PDF] " + PyStr(a.title)))]),
                [IssuedRow(env, a.pk, f.pk, k)])
  }

  /** The galley's style sheet, with the `k`-th token when it is stored locally. */
  function Css(g: Galley, env: Env, articlePk: nat, k: nat): Issued<Option<LinkedFile>>
  {
    if g.cssFile.Some? then
      var c := LinkedEntry(g.cssFile.value, env, articlePk, k);
      Issued(Some(c.value), c.rows)
    else Issued(None, [])
  }

  /** The galley's images and style sheet. */
  datatype Media = Media(images: seq<LinkedFile>, css: Option<LinkedFile>)

  /** The galley's images, then its style sheet, with tokens drawn from `k`. */
  function MediaOf(g: Galley, env: Env, articlePk: nat, k: nat): Issued<Media>
  {
    var images := Images(g.images, env, articlePk, k);
    var css := Css(g, env, articlePk, k + |images.rows|);
    Issued(Media(images.value, css.value), images.rows + css.rows)
  }

  /** The PDF galley's file named after the ark, the galley's images, and its style
      sheet, with tokens drawn from `k`. */
  function XmlExtrasOf(a: Article, g: Galley, ark: string, env: Env, k: nat): Attempt<XmlExtras>
  {
    WithMedia(PdfSupp(a, ark, env, k), g, env, a.pk, k)
  }

  /** The PDF entry, unless looking for it raised, followed by the galley's images and
      style sheet with tokens drawn after the PDF entry's. */
  function WithMedia(pdf: Attempt<seq<SuppFile>>, g: Galley, env: Env, articlePk: nat, k: nat): Attempt<XmlExtras>
  {
    match pdf.result
    case Raised(msg) => Attempt(Raised(msg), pdf.rows)
    case Done(supp) =>
      var media := MediaOf(g, env, articlePk, k + |pdf.rows|);
      Attempt(Done(XmlExtras(supp, media.value.images, media.value.css)), pdf.rows + media.rows)
  }

  /** The generated HTML file's address and the XML file's entry. */
  datatype XmlFiles = XmlFiles(html: Download, xml: SuppFile)

  /** The HTML file with the `k`-th token and the XML file, named after the ark, with the
      next one. */
  function XmlFilesOf(a: Article, gf: StoredFile, ark: string, env: Env, k: nat): Issued<XmlFiles>
  {
    var htmlPk := env.htmlFilePk(a.pk);
    Issued(XmlFiles(Link(a.pk, htmlPk, k), SuppEntry(gf, a.pk, k + 1, Some(XmlName(ark)), Some("[XML] " + PyStr(a.title)))),
           [IssuedRow(env, a.pk, htmlPk, k), IssuedRow(env, a.pk, gf.pk, k + 1)])
  }

  /** The content the XML branch produces for an article whose record has `ark`, with
      tokens drawn from `k`: the generated HTML file is the content, the XML file leads
      the supplementary files, and the extras follow. */
  function XmlConversion(a: Article, g: Galley, gf: StoredFile, ark: string, env: Env, k: nat): Attempt<Content>
  {
    var files := XmlFilesOf(a, gf, ark, env, k);
    Converted(files, XmlExtrasOf(a, g, ark, env, k + |files.rows|), ark)
  }

  /** The generated HTML file as the content, the XML file ahead of the extras'
      supplementary files, unless gathering the extras raised. */
  function Converted(files: Issued<XmlFiles>, extras: Attempt<XmlExtras>, ark: string): Attempt<Content>
  {
    match extras.result
    case Raised(msg) => Attempt(Raised(msg), files.rows + extras.rows)
    case Done(x) =>
      Attempt(Done(Content(None, Some(files.value.html), Some(HtmlName(ark)), Some(ark), x.css, [files.value.xml] + x.pdf, x.images)),
              files.rows + extras.rows)
  }

  /** `xml_galley_to_html` with tokens drawn from `k`: the article's record is taken or
      created first, and its ark names the files. */
  function XmlContent(a: Article, g: Galley, gf: StoredFile, epub: Option<EscholArticle>, env: Env, k: nat): ContentStep
  {
    var rec := XmlRecord(a, epub, env);
    var conversion := XmlConversion(a, g, gf, rec.ark, env, k);
    ContentStep(conversion.result, Some(rec), conversion.rows)
  }

  /** The content of the payload with tokens drawn from `k`: nothing without a public
      candidate galley, an external link for a remote galley, the XML conversion for an
      XML file, and a download link to the file otherwise. */
  function GalleyContent(a: Article, epub: Option<EscholArticle>, env: Env, k: nat): ContentStep
  {
    match ContentGalley(a)
    case None => ContentStep(Done(NoContent), epub, [])
    case Some(g) =>
      if g.isRemote then ContentStep(Done(NoContent.(externalLinks := Some([g.remoteFile]))), epub, [])
      else if g.file.None? then ContentStep(Done(NoContent), epub, [])
      else if IsXml(g.file.value.mimeType) then XmlContent(a, g, g.file.value, epub, env, k)
      else
        var f := g.file.value;
        ContentStep(Done(NoContent.(contentLink := Some(Link(a.pk, f.pk, k)), contentFileName := Some(f.originalFilename))),
                    epub, [IssuedRow(env, a.pk, f.pk, k)])
  }

  // ---------------------------------------------------------------------------
  // The payload

  /** A content step followed by the article's own supplementary files, with tokens
      drawn after the step's own. */
  function WithArticleSupp(content: ContentStep, files: seq<StoredFile>, env: Env, articlePk: nat, k: nat): ContentStep
  {
    match content.result
    case Raised(_) => content
    case Done(c) =>
      var supp := ArticleSupp(files, env, articlePk, k + |content.rows|);
      ContentStep(Done(WithSupp(c, supp.value)), content.epub, content.rows + supp.rows)
  }

  /** The content with more supplementary files after its own. */
  function WithSupp(c: Content, more: seq<SuppFile>): Content
  {
    c.(supp := c.supp + more)
  }

  /** The content galley's contribution followed by the article's own supplementary
      files, with tokens drawn from `k`. */
  function ArticleContent(a: Article, epub: Option<EscholArticle>, env: Env, k: nat): ContentStep
  {
    WithArticleSupp(GalleyContent(a, epub, env, k), a.supplementaryFiles, env, a.pk, k)
  }

  /** The payload with the content fields. */
  function WithContent(base: Payload, c: Content): Payload
  {
    base.(externalLinks := c.externalLinks, contentLink := c.contentLink, contentFileName := c.contentFileName,
          cssFiles := c.cssFiles, suppFiles := NonEmpty(c.supp), imgFiles := NonEmpty(c.images), id := c.id)
  }

  /** `get_article_json` for an article whose stored records are `records`, with tokens
      drawn from `k`. */
  function ArticleJson(a: Article, unit: string, records: map<nat, EscholArticle>, env: Env, k: nat): JsonStep
  {
    var epub := RecordOf(records, a);
    if a.owner.None? then JsonStep(Raised(NoEmail), epub, [])
    else if a.datePublished.None? then JsonStep(Raised(NoDate), epub, [])
    else
      var content := ArticleContent(a, epub, env, k);
      match content.result
      case Raised(msg) => JsonStep(Raised(msg), content.epub, content.rows)
      case Done(c) => JsonStep(Done(WithContent(BaseItem(a, unit, epub), c)), content.epub, content.rows)
  }

  /** The stored records after the payload was built: the article's record is the one
      the step ends with. */
  function RecordsAfter(records: map<nat, EscholArticle>, a: Article, epub: Option<EscholArticle>): map<nat, EscholArticle>
  {
    if epub.Some? then records[a.pk := epub.value] else records
  }

  // ---------------------------------------------------------------------------
  // Building the payload

  /** The PDF entry of the XML branch. */
  method AddPdfSupp(store: Store, a: Article, ark: string, env: Env) returns (result: Outcome<seq<SuppFile>>)
    modifies store
    ensures result == PdfSupp(a, ark, env, old(store.nextToken)).result
    ensures store.tokens == old(store.tokens) + PdfSupp(a, ark, env, old(store.nextToken)).rows
    ensures store.nextToken == old(store.nextToken) + |PdfSupp(a, ark, env, old(store.nextToken)).rows|
    ensures store.records == old(store.records) && store.remoteUrls == old(store.remoteUrls)
  {
    var pdf := PdfCandidate(a, env);
    if pdf.None? {
      return Done([]);
    }
    if pdf.value.file.None? {
      return Raised(NoMimeType);
    }
    var f := pdf.value.file.value;
    var pdfLink := store.FileUrl(env, a.pk, f.pk);
    result := Done([SuppFile(PdfName(ark), f.mimeType, f.size, pdfLink, Some("[PDF] " + PyStr(a.title)))]);
  }

  /** `if galley.css_file: item["cssFiles"] = ...`. */
  method AddCss(store: Store, g: Galley, env: Env, articlePk: nat) returns (css: Option<LinkedFile>)
    modifies store
    ensures css == Css(g, env, articlePk, old(store.nextToken)).value
    ensures store.tokens == old(store.tokens) + Css(g, env, articlePk, old(store.nextToken)).rows
    ensures store.nextToken == old(store.nextToken) + |Css(g, env, articlePk, old(store.nextToken)).rows|
    ensures store.records == old(store.records) && store.remoteUrls == old(store.remoteUrls)
  {
    css := None;
    if g.cssFile.Some? {
      var c := LinkFile(store, env, articlePk, g.cssFile.value);
      css := Some(c);
    }
  }

  /** The images and style sheet of the XML branch. */
  method AddMedia(store: Store, g: Galley, env: Env, articlePk: nat) returns (media: Media)
    modifies store
    ensures media == MediaOf(g, env, articlePk, old(store.nextToken)).value
    ensures store.tokens == old(store.tokens) + MediaOf(g, env, articlePk, old(store.nextToken)).rows
    ensures store.nextToken == old(store.nextToken) + |MediaOf(g, env, articlePk, old(store.nextToken)).rows|
    ensures store.records == old(store.records) && store.remoteUrls == old(store.remoteUrls)
  {
    ghost var spec := MediaOf(g, env, articlePk, store.nextToken);
    ghost var i := Images(g.images, env, articlePk, store.nextToken);
    var images := CollectImages(store, env, articlePk, g.images);
    ghost var c := Css(g, env, articlePk, store.nextToken);
    var css := AddCss(store, g, env, articlePk);
    AppendAssoc(old(store.tokens), i.rows, c.rows);
    media := Media(images, css);
    assert spec.value == media && spec.rows == i.rows + c.rows;
  }

  /** The second half of `xml_galley_to_html`: the PDF galley's file, the images and
      the style sheet. */
  method AddXmlExtras(store: Store, a: Article, g: Galley, ark: string, env: Env) returns (result: Outcome<XmlExtras>)
    modifies store
    ensures result == XmlExtrasOf(a, g, ark, env, old(store.nextToken)).result
    ensures store.tokens == old(store.tokens) + XmlExtrasOf(a, g, ark, env, old(store.nextToken)).rows
    ensures store.nextToken == old(store.nextToken) + |XmlExtrasOf(a, g, ark, env, old(store.nextToken)).rows|
    ensures store.records == old(store.records) && store.remoteUrls == old(store.remoteUrls)
  {
    ghost var spec := XmlExtrasOf(a, g, ark, env, store.nextToken);
    ghost var p := PdfSupp(a, ark, env, store.nextToken);
    var pdf := AddPdfSupp(store, a, ark, env);
    if pdf.Raised? {
      assert spec.result == Raised(pdf.msg) && spec.rows == p.rows;
      return Raised(pdf.msg);
    }
    ghost var m := MediaOf(g, env, a.pk, store.nextToken);
    var media := AddMedia(store, g, env, a.pk);
    AppendAssoc(old(store.tokens), p.rows, m.rows);
    result := Done(XmlExtras(pdf.value, media.images, media.css));
    assert spec.result == result && spec.rows == p.rows + m.rows;
  }

  /** The HTML and XML files of the XML branch. */
  method AddXmlFiles(store: Store, a: Article, gf: StoredFile, ark: string, env: Env) returns (files: XmlFiles)
    modifies store
    ensures files == XmlFilesOf(a, gf, ark, env, old(store.nextToken)).value
    ensures store.tokens == old(store.tokens) + XmlFilesOf(a, gf, ark, env, old(store.nextToken)).rows
    ensures store.nextToken == old(store.nextToken) + |XmlFilesOf(a, gf, ark, env, old(store.nextToken)).rows|
    ensures store.records == old(store.records) && store.remoteUrls == old(store.remoteUrls)
  {
    var html := store.FileUrl(env, a.pk, env.htmlFilePk(a.pk));
    var xmlLink := store.FileUrl(env, a.pk, gf.pk);
    files := XmlFiles(html, SuppFile(XmlName(ark), gf.mimeType, gf.size, xmlLink, Some("[XML] " + PyStr(a.title))));
  }

  /** The conversion proper: the HTML and XML files, then the extras. */
  method ConvertXml(store: Store, a: Article, g: Galley, gf: StoredFile, ark: string, env: Env) returns (result: Outcome<Content>)
    modifies store
    ensures result == XmlConversion(a, g, gf, ark, env, old(store.nextToken)).result
    ensures store.tokens == old(store.tokens) + XmlConversion(a, g, gf, ark, env, old(store.nextToken)).rows
    ensures store.nextToken == old(store.nextToken) + |XmlConversion(a, g, gf, ark, env, old(store.nextToken)).rows|
    ensures store.records == old(store.records) && store.remoteUrls == old(store.remoteUrls)
  {
    ghost var spec := XmlConversion(a, g, gf, ark, env, store.nextToken);
    ghost var f := XmlFilesOf(a, gf, ark, env, store.nextToken);
    var files := AddXmlFiles(store, a, gf, ark, env);
    ghost var e := XmlExtrasOf(a, g, ark, env, store.nextToken);
    var extras := AddXmlExtras(store, a, g, ark, env);
    AppendAssoc(old(store.tokens), f.rows, e.rows);
    assert spec.rows == f.rows + e.rows;
    if extras.Raised? {
      assert spec.result == Raised(extras.msg);
      return Raised(extras.msg);
    }
    var x := extras.value;
    result := Done(Content(None, Some(files.html), Some(HtmlName(ark)), Some(ark), x.css, [files.xml] + x.pdf, x.images));
    assert spec.result == result;
  }

  /** `xml_galley_to_html`, less the rendering: takes or creates the article's record,
      then converts with its ark. */
  method XmlGalleyToHtml(store: Store, a: Article, g: Galley, gf: StoredFile, epub: Option<EscholArticle>, env: Env)
    returns (result: Outcome<Content>, epub': Option<EscholArticle>)
    requires epub == RecordOf(store.records, a)
    modifies store
    ensures result == XmlContent(a, g, gf, epub, env, old(store.nextToken)).result
    ensures epub' == XmlContent(a, g, gf, epub, env, old(store.nextToken)).epub
    ensures store.tokens == old(store.tokens) + XmlContent(a, g, gf, epub, env, old(store.nextToken)).rows
    ensures store.nextToken == old(store.nextToken) + |XmlContent(a, g, gf, epub, env, old(store.nextToken)).rows|
    ensures store.records == RecordsAfter(old(store.records), a, epub')
    ensures store.remoteUrls == old(store.remoteUrls)
  {
    var rec: EscholArticle;
    if epub.None? {
      var ark := if env.configured then env.mintedArk(a.pk) else PlaceholderArk;
      rec := EscholArticle(RefOf(a), ark, false, None, None, None);
      store.records := store.records[a.pk := rec];
    } else {
      rec := epub.value;
    }
    epub' := Some(rec);
    result := ConvertXml(store, a, g, gf, rec.ark, env);
  }

  /** The galley part of `get_article_json`: picks the galley and fills in the content
      fields it leads to. */
  method AddGalleyContent(store: Store, a: Article, epub: Option<EscholArticle>, env: Env)
    returns (result: Outcome<Content>, epub': Option<EscholArticle>)
    requires epub == RecordOf(store.records, a)
    modifies store
    ensures result == GalleyContent(a, epub, env, old(store.nextToken)).result
    ensures epub' == GalleyContent(a, epub, env, old(store.nextToken)).epub
    ensures store.tokens == old(store.tokens) + GalleyContent(a, epub, env, old(store.nextToken)).rows
    ensures store.nextToken == old(store.nextToken) + |GalleyContent(a, epub, env, old(store.nextToken)).rows|
    ensures store.records == RecordsAfter(old(store.records), a, epub')
    ensures store.remoteUrls == old(store.remoteUrls)
  {
    var rg := RenderCandidate(a);
    epub' := epub;
    result := Done(NoContent);
    if rg.Some? && rg.value.isPublic {
      var g := rg.value;
      if g.isRemote {
        result := Done(NoContent.(externalLinks := Some([g.remoteFile])));
      } else if g.file.Some? {
        var f := g.file.value;
        if IsXml(f.mimeType) {
          result, epub' := XmlGalleyToHtml(store, a, g, f, epub, env);
        } else {
          var link := store.FileUrl(env, a.pk, f.pk);
          result := Done(NoContent.(contentLink := Some(link), contentFileName := Some(f.originalFilename)));
        }
      }
    }
  }

  /** `sourceName` and `sourceID` as `get_article_json` picks them: "janeway" and the
      article key, replaced by the record's source and source id when the record names
      a source. */
  method ReadSource(a: Article, epub: Option<EscholArticle>) returns (sourceName: string, sourceID: string)
    ensures sourceName == SourceName(epub) && sourceID == SourceID(a, epub)
  {
    sourceName, sourceID := "janeway", NatToDecimal(a.pk);
    if epub.Some? && Present(epub.value.sourceName) {
      sourceName, sourceID := epub.value.sourceName.value, PyStr(epub.value.sourceId);
    }
  }

  /** The optional scalar keys of `get_article_json`, each set only when its value is
      truthy (the ISSN also not the placeholder); pages are sent as text. */
  method ReadOptionalKeys(a: Article)
    returns (summary: Option<string>, issn: Option<string>, dateSubmitted: Option<string>, dateAccepted: Option<string>,
             customCitation: Option<string>, fpage: Option<string>, lpage: Option<string>, language: Option<string>,
             publisher: Option<string>)
    ensures summary == IfPresent(a.summary) && issn == DepositIssn(a.journal.issn)
    ensures dateSubmitted == IfPresent(a.dateSubmitted) && dateAccepted == IfPresent(a.dateAccepted)
    ensures customCitation == IfPresent(a.customHowToCite) && language == IfPresent(a.language)
    ensures fpage == DecimalIfPresent(a.firstPage) && lpage == DecimalIfPresent(a.lastPage)
    ensures publisher == IfPresent(a.publisherName)
  {
    summary, issn, dateSubmitted, dateAccepted := None, None, None, None;
    customCitation, fpage, lpage, language, publisher := None, None, None, None, None;
    if Present(a.summary) {
      summary := a.summary;
    }
    if Present(a.journal.issn) && a.journal.issn.value != "0000-0000" {
      issn := a.journal.issn;
    }
    if Present(a.dateSubmitted) {
      dateSubmitted := a.dateSubmitted;
    }
    if Present(a.dateAccepted) {
      dateAccepted := a.dateAccepted;
    }
    if Present(a.customHowToCite) {
      customCitation := a.customHowToCite;
    }
    if PresentNumber(a.firstPage) {
      fpage := Some(NatToDecimal(a.firstPage.value));
    }
    if PresentNumber(a.lastPage) {
      lpage := Some(NatToDecimal(a.lastPage.value));
    }
    if Present(a.language) {
      language := a.language;
    }
    if Present(a.publisherName) {
      publisher := a.publisherName;
    }
  }

  /** The section header: the plural name when one is set and `count` exceeds one,
      the name otherwise. */
  method ReadSectionHeading(section: Section, count: nat) returns (h: string)
    ensures h == SectionHeading(section, count)
  {
    h := section.name;
    if Present(section.plural) && count > 1 {
      h := section.plural.value;
    }
  }

  /** The `rights` key: the licence URL with a "/" appended when missing, kept only
      when it is on the allow-list. */
  method ReadRights(licence: Option<string>) returns (rights: Option<string>)
    ensures rights == Rights(licence)
  {
    rights := None;
    if licence.Some? {
      var l := licence.value;
      if !EndsWith(l, "/") {
        l := l + "/";
      }
      if l in ValidRights {
        rights := Some(l);
      }
    }
  }

  /** The issue keys of `get_article_json`: the section and article positions (1
      without an ordering row), the encoded position, and the description and cover
      caption only when set. */
  method ReadIssueFields(a: Article, issue: Issue) returns (fields: IssueFields)
    ensures fields == IssueFieldsOf(a, issue)
  {
    var sorder := 1;
    if a.sectionOrder.Some? {
      sorder := a.sectionOrder.value + 1;
    }
    var aorder := 1;
    if a.articleOrder.Some? {
      aorder := a.articleOrder.value + 1;
    }
    assert sorder == OrderPosition(a.sectionOrder) && aorder == OrderPosition(a.articleOrder);
    fields := IssueFields(IntText(issue.volume), issue.number, issue.title, issue.date,
      OrderInSection(sorder, aorder), None, None);
    if Present(issue.description) {
      fields := fields.(issueDescription := issue.description);
    }
    if Present(issue.shortDescription) {
      fields := fields.(issueCoverCaption := issue.shortDescription);
    }
  }

  /** The fields that do not depend on galleys and files, in the order `get_article_json`
      writes them: the always-sent keys, each optional key under its own condition, the
      issue keys, then the author, funder and identifier loops. */
  method BuildBaseItem(a: Article, unit: string, epub: Option<EscholArticle>) returns (item: Payload)
    requires a.owner.Some? && a.datePublished.Some?
    ensures item == BaseItem(a, unit, epub)
  {
    var sourceName, sourceID := ReadSource(a, epub);
    var summary, issn, dateSubmitted, dateAccepted, customCitation, fpage, lpage, language, publisher := ReadOptionalKeys(a);
    var sectionHeader := None;
    if a.section.Some? {
      var h := ReadSectionHeading(a.section.value, a.section.value.articleCount);
      sectionHeader := Some(h);
    }
    var keywords := NonEmptyWords(a.keywords);
    var rights := ReadRights(a.license);
    var data := ReadDataAvailability(a.fieldAnswers);
    var issueFields := None;
    if a.issue.Some? {
      var fields := ReadIssueFields(a, a.issue.value);
      issueFields := Some(fields);
    }
    var authors := CollectAuthors(a.authors);
    var grants := CollectGrants(a.funders, FundrefId);
    var localIds := CollectNativeLocalIds(a.identifiers);
    localIds := localIds + [JanewayId(a.pk)];
    // `datePublished` is always sent: the date was already read for `published`
    item := Payload(sourceName, sourceID, a.journal.pressDomain, a.owner.value, a.title, "ARTICLE",
      a.datePublished.value, a.peerReviewed, "PUBLISHER_VERSION", a.journal.name, [unit], "EXTERNAL_PUB",
      summary, issn, dateSubmitted, dateAccepted, a.datePublished, customCitation, fpage, lpage, language,
      sectionHeader, NonEmpty(keywords), rights, publisher, data.dataAvailability, data.dataURL, issueFields,
      NonEmpty(authors), NonEmpty(grants), None, None, None, None, None, None, NonEmpty(localIds), None);
  }

  /** The loop over the article's own supplementary files after a galley part `cs`
      that started at token `k` and did not raise. */
  method AddArticleSupp(store: Store, a: Article, env: Env, c: Content, ghost cs: ContentStep, ghost k: nat, ghost t0: seq<TokenRow>)
    returns (content: Content)
    requires cs.result == Done(c) && store.tokens == t0 + cs.rows && store.nextToken == k + |cs.rows|
    modifies store
    ensures WithArticleSupp(cs, a.supplementaryFiles, env, a.pk, k).result == Done(content)
    ensures store.tokens == t0 + WithArticleSupp(cs, a.supplementaryFiles, env, a.pk, k).rows
    ensures store.nextToken == k + |WithArticleSupp(cs, a.supplementaryFiles, env, a.pk, k).rows|
    ensures store.records == old(store.records) && store.remoteUrls == old(store.remoteUrls)
  {
    ghost var files := ArticleSupp(a.supplementaryFiles, env, a.pk, store.nextToken);
    var more := CollectArticleSupp(store, env, a.pk, a.supplementaryFiles);
    AppendAssoc(t0, cs.rows, files.rows);
    content := WithSupp(c, more);
  }

  /** The file part of `get_article_json`: the content galley, then the loop over the
      article's supplementary files. */
  method AddFiles(store: Store, a: Article, epub: Option<EscholArticle>, env: Env)
    returns (result: Outcome<Content>, epub': Option<EscholArticle>)
    requires epub == RecordOf(store.records, a)
    modifies store
    ensures result == ArticleContent(a, epub, env, old(store.nextToken)).result
    ensures epub' == ArticleContent(a, epub, env, old(store.nextToken)).epub
    ensures store.tokens == old(store.tokens) + ArticleContent(a, epub, env, old(store.nextToken)).rows
    ensures store.nextToken == old(store.nextToken) + |ArticleContent(a, epub, env, old(store.nextToken)).rows|
    ensures store.records == RecordsAfter(old(store.records), a, epub')
    ensures store.remoteUrls == old(store.remoteUrls)
  {
    ghost var k := store.nextToken;
    ghost var cs := GalleyContent(a, epub, env, k);
    result, epub' := AddGalleyContent(store, a, epub, env);
    if result.Raised? {
      return;
    }
    var c := AddArticleSupp(store, a, env, result.value, cs, k, old(store.tokens));
    result := Done(c);
  }

  /** `get_article_json`: the payload of an article, built field by field, with the
      article's record afterwards; the token table and the records change exactly as
      `ArticleJson` says. */
  method GetArticleJson(store: Store, a: Article, unit: string, env: Env)
    returns (result: Outcome<Payload>, epub: Option<EscholArticle>)
    modifies store
    ensures result == ArticleJson(a, unit, old(store.records), env, old(store.nextToken)).result
    ensures epub == ArticleJson(a, unit, old(store.records), env, old(store.nextToken)).epub
    ensures store.tokens == old(store.tokens) + ArticleJson(a, unit, old(store.records), env, old(store.nextToken)).rows
    ensures store.nextToken == old(store.nextToken) + |ArticleJson(a, unit, old(store.records), env, old(store.nextToken)).rows|
    ensures store.records == RecordsAfter(old(store.records), a, epub)
    ensures store.remoteUrls == old(store.remoteUrls)
  {
    epub := RecordOf(store.records, a);
    if a.owner.None? {
      return Raised(NoEmail), epub;
    }
    if a.datePublished.None? {
      return Raised(NoDate), epub;
    }
    var item := BuildBaseItem(a, unit, epub);
    var content;
    content, epub := AddFiles(store, a, epub, env);
    if content.Raised? {
      return Raised(content.msg), epub;
    }
    result := Done(WithContent(item, content.value));
  }
}
