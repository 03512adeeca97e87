/** What the legacy connector's payload promises, stated about `LegacyArticleJson`
    (eschol/logic.py, `get_article_json`), and where it parts from the current
    connector's `ArticleJson`. */
module LegacyPayloadProperties {
  import opened Wrappers
  import opened Text
  import opened Records
  import opened Models
  import opened Normalize
  import opened Storage
  import opened Entries
  import opened Assembler
  import opened PayloadContent
  import opened PayloadProperties
  import opened LegacyAssembler

  /** A built payload is the base item with the content fields of the galley part. */
  lemma LegacyJsonDone(a: Article, unit: string, records: map<nat, EscholArticle>, env: Env, k: nat)
    ensures var s := LegacyArticleJson(a, unit, records, env, k);
      var c := LegacyArticleContent(a, RecordOf(records, a), env, k);
      s.result.Done? ==>
        ItemError(a).None? && c.result.Done? && s.epub == c.epub && s.rows == c.rows
        && s.result.value == LegacyWithContent(LegacyBaseItem(a, unit, RecordOf(records, a)), c.result.value)
  {
  }

  // ---------------------------------------------------------------------------
  // When the legacy payload raises

  /** A galley whose file has mime type "application/pdf", public or not. */
  predicate PdfGalley(g: Galley)
  {
    g.file.Some? && g.file.value.mimeType == "application/pdf"
  }

  /** Without a render galley the content galley is the first galley with a PDF file,
      whether public or not; only when there is none does looking for it raise. */
  lemma LegacyRenderGalleyRule(a: Article)
    ensures a.renderGalley.Some? ==> LegacyRenderGalley(a) == Done(a.renderGalley.value)
    ensures LegacyRenderGalley(a).Raised? <==>
      a.renderGalley.None? && forall i :: 0 <= i < |a.galleys| ==> !PdfGalley(a.galleys[i])
    ensures LegacyRenderGalley(a).Raised? ==> LegacyRenderGalley(a).msg == NoPdfGalley
    ensures a.renderGalley.None? && LegacyRenderGalley(a).Done? ==>
      exists i :: 0 <= i < |a.galleys| && a.galleys[i] == LegacyRenderGalley(a).value && PdfGalley(a.galleys[i])
        && forall j :: 0 <= j < i ==> !PdfGalley(a.galleys[j])
  {
    var q := GalleyQuery(false, false, Some({"application/pdf"}));
    FirstMatchIsFirst(a.galleys, q);
    assert forall g :: Matches(q, g) <==> PdfGalley(g);
  }

  /** The legacy XML conversion never raises: a PDF galley without a file is skipped. */
  lemma LegacyXmlConversionDone(a: Article, g: Galley, gf: StoredFile, ark: string, env: Env, k: nat)
    ensures LegacyXmlConversion(a, g, gf, ark, env, k).result.Done?
  {
    var files := XmlFilesOf(a, gf, ark, env, k);
    assert LegacyPdfSupp(a, ark, env, k + |files.rows|).result.Done?;
  }

  /** The galley part raises only when there is no content galley, and then before
      any record or token is written. */
  lemma LegacyGalleyContentRaises(a: Article, epub: Option<EscholArticle>, env: Env, k: nat)
    ensures var r := LegacyGalleyContent(a, epub, env, k);
      (r.result.Raised? <==> LegacyRenderGalley(a).Raised?)
      && (r.result.Raised? ==> r == ContentStep(Raised(NoPdfGalley), epub, []))
  {
    LegacyRenderGalleyRule(a);
    match LegacyRenderGalley(a)
    case Raised(_) =>
    case Done(g) =>
      if !g.isRemote && g.file.Some? && IsXml(g.file.value.mimeType) {
        LegacyXmlConversionDone(a, g, g.file.value, XmlRecord(a, epub, env).ark, env, k);
      }
  }

  /** The legacy payload raises exactly when a fixed key cannot be read (no owner, no
      publication, submission or acceptance date, no section), when an article in an
      issue has no `ArticleOrdering` row, or when there is no content galley; every one
      of these raises before any record or token is written. */
  lemma LegacyJsonRaises(a: Article, unit: string, records: map<nat, EscholArticle>, env: Env, k: nat)
    ensures var s := LegacyArticleJson(a, unit, records, env, k);
      (s.result.Raised? <==>
         a.owner.None? || a.datePublished.None? || a.section.None? || a.dateSubmitted.None? || a.dateAccepted.None?
         || (a.issue.Some? && a.articleOrder.None?) || LegacyRenderGalley(a).Raised?)
      && (s.result.Raised? ==> s.rows == [] && s.epub == RecordOf(records, a))
      && (ItemError(a).Some? ==> s.result == Raised(ItemError(a).value))
      && (ItemError(a).None? && LegacyRenderGalley(a).Raised? ==> s.result == Raised(NoPdfGalley))
  {
    var epub := RecordOf(records, a);
    LegacyGalleyContentRaises(a, epub, env, k);
    WithArticleSuppKeeps(LegacyGalleyContent(a, epub, env, k), a.supplementaryFiles, env, a.pk, k);
  }

  /** An article in an issue without an `ArticleOrdering` row cannot be deposited by
      the legacy connector (once its fixed keys are readable), whereas the current one
      places it at position 1. */
  lemma LegacyOrderingRequired(a: Article, unit: string, records: map<nat, EscholArticle>, env: Env, k: nat)
    requires a.issue.Some? && a.articleOrder.None?
    requires a.owner.Some? && a.datePublished.Some? && a.section.Some? && a.dateSubmitted.Some? && a.dateAccepted.Some?
    ensures LegacyArticleJson(a, unit, records, env, k) == LegacyJsonStep(Raised(NoArticleOrdering), RecordOf(records, a), [])
    ensures var s := ArticleJson(a, unit, records, env, k);
      s.result.Done? ==>
        s.result.value.issueFields.Some?
        && s.result.value.issueFields.value.orderInSection == OrderPosition(a.sectionOrder) * 10000 + 1
  {
    OrderInSectionValue(OrderPosition(a.sectionOrder), 1);
    ArticleJsonIssuePosition(a, unit, records, env, k);
  }

  /** The current payload's issue fields carry the position encoding with defaults. */
  lemma ArticleJsonIssuePosition(a: Article, unit: string, records: map<nat, EscholArticle>, env: Env, k: nat)
    ensures var s := ArticleJson(a, unit, records, env, k);
      s.result.Done? && a.issue.Some? ==>
        s.result.value.issueFields == Some(IssueFieldsOf(a, a.issue.value))
  {
  }

  // ---------------------------------------------------------------------------
  // Fields of a built legacy payload

  /** The fixed keys: the source id is always the article key, even when the record
      names another source; the abstract, ISSN and language are sent as they are
      (possibly null or "0000-0000"); the three dates are always sent; the section
      header counts the section's published articles. */
  lemma LegacyJsonFixedKeys(a: Article, unit: string, records: map<nat, EscholArticle>, env: Env, k: nat)
    ensures var s := LegacyArticleJson(a, unit, records, env, k);
      s.result.Done? ==>
        var p := s.result.value;
        p.sourceID == NatToDecimal(a.pk)
        && p.sourceName == (if a.pk in records && Present(records[a.pk].sourceName) then records[a.pk].sourceName.value else "janeway")
        && a.owner == Some(p.submitterEmail) && p.title == a.title && p.units == [unit]
        && p.summary == a.summary && p.issn == a.journal.issn && p.language == a.language
        && a.datePublished == Some(p.published) && p.datePublished == p.published
        && a.dateSubmitted == Some(p.dateSubmitted) && a.dateAccepted == Some(p.dateAccepted)
        && a.section.Some? && p.sectionHeader == SectionHeading(a.section.value, a.section.value.publishedCount)
        && p.itemType == "ARTICLE" && p.contentVersion == "PUBLISHER_VERSION" && p.pubRelation == "EXTERNAL_PUB"
        && (p.fpage.Some? <==> PresentNumber(a.firstPage)) && (p.fpage.Some? ==> p.fpage == a.firstPage)
        && (p.lpage.Some? <==> PresentNumber(a.lastPage)) && (p.lpage.Some? ==> p.lpage == a.lastPage)
  {
    LegacyJsonDone(a, unit, records, env, k);
  }

  /** The issue fields: sent exactly for an article in an issue; the description as it
      is; the position read from the section's ordering row (1 without one) and the
      article's ordering row, which must exist. */
  lemma LegacyJsonIssue(a: Article, unit: string, records: map<nat, EscholArticle>, env: Env, k: nat)
    ensures var s := LegacyArticleJson(a, unit, records, env, k);
      s.result.Done? ==>
        var p := s.result.value;
        (p.issueFields.Some? <==> a.issue.Some?)
        && (p.issueFields.Some? ==>
              a.issue.Some? && a.articleOrder.Some?
              && p.issueFields.value.volume == IntText(a.issue.value.volume)
              && p.issueFields.value.issue == a.issue.value.number
              && p.issueFields.value.issueDescription == a.issue.value.description
              && (p.issueFields.value.issueCoverCaption.Some? <==> Present(a.issue.value.shortDescription))
              && (a.articleOrder.value < 9999 ==>
                    p.issueFields.value.orderInSection
                      == OrderPosition(a.sectionOrder) * 10000 + a.articleOrder.value + 1))
  {
    LegacyJsonDone(a, unit, records, env, k);
    if a.issue.Some? && a.articleOrder.Some? {
      LegacyIssueFieldsValue(a, a.issue.value);
    }
  }

  /** The issue fields of an article with an ordering row. */
  lemma LegacyIssueFieldsValue(a: Article, issue: Issue)
    requires a.articleOrder.Some?
    ensures var f := LegacyIssueFieldsOf(a, issue);
      f.volume == IntText(issue.volume) && f.issue == issue.number && f.issueDescription == issue.description
      && (f.issueCoverCaption.Some? <==> Present(issue.shortDescription))
      && (a.articleOrder.value < 9999 ==> f.orderInSection == OrderPosition(a.sectionOrder) * 10000 + a.articleOrder.value + 1)
  {
    if a.articleOrder.value < 9999 {
      OrderInSectionValue(OrderPosition(a.sectionOrder), a.articleOrder.value + 1);
    }
  }

  /** `localIDs` holds exactly the platform identifiers, in order, and is left out
      when there are none: there is no synthetic "janeway_<pk>" entry. */
  lemma LegacyJsonLocalIds(a: Article, unit: string, records: map<nat, EscholArticle>, env: Env, k: nat)
    ensures var s := LegacyArticleJson(a, unit, records, env, k);
      s.result.Done? ==>
        var p := s.result.value;
        (p.localIDs.Some? <==> |a.identifiers| > 0)
        && (p.localIDs.Some? ==>
              |p.localIDs.value| == |a.identifiers|
              && forall i :: 0 <= i < |a.identifiers| ==> p.localIDs.value[i] == LocalIdOf(a.identifiers[i]))
  {
    LegacyJsonDone(a, unit, records, env, k);
    var ids := NativeLocalIds(a.identifiers);
    forall i | 0 <= i < |a.identifiers|
      ensures ids[i] == LocalIdOf(a.identifiers[i])
    {
      NativeLocalIdsEach(a.identifiers, i);
    }
  }

  /** The grants: one per funder, in order, whose reference is the funding id. */
  lemma LegacyJsonGrants(a: Article, unit: string, records: map<nat, EscholArticle>, env: Env, k: nat)
    ensures var s := LegacyArticleJson(a, unit, records, env, k);
      s.result.Done? ==>
        var p := s.result.value;
        (p.grants.Some? <==> |a.funders| > 0)
        && (p.grants.Some? ==>
              |p.grants.value| == |a.funders|
              && forall i :: 0 <= i < |a.funders| ==> p.grants.value[i] == Grant(a.funders[i].name, a.funders[i].fundingId))
  {
    LegacyJsonDone(a, unit, records, env, k);
    forall i | 0 <= i < |a.funders|
      ensures Grants(a.funders, FundingId)[i] == Grant(a.funders[i].name, a.funders[i].fundingId)
    {
      GrantsEach(a.funders, FundingId, i);
    }
  }

  /** The rights, keywords and data-availability keys follow the same rules as the
      current connector's. */
  lemma LegacyJsonSharedRules(a: Article, unit: string, records: map<nat, EscholArticle>, env: Env, k: nat)
    ensures var s := LegacyArticleJson(a, unit, records, env, k);
      s.result.Done? ==>
        var p := s.result.value;
        var urls := AnswersTo(a.fieldAnswers, "Data URL");
        (p.rights.Some? <==> a.license.Some? && (a.license.value in ValidRights || a.license.value + "/" in ValidRights))
        && (p.rights.Some? ==> a.license.Some? && p.rights.value == WithTrailingSlash(a.license.value))
        && p.dataAvailability == FirstDataCode(AnswersTo(a.fieldAnswers, "Data Availability"))
        && (p.dataURL.Some? <==> p.dataAvailability == Some("publicRepo") && |urls| > 0)
        && (p.dataURL.Some? ==> p.dataURL.value == urls[0])
        && (p.keywords.Some? ==> forall w :: w in p.keywords.value <==> w in a.keywords && w != "")
  {
    LegacyJsonDone(a, unit, records, env, k);
    if a.license.Some? {
      RightsAccepted(a.license.value);
    }
    DataURLRule(a.fieldAnswers);
    forall w ensures w in NonEmptyWords(a.keywords) <==> w in a.keywords && w != "" {
      NonEmptyWordsMembers(a.keywords, w);
    }
  }

  // ---------------------------------------------------------------------------
  // The content galley need not be public

  /** A local content galley that is not XML is linked whether or not it is public. */
  lemma LegacyJsonFileGalley(a: Article, unit: string, records: map<nat, EscholArticle>, env: Env, k: nat)
    requires LegacyRenderGalley(a).Done?
    requires var g := LegacyRenderGalley(a).value; !g.isRemote && g.file.Some? && !IsXml(g.file.value.mimeType)
    ensures var s := LegacyArticleJson(a, unit, records, env, k);
      var f := LegacyRenderGalley(a).value.file.value;
      s.result.Done? ==>
        s.result.value.contentLink == Some(Link(a.pk, f.pk, k))
        && s.result.value.contentFileName == Some(f.originalFilename)
        && s.epub == RecordOf(records, a)
  {
    LegacyJsonDone(a, unit, records, env, k);
    WithArticleSuppKeeps(LegacyGalleyContent(a, RecordOf(records, a), env, k), a.supplementaryFiles, env, a.pk, k);
  }

  /** A private render galley with a local file that is not XML: the current payload
      has no content link, the legacy payload links the galley's file. */
  lemma PrivateGalleyDiffers(a: Article, unit: string, records: map<nat, EscholArticle>, env: Env, k: nat)
    requires a.renderGalley.Some? && !a.renderGalley.value.isPublic && !a.renderGalley.value.isRemote
    requires a.renderGalley.value.file.Some? && !IsXml(a.renderGalley.value.file.value.mimeType)
    ensures var s := ArticleJson(a, unit, records, env, k);
      s.result.Done? ==> s.result.value.contentLink.None?
    ensures var s := LegacyArticleJson(a, unit, records, env, k);
      s.result.Done? ==> s.result.value.contentLink == Some(Link(a.pk, a.renderGalley.value.file.value.pk, k))
  {
    ArticleJsonNoGalley(a, unit, records, env, k);
    LegacyJsonFileGalley(a, unit, records, env, k);
  }

  /** The PDF file of the XML branch: the first galley of type PDF when there is one,
      public or not (its file may be missing, and is then skipped); otherwise the
      untyped galley with a PDF mime type, only when there is exactly one. */
  lemma LegacyPdfFileRule(a: Article, env: Env)
    ensures |a.pdfs| > 0 ==> LegacyPdfFile(a, env) == a.pdfs[0].file
    ensures |a.pdfs| == 0 ==>
      var untyped := Select(a.galleys, GalleyQuery(false, true, Some(env.pdfMimeTypes)));
      (LegacyPdfFile(a, env).Some? <==> |untyped| == 1)
      && (|untyped| == 1 ==>
            untyped[0] in a.galleys && untyped[0].galleyType == "" && untyped[0].file.Some?
            && untyped[0].file.value.mimeType in env.pdfMimeTypes && LegacyPdfFile(a, env) == untyped[0].file)
  {
    if |a.pdfs| == 0 {
      var q := GalleyQuery(false, true, Some(env.pdfMimeTypes));
      var untyped := Select(a.galleys, q);
      if |untyped| == 1 {
        SelectMembers(a.galleys, q, untyped[0]);
      }
    }
  }

  // ---------------------------------------------------------------------------
  // Every download link of the legacy payload can be opened

  /** Every download link of the payload points into article `articlePk` and has its
      token row in `rows`, dated `date`. */
  predicate LegacyPayloadLinked(p: LegacyPayload, articlePk: nat, rows: seq<TokenRow>, date: int)
  {
    (p.contentLink.Some? ==> p.contentLink.value.articlePk == articlePk && TokenFor(rows, p.contentLink.value, date))
    && (p.cssFiles.Some? ==> AddressLinked(p.cssFiles.value.fetchLink, articlePk, rows, date))
    && (p.suppFiles.Some? ==> SuppLinked(p.suppFiles.value, articlePk, rows, date))
    && (p.imgFiles.Some? ==> FilesLinked(p.imgFiles.value, articlePk, rows, date))
  }

  lemma LegacyPdfSuppLinked(a: Article, ark: string, env: Env, k: nat)
    ensures var r := LegacyPdfSupp(a, ark, env, k);
      r.result.Done? ==> SuppLinked(r.result.value, a.pk, r.rows, env.today)
  {
  }

  lemma LegacyXmlExtrasLinked(a: Article, g: Galley, ark: string, env: Env, k: nat)
    ensures ExtrasLinked(LegacyXmlExtrasOf(a, g, ark, env, k), a.pk, env.today)
  {
    LegacyPdfSuppLinked(a, ark, env, k);
    WithMediaLinked(LegacyPdfSupp(a, ark, env, k), g, env, a.pk, k);
  }

  lemma LegacyXmlConversionLinked(a: Article, g: Galley, gf: StoredFile, ark: string, env: Env, k: nat)
    ensures var r := LegacyXmlConversion(a, g, gf, ark, env, k);
      r.result.Done? ==> ContentLinked(r.result.value, a.pk, r.rows, env.today)
  {
    var files := XmlFilesOf(a, gf, ark, env, k);
    XmlFilesOfLinked(a, gf, ark, env, k);
    LegacyXmlExtrasLinked(a, g, ark, env, k + |files.rows|);
    ConvertedLinked(files, LegacyXmlExtrasOf(a, g, ark, env, k + |files.rows|), ark, a.pk, env.today);
  }

  lemma LegacyGalleyContentLinked(a: Article, epub: Option<EscholArticle>, env: Env, k: nat)
    ensures var r := LegacyGalleyContent(a, epub, env, k);
      r.result.Done? ==> ContentLinked(r.result.value, a.pk, r.rows, env.today)
  {
    var rg := LegacyRenderGalley(a);
    if rg.Done? && !rg.value.isRemote && rg.value.file.Some? && IsXml(rg.value.file.value.mimeType) {
      LegacyXmlConversionLinked(a, rg.value, rg.value.file.value, XmlRecord(a, epub, env).ark, env, k);
    }
  }

  /** Every download link in the legacy payload points into the article and comes with
      a token row, dated the day of the deposit, among the rows created while building it. */
  lemma LegacyJsonLinked(a: Article, unit: string, records: map<nat, EscholArticle>, env: Env, k: nat)
    ensures var j := LegacyArticleJson(a, unit, records, env, k);
      j.result.Done? ==> LegacyPayloadLinked(j.result.value, a.pk, j.rows, env.today)
  {
    var epub := RecordOf(records, a);
    if ItemError(a).None? {
      LegacyGalleyContentLinked(a, epub, env, k);
      WithArticleSuppLinked(LegacyGalleyContent(a, epub, env, k), a.supplementaryFiles, env, a.pk, k);
    }
  }
}
