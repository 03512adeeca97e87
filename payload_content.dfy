/** Which galley supplies the content of the current connector's payload, what each
    kind of galley contributes, and when building the payload raises (logic.py,
    `get_article_json` and `xml_galley_to_html`). */
module PayloadContent {
  import opened Wrappers
  import opened Records
  import opened Models
  import opened Normalize
  import opened Storage
  import opened Entries
  import opened Assembler

  // ---------------------------------------------------------------------------
  // Choosing the galleys

  /** A public galley whose file has mime type "application/pdf". */
  predicate PublicPdf(g: Galley)
  {
    g.isPublic && g.file.Some? && g.file.value.mimeType == "application/pdf"
  }

  /** The render galley is the candidate when there is one; otherwise the candidate is
      the public PDF galley that comes first, and there is none without such a galley. */
  lemma RenderCandidateRule(a: Article)
    ensures a.renderGalley.Some? ==> RenderCandidate(a) == a.renderGalley
    ensures a.renderGalley.None? ==>
      (RenderCandidate(a).None? <==> forall i :: 0 <= i < |a.galleys| ==> !PublicPdf(a.galleys[i]))
    ensures a.renderGalley.None? && RenderCandidate(a).Some? ==>
      exists i :: 0 <= i < |a.galleys| && a.galleys[i] == RenderCandidate(a).value && PublicPdf(a.galleys[i])
        && forall j :: 0 <= j < i ==> !PublicPdf(a.galleys[j])
  {
    var q := GalleyQuery(true, false, Some({"application/pdf"}));
    FirstMatchIsFirst(a.galleys, q);
    assert forall g :: Matches(q, g) <==> PublicPdf(g);
  }

  /** The PDF galley of the XML branch is the first public galley of type PDF; only
      when there is none is it the first public untyped galley with a PDF mime type. */
  lemma PdfCandidateRule(a: Article, env: Env)
    ensures (exists i :: 0 <= i < |a.pdfs| && a.pdfs[i].isPublic) ==>
      PdfCandidate(a, env).Some?
      && (exists i :: 0 <= i < |a.pdfs| && a.pdfs[i] == PdfCandidate(a, env).value && a.pdfs[i].isPublic
            && forall j :: 0 <= j < i ==> !a.pdfs[j].isPublic)
    ensures (forall i :: 0 <= i < |a.pdfs| ==> !a.pdfs[i].isPublic) ==>
      PdfCandidate(a, env) == FirstMatch(a.galleys, GalleyQuery(true, true, Some(env.pdfMimeTypes)))
    ensures PdfCandidate(a, env).None? <==>
      (forall i :: 0 <= i < |a.pdfs| ==> !a.pdfs[i].isPublic)
      && (forall i :: 0 <= i < |a.galleys| ==> !(a.galleys[i].isPublic && a.galleys[i].galleyType == ""
                                                 && a.galleys[i].file.Some? && a.galleys[i].file.value.mimeType in env.pdfMimeTypes))
  {
    var typed := GalleyQuery(true, false, None);
    var untyped := GalleyQuery(true, true, Some(env.pdfMimeTypes));
    FirstMatchIsFirst(a.pdfs, typed);
    FirstMatchIsFirst(a.galleys, untyped);
    assert forall g :: Matches(typed, g) <==> g.isPublic;
  }

  // ---------------------------------------------------------------------------
  // When the payload raises

  /** The content galley is converted from XML. */
  predicate XmlBranch(a: Article)
  {
    var g := ContentGalley(a);
    g.Some? && !g.value.isRemote && g.value.file.Some? && IsXml(g.value.file.value.mimeType)
  }

  /** The XML conversion finds a PDF galley without a file. */
  predicate PdfWithoutFile(a: Article, env: Env)
  {
    XmlBranch(a) && PdfCandidate(a, env).Some? && PdfCandidate(a, env).value.file.None?
  }

  /** The conversion raises exactly when the PDF galley has no file, after the HTML and
      XML files' tokens were created. */
  lemma XmlConversionRaises(a: Article, g: Galley, gf: StoredFile, ark: string, env: Env, k: nat)
    ensures var r := XmlConversion(a, g, gf, ark, env, k);
      (r.result.Raised? <==> PdfCandidate(a, env).Some? && PdfCandidate(a, env).value.file.None?)
      && (r.result.Raised? ==>
            r.result == Raised(NoMimeType)
            && r.rows == [IssuedRow(env, a.pk, env.htmlFilePk(a.pk), k), IssuedRow(env, a.pk, gf.pk, k + 1)])
  {
    var files := XmlFilesOf(a, gf, ark, env, k);
    var extras := XmlExtrasOf(a, g, ark, env, k + 2);
    assert XmlConversion(a, g, gf, ark, env, k) == Converted(files, extras, ark);
    if extras.result.Raised? {
      assert extras.rows == [];
    }
  }

  /** The galley part raises exactly when the XML conversion finds a PDF galley without
      a file; the record has then been created and the two tokens issued. */
  lemma GalleyContentRaises(a: Article, epub: Option<EscholArticle>, env: Env, k: nat)
    ensures var r := GalleyContent(a, epub, env, k);
      (r.result.Raised? <==> PdfWithoutFile(a, env))
      && (r.result.Raised? ==>
            r.result == Raised(NoMimeType) && r.epub == Some(XmlRecord(a, epub, env))
            && r.rows == [IssuedRow(env, a.pk, env.htmlFilePk(a.pk), k),
                          IssuedRow(env, a.pk, ContentGalley(a).value.file.value.pk, k + 1)])
  {
    if XmlBranch(a) {
      var g := ContentGalley(a).value;
      XmlConversionRaises(a, g, g.file.value, XmlRecord(a, epub, env).ark, env, k);
    }
  }

  /** Building the payload raises exactly when the article has no owner, has no
      publication date, or its XML conversion finds a PDF galley without a file. The
      first two raise before anything is written; the last leaves the new record and
      the HTML and XML files' token rows behind. */
  lemma ArticleJsonRaises(a: Article, unit: string, records: map<nat, EscholArticle>, env: Env, k: nat)
    ensures var s := ArticleJson(a, unit, records, env, k);
      (s.result.Raised? <==> a.owner.None? || a.datePublished.None? || PdfWithoutFile(a, env))
      && (a.owner.None? ==> s == JsonStep(Raised(NoEmail), RecordOf(records, a), []))
      && (a.owner.Some? && a.datePublished.None? ==> s == JsonStep(Raised(NoDate), RecordOf(records, a), []))
      && (a.owner.Some? && a.datePublished.Some? && PdfWithoutFile(a, env) ==>
            s.result == Raised(NoMimeType) && s.epub == Some(XmlRecord(a, RecordOf(records, a), env))
            && s.rows == [IssuedRow(env, a.pk, env.htmlFilePk(a.pk), k),
                          IssuedRow(env, a.pk, ContentGalley(a).value.file.value.pk, k + 1)])
  {
    GalleyContentRaises(a, RecordOf(records, a), env, k);
  }

  // ---------------------------------------------------------------------------
  // What the galley contributes

  /** A built payload carries the content fields and the record of the article's
      content. */
  lemma ArticleJsonContentOf(a: Article, unit: string, records: map<nat, EscholArticle>, env: Env, k: nat)
    ensures var s := ArticleJson(a, unit, records, env, k);
      var c := ArticleContent(a, RecordOf(records, a), env, k);
      s.result.Done? ==>
        c.result.Done? && s.epub == c.epub && s.rows == c.rows
        && s.result.value.externalLinks == c.result.value.externalLinks
        && s.result.value.contentLink == c.result.value.contentLink
        && s.result.value.contentFileName == c.result.value.contentFileName
        && s.result.value.id == c.result.value.id
        && s.result.value.cssFiles == c.result.value.cssFiles
        && s.result.value.imgFiles == NonEmpty(c.result.value.images)
        && s.result.value.suppFiles == NonEmpty(c.result.value.supp)
  {
  }

  /** Adding the article's own files keeps the galley part's fields and record, and
      puts the files after the galley part's supplementary files. */
  lemma WithArticleSuppKeeps(content: ContentStep, files: seq<StoredFile>, env: Env, articlePk: nat, k: nat)
    ensures var r := WithArticleSupp(content, files, env, articlePk, k);
      var more := ArticleSupp(files, env, articlePk, k + |content.rows|);
      (r.result.Done? <==> content.result.Done?)
      && r.epub == content.epub
      && (r.result.Done? ==>
            r.result.value == content.result.value.(supp := content.result.value.supp + more.value)
            && r.rows == content.rows + more.rows)
  {
  }

  /** Without a public candidate galley the payload has no content fields, and the
      record is left as it was. */
  lemma ArticleJsonNoGalley(a: Article, unit: string, records: map<nat, EscholArticle>, env: Env, k: nat)
    requires RenderCandidate(a).None? || !RenderCandidate(a).value.isPublic
    ensures var s := ArticleJson(a, unit, records, env, k);
      s.result.Done? ==>
        var p := s.result.value;
        p.externalLinks.None? && p.contentLink.None? && p.contentFileName.None? && p.id.None?
        && p.cssFiles.None? && p.imgFiles.None? && s.epub == RecordOf(records, a)
  {
    ArticleJsonContentOf(a, unit, records, env, k);
    WithArticleSuppKeeps(GalleyContent(a, RecordOf(records, a), env, k), a.supplementaryFiles, env, a.pk, k);
  }

  /** A remote galley is only linked to: `externalLinks` holds its address and no file
      is sent. */
  lemma ArticleJsonRemoteGalley(a: Article, unit: string, records: map<nat, EscholArticle>, env: Env, k: nat)
    requires ContentGalley(a).Some? && ContentGalley(a).value.isRemote
    ensures var s := ArticleJson(a, unit, records, env, k);
      s.result.Done? ==>
        var p := s.result.value;
        p.externalLinks == Some([ContentGalley(a).value.remoteFile])
        && p.contentLink.None? && p.contentFileName.None? && p.id.None?
        && p.cssFiles.None? && p.imgFiles.None? && s.epub == RecordOf(records, a)
  {
    ArticleJsonContentOf(a, unit, records, env, k);
    WithArticleSuppKeeps(GalleyContent(a, RecordOf(records, a), env, k), a.supplementaryFiles, env, a.pk, k);
  }

  /** A local galley file that is not XML is sent as the content with the first token
      drawn, under its original name. */
  lemma ArticleJsonFileGalley(a: Article, unit: string, records: map<nat, EscholArticle>, env: Env, k: nat)
    requires ContentGalley(a).Some? && !ContentGalley(a).value.isRemote && ContentGalley(a).value.file.Some?
    requires !IsXml(ContentGalley(a).value.file.value.mimeType)
    ensures var s := ArticleJson(a, unit, records, env, k);
      var f := ContentGalley(a).value.file.value;
      s.result.Done? ==>
        var p := s.result.value;
        p.contentLink == Some(Link(a.pk, f.pk, k)) && p.contentFileName == Some(f.originalFilename)
        && p.externalLinks.None? && p.id.None? && p.cssFiles.None? && p.imgFiles.None?
        && s.epub == RecordOf(records, a)
  {
    ArticleJsonContentOf(a, unit, records, env, k);
    WithArticleSuppKeeps(GalleyContent(a, RecordOf(records, a), env, k), a.supplementaryFiles, env, a.pk, k);
  }

  /** The galley part of an XML galley: the record taken or created supplies `id`, the
      generated HTML file is the content with the `k`-th token, and the XML file, named
      after the ark, leads the supplementary files with the next token. */
  lemma GalleyContentXml(a: Article, epub: Option<EscholArticle>, env: Env, k: nat)
    requires XmlBranch(a)
    ensures var cs := GalleyContent(a, epub, env, k);
      var rec := XmlRecord(a, epub, env);
      cs.epub == Some(rec)
      && (cs.result.Done? ==>
            var c := cs.result.value;
            c.id == Some(rec.ark) && c.externalLinks.None?
            && c.contentLink == Some(Link(a.pk, env.htmlFilePk(a.pk), k)) && c.contentFileName == Some(HtmlName(rec.ark))
            && |c.supp| > 0 && c.supp[0].file == XmlName(rec.ark)
            && c.supp[0].fetchLink == Link(a.pk, ContentGalley(a).value.file.value.pk, k + 1))
  {
    var g := ContentGalley(a).value;
    var ark := XmlRecord(a, epub, env).ark;
    var files := XmlFilesOf(a, g.file.value, ark, env, k);
    var extras := XmlExtrasOf(a, g, ark, env, k + 2);
    assert XmlConversion(a, g, g.file.value, ark, env, k) == Converted(files, extras, ark);
  }

  /** An XML galley is converted: the article's record (the existing one, or a new one
      with the minted or placeholder ark) supplies `id`, the generated HTML file is the
      content under the ark's name with the first token, and the XML file is the first
      supplementary file, named after the ark. */
  lemma ArticleJsonXmlGalley(a: Article, unit: string, records: map<nat, EscholArticle>, env: Env, k: nat)
    requires XmlBranch(a)
    ensures var s := ArticleJson(a, unit, records, env, k);
      var rec := XmlRecord(a, RecordOf(records, a), env);
      s.result.Done? ==>
        var p := s.result.value;
        s.epub == Some(rec) && p.id == Some(rec.ark) && p.externalLinks.None?
        && p.contentLink == Some(Link(a.pk, env.htmlFilePk(a.pk), k)) && p.contentFileName == Some(HtmlName(rec.ark))
        && p.suppFiles.Some? && |p.suppFiles.value| > 0 && p.suppFiles.value[0].file == XmlName(rec.ark)
        && p.suppFiles.value[0].fetchLink == Link(a.pk, ContentGalley(a).value.file.value.pk, k + 1)
  {
    var cs := GalleyContent(a, RecordOf(records, a), env, k);
    ArticleJsonContentOf(a, unit, records, env, k);
    WithArticleSuppKeeps(cs, a.supplementaryFiles, env, a.pk, k);
    GalleyContentXml(a, RecordOf(records, a), env, k);
  }
}
