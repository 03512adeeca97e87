/** What the current connector's deposit payload promises, stated about `ArticleJson`
    (logic.py, `get_article_json` and `xml_galley_to_html`). */
module PayloadProperties {
  import opened Wrappers
  import opened Text
  import opened Records
  import opened Models
  import opened Normalize
  import opened Storage
  import opened Entries
  import opened Assembler

  // ---------------------------------------------------------------------------
  // Every download link of the payload can be opened

  /** Every download link of the content into article `articlePk` has its token row. */
  predicate ContentLinked(c: Content, articlePk: nat, rows: seq<TokenRow>, date: int)
  {
    (c.contentLink.Some? ==> c.contentLink.value.articlePk == articlePk && TokenFor(rows, c.contentLink.value, date))
    && (c.cssFiles.Some? ==> AddressLinked(c.cssFiles.value.fetchLink, articlePk, rows, date))
    && SuppLinked(c.supp, articlePk, rows, date)
    && FilesLinked(c.images, articlePk, rows, date)
  }

  /** Every download link of the payload points into article `articlePk` and has its
      token row in `rows`, dated `date`. */
  predicate PayloadLinked(p: Payload, articlePk: nat, rows: seq<TokenRow>, date: int)
  {
    (p.contentLink.Some? ==> p.contentLink.value.articlePk == articlePk && TokenFor(rows, p.contentLink.value, date))
    && (p.cssFiles.Some? ==> AddressLinked(p.cssFiles.value.fetchLink, articlePk, rows, date))
    && (p.suppFiles.Some? ==> SuppLinked(p.suppFiles.value, articlePk, rows, date))
    && (p.imgFiles.Some? ==> FilesLinked(p.imgFiles.value, articlePk, rows, date))
  }

  /** Unless gathering them raised, the XML branch's extras have their token rows. */
  predicate ExtrasLinked(x: Attempt<XmlExtras>, articlePk: nat, date: int)
  {
    x.result.Done? ==>
      SuppLinked(x.result.value.pdf, articlePk, x.rows, date)
      && FilesLinked(x.result.value.images, articlePk, x.rows, date)
      && (x.result.value.css.Some? ==> AddressLinked(x.result.value.css.value.fetchLink, articlePk, x.rows, date))
  }

  /** The generated HTML file and the XML file have their token rows. */
  predicate XmlFilesLinked(files: Issued<XmlFiles>, articlePk: nat, date: int)
  {
    files.value.html.articlePk == articlePk && TokenFor(files.rows, files.value.html, date)
    && SuppLinked([files.value.xml], articlePk, files.rows, date)
  }

  lemma PdfSuppLinked(a: Article, ark: string, env: Env, k: nat)
    ensures var r := PdfSupp(a, ark, env, k);
      r.result.Done? ==> SuppLinked(r.result.value, a.pk, r.rows, env.today)
  {
  }

  lemma MediaLinked(g: Galley, env: Env, articlePk: nat, k: nat)
    ensures var m := MediaOf(g, env, articlePk, k);
      FilesLinked(m.value.images, articlePk, m.rows, env.today)
      && (m.value.css.Some? ==> AddressLinked(m.value.css.value.fetchLink, articlePk, m.rows, env.today))
  {
    var images := Images(g.images, env, articlePk, k);
    var css := Css(g, env, articlePk, k + |images.rows|);
    ImagesLinked(g.images, env, articlePk, k);
    FilesLinkedGrow(images.value, articlePk, images.rows, css.rows, env.today);
  }

  lemma WithMediaLinked(pdf: Attempt<seq<SuppFile>>, g: Galley, env: Env, articlePk: nat, k: nat)
    requires pdf.result.Done? ==> SuppLinked(pdf.result.value, articlePk, pdf.rows, env.today)
    ensures var r := WithMedia(pdf, g, env, articlePk, k);
      ExtrasLinked(r, articlePk, env.today)
  {
    if pdf.result.Done? {
      var media := MediaOf(g, env, articlePk, k + |pdf.rows|);
      MediaLinked(g, env, articlePk, k + |pdf.rows|);
      SuppLinkedGrow(pdf.result.value, articlePk, pdf.rows, media.rows, env.today);
      FilesLinkedGrow(media.value.images, articlePk, media.rows, pdf.rows, env.today);
    }
  }

  lemma XmlExtrasLinked(a: Article, g: Galley, ark: string, env: Env, k: nat)
    ensures var r := XmlExtrasOf(a, g, ark, env, k);
      ExtrasLinked(r, a.pk, env.today)
  {
    PdfSuppLinked(a, ark, env, k);
    WithMediaLinked(PdfSupp(a, ark, env, k), g, env, a.pk, k);
  }

  /** The links of the XML branch's extras, with the HTML and XML files' rows first. */
  lemma ConvertedLinked(files: Issued<XmlFiles>, extras: Attempt<XmlExtras>, ark: string, articlePk: nat, date: int)
    requires XmlFilesLinked(files, articlePk, date) && ExtrasLinked(extras, articlePk, date)
    ensures var r := Converted(files, extras, ark);
      r.result.Done? ==> ContentLinked(r.result.value, articlePk, r.rows, date)
  {
    if extras.result.Done? {
      var x := extras.result.value;
      SuppLinkedGrow([files.value.xml], articlePk, files.rows, extras.rows, date);
      SuppLinkedGrow(x.pdf, articlePk, extras.rows, files.rows, date);
      FilesLinkedGrow(x.images, articlePk, extras.rows, files.rows, date);
      var s := [files.value.xml] + x.pdf;
      forall i | 0 <= i < |s|
        ensures s[i].fetchLink.articlePk == articlePk && TokenFor(files.rows + extras.rows, s[i].fetchLink, date)
      {
        if i > 0 { assert s[i] == x.pdf[i - 1]; }
      }
    }
  }

  lemma XmlFilesOfLinked(a: Article, gf: StoredFile, ark: string, env: Env, k: nat)
    ensures XmlFilesLinked(XmlFilesOf(a, gf, ark, env, k), a.pk, env.today)
  {
    assert XmlFilesOf(a, gf, ark, env, k).value.xml.fetchLink == Link(a.pk, gf.pk, k + 1);
  }

  lemma XmlConversionLinked(a: Article, g: Galley, gf: StoredFile, ark: string, env: Env, k: nat)
    ensures var r := XmlConversion(a, g, gf, ark, env, k);
      r.result.Done? ==> ContentLinked(r.result.value, a.pk, r.rows, env.today)
  {
    var files := XmlFilesOf(a, gf, ark, env, k);
    XmlFilesOfLinked(a, gf, ark, env, k);
    XmlExtrasLinked(a, g, ark, env, k + |files.rows|);
    ConvertedLinked(files, XmlExtrasOf(a, g, ark, env, k + |files.rows|), ark, a.pk, env.today);
  }

  lemma GalleyContentLinked(a: Article, epub: Option<EscholArticle>, env: Env, k: nat)
    ensures var r := GalleyContent(a, epub, env, k);
      r.result.Done? ==> ContentLinked(r.result.value, a.pk, r.rows, env.today)
  {
    var g := ContentGalley(a);
    if g.Some? && !g.value.isRemote && g.value.file.Some? && IsXml(g.value.file.value.mimeType) {
      var rec := XmlRecord(a, epub, env);
      XmlConversionLinked(a, g.value, g.value.file.value, rec.ark, env, k);
    }
  }

  /** Supplementary files appended with their rows keep the content's links open. */
  lemma WithSuppLinked(c: Content, supp: seq<SuppFile>, articlePk: nat, rows: seq<TokenRow>, more: seq<TokenRow>, date: int)
    requires ContentLinked(c, articlePk, rows, date) && SuppLinked(supp, articlePk, more, date)
    ensures ContentLinked(c.(supp := c.supp + supp), articlePk, rows + more, date)
  {
    SuppLinkedGrow(c.supp, articlePk, rows, more, date);
    SuppLinkedGrow(supp, articlePk, more, rows, date);
    FilesLinkedGrow(c.images, articlePk, rows, more, date);
    var s := c.supp + supp;
    forall i | 0 <= i < |s|
      ensures s[i].fetchLink.articlePk == articlePk && TokenFor(rows + more, s[i].fetchLink, date)
    {
      if i >= |c.supp| {
        assert s[i] == supp[i - |c.supp|];
      }
    }
  }

  lemma WithArticleSuppLinked(content: ContentStep, files: seq<StoredFile>, env: Env, articlePk: nat, k: nat)
    requires content.result.Done? ==> ContentLinked(content.result.value, articlePk, content.rows, env.today)
    ensures var r := WithArticleSupp(content, files, env, articlePk, k);
      r.result.Done? ==> ContentLinked(r.result.value, articlePk, r.rows, env.today)
  {
    if content.result.Done? {
      var supp := ArticleSupp(files, env, articlePk, k + |content.rows|);
      ArticleSuppLinked(files, env, articlePk, k + |content.rows|);
      WithSuppLinked(content.result.value, supp.value, articlePk, content.rows, supp.rows, env.today);
    }
  }

  lemma ArticleContentLinked(a: Article, epub: Option<EscholArticle>, env: Env, k: nat)
    ensures var r := ArticleContent(a, epub, env, k);
      r.result.Done? ==> ContentLinked(r.result.value, a.pk, r.rows, env.today)
  {
    GalleyContentLinked(a, epub, env, k);
    WithArticleSuppLinked(GalleyContent(a, epub, env, k), a.supplementaryFiles, env, a.pk, k);
  }

  /** Every download link in the payload (content, style sheet, supplementary files and
      images) points into the article and comes with a token row, dated the day of the
      deposit, among the rows created while building it. */
  lemma ArticleJsonLinked(a: Article, unit: string, records: map<nat, EscholArticle>, env: Env, k: nat)
    ensures var j := ArticleJson(a, unit, records, env, k);
      j.result.Done? ==> PayloadLinked(j.result.value, a.pk, j.rows, env.today)
  {
    if a.owner.Some? && a.datePublished.Some? {
      ArticleContentLinked(a, RecordOf(records, a), env, k);
    }
  }
}
