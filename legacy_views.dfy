/** The legacy download view (eschol/views.py, `access_article_file`): the same token
    gate as the current view, followed by a fetch that treats the file id "None"
    specially. The token table's `file_id` is an integer column, so the id "None" is
    refused by the lookup itself, before the fetch is reached. */
module LegacyViews {
  import opened Wrappers
  import opened Models
  import opened Storage
  import opened Views
  import opened LegacyDeposit

  /** The `file_id` of the request: a number, or the text "None". */
  datatype FileKey = FileNumber(n: nat) | FileNone

  /** The view's answer: 403, 404, the file served, an exception that escapes the view,
      or no response at all (the view falling off its end). */
  datatype LegacyFileResponse =
    | LegacyForbidden
    | LegacyNotFound
    | LegacyServed(articlePk: nat, fileId: nat)
    | LegacyRaised(msg: string)
    | NoResponse

  /** `Article.objects.get` on a missing article. */
  const NoArticle := "Article matching query does not exist."

  /** The fetch at the end of the view, for an article that exists: a numbered file
      that is missing gives 404 (the `Http404` raised again), an existing one is
      served, and the id "None" swallows the `Http404` it raises and returns nothing. */
  function FetchFile(articleId: nat, key: FileKey, files: set<nat>): LegacyFileResponse
  {
    match key
    case FileNone => NoResponse
    case FileNumber(n) => if n in files then LegacyServed(articleId, n) else LegacyNotFound
  }

  /** The legacy `access_article_file` on a table holding `rows`, day `today`: without
      the `access` parameter 403; a lookup by the file id "None" raises; without a row
      (left after the sweep) matching article, file and token 403; a missing article
      raises; then the fetch. */
  function LegacyAccessOf(rows: seq<TokenRow>, access: Option<string>, articleId: nat, key: FileKey, today: int,
                          articles: set<nat>, files: set<nat>): LegacyFileResponse
  {
    if access.None? then LegacyForbidden
    else if key.FileNone? then LegacyRaised(InvalidLiteralMsg("None"))
    else if !Admits(Unexpired(rows, today), articleId, key.n, access.value) then LegacyForbidden
    else if articleId !in articles then LegacyRaised(NoArticle)
    else FetchFile(articleId, key, files)
  }

  /** The legacy `access_article_file`: the parameter is checked, the table swept, the
      token looked up, the article fetched, then the file. */
  method LegacyAccessArticleFile(store: Store, access: Option<string>, articleId: nat, key: FileKey, today: int,
                                 articles: set<nat>, files: set<nat>)
    returns (response: LegacyFileResponse)
    modifies store`tokens
    ensures response == LegacyAccessOf(old(store.tokens), access, articleId, key, today, articles, files)
    ensures store.tokens == if access.None? then old(store.tokens) else Unexpired(old(store.tokens), today)
  {
    if access.None? {
      return LegacyForbidden;
    }
    Sweep(store, today);
    if key.FileNone? {
      return LegacyRaised(InvalidLiteralMsg("None"));
    }
    var found := Lookup(store.tokens, articleId, key.n, access.value);
    if !found {
      return LegacyForbidden;
    }
    if articleId !in articles {
      return LegacyRaised(NoArticle);
    }
    response := FetchFile(articleId, key, files);
  }

  /** The view never falls off its end: the id "None" that would do so is refused by
      the token lookup, whenever the request carries a token. */
  lemma LegacyAlwaysResponds(rows: seq<TokenRow>, access: Option<string>, articleId: nat, key: FileKey, today: int,
                             articles: set<nat>, files: set<nat>)
    ensures LegacyAccessOf(rows, access, articleId, key, today, articles, files) != NoResponse
    ensures FetchFile(articleId, FileNone, files) == NoResponse
    ensures access.Some? && key.FileNone? ==>
      LegacyAccessOf(rows, access, articleId, key, today, articles, files) == LegacyRaised(InvalidLiteralMsg("None"))
  {
  }

  /** For a numbered file the legacy view answers as the current one does, except that
      a request past the gate for a missing article raises instead of getting 404. */
  lemma LegacyAccessAgrees(rows: seq<TokenRow>, access: Option<string>, articleId: nat, fileId: nat, today: int,
                           articles: set<nat>, files: set<nat>)
    ensures var legacy := LegacyAccessOf(rows, access, articleId, FileNumber(fileId), today, articles, files);
      var current := AccessOf(rows, access, articleId, fileId, today, articles, files);
      (legacy == LegacyForbidden <==> current == Forbidden)
      && (legacy == LegacyServed(articleId, fileId) <==> current == Served(articleId, fileId))
      && (legacy == LegacyNotFound <==> current == NotFound && articleId in articles)
      && (legacy.LegacyRaised? <==> current == NotFound && articleId !in articles)
  {
  }

  /** A download address whose token row is in the table opens its file with the
      legacy view too, on the row's day and the next. */
  lemma LegacyLinkOpens(rows: seq<TokenRow>, d: Download, date: int, today: int, articles: set<nat>, files: set<nat>)
    requires TokenFor(rows, d, date) && date <= today <= date + 1
    requires d.articlePk in articles && d.fileId in files
    ensures LegacyAccessOf(rows, Some(d.token), d.articlePk, FileNumber(d.fileId), today, articles, files)
      == LegacyServed(d.articlePk, d.fileId)
  {
    LinkOpens(rows, d, date, today, articles, files);
  }
}
