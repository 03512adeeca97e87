/** The current connector's views (views.py): the token-guarded file download that the
    repository fetches deposited files through, and the background task that deposits an
    issue unless a deposit of it is still in progress. */
module Views {
  import opened Wrappers
  import opened Records
  import opened Models
  import opened Storage
  import opened Assembler
  import opened PayloadProperties
  import opened Deposit

  // ---------------------------------------------------------------------------
  // The token table

  /** A row is swept once it is dated before yesterday: `date` is a day and the cut-off
      is the current moment less one day. */
  predicate Expired(r: TokenRow, today: int)
  {
    r.date < today - 1
  }

  /** The rows that survive the sweep, in their order. */
  function Unexpired(rows: seq<TokenRow>, today: int): seq<TokenRow>
  {
    if |rows| == 0 then []
    else
      var last := rows[|rows| - 1];
      Unexpired(rows[..|rows| - 1], today) + if Expired(last, today) then [] else [last]
  }

  /** The sweep keeps exactly the rows that are not expired. */
  lemma {:induction false} UnexpiredMembers(rows: seq<TokenRow>, today: int)
    ensures forall r :: r in Unexpired(rows, today) <==> r in rows && !Expired(r, today)
  {
    if |rows| > 0 {
      var init := rows[..|rows| - 1];
      UnexpiredMembers(init, today);
      assert rows == init + [rows[|rows| - 1]];
    }
  }

  /** A row opens one file of one article for one token. */
  predicate Opens(r: TokenRow, articleId: nat, fileId: nat, token: string)
  {
    r.articleId == articleId && r.fileId == fileId && r.token == token
  }

  /** Some row of `rows` opens the file for the token. */
  predicate Admits(rows: seq<TokenRow>, articleId: nat, fileId: nat, token: string)
  {
    exists i :: 0 <= i < |rows| && Opens(rows[i], articleId, fileId, token)
  }

  /** A token just drawn for a table of earlier draws opens only the file it was
      issued for: whatever article and file a request names, the new table admits the
      new token for them exactly when they are the issued ones. */
  lemma IssuedTokenOpensOnlyItsFile(rows: seq<TokenRow>, env: Env, articlePk: nat, fileId: nat, k: nat,
                                    articleId: nat, requested: nat)
    requires Drawn(rows, k)
    ensures Admits(rows + [IssuedRow(env, articlePk, fileId, k)], articleId, requested, TokenText(k))
      <==> articleId == articlePk && requested == fileId
  {
    var rows' := rows + [IssuedRow(env, articlePk, fileId, k)];
    IssuedTokenFresh(rows, env, articlePk, fileId, k);
    if articleId == articlePk && requested == fileId {
      assert Opens(rows'[|rows|], articleId, requested, TokenText(k));
    }
    if Admits(rows', articleId, requested, TokenText(k)) {
      var i :| 0 <= i < |rows'| && Opens(rows'[i], articleId, requested, TokenText(k));
      if i < |rows| {
        assert rows'[i] == rows[i];
      }
    }
  }

  /** `AccessToken.objects.filter(date__lt=...).delete()`: removes the expired rows. */
  method Sweep(store: Store, today: int)
    modifies store`tokens
    ensures store.tokens == Unexpired(old(store.tokens), today)
  {
    var rows := store.tokens;
    var kept := [];
    var i := 0;
    while i < |rows|
      invariant 0 <= i <= |rows|
      invariant kept == Unexpired(rows[..i], today)
    {
      assert rows[..i + 1][..i] == rows[..i];
      if !Expired(rows[i], today) {
        kept := kept + [rows[i]];
      }
      i := i + 1;
    }
    assert rows[..i] == rows;
    store.tokens := kept;
  }

  /** `AccessToken.objects.filter(article_id=..., file_id=..., token=...).exists()`. */
  method Lookup(rows: seq<TokenRow>, articleId: nat, fileId: nat, token: string) returns (found: bool)
    ensures found <==> Admits(rows, articleId, fileId, token)
  {
    found := false;
    var i := 0;
    while i < |rows| && !found
      invariant 0 <= i <= |rows|
      invariant found <==> exists j :: 0 <= j < i && Opens(rows[j], articleId, fileId, token)
    {
      found := Opens(rows[i], articleId, fileId, token);
      i := i + 1;
    }
  }

  // ---------------------------------------------------------------------------
  // The download view

  /** The view's answer: 403, 404, or the file served. */
  datatype FileResponse = Forbidden | NotFound | Served(articlePk: nat, fileId: nat)

  /** `access_article_file` on a table holding `rows`, day `today`, for a request whose
      `access` parameter is `access`, where `articles` and `files` are the keys that
      exist: without the parameter 403; without a row (left after the sweep) matching
      article, file and token exactly 403; then 404 for a missing article or file. */
  function AccessOf(rows: seq<TokenRow>, access: Option<string>, articleId: nat, fileId: nat, today: int,
                    articles: set<nat>, files: set<nat>): FileResponse
  {
    if access.None? then Forbidden
    else if !Admits(Unexpired(rows, today), articleId, fileId, access.value) then Forbidden
    else if articleId !in articles || fileId !in files then NotFound
    else Served(articleId, fileId)
  }

  /** `access_article_file`: the parameter is checked first, then the table is swept,
      then the token looked up, then the article and the file fetched. */
  method AccessArticleFile(store: Store, access: Option<string>, articleId: nat, fileId: nat, today: int,
                           articles: set<nat>, files: set<nat>)
    returns (response: FileResponse)
    modifies store`tokens
    ensures response == AccessOf(old(store.tokens), access, articleId, fileId, today, articles, files)
    ensures store.tokens == if access.None? then old(store.tokens) else Unexpired(old(store.tokens), today)
  {
    if access.None? {
      return Forbidden;
    }
    Sweep(store, today);
    var found := Lookup(store.tokens, articleId, fileId, access.value);
    if !found {
      return Forbidden;
    }
    if articleId !in articles {
      return NotFound;
    }
    if fileId !in files {
      return NotFound;
    }
    response := Served(articleId, fileId);
  }

  /** The gate lets a request through exactly when it carries a token and some row that
      is not expired matches its article, file and token; such a request then gets 404
      exactly when the article or the file is missing, and the file otherwise. */
  lemma AccessGate(rows: seq<TokenRow>, access: Option<string>, articleId: nat, fileId: nat, today: int,
                   articles: set<nat>, files: set<nat>)
    ensures var r := AccessOf(rows, access, articleId, fileId, today, articles, files);
      (r != Forbidden <==>
         access.Some? && exists row :: row in rows && !Expired(row, today) && Opens(row, articleId, fileId, access.value))
      && (r != Forbidden ==>
            (r == NotFound <==> articleId !in articles || fileId !in files)
            && (r != NotFound ==> r == Served(articleId, fileId)))
  {
    UnexpiredMembers(rows, today);
    var kept := Unexpired(rows, today);
    if access.Some? && Admits(kept, articleId, fileId, access.value) {
      var i :| 0 <= i < |kept| && Opens(kept[i], articleId, fileId, access.value);
      assert kept[i] in kept;
    }
    if access.Some? && exists row :: row in rows && !Expired(row, today) && Opens(row, articleId, fileId, access.value) {
      var row :| row in rows && !Expired(row, today) && Opens(row, articleId, fileId, access.value);
      assert row in kept;
      var i :| 0 <= i < |kept| && kept[i] == row;
    }
  }

  /** A download address whose token row is in the table opens its file on the day the
      row is dated and on the next day, as long as the article and the file exist. */
  lemma LinkOpens(rows: seq<TokenRow>, d: Download, date: int, today: int, articles: set<nat>, files: set<nat>)
    requires TokenFor(rows, d, date) && date <= today <= date + 1
    requires d.articlePk in articles && d.fileId in files
    ensures AccessOf(rows, Some(d.token), d.articlePk, d.fileId, today, articles, files) == Served(d.articlePk, d.fileId)
  {
    var row := TokenRow(d.token, date, d.articlePk, d.fileId);
    assert row in rows && !Expired(row, today) && Opens(row, d.articlePk, d.fileId, d.token);
    AccessGate(rows, Some(d.token), d.articlePk, d.fileId, today, articles, files);
  }

  /** The content file of a built payload can be fetched on the day of the deposit and
      on the next, from a table holding the rows the build created after any others. */
  lemma ContentLinkOpens(a: Article, unit: string, records: map<nat, EscholArticle>, env: Env, k: nat,
                         before: seq<TokenRow>, today: int, articles: set<nat>, files: set<nat>)
    requires env.today <= today <= env.today + 1 && a.pk in articles
    ensures var j := ArticleJson(a, unit, records, env, k);
      j.result.Done? && j.result.value.contentLink.Some? && j.result.value.contentLink.value.fileId in files ==>
        var d := j.result.value.contentLink.value;
        AccessOf(before + j.rows, Some(d.token), a.pk, d.fileId, today, articles, files) == Served(a.pk, d.fileId)
  {
    var j := ArticleJson(a, unit, records, env, k);
    ArticleJsonLinked(a, unit, records, env, k);
    if j.result.Done? && j.result.value.contentLink.Some? && j.result.value.contentLink.value.fileId in files {
      var d := j.result.value.contentLink.value;
      assert TokenRow(d.token, env.today, d.articlePk, d.fileId) in before + j.rows;
      LinkOpens(before + j.rows, d, env.today, today, articles, files);
    }
  }

  // ---------------------------------------------------------------------------
  // Depositing an issue in the background

  /** The fields of `IssuePublicationHistory` as models.py declares them, with the
      implicit key. */
  const DeclaredHistoryFields: set<string> := {"id", "date", "issue", "success", "result"}

  /** The same fields with the completion flag that the guard of `publish_issue_task`
      filters on. */
  const FlaggedHistoryFields: set<string> := DeclaredHistoryFields + {"is_complete"}

  /** The text of Django's `FieldError` for a filter on an undeclared keyword. */
  function UnknownFieldMsg(keyword: string): string
  {
    "Cannot resolve keyword '" + keyword + "' into field."
  }

  /** `IssuePublicationHistory.objects.filter(issue=issue, is_complete=False).exists()`
      on a model that declares `fields`: the unknown keyword raises `FieldError`;
      otherwise the answer is whether some stored deposit of the issue is incomplete. */
  function IncompleteExists(fields: set<string>, histories: seq<IssuePublicationHistory>): Outcome<bool>
  {
    if "is_complete" in fields then Done(InProgress(histories)) else Raised(UnknownFieldMsg("is_complete"))
  }

  /** As written, the guard of `publish_issue_task` raises on every call, whatever is
      stored, so the task never deposits an issue and never answers "in process"; with
      the flag declared the guard answers from the stored deposits, as
      `PublishIssueTask` does. */
  lemma PublishIssueGuardAsWritten(histories: seq<IssuePublicationHistory>)
    ensures IncompleteExists(DeclaredHistoryFields, histories) == Raised(UnknownFieldMsg("is_complete"))
    ensures IncompleteExists(FlaggedHistoryFields, histories) == Done(InProgress(histories))
  {
    assert "is_complete" in FlaggedHistoryFields;
    assert "is_complete" != "id" && "is_complete" != "date" && "is_complete" != "issue"
      && "is_complete" != "success" && "is_complete" != "result";
  }

  /** What `publish_issue_task` did: deposited the issue, with the batch's records and
      messages, or refused because a deposit of it is in progress. */
  datatype TaskOutcome = Published(objs: seq<EscholArticle>, errors: seq<string>) | InProcess(msg: string)

  /** Some stored deposit of the issue is not complete. */
  predicate InProgress(histories: seq<IssuePublicationHistory>)
  {
    exists i :: 0 <= i < |histories| && !histories[i].isComplete
  }

  function InProcessMsg(issue: Issue): string
  {
    issue.display + " publication in process"
  }

  /** `publish_issue_task` with the completion flag declared (the corrected guard),
      given the stored deposits of the issue: the issue is deposited only when none of
      them is incomplete; otherwise nothing is done. */
  method PublishIssueTask(store: Store, issue: Issue, histories: seq<IssuePublicationHistory>, pending: seq<Pending>,
                          env: Env, shown: string, cover: CoverResponse)
    returns (outcome: TaskOutcome)
    modifies store
    ensures outcome.InProcess? <==> InProgress(histories)
    ensures outcome.InProcess? ==>
      outcome.msg == InProcessMsg(issue)
      && store.records == old(store.records) && store.tokens == old(store.tokens)
      && store.nextToken == old(store.nextToken) && store.remoteUrls == old(store.remoteUrls)
    ensures outcome.Published? ==>
      var b := IssueToEscholOf(issue, pending, old(store.records), old(store.remoteUrls), env, old(store.nextToken), shown, cover);
      outcome.objs == b.objs && outcome.errors == b.errors
      && store.records == b.records && store.remoteUrls == b.remoteUrls
      && store.tokens == old(store.tokens) + b.rows && store.nextToken == b.next
  {
    var busy := false;
    var i := 0;
    while i < |histories| && !busy
      invariant 0 <= i <= |histories|
      invariant busy <==> exists j :: 0 <= j < i && !histories[j].isComplete
    {
      busy := !histories[i].isComplete;
      i := i + 1;
    }
    if busy {
      return InProcess(InProcessMsg(issue));
    }
    var objs, errors := IssueToEschol(store, issue, pending, env, shown, cover);
    outcome := Published(objs, errors);
  }
}
