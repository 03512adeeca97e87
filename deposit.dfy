/** Sending articles and issues to the repository with the current connector
    (logic.py, `send_article`, `send_issue_meta`, `issue_to_eschol` and
    `article_to_eschol`). The repository API is not called: its answer to each
    request is an input, read the way the connector reads it. */
module Deposit {
  import opened Wrappers
  import opened Text
  import opened Records
  import opened Models
  import opened Normalize
  import opened Storage
  import opened Assembler
  import opened PayloadContent

  // ---------------------------------------------------------------------------
  // Sending one article

  /** The API's answer to a `depositItem` request: JSON with "data" (the item's id and
      message), JSON with "data" that is null or whose "depositItem" is null (as a
      GraphQL error answer has), JSON with "errors" only (their text), JSON with neither
      key, or text that is not JSON. */
  datatype DepositResponse =
    | DepositData(id: string, message: string)
    | DepositDataNull
    | DepositErrors(errors: string)
    | DepositNeither
    | DepositNotJson

  /** What `send_article` returns: the article's record, or no record and a message. */
  datatype SendOutcome = Sent(record: EscholArticle) | NotSent(msg: string)

  /** What sending one article did: its outcome or the exception raised, the records
      and remote addresses afterwards, the token rows created, and the item posted to
      the API when one was posted. */
  datatype SendStep = SendStep(
    result: Outcome<SendOutcome>,
    records: map<nat, EscholArticle>,
    rows: seq<TokenRow>,
    remoteUrls: map<nat, string>,
    posted: Option<Payload>)

  function NotPublishedMsg(a: Article): string { a.display + " is not published" }
  function NoIssueMsg(a: Article): string { a.display + " published without issue" }
  function NoOwnerMsg(a: Article): string { a.display + " published without owner" }
  function NoTitleMsg(a: Article): string { a.display + " published without title" }

  function NotConfiguredMsg(a: Article): string
  {
    "eScholarship API not configured: " + a.display + " not sent"
  }

  function DepositErrorMsg(a: Article, errors: string): string
  {
    "ERROR sending Article " + NatToDecimal(a.pk) + " to eScholarship: " + errors
  }

  function ApiErrorMsg(a: Article): string
  {
    "An unexpected API error occured sending " + a.display + " to eScholarship"
  }

  /** The text of the `KeyError` raised by `data["errors"]` on JSON with neither key. */
  const MissingErrorsKey := "'errors'"

  /** The text of the `TypeError` raised by subscripting a JSON null. */
  const NullSubscript := "'NoneType' object is not subscriptable"

  /** The message of the first of the four checks that fails, in the order published,
      issue, owner, title; none when all pass. */
  function Precondition(a: Article): Option<string>
  {
    if !a.isPublished then Some(NotPublishedMsg(a))
    else if a.issue.None? then Some(NoIssueMsg(a))
    else if a.owner.None? then Some(NoOwnerMsg(a))
    else if !Present(a.title) then Some(NoTitleMsg(a))
    else None
  }

  /** The item posted: the payload, with the record's ark as `id` when there is a record. */
  function WithId(item: Payload, epub: Option<EscholArticle>): Payload
  {
    if epub.Some? then item.(id := Some(epub.value.ark)) else item
  }

  /** The connector's reading of the API's answer to the posted item. On "data" the
      record (the existing one, or a new one with the returned id as its ark) is stored
      and the article is marked remote at the record's public item page. */
  function Answer(a: Article, response: DepositResponse, epub: Option<EscholArticle>, records: map<nat, EscholArticle>,
                  rows: seq<TokenRow>, remoteUrls: map<nat, string>, item: Payload, env: Env): SendStep
  {
    match response
    case DepositData(id, _) =>
      var rec := if epub.Some? then epub.value else EscholArticle(RefOf(a), id, false, None, None, None);
      SendStep(Done(Sent(rec)), records[a.pk := rec], rows, remoteUrls[a.pk := EscholUrl(env.jscholUrl, rec.ark)], Some(item))
    case DepositDataNull => SendStep(Raised(NullSubscript), records, rows, remoteUrls, Some(item))
    case DepositErrors(errors) => SendStep(Done(NotSent(DepositErrorMsg(a, errors))), records, rows, remoteUrls, Some(item))
    case DepositNeither => SendStep(Raised(MissingErrorsKey), records, rows, remoteUrls, Some(item))
    case DepositNotJson => SendStep(Done(NotSent(ApiErrorMsg(a))), records, rows, remoteUrls, Some(item))
  }

  /** What `send_article` does once the checks have passed and the payload was built
      (`j`): an exception from the build is passed on; unconfigured, nothing is posted;
      otherwise the item is posted and the answer read. The record found or made by the
      build is stored either way. */
  function Deliver(a: Article, j: JsonStep, records: map<nat, EscholArticle>, remoteUrls: map<nat, string>, env: Env,
                   response: DepositResponse): SendStep
  {
    var after := RecordsAfter(records, a, j.epub);
    match j.result
    case Raised(msg) => SendStep(Raised(msg), after, j.rows, remoteUrls, None)
    case Done(payload) =>
      if !env.configured then SendStep(Done(NotSent(NotConfiguredMsg(a))), after, j.rows, remoteUrls, None)
      else Answer(a, response, j.epub, after, j.rows, remoteUrls, WithId(payload, j.epub), env)
  }

  /** `send_article` on an article whose stored records and remote addresses are given,
      with tokens drawn from `k` and the API answering `response`. */
  function SendArticleOf(a: Article, records: map<nat, EscholArticle>, remoteUrls: map<nat, string>, env: Env, k: nat,
                         response: DepositResponse): SendStep
  {
    var check := Precondition(a);
    if check.Some? then SendStep(Done(NotSent(check.value)), records, [], remoteUrls, None)
    else Deliver(a, ArticleJson(a, GetUnit(a.journal), records, env, k), records, remoteUrls, env, response)
  }

  /** The reading of the API's answer to the posted `item`. */
  method ReadAnswer(store: Store, a: Article, env: Env, response: DepositResponse, epub: Option<EscholArticle>,
                    item: Payload, ghost rows: seq<TokenRow>)
    returns (result: Outcome<SendOutcome>)
    modifies store
    ensures var s := Answer(a, response, epub, old(store.records), rows, old(store.remoteUrls), item, env);
      result == s.result && store.records == s.records && store.remoteUrls == s.remoteUrls
    ensures store.tokens == old(store.tokens) && store.nextToken == old(store.nextToken)
  {
    match response {
      case DepositData(id, _) =>
        var rec: EscholArticle;
        if epub.Some? {
          rec := epub.value;
        } else {
          rec := EscholArticle(RefOf(a), id, false, None, None, None);
        }
        store.records := store.records[a.pk := rec];
        store.remoteUrls := store.remoteUrls[a.pk := EscholUrl(env.jscholUrl, rec.ark)];
        result := Done(Sent(rec));
      case DepositDataNull =>
        result := Raised(NullSubscript);
      case DepositErrors(errors) =>
        result := Done(NotSent(DepositErrorMsg(a, errors)));
      case DepositNeither =>
        result := Raised(MissingErrorsKey);
      case DepositNotJson =>
        result := Done(NotSent(ApiErrorMsg(a)));
    }
  }

  /** The posting half of `send_article`, after `get_article_json` has built the payload
      described by `j` and stored its record. */
  method Post(store: Store, a: Article, env: Env, response: DepositResponse, json: Outcome<Payload>, epub: Option<EscholArticle>,
              ghost j: JsonStep, ghost records: map<nat, EscholArticle>)
    returns (result: Outcome<SendOutcome>, posted: Option<Payload>)
    requires json == j.result && epub == j.epub && store.records == RecordsAfter(records, a, epub)
    modifies store
    ensures result == Deliver(a, j, records, old(store.remoteUrls), env, response).result
    ensures posted == Deliver(a, j, records, old(store.remoteUrls), env, response).posted
    ensures store.records == Deliver(a, j, records, old(store.remoteUrls), env, response).records
    ensures store.remoteUrls == Deliver(a, j, records, old(store.remoteUrls), env, response).remoteUrls
    ensures store.tokens == old(store.tokens) && store.nextToken == old(store.nextToken)
  {
    posted := None;
    if json.Raised? {
      return Raised(json.msg), None;
    }
    var item := WithId(json.value, epub);
    if !env.configured {
      return Done(NotSent(NotConfiguredMsg(a))), None;
    }
    posted := Some(item);
    result := ReadAnswer(store, a, env, response, epub, item, j.rows);
  }

  /** `send_article`: checks the article, builds its payload, and, when the API is
      configured, posts it and reads the answer. */
  method SendArticle(store: Store, a: Article, env: Env, response: DepositResponse)
    returns (result: Outcome<SendOutcome>, posted: Option<Payload>)
    modifies store
    ensures result == SendArticleOf(a, old(store.records), old(store.remoteUrls), env, old(store.nextToken), response).result
    ensures posted == SendArticleOf(a, old(store.records), old(store.remoteUrls), env, old(store.nextToken), response).posted
    ensures store.records == SendArticleOf(a, old(store.records), old(store.remoteUrls), env, old(store.nextToken), response).records
    ensures store.remoteUrls == SendArticleOf(a, old(store.records), old(store.remoteUrls), env, old(store.nextToken), response).remoteUrls
    ensures store.tokens == old(store.tokens) + SendArticleOf(a, old(store.records), old(store.remoteUrls), env, old(store.nextToken), response).rows
    ensures store.nextToken == old(store.nextToken) + |SendArticleOf(a, old(store.records), old(store.remoteUrls), env, old(store.nextToken), response).rows|
  {
    if !a.isPublished {
      return Done(NotSent(NotPublishedMsg(a))), None;
    }
    if a.issue.None? {
      return Done(NotSent(NoIssueMsg(a))), None;
    }
    if a.owner.None? {
      return Done(NotSent(NoOwnerMsg(a))), None;
    }
    if !Present(a.title) {
      return Done(NotSent(NoTitleMsg(a))), None;
    }
    ghost var records := store.records;
    ghost var j := ArticleJson(a, GetUnit(a.journal), store.records, env, store.nextToken);
    var json, epub := GetArticleJson(store, a, GetUnit(a.journal), env);
    result, posted := Post(store, a, env, response, json, epub, j, records);
  }

  /** Once the payload is built, the article is deposited exactly when the build
      succeeded, the API is configured and it answers with "data"; an item is posted
      exactly when the build succeeded and the API is configured, and it carries the
      ark of the article's record when there is one. A deposited article's record is
      the existing one or a new one holding the returned id, and it is stored and
      marked remote at its item page; otherwise the remote addresses are unchanged.
      Only a failed build, an answer with neither key or one whose "data" is null
      raises. */
  lemma DeliverOutcome(a: Article, j: JsonStep, records: map<nat, EscholArticle>, remoteUrls: map<nat, string>, env: Env,
                       response: DepositResponse)
    ensures var s := Deliver(a, j, records, remoteUrls, env, response);
      var sent := s.result.Done? && s.result.value.Sent?;
      (sent <==> j.result.Done? && env.configured && response.DepositData?)
      && (s.posted.Some? <==> j.result.Done? && env.configured)
      && (s.posted.Some? ==> s.posted.value.id == if j.epub.Some? then Some(j.epub.value.ark) else j.result.value.id)
      && (s.result.Raised? <==> j.result.Raised? || (env.configured && (response.DepositNeither? || response.DepositDataNull?)))
      && s.rows == j.rows
      && (sent ==>
            var rec := s.result.value.record;
            s.records == RecordsAfter(records, a, j.epub)[a.pk := rec]
            && s.remoteUrls == remoteUrls[a.pk := EscholUrl(env.jscholUrl, rec.ark)]
            && (j.epub.Some? ==> rec == j.epub.value)
            && (j.epub.None? ==> rec == EscholArticle(RefOf(a), response.id, false, None, None, None)))
      && (!sent ==> s.records == RecordsAfter(records, a, j.epub) && s.remoteUrls == remoteUrls)
  {
  }

  /** The four checks come first and, when one fails, nothing else happens: no payload
      is built, no token is created and nothing is posted. Past them, `send_article`
      raises exactly when the article has no publication date, when its XML galley's
      PDF has no file, or when the API's answer has neither "data" nor "errors" or has
      a null "data" or "depositItem"; and
      the article is deposited exactly when the build succeeds, the API is configured
      and it answers with "data". */
  lemma SendArticleOutcome(a: Article, records: map<nat, EscholArticle>, remoteUrls: map<nat, string>, env: Env, k: nat,
                           response: DepositResponse)
    ensures var s := SendArticleOf(a, records, remoteUrls, env, k, response);
      var j := ArticleJson(a, GetUnit(a.journal), records, env, k);
      (Precondition(a).None? <==> a.isPublished && a.issue.Some? && a.owner.Some? && Present(a.title))
      && (Precondition(a).Some? ==> s == SendStep(Done(NotSent(Precondition(a).value)), records, [], remoteUrls, None))
      && (s.result.Raised? <==>
            Precondition(a).None? && (a.datePublished.None? || PdfWithoutFile(a, env)
              || (env.configured && (response.DepositNeither? || response.DepositDataNull?))))
      && (s.result.Done? && s.result.value.Sent? <==>
            Precondition(a).None? && j.result.Done? && env.configured && response.DepositData?)
  {
    if Precondition(a).None? {
      var j := ArticleJson(a, GetUnit(a.journal), records, env, k);
      DeliverOutcome(a, j, records, remoteUrls, env, response);
      ArticleJsonRaises(a, GetUnit(a.journal), records, env, k);
    }
  }

  /** Without API configuration nothing is posted and no article is deposited: the
      article's remote address is left alone, though its payload (and any record and
      tokens that building it creates) is still built. */
  lemma SendArticleUnconfigured(a: Article, records: map<nat, EscholArticle>, remoteUrls: map<nat, string>, env: Env, k: nat,
                                response: DepositResponse)
    requires !env.configured
    ensures var s := SendArticleOf(a, records, remoteUrls, env, k, response);
      s.posted.None? && s.remoteUrls == remoteUrls && !(s.result.Done? && s.result.value.Sent?)
      && (Precondition(a).None? && ArticleJson(a, GetUnit(a.journal), records, env, k).result.Done? ==>
            s.result == Done(NotSent(NotConfiguredMsg(a))))
  {
    if Precondition(a).None? {
      DeliverOutcome(a, ArticleJson(a, GetUnit(a.journal), records, env, k), records, remoteUrls, env, response);
    }
  }

  // ---------------------------------------------------------------------------
  // The issue cover

  /** The API's answer to an `updateIssue` request: JSON with "errors" (their
      messages), JSON with "data" carrying a message, JSON without "errors" whose "data"
      or "updateIssue" is null, other JSON, or text that is not JSON (whose decoding
      error is given). `text` is the raw answer. */
  datatype CoverResponse =
    | CoverErrors(messages: seq<string>)
    | CoverData(message: string, text: string)
    | CoverDataNull
    | CoverOther(text: string)
    | CoverNotJson(error: string)

  /** What `send_issue_meta` returns. */
  datatype CoverResult = CoverResult(success: bool, msg: string)

  const CoverUploaded := "Cover Image uploaded"

  function NonIntegerIssueMsg(issue: Issue): string
  {
    "Cannot upload cover images for non-integer issue number " + issue.number
  }

  /** `send_issue_meta`: nothing to do without a cover image; a non-integer issue number
      is refused; otherwise the API's answer decides, success meaning exactly the
      message "Cover Image uploaded". Unconfigured, it reports the variables it would
      have sent (`shown` is their printed form). */
  function SendIssueMeta(issue: Issue, configured: bool, shown: string, response: CoverResponse): Outcome<CoverResult>
  {
    if !Present(issue.coverImageUrl) then Done(CoverResult(true, "No cover image"))
    else if ParseInt(issue.number).None? then Done(CoverResult(false, NonIntegerIssueMsg(issue)))
    else if !configured then Done(CoverResult(true, "Escholarship deposit " + issue.display + ": " + shown))
    else CoverAnswer(response)
  }

  /** The connector's reading of the API's answer to the cover upload. */
  function CoverAnswer(response: CoverResponse): Outcome<CoverResult>
  {
    match response
    case CoverErrors(messages) => Done(CoverResult(false, Join(messages, ";")))
    case CoverData(message, text) =>
      if message == CoverUploaded then Done(CoverResult(true, CoverUploaded)) else Done(CoverResult(false, text))
    case CoverDataNull => Raised(NullSubscript)
    case CoverOther(text) => Done(CoverResult(false, text))
    case CoverNotJson(error) => Raised(error)
  }

  /** The cover call succeeds exactly without a cover image, unconfigured with an
      integer issue number, or on the API's "Cover Image uploaded"; only undecodable
      answers and a null "data" or "updateIssue" raise. */
  lemma SendIssueMetaSucceeds(issue: Issue, configured: bool, shown: string, response: CoverResponse)
    ensures var r := SendIssueMeta(issue, configured, shown, response);
      (r.Raised? <==> Present(issue.coverImageUrl) && ParseInt(issue.number).Some? && configured
                      && (response.CoverNotJson? || response.CoverDataNull?))
      && (r.Done? && r.value.success <==>
            !Present(issue.coverImageUrl)
            || (ParseInt(issue.number).Some? && !configured)
            || (ParseInt(issue.number).Some? && response.CoverData? && response.message == CoverUploaded))
      && (r.Done? && r.value.success && configured && Present(issue.coverImageUrl) ==> r.value.msg == CoverUploaded)
  {
  }

  /** An issue with a cover image whose number is the printed form of an integer gets
      past the number check: unconfigured it reports success, configured the API's
      answer decides. */
  lemma IssueNumberAccepted(issue: Issue, n: int, configured: bool, shown: string, response: CoverResponse)
    requires Present(issue.coverImageUrl) && issue.number == IntText(n)
    ensures SendIssueMeta(issue, configured, shown, response)
      == if configured then CoverAnswer(response) else Done(CoverResult(true, "Escholarship deposit " + issue.display + ": " + shown))
  {
    ParseIntRoundTrip(n);
  }

  // ---------------------------------------------------------------------------
  // Sending an issue

  /** The state of an issue batch: the records sent, the error messages, the stored
      records, the token rows created and the position of the next token, the remote
      addresses, and whether an exception ended it. */
  datatype Batch = Batch(
    objs: seq<EscholArticle>,
    errors: seq<string>,
    records: map<nat, EscholArticle>,
    rows: seq<TokenRow>,
    next: nat,
    remoteUrls: map<nat, string>,
    stopped: bool)

  function UnexpectedMsg(issue: Issue, e: string): string
  {
    "An unexpected error occured when sending " + issue.display + " to eScholarship: " + e
  }

  /** The batch after one more article whose sending did `s`: its record joins `objs`,
      its message joins `errors`, and an exception ends the batch with a message. */
  function SendInto(b: Batch, issue: Issue, s: SendStep): Batch
  {
    match s.result
    case Raised(e) => Batch(b.objs, b.errors + [UnexpectedMsg(issue, e)], s.records, b.rows + s.rows, b.next + |s.rows|, s.remoteUrls, true)
    case Done(Sent(rec)) => Batch(b.objs + [rec], b.errors, s.records, b.rows + s.rows, b.next + |s.rows|, s.remoteUrls, false)
    case Done(NotSent(msg)) => Batch(b.objs, b.errors + [msg], s.records, b.rows + s.rows, b.next + |s.rows|, s.remoteUrls, false)
  }

  /** An article of the issue with the answer the API gives to its deposit. */
  datatype Pending = Pending(article: Article, response: DepositResponse)

  /** How one article of a batch is sent: the article with its answer and the batch so
      far give what sending it does. */
  type Sender = (Pending, Batch) -> SendStep

  /** The articles sent in order by `send` until one raises. */
  function SendArticles(b0: Batch, issue: Issue, pending: seq<Pending>, send: Sender): Batch
  {
    if |pending| == 0 then b0
    else
      var n := |pending| - 1;
      var b := SendArticles(b0, issue, pending[..n], send);
      if b.stopped then b else SendInto(b, issue, send(pending[n], b))
  }

  /** `send_article` inside a batch: the article draws its tokens from the batch's
      next position. */
  function SendInBatch(env: Env): Sender
  {
    (p: Pending, b: Batch) => SendArticleOf(p.article, b.records, b.remoteUrls, env, b.next, p.response)
  }

  /** Inside a batch, an article is sent as `send_article` sends it on its own. */
  lemma SendInBatchApply(env: Env, p: Pending, b: Batch)
    ensures SendInBatch(env)(p, b) == SendArticleOf(p.article, b.records, b.remoteUrls, env, b.next, p.response)
  {
  }

  /** `issue_to_eschol` for an issue whose sorted articles, each with its answer, are `pending`: the cover
      first, its message kept when it fails, then the articles; an exception anywhere
      ends the batch with one more message and is not passed on. */
  function IssueToEscholOf(issue: Issue, pending: seq<Pending>, records: map<nat, EscholArticle>, remoteUrls: map<nat, string>,
                           env: Env, k: nat, shown: string, cover: CoverResponse): Batch
  {
    AfterCover(SendIssueMeta(issue, env.configured, shown, cover), issue, pending, records, remoteUrls, k, SendInBatch(env))
  }

  /** The batch once the cover call returned `meta`, the articles sent by `send`. */
  function AfterCover(meta: Outcome<CoverResult>, issue: Issue, pending: seq<Pending>, records: map<nat, EscholArticle>,
                      remoteUrls: map<nat, string>, k: nat, send: Sender): Batch
  {
    match meta
    case Raised(e) => Batch([], [UnexpectedMsg(issue, e)], records, [], k, remoteUrls, true)
    case Done(c) => SendArticles(Batch([], if c.success then [] else [c.msg], records, [], k, remoteUrls, false), issue, pending, send)
  }

  /** One more article extends the batch by that article's sending, unless it has stopped. */
  lemma SendArticlesNext(b0: Batch, issue: Issue, pending: seq<Pending>, send: Sender, i: nat)
    requires i < |pending|
    ensures var b := SendArticles(b0, issue, pending[..i], send);
      SendArticles(b0, issue, pending[..i + 1], send) == if b.stopped then b else SendInto(b, issue, send(pending[i], b))
  {
    assert pending[..i + 1][..i] == pending[..i];
  }

  /** Every article draws its tokens right after the previous one's: the position
      reached is the start plus the rows created. */
  lemma {:induction false} TokenPositions(b0: Batch, issue: Issue, pending: seq<Pending>, send: Sender)
    ensures var b := SendArticles(b0, issue, pending, send);
      |b.rows| >= |b0.rows| && b.next == b0.next + (|b.rows| - |b0.rows|)
  {
    if |pending| > 0 {
      TokenPositions(b0, issue, pending[..|pending| - 1], send);
    }
  }

  /** Once the batch has stopped, the remaining articles change nothing. */
  lemma {:induction false} StoppedStays(b0: Batch, issue: Issue, pending: seq<Pending>, send: Sender, i: nat, j: nat)
    requires i <= j <= |pending|
    requires SendArticles(b0, issue, pending[..i], send).stopped
    ensures SendArticles(b0, issue, pending[..j], send) == SendArticles(b0, issue, pending[..i], send)
    decreases j
  {
    if j > i {
      StoppedStays(b0, issue, pending, send, i, j - 1);
      SendArticlesNext(b0, issue, pending, send, j - 1);
    }
  }

  /** Each article sent adds exactly one entry, a record or a message, after those
      already collected, and only an exception stops the batch early. */
  lemma {:induction false} BatchCounts(b0: Batch, issue: Issue, pending: seq<Pending>, send: Sender)
    requires !b0.stopped
    ensures var b := SendArticles(b0, issue, pending, send);
      b0.objs <= b.objs && b0.errors <= b.errors
      && |b.objs| + |b.errors| <= |b0.objs| + |b0.errors| + |pending|
      && (!b.stopped ==> |b.objs| + |b.errors| == |b0.objs| + |b0.errors| + |pending|)
  {
    if |pending| > 0 {
      BatchCounts(b0, issue, pending[..|pending| - 1], send);
    }
  }

  /** A sender that never deposits and never marks anything remote. */
  ghost predicate NeverDeposits(send: Sender)
  {
    forall p: Pending, b: Batch :: send(p, b).remoteUrls == b.remoteUrls && !(send(p, b).result.Done? && send(p, b).result.value.Sent?)
  }

  /** With such a sender a batch collects no records and changes no remote address. */
  lemma {:induction false} NoDeposits(b0: Batch, issue: Issue, pending: seq<Pending>, send: Sender)
    requires NeverDeposits(send)
    ensures var b := SendArticles(b0, issue, pending, send);
      b.objs == b0.objs && b.remoteUrls == b0.remoteUrls
  {
    if |pending| > 0 {
      NoDeposits(b0, issue, pending[..|pending| - 1], send);
    }
  }

  /** The cover goes first: when it fails its message is the first error, and when it
      raises no article is sent at all. Each article then adds one entry, so a batch
      that did not stop has one entry per article (after the cover's message). */
  lemma CoverFirst(meta: Outcome<CoverResult>, issue: Issue, pending: seq<Pending>, records: map<nat, EscholArticle>,
                   remoteUrls: map<nat, string>, k: nat, send: Sender)
    ensures var b := AfterCover(meta, issue, pending, records, remoteUrls, k, send);
      (meta.Raised? ==> b.objs == [] && b.errors == [UnexpectedMsg(issue, meta.msg)] && b.records == records
                        && b.rows == [] && b.remoteUrls == remoteUrls)
      && (meta.Done? && !meta.value.success ==> |b.errors| >= 1 && b.errors[0] == meta.value.msg)
      && (meta.Done? && !b.stopped ==>
            |b.objs| + |b.errors| == |pending| + (if meta.value.success then 0 else 1))
  {
    if meta.Done? {
      var b0 := Batch([], if meta.value.success then [] else [meta.value.msg], records, [], k, remoteUrls, false);
      BatchCounts(b0, issue, pending, send);
    }
  }

  /** Unconfigured, `send_article` inside a batch never deposits. */
  lemma InBatchUnconfigured(env: Env)
    requires !env.configured
    ensures NeverDeposits(SendInBatch(env))
  {
    forall p: Pending, b: Batch
      ensures SendInBatch(env)(p, b).remoteUrls == b.remoteUrls
              && !(SendInBatch(env)(p, b).result.Done? && SendInBatch(env)(p, b).result.value.Sent?)
    {
      SendInBatchApply(env, p, b);
      SendArticleUnconfigured(p.article, b.records, b.remoteUrls, env, b.next, p.response);
    }
  }

  /** Without API configuration an issue deposit collects no records and marks no
      article remote. */
  lemma IssueUnconfigured(issue: Issue, pending: seq<Pending>, records: map<nat, EscholArticle>, remoteUrls: map<nat, string>,
                          env: Env, k: nat, shown: string, cover: CoverResponse)
    requires !env.configured
    ensures var b := IssueToEscholOf(issue, pending, records, remoteUrls, env, k, shown, cover);
      b.objs == [] && b.remoteUrls == remoteUrls
  {
    InBatchUnconfigured(env);
    var meta := SendIssueMeta(issue, env.configured, shown, cover);
    if meta.Done? {
      var b0 := Batch([], if meta.value.success then [] else [meta.value.msg], records, [], k, remoteUrls, false);
      NoDeposits(b0, issue, pending, SendInBatch(env));
    }
  }

  /** One article of `issue_to_eschol`: sends it and adds its record or message to
      the batch `b`, which the store reflects. */
  method SendNext(store: Store, issue: Issue, p: Pending, env: Env,
                  objs0: seq<EscholArticle>, errors0: seq<string>, ghost b: Batch, ghost t0: seq<TokenRow>)
    returns (objs: seq<EscholArticle>, errors: seq<string>, stopped: bool)
    requires objs0 == b.objs && errors0 == b.errors && store.records == b.records && store.remoteUrls == b.remoteUrls
    requires store.tokens == t0 + b.rows && store.nextToken == b.next
    modifies store
    ensures var b' := SendInto(b, issue, SendArticleOf(p.article, b.records, b.remoteUrls, env, b.next, p.response));
      objs == b'.objs && errors == b'.errors && stopped == b'.stopped && store.records == b'.records && store.remoteUrls == b'.remoteUrls
      && store.tokens == t0 + b'.rows && store.nextToken == b'.next
  {
    ghost var s := SendArticleOf(p.article, b.records, b.remoteUrls, env, b.next, p.response);
    var result, _ := SendArticle(store, p.article, env, p.response);
    AppendAssoc(t0, b.rows, s.rows);
    objs, errors, stopped := objs0, errors0, result.Raised?;
    match result {
      case Raised(e) =>
        errors := errors + [UnexpectedMsg(issue, e)];
      case Done(Sent(rec)) =>
        objs := objs + [rec];
      case Done(NotSent(msg)) =>
        errors := errors + [msg];
    }
  }

  /** The articles of `issue_to_eschol` after the cover: each sent in turn, its record
      or message collected, until one raises. */
  method SendAll(store: Store, issue: Issue, pending: seq<Pending>, env: Env, errors0: seq<string>)
    returns (objs: seq<EscholArticle>, errors: seq<string>)
    modifies store
    ensures var b := SendArticles(Batch([], errors0, old(store.records), [], old(store.nextToken), old(store.remoteUrls), false), issue, pending,
                                  SendInBatch(env));
      objs == b.objs && errors == b.errors && store.records == b.records && store.remoteUrls == b.remoteUrls
      && store.tokens == old(store.tokens) + b.rows && store.nextToken == b.next
  {
    objs, errors := [], errors0;
    ghost var send := SendInBatch(env);
    ghost var t0 := store.tokens;
    ghost var b0 := Batch([], errors0, store.records, [], store.nextToken, store.remoteUrls, false);
    ghost var b := b0;
    var i := 0;
    while i < |pending|
      invariant 0 <= i <= |pending|
      invariant b == SendArticles(b0, issue, pending[..i], send)
      invariant !b.stopped && objs == b.objs && errors == b.errors
      invariant store.records == b.records && store.remoteUrls == b.remoteUrls
      invariant store.tokens == t0 + b.rows && store.nextToken == b.next
    {
      SendArticlesNext(b0, issue, pending, send, i);
      var stopped;
      SendInBatchApply(env, pending[i], b);
      objs, errors, stopped := SendNext(store, issue, pending[i], env, objs, errors, b, t0);
      b := SendInto(b, issue, send(pending[i], b));
      if stopped {
        StoppedStays(b0, issue, pending, send, i + 1, |pending|);
        assert pending[..|pending|] == pending;
        return;
      }
      i := i + 1;
    }
    assert pending[..i] == pending;
  }

  /** `issue_to_eschol`: sends the cover and then each article, collecting records and
      messages; it returns whatever happens. */
  method IssueToEschol(store: Store, issue: Issue, pending: seq<Pending>, env: Env, shown: string,
                       cover: CoverResponse)
    returns (objs: seq<EscholArticle>, errors: seq<string>)
    modifies store
    ensures var b := IssueToEscholOf(issue, pending, old(store.records), old(store.remoteUrls), env, old(store.nextToken), shown, cover);
      objs == b.objs && errors == b.errors && store.records == b.records && store.remoteUrls == b.remoteUrls
      && store.tokens == old(store.tokens) + b.rows && store.nextToken == b.next
  {
    var meta := SendIssueMeta(issue, env.configured, shown, cover);
    if meta.Raised? {
      return [], [UnexpectedMsg(issue, meta.msg)];
    }
    objs, errors := SendAll(store, issue, pending, env, if meta.value.success then [] else [meta.value.msg]);
  }

  /** `article_to_eschol`: `send_article`, with any exception turned into a message. */
  method ArticleToEschol(store: Store, a: Article, env: Env, response: DepositResponse) returns (outcome: SendOutcome)
    modifies store
    ensures var s := SendArticleOf(a, old(store.records), old(store.remoteUrls), env, old(store.nextToken), response);
      outcome == (if s.result.Raised? then NotSent(ArticleUnexpectedMsg(a, s.result.msg)) else s.result.value)
      && store.records == s.records && store.remoteUrls == s.remoteUrls
      && store.tokens == old(store.tokens) + s.rows && store.nextToken == old(store.nextToken) + |s.rows|
  {
    var result, _ := SendArticle(store, a, env, response);
    if result.Raised? {
      outcome := NotSent(ArticleUnexpectedMsg(a, result.msg));
    } else {
      outcome := result.value;
    }
  }

  function ArticleUnexpectedMsg(a: Article, e: string): string
  {
    "An unexpected error occured when sending " + a.display + " to eScholarship: " + e
  }
}
