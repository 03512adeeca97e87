/** Sending articles and issues with the legacy connector (eschol/logic.py,
    `send_article`, `issue_to_eschol` and `article_to_eschol`). Unlike the current
    connector it checks nothing before building the payload, turns every exception of
    one article into that article's message, returns one message per call rather than
    records and errors, and lets a non-integer issue number escape. The repository API
    is not called: its answer to each request is an input. */
module LegacyDeposit {
  import opened Wrappers
  import opened Text
  import opened Records
  import opened Models
  import opened Normalize
  import opened Storage
  import opened Assembler
  import opened Deposit
  import opened LegacyAssembler

  // ---------------------------------------------------------------------------
  // Sending one article

  /** What the legacy `send_article` returns: a text; the "errors" value of the API's
      answer as it came; or, unconfigured, the item that would have been posted
      (`str(item)`, represented by the item itself). */
  datatype LegacyMessage = Plain(text: string) | ErrorsValue(errors: string) | ItemShown(item: LegacyPayload)

  /** What one legacy `send_article` did: its message, the records and remote addresses
      afterwards, the token rows created, and the item posted when one was posted. */
  datatype LegacySendStep = LegacySendStep(
    msg: LegacyMessage,
    records: map<nat, EscholArticle>,
    rows: seq<TokenRow>,
    remoteUrls: map<nat, string>,
    posted: Option<LegacyPayload>)

  function LegacyUnexpectedMsg(a: Article): string
  {
    "An unexpected error occured when sending Article " + NatToDecimal(a.pk) + " to eScholarship"
  }

  /** The item sent: the payload, with the record's ark as `id` when there is a record. */
  function LegacyWithId(item: LegacyPayload, epub: Option<EscholArticle>): LegacyPayload
  {
    if epub.Some? then item.(id := Some(epub.value.ark)) else item
  }

  /** The legacy reading of the API's answer to the posted item: on "data" the message
      is the answer's message and id, and the record (the existing one, or a new one
      with the returned id as its ark) is stored and the article marked remote; on
      "errors" the message is their value; a null "data" or "depositItem" gives the text
      of the `TypeError`; JSON with neither key gives the text of the `KeyError`; text
      that is not JSON gives a fixed message. */
  function LegacyAnswer(a: Article, response: DepositResponse, epub: Option<EscholArticle>, records: map<nat, EscholArticle>,
                        rows: seq<TokenRow>, remoteUrls: map<nat, string>, item: LegacyPayload, env: Env): LegacySendStep
  {
    match response
    case DepositData(id, message) =>
      var rec := if epub.Some? then epub.value else EscholArticle(RefOf(a), id, false, None, None, None);
      LegacySendStep(Plain(message + ": " + id), records[a.pk := rec], rows, remoteUrls[a.pk := EscholUrl(env.jscholUrl, rec.ark)], Some(item))
    case DepositErrors(errors) => LegacySendStep(ErrorsValue(errors), records, rows, remoteUrls, Some(item))
    case DepositDataNull => LegacySendStep(Plain(NullSubscript), records, rows, remoteUrls, Some(item))
    case DepositNeither => LegacySendStep(Plain(MissingErrorsKey), records, rows, remoteUrls, Some(item))
    case DepositNotJson => LegacySendStep(Plain(LegacyUnexpectedMsg(a)), records, rows, remoteUrls, Some(item))
  }

  /** The legacy `send_article` once `get_article_json` has done `j`: an exception from
      the build becomes the message; unconfigured the item is shown and nothing posted;
      otherwise the item is posted and the answer read. The record found or made by the
      build is stored either way. */
  function LegacyDeliver(a: Article, j: LegacyJsonStep, records: map<nat, EscholArticle>, remoteUrls: map<nat, string>, env: Env,
                         response: DepositResponse): LegacySendStep
  {
    var after := RecordsAfter(records, a, j.epub);
    match j.result
    case Raised(msg) => LegacySendStep(Plain(msg), after, j.rows, remoteUrls, None)
    case Done(payload) =>
      var item := LegacyWithId(payload, j.epub);
      if !env.configured then LegacySendStep(ItemShown(item), after, j.rows, remoteUrls, None)
      else LegacyAnswer(a, response, j.epub, after, j.rows, remoteUrls, item, env)
  }

  /** The legacy `send_article` on an article whose stored records and remote addresses
      are given, with tokens drawn from `k` and the API answering `response`. */
  function LegacySendArticleOf(a: Article, records: map<nat, EscholArticle>, remoteUrls: map<nat, string>, env: Env, k: nat,
                               response: DepositResponse): LegacySendStep
  {
    LegacyDeliver(a, LegacyArticleJson(a, GetUnit(a.journal), records, env, k), records, remoteUrls, env, response)
  }

  /** The legacy reading of the API's answer to the posted `item`. */
  method LegacyRead(store: Store, a: Article, env: Env, response: DepositResponse, epub: Option<EscholArticle>,
                    item: LegacyPayload, ghost rows: seq<TokenRow>)
    returns (msg: LegacyMessage)
    modifies store
    ensures var s := LegacyAnswer(a, response, epub, old(store.records), rows, old(store.remoteUrls), item, env);
      msg == s.msg && store.records == s.records && store.remoteUrls == s.remoteUrls
    ensures store.tokens == old(store.tokens) && store.nextToken == old(store.nextToken)
  {
    match response {
      case DepositData(id, message) =>
        var rec: EscholArticle;
        if epub.Some? {
          rec := epub.value;
        } else {
          rec := EscholArticle(RefOf(a), id, false, None, None, None);
        }
        store.records := store.records[a.pk := rec];
        store.remoteUrls := store.remoteUrls[a.pk := EscholUrl(env.jscholUrl, rec.ark)];
        msg := Plain(message + ": " + id);
      case DepositErrors(errors) =>
        msg := ErrorsValue(errors);
      case DepositDataNull =>
        msg := Plain(NullSubscript);
      case DepositNeither =>
        msg := Plain(MissingErrorsKey);
      case DepositNotJson =>
        msg := Plain(LegacyUnexpectedMsg(a));
    }
  }

  /** The posting half of the legacy `send_article`, after the payload described by `j`
      was built and its record stored. */
  method LegacyPost(store: Store, a: Article, env: Env, response: DepositResponse, json: Outcome<LegacyPayload>,
                    epub: Option<EscholArticle>, ghost j: LegacyJsonStep, ghost records: map<nat, EscholArticle>)
    returns (msg: LegacyMessage, posted: Option<LegacyPayload>)
    requires json == j.result && epub == j.epub && store.records == RecordsAfter(records, a, epub)
    modifies store
    ensures msg == LegacyDeliver(a, j, records, old(store.remoteUrls), env, response).msg
    ensures posted == LegacyDeliver(a, j, records, old(store.remoteUrls), env, response).posted
    ensures store.records == LegacyDeliver(a, j, records, old(store.remoteUrls), env, response).records
    ensures store.remoteUrls == LegacyDeliver(a, j, records, old(store.remoteUrls), env, response).remoteUrls
    ensures store.tokens == old(store.tokens) && store.nextToken == old(store.nextToken)
  {
    if json.Raised? {
      return Plain(json.msg), None;
    }
    var item := LegacyWithId(json.value, epub);
    if !env.configured {
      return ItemShown(item), None;
    }
    posted := Some(item);
    msg := LegacyRead(store, a, env, response, epub, item, j.rows);
  }

  /** The legacy `send_article`: builds the payload with no check beforehand and, when
      the API is configured, posts it and reads the answer. */
  method LegacySendArticle(store: Store, a: Article, env: Env, response: DepositResponse)
    returns (msg: LegacyMessage, posted: Option<LegacyPayload>)
    modifies store
    ensures var s := LegacySendArticleOf(a, old(store.records), old(store.remoteUrls), env, old(store.nextToken), response);
      msg == s.msg && posted == s.posted && store.records == s.records && store.remoteUrls == s.remoteUrls
      && store.tokens == old(store.tokens) + s.rows && store.nextToken == old(store.nextToken) + |s.rows|
  {
    ghost var records := store.records;
    ghost var j := LegacyArticleJson(a, GetUnit(a.journal), store.records, env, store.nextToken);
    var json, epub := LegacyGetArticleJson(store, a, GetUnit(a.journal), env);
    msg, posted := LegacyPost(store, a, env, response, json, epub, j, records);
  }

  /** Once the payload is built: a failed build gives its exception's text and posts
      nothing; unconfigured, the message is the item itself, carrying the record's ark
      when there is a record; configured, that same item is posted, and the message is
      the answer's message and id on "data", the "errors" value on "errors", and a
      text otherwise. Only "data" stores a record (the existing one or one holding the
      returned id) and changes the remote addresses. */
  lemma LegacyDeliverOutcome(a: Article, j: LegacyJsonStep, records: map<nat, EscholArticle>, remoteUrls: map<nat, string>,
                             env: Env, response: DepositResponse)
    ensures var s := LegacyDeliver(a, j, records, remoteUrls, env, response);
      var deposited := j.result.Done? && env.configured && response.DepositData?;
      s.rows == j.rows
      && (j.result.Raised? ==> s.msg == Plain(j.result.msg) && s.posted.None?)
      && (s.msg.ItemShown? <==> j.result.Done? && !env.configured)
      && (s.posted.Some? <==> j.result.Done? && env.configured)
      && (s.msg.ItemShown? ==> s.msg.item == LegacyWithId(j.result.value, j.epub))
      && (s.posted.Some? ==> s.posted.value == LegacyWithId(j.result.value, j.epub))
      && (s.msg.ErrorsValue? <==> j.result.Done? && env.configured && response.DepositErrors?)
      && (s.msg.ErrorsValue? ==> s.msg.errors == response.errors)
      && (deposited ==>
            var rec := if j.epub.Some? then j.epub.value else EscholArticle(RefOf(a), response.id, false, None, None, None);
            s.msg == Plain(response.message + ": " + response.id)
            && s.records == RecordsAfter(records, a, j.epub)[a.pk := rec]
            && s.remoteUrls == remoteUrls[a.pk := EscholUrl(env.jscholUrl, rec.ark)])
      && (!deposited ==> s.records == RecordsAfter(records, a, j.epub) && s.remoteUrls == remoteUrls)
  {
  }

  /** The item shown or posted carries the ark of the article's record when there is
      one, and the payload's own `id` otherwise. */
  lemma LegacyItemId(item: LegacyPayload, epub: Option<EscholArticle>)
    ensures LegacyWithId(item, epub).id == if epub.Some? then Some(epub.value.ark) else item.id
    ensures LegacyWithId(item, epub).(id := item.id) == item
  {
  }

  /** The legacy `send_article` never fails: every exception of the build becomes the
      message. It deposits exactly when the payload builds, the API is configured and
      it answers with "data"; unlike the current connector it does so for an
      unpublished article too, which the current connector refuses without building
      anything. */
  lemma LegacySendArticleOutcome(a: Article, records: map<nat, EscholArticle>, remoteUrls: map<nat, string>, env: Env, k: nat,
                                 response: DepositResponse)
    ensures var s := LegacySendArticleOf(a, records, remoteUrls, env, k, response);
      var j := LegacyArticleJson(a, GetUnit(a.journal), records, env, k);
      (j.result.Raised? ==> s.msg == Plain(j.result.msg) && s.posted.None? && s.remoteUrls == remoteUrls)
      && (s.remoteUrls != remoteUrls ==> j.result.Done? && env.configured && response.DepositData?)
      && (j.result.Done? && env.configured && response.DepositData? ==>
            a.pk in s.records && s.remoteUrls == remoteUrls[a.pk := EscholUrl(env.jscholUrl, s.records[a.pk].ark)])
      && (!a.isPublished && j.result.Done? && env.configured && response.DepositData? ==>
            SendArticleOf(a, records, remoteUrls, env, k, response) == SendStep(Done(NotSent(NotPublishedMsg(a))), records, [], remoteUrls, None))
  {
    var j := LegacyArticleJson(a, GetUnit(a.journal), records, env, k);
    LegacyDeliverOutcome(a, j, records, remoteUrls, env, response);
  }

  /** Without API configuration nothing is posted and no article is marked remote;
      a payload that builds is returned as the message. */
  lemma LegacySendUnconfigured(a: Article, records: map<nat, EscholArticle>, remoteUrls: map<nat, string>, env: Env, k: nat,
                               response: DepositResponse)
    requires !env.configured
    ensures var s := LegacySendArticleOf(a, records, remoteUrls, env, k, response);
      var j := LegacyArticleJson(a, GetUnit(a.journal), records, env, k);
      s.posted.None? && s.remoteUrls == remoteUrls
      && (j.result.Done? ==> s.msg == ItemShown(LegacyWithId(j.result.value, j.epub)))
  {
    LegacyDeliverOutcome(a, LegacyArticleJson(a, GetUnit(a.journal), records, env, k), records, remoteUrls, env, response);
  }

  // ---------------------------------------------------------------------------
  // Sending an issue

  /** The messages collected so far, the stored records, the token rows created and the
      position of the next token, and the remote addresses. */
  datatype LegacyBatch = LegacyBatch(
    msgs: seq<LegacyMessage>,
    records: map<nat, EscholArticle>,
    rows: seq<TokenRow>,
    next: nat,
    remoteUrls: map<nat, string>)

  /** How one article of a legacy batch is sent. */
  type LegacySender = (Pending, LegacyBatch) -> LegacySendStep

  /** The batch after one more article whose sending did `s`: its message is appended. */
  function LegacySendInto(b: LegacyBatch, s: LegacySendStep): LegacyBatch
  {
    LegacyBatch(b.msgs + [s.msg], s.records, b.rows + s.rows, b.next + |s.rows|, s.remoteUrls)
  }

  /** Every article sent in order by `send`; nothing stops the batch. */
  function SendEach(b0: LegacyBatch, pending: seq<Pending>, send: LegacySender): LegacyBatch
  {
    if |pending| == 0 then b0
    else
      var n := |pending| - 1;
      var b := SendEach(b0, pending[..n], send);
      LegacySendInto(b, send(pending[n], b))
  }

  /** The legacy `send_article` inside a batch, drawing tokens from its next position. */
  function LegacySendInBatch(env: Env): LegacySender
  {
    (p: Pending, b: LegacyBatch) => LegacySendArticleOf(p.article, b.records, b.remoteUrls, env, b.next, p.response)
  }

  /** Inside a batch, an article is sent as the legacy `send_article` sends it alone. */
  lemma LegacySendInBatchApply(env: Env, p: Pending, b: LegacyBatch)
    ensures LegacySendInBatch(env)(p, b) == LegacySendArticleOf(p.article, b.records, b.remoteUrls, env, b.next, p.response)
  {
  }

  /** The text of the `ValueError` of `int(s)`, with `s` between plain quotes. */
  function InvalidLiteralMsg(s: string): string
  {
    "invalid literal for int() with base 10: '" + s + "'"
  }

  /** The cover part of the legacy `issue_to_eschol`: nothing without a cover image; a
      non-integer issue number raises; otherwise one message, the API's answer text
      when configured and the printed variables (`shown`) when not. */
  function CoverMessages(issue: Issue, configured: bool, shown: string, coverText: string): Outcome<seq<LegacyMessage>>
  {
    if !Present(issue.coverImageUrl) then Done([])
    else if ParseInt(issue.number).None? then Raised(InvalidLiteralMsg(issue.number))
    else Done([Plain(if configured then coverText else shown)])
  }

  /** The legacy `issue_to_eschol` for an issue whose sorted articles, each with its
      answer, are `pending`: the cover message first, then one message per article.
      A `ValueError` from the issue number is not caught. */
  function LegacyIssueToEscholOf(issue: Issue, pending: seq<Pending>, records: map<nat, EscholArticle>, remoteUrls: map<nat, string>,
                                 env: Env, k: nat, shown: string, coverText: string): Outcome<LegacyBatch>
  {
    LegacyAfterCover(CoverMessages(issue, env.configured, shown, coverText), pending, records, remoteUrls, k, LegacySendInBatch(env))
  }

  /** The batch once the cover part gave `cover`, the articles sent by `send`. */
  function LegacyAfterCover(cover: Outcome<seq<LegacyMessage>>, pending: seq<Pending>, records: map<nat, EscholArticle>,
                            remoteUrls: map<nat, string>, k: nat, send: LegacySender): Outcome<LegacyBatch>
  {
    match cover
    case Raised(e) => Raised(e)
    case Done(m) => Done(SendEach(LegacyBatch(m, records, [], k, remoteUrls), pending, send))
  }

  /** An exception of the cover part is passed on before any article is sent;
      otherwise the cover's messages come first and each article adds one more. */
  lemma LegacyCoverFirst(cover: Outcome<seq<LegacyMessage>>, pending: seq<Pending>, records: map<nat, EscholArticle>,
                         remoteUrls: map<nat, string>, k: nat, send: LegacySender)
    ensures var r := LegacyAfterCover(cover, pending, records, remoteUrls, k, send);
      (r.Raised? <==> cover.Raised?) && (r.Raised? ==> r.msg == cover.msg)
      && (r.Done? ==>
            |r.value.msgs| == |cover.value| + |pending| && r.value.msgs[..|cover.value|] == cover.value
            && r.value.next == k + |r.value.rows|)
  {
    if cover.Done? {
      SendEachCounts(LegacyBatch(cover.value, records, [], k, remoteUrls), pending, send);
    }
  }

  /** One more article appends its sending to the batch. */
  lemma SendEachNext(b0: LegacyBatch, pending: seq<Pending>, send: LegacySender, i: nat)
    requires i < |pending|
    ensures var b := SendEach(b0, pending[..i], send);
      SendEach(b0, pending[..i + 1], send) == LegacySendInto(b, send(pending[i], b))
  {
    assert pending[..i + 1][..i] == pending[..i];
  }

  /** The batch keeps the messages it started with and adds one per article; its
      tokens follow one another. */
  lemma {:induction false} SendEachCounts(b0: LegacyBatch, pending: seq<Pending>, send: LegacySender)
    ensures var b := SendEach(b0, pending, send);
      |b.msgs| == |b0.msgs| + |pending| && b.msgs[..|b0.msgs|] == b0.msgs
      && |b.rows| >= |b0.rows| && b.next == b0.next + (|b.rows| - |b0.rows|)
  {
    if |pending| > 0 {
      SendEachCounts(b0, pending[..|pending| - 1], send);
    }
  }

  /** The messages appended are, in order, those of each article as sent after the
      ones before it. */
  lemma {:induction false} SendEachMessages(b0: LegacyBatch, pending: seq<Pending>, send: LegacySender)
    ensures var b := SendEach(b0, pending, send);
      |b.msgs| == |b0.msgs| + |pending|
      && forall i :: 0 <= i < |pending| ==>
           b.msgs[|b0.msgs| + i] == send(pending[i], SendEach(b0, pending[..i], send)).msg
  {
    if |pending| > 0 {
      var n := |pending| - 1;
      var init := pending[..n];
      SendEachMessages(b0, init, send);
      var bi := SendEach(b0, init, send);
      var b := SendEach(b0, pending, send);
      assert b.msgs == bi.msgs + [send(pending[n], bi).msg];
      forall i | 0 <= i < |pending|
        ensures b.msgs[|b0.msgs| + i] == send(pending[i], SendEach(b0, pending[..i], send)).msg
      {
        if i < n {
          assert init[i] == pending[i] && init[..i] == pending[..i];
        } else {
          assert pending[..i] == init;
        }
      }
    }
  }

  /** Unconfigured, a batch marks no article remote. */
  lemma {:induction false} SendEachUnconfigured(b0: LegacyBatch, pending: seq<Pending>, env: Env)
    requires !env.configured
    ensures SendEach(b0, pending, LegacySendInBatch(env)).remoteUrls == b0.remoteUrls
  {
    if |pending| > 0 {
      var n := |pending| - 1;
      SendEachUnconfigured(b0, pending[..n], env);
      var b := SendEach(b0, pending[..n], LegacySendInBatch(env));
      LegacySendUnconfigured(pending[n].article, b.records, b.remoteUrls, env, b.next, pending[n].response);
    }
  }

  /** The legacy issue deposit raises exactly when the issue has a cover image and its
      number is not an integer, before any article is sent. Otherwise it returns one
      message per article after the cover's message (present exactly when there is a
      cover image), each article's message being what sending it after the previous
      ones gave; unconfigured, no article is marked remote. */
  lemma LegacyIssueOutcome(issue: Issue, pending: seq<Pending>, records: map<nat, EscholArticle>, remoteUrls: map<nat, string>,
                           env: Env, k: nat, shown: string, coverText: string)
    ensures var r := LegacyIssueToEscholOf(issue, pending, records, remoteUrls, env, k, shown, coverText);
      var c := if Present(issue.coverImageUrl) then 1 else 0;
      (r.Raised? <==> Present(issue.coverImageUrl) && ParseInt(issue.number).None?)
      && (r.Raised? ==> r.msg == InvalidLiteralMsg(issue.number))
      && (r.Done? ==>
            |r.value.msgs| == c + |pending|
            && (c == 1 ==> r.value.msgs[0] == Plain(if env.configured then coverText else shown))
            && r.value.next == k + |r.value.rows|
            && (!env.configured ==> r.value.remoteUrls == remoteUrls))
  {
    var m := CoverMessages(issue, env.configured, shown, coverText);
    LegacyCoverFirst(m, pending, records, remoteUrls, k, LegacySendInBatch(env));
    if m.Done? {
      var r := LegacyAfterCover(m, pending, records, remoteUrls, k, LegacySendInBatch(env));
      if Present(issue.coverImageUrl) {
        assert r.value.msgs[0] == r.value.msgs[..1][0];
      }
      if !env.configured {
        SendEachUnconfigured(LegacyBatch(m.value, records, [], k, remoteUrls), pending, env);
      }
    }
  }

  /** The issue number of an issue with a cover image that is the printed form of an
      integer never raises. */
  lemma LegacyIssueNumberAccepted(issue: Issue, n: int, configured: bool, shown: string, coverText: string)
    requires Present(issue.coverImageUrl) && issue.number == IntText(n)
    ensures CoverMessages(issue, configured, shown, coverText) == Done([Plain(if configured then coverText else shown)])
  {
    ParseIntRoundTrip(n);
  }

  /** One article of the legacy `issue_to_eschol`: sends it and appends its message. */
  method LegacySendNext(store: Store, p: Pending, env: Env, msgs0: seq<LegacyMessage>, ghost b: LegacyBatch, ghost t0: seq<TokenRow>)
    returns (msgs: seq<LegacyMessage>)
    requires msgs0 == b.msgs && store.records == b.records && store.remoteUrls == b.remoteUrls
    requires store.tokens == t0 + b.rows && store.nextToken == b.next
    modifies store
    ensures var b' := LegacySendInto(b, LegacySendArticleOf(p.article, b.records, b.remoteUrls, env, b.next, p.response));
      msgs == b'.msgs && store.records == b'.records && store.remoteUrls == b'.remoteUrls
      && store.tokens == t0 + b'.rows && store.nextToken == b'.next
  {
    ghost var s := LegacySendArticleOf(p.article, b.records, b.remoteUrls, env, b.next, p.response);
    var msg, _ := LegacySendArticle(store, p.article, env, p.response);
    AppendAssoc(t0, b.rows, s.rows);
    msgs := msgs0 + [msg];
  }

  /** The legacy `issue_to_eschol`: the cover message, then each article's message. */
  method LegacyIssueToEschol(store: Store, issue: Issue, pending: seq<Pending>, env: Env, shown: string, coverText: string)
    returns (result: Outcome<seq<LegacyMessage>>)
    modifies store
    ensures var r := LegacyIssueToEscholOf(issue, pending, old(store.records), old(store.remoteUrls), env, old(store.nextToken), shown, coverText);
      (result.Raised? <==> r.Raised?)
      && (r.Raised? ==> result.msg == r.msg && unchanged(store))
      && (r.Done? ==>
            result.value == r.value.msgs && store.records == r.value.records && store.remoteUrls == r.value.remoteUrls
            && store.tokens == old(store.tokens) + r.value.rows && store.nextToken == r.value.next)
  {
    var cover := CoverMessages(issue, env.configured, shown, coverText);
    if cover.Raised? {
      return Raised(cover.msg);
    }
    var msgs := cover.value;
    ghost var send := LegacySendInBatch(env);
    ghost var t0 := store.tokens;
    ghost var b0 := LegacyBatch(msgs, store.records, [], store.nextToken, store.remoteUrls);
    ghost var b := b0;
    var i := 0;
    while i < |pending|
      invariant 0 <= i <= |pending|
      invariant b == SendEach(b0, pending[..i], send)
      invariant msgs == b.msgs && store.records == b.records && store.remoteUrls == b.remoteUrls
      invariant store.tokens == t0 + b.rows && store.nextToken == b.next
    {
      SendEachNext(b0, pending, send, i);
      msgs := LegacySendNext(store, pending[i], env, msgs, b, t0);
      b := LegacySendInto(b, send(pending[i], b));
      i := i + 1;
    }
    assert pending[..i] == pending;
    result := Done(msgs);
  }

  /** The legacy `article_to_eschol`: the one message of `send_article`. */
  method LegacyArticleToEschol(store: Store, a: Article, env: Env, response: DepositResponse) returns (msgs: seq<LegacyMessage>)
    modifies store
    ensures var s := LegacySendArticleOf(a, old(store.records), old(store.remoteUrls), env, old(store.nextToken), response);
      msgs == [s.msg] && store.records == s.records && store.remoteUrls == s.remoteUrls
      && store.tokens == old(store.tokens) + s.rows && store.nextToken == old(store.nextToken) + |s.rows|
  {
    var msg, _ := LegacySendArticle(store, a, env, response);
    msgs := [msg];
  }
}
