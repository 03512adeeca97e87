/** The plugin's stored records (models.py): the external-article record that
    carries an article's ark, the file-access token, and the two publication-history
    ledgers, with the helpers defined on them. */
module Models {
  import opened Wrappers
  import opened Text

  /** The prefix under which the repository mints arks. */
  const ArkPrefix: string := "ark:/13030/"

  /** What the records need of the article they point at: its key, its `str()`
      and the code of its journal. */
  datatype ArticleRef = ArticleRef(pk: nat, display: string, journalCode: string)

  /** `EscholArticle`: the association of an article with its ark. */
  datatype EscholArticle = EscholArticle(
    article: ArticleRef,
    ark: string,
    isDoiRegistered: bool,
    doiResultText: Option<string>,
    sourceName: Option<string>,
    sourceId: Option<string>)

  /** `EscholArticle.__str__`: "<article>: <ark>". */
  function EscholArticleText(e: EscholArticle): (r: string)
    ensures StartsWith(r, e.article.display + ": ")
    ensures EndsWith(r, ": " + e.ark)
  {
    var r := e.article.display + ": " + e.ark;
    assert r[..|e.article.display + ": "|] == e.article.display + ": ";
    assert r[|r| - |": " + e.ark|..] == ": " + e.ark;
    r
  }

  /** `JournalUnit.__str__`: "<journal>: <unit>". */
  function JournalUnitText(journalLabel: string, unit: string): (r: string)
    ensures StartsWith(r, journalLabel + ": ")
    ensures EndsWith(r, ": " + unit)
  {
    var r := journalLabel + ": " + unit;
    assert r[..|journalLabel + ": "|] == journalLabel + ": ";
    assert r[|r| - |": " + unit|..] == ": " + unit;
    r
  }

  /** `get_short_ark`: the last eight characters of the ark's final "/"-separated segment. */
  function ShortArk(ark: string): (r: string)
    ensures '/' !in r
    ensures EndsWith(LastSegment(ark, '/'), r)
    ensures |r| == Min(|LastSegment(ark, '/')|, 8)
  {
    var segment := LastSegment(ark, '/');
    var r := TakeLast(segment, 8);
    assert forall i :: 0 <= i < |r| ==> r[i] == segment[|segment| - |r| + i];
    r
  }

  /** `get_eschol_url`: the public item page, `JSCHOL_URL + "uc/item/" + short ark`. */
  function EscholUrl(jscholUrl: string, ark: string): (r: string)
    ensures StartsWith(r, jscholUrl + "uc/item/")
    ensures EndsWith(r, ShortArk(ark))
  {
    var r := jscholUrl + "uc/item/" + ShortArk(ark);
    assert r[..|jscholUrl + "uc/item/"|] == jscholUrl + "uc/item/";
    assert r[|r| - |ShortArk(ark)|..] == ShortArk(ark);
    r
  }

  /** For an ark of the repository's usual shape, "ark:/13030/qt" followed by eight
      characters, the final segment is "qt" + those characters and the short ark is
      the eight characters, so the item page ends with them. */
  lemma {:induction false} CanonicalArkParts(x: string, jscholUrl: string)
    requires |x| == 8 && '/' !in x
    ensures LastSegment(ArkPrefix + "qt" + x, '/') == "qt" + x
    ensures ShortArk(ArkPrefix + "qt" + x) == x
    ensures EscholUrl(jscholUrl, ArkPrefix + "qt" + x) == jscholUrl + "uc/item/" + x
  {
    var t := "qt" + x;
    assert '/' !in t by {
      forall i | 0 <= i < |t| ensures t[i] != '/' {
        if i >= 2 { assert t[i] == x[i - 2]; }
      }
    }
    assert ArkPrefix + "qt" + x == "ark:/13030" + ['/'] + t;
    LastSegmentAfterSeparator("ark:/13030", '/', t);
    assert TakeLast(t, 8) == t[2..] == x;
  }

  // ---------------------------------------------------------------------------
  // has_doi_error

  /** The outcome of evaluating a Python boolean expression that may raise. */
  datatype Evaluation = Returns(b: bool) | RaisesTypeError

  /** `has_doi_error` as written: `not (registered and ("success" in text or not text))`.
      Python evaluates `"success" in text` first, so a registered record whose result
      text is null raises instead of answering. */
  function HasDoiErrorAsWritten(e: EscholArticle): (r: Evaluation)
    ensures r == RaisesTypeError <==> e.isDoiRegistered && e.doiResultText.None?
    ensures !e.isDoiRegistered ==> r == Returns(true)
    ensures r.Returns? && !r.b ==> e.isDoiRegistered && e.doiResultText.Some?
  {
    if !e.isDoiRegistered then Returns(true)
    else if e.doiResultText.None? then RaisesTypeError
    else Returns(!(Contains(e.doiResultText.value, "success") || e.doiResultText.value == ""))
  }

  /** `has_doi_error` with the emptiness test first, as the `or not text` branch intends:
      a record has a DOI error unless its DOI is registered and the registration result
      is absent, empty or mentions "success". */
  function HasDoiError(e: EscholArticle): (r: bool)
    ensures !e.isDoiRegistered ==> r
    ensures e.isDoiRegistered && !Present(e.doiResultText) ==> !r
    ensures Present(e.doiResultText) ==>
      (r <==> !e.isDoiRegistered || !exists i: nat :: OccursAt(e.doiResultText.value, "success", i))
  {
    !(e.isDoiRegistered && (!Present(e.doiResultText) || Contains(e.doiResultText.value, "success")))
  }

  /** Wherever the expression as written answers, it answers as the corrected one. */
  lemma HasDoiErrorAgrees(e: EscholArticle)
    requires HasDoiErrorAsWritten(e).Returns?
    ensures HasDoiErrorAsWritten(e).b == HasDoiError(e)
  {
  }

  /** The records that the ark import creates with a DOI are registered and carry no
      result text: on them the expression as written raises and the corrected one
      reports no error. */
  lemma HasDoiErrorOnImportedRecord(article: ArticleRef, ark: string, source: Option<string>)
    ensures HasDoiErrorAsWritten(EscholArticle(article, ark, true, None, source, None)) == RaisesTypeError
    ensures !HasDoiError(EscholArticle(article, ark, true, None, source, None))
  {
  }

  // ---------------------------------------------------------------------------
  // AccessToken

  /** A stored `AccessToken` row: a token granting access to one file of one article,
      dated by the day it was issued (a `DateField`, so whole days). */
  datatype TokenRow = TokenRow(token: string, date: int, articleId: nat, fileId: nat)

  /** The text of the `k`-th generated token. The connector draws random URL-safe
      text; all the model needs is that different draws differ, so the `k`-th draw is
      `k + 1` characters long. */
  function TokenText(k: nat): (r: string)
    ensures |r| == k + 1
  {
    if k == 0 then "a" else TokenText(k - 1) + "a"
  }

  lemma TokenTextInjective(j: nat, k: nat)
    requires TokenText(j) == TokenText(k)
    ensures j == k
  {
  }

  /** The `AccessToken` model object. */
  class AccessToken {
    var token: string
    var date: int
    var articleId: nat
    var fileId: nat

    /** `AccessToken.objects.create(article_id=..., file_id=...)`: the token is empty
        until one is generated; the date is set on creation. */
    constructor Create(articleId: nat, fileId: nat, today: int)
      ensures token == "" && date == today
      ensures this.articleId == articleId && this.fileId == fileId
    {
      this.token := "";
      this.date := today;
      this.articleId := articleId;
      this.fileId := fileId;
    }

    /** `generate_token`: replaces the token and nothing else. */
    method GenerateToken(newToken: string)
      modifies this`token
      ensures token == newToken
      ensures date == old(date) && articleId == old(articleId) && fileId == old(fileId)
    {
      token := newToken;
    }

    /** The row that `save()` writes. */
    function Row(): (r: TokenRow)
      reads this
      ensures r.token == token && r.date == date && r.articleId == articleId && r.fileId == fileId
    {
      TokenRow(token, date, articleId, fileId)
    }
  }

  // ---------------------------------------------------------------------------
  // Publication history

  /** `ArticlePublicationHistory`; `issuePub` is the `str()` of the enclosing issue batch's
      issue when the attempt was part of one. */
  datatype ArticlePublicationHistory = ArticlePublicationHistory(
    articleLabel: string,
    date: string,
    success: bool,
    result: Option<string>,
    issuePub: Option<string>)

  function SuccessWord(success: bool): string
  {
    if success then "successful" else "failed"
  }

  /** `ArticlePublicationHistory.__str__`. */
  function ArticleHistoryText(h: ArticlePublicationHistory): (r: string)
    ensures StartsWith(r, h.articleLabel + " publication " + SuccessWord(h.success) + " on " + h.date)
    ensures h.issuePub.Some? ==> EndsWith(r, " with " + h.issuePub.value)
    ensures h.issuePub.None? ==> EndsWith(r, " on " + h.date)
  {
    var head := h.articleLabel + " publication " + SuccessWord(h.success) + " on " + h.date;
    var r := if h.issuePub.Some? then head + " with " + h.issuePub.value else head;
    assert r[..|head|] == head;
    assert h.issuePub.Some? ==> r[|r| - |" with " + h.issuePub.value|..] == " with " + h.issuePub.value;
    assert head[|head| - |" on " + h.date|..] == " on " + h.date;
    r
  }

  /** `IssuePublicationHistory`. models.py declares no completion flag; `isComplete` is
      the flag that the guard of `publish_issue_task` in views.py filters on, which the
      corrected task reads. */
  datatype IssuePublicationHistory = IssuePublicationHistory(
    issueLabel: string,
    date: string,
    success: bool,
    isComplete: bool,
    result: Option<string>,
    children: seq<ArticlePublicationHistory>)

  /** The number of successful attempts among `children`. */
  function SuccessCount(children: seq<ArticlePublicationHistory>): (k: nat)
    ensures k <= |children|
    ensures k == |children| <==> forall i :: 0 <= i < |children| ==> children[i].success
    ensures k == 0 <==> forall i :: 0 <= i < |children| ==> !children[i].success
  {
    if |children| == 0 then 0
    else
      var rest := SuccessCount(children[1..]);
      assert forall i :: 1 <= i < |children| ==> children[i] == children[1..][i - 1];
      (if children[0].success then 1 else 0) + rest
  }

  /** `articlepublicationhistory_set.filter(success=True)`: the successful children,
      in order. */
  function Successful(children: seq<ArticlePublicationHistory>): (r: seq<ArticlePublicationHistory>)
    ensures |r| <= |children|
    ensures forall i :: 0 <= i < |r| ==> r[i].success && r[i] in children
  {
    if |children| == 0 then []
    else (if children[0].success then [children[0]] else []) + Successful(children[1..])
  }

  /** `IssuePublicationHistory.__str__`: "... <k> of <n> articles published.", where k
      is the size of the successful children's query and n the number of children. */
  function IssueHistoryText(h: IssuePublicationHistory): (r: string)
    ensures StartsWith(r, h.issueLabel + " publication " + SuccessWord(h.success) + " on " + h.date + ": ")
    ensures EndsWith(r, NatToDecimal(|Successful(h.children)|) + " of " + NatToDecimal(|h.children|) + " articles published.")
  {
    var head := h.issueLabel + " publication " + SuccessWord(h.success) + " on " + h.date + ": ";
    var tail := NatToDecimal(|Successful(h.children)|) + " of " + NatToDecimal(|h.children|) + " articles published.";
    var r := head + tail;
    assert r[..|head|] == head;
    assert r[|r| - |tail|..] == tail;
    r
  }

  /** The query counts the successful attempts. */
  lemma {:induction false} SuccessfulCount(children: seq<ArticlePublicationHistory>)
    ensures |Successful(children)| == SuccessCount(children)
  {
    if |children| > 0 {
      SuccessfulCount(children[1..]);
    }
  }

  /** The issue summary reports the successful attempts as k: at most the number n of
      attempts, equal to it exactly when every attempt succeeded, and 0 exactly when
      none did. */
  lemma IssueSummaryCounts(h: IssuePublicationHistory)
    ensures var k := SuccessCount(h.children);
      EndsWith(IssueHistoryText(h), NatToDecimal(k) + " of " + NatToDecimal(|h.children|) + " articles published.")
      && k <= |h.children|
      && (k == |h.children| <==> forall i :: 0 <= i < |h.children| ==> h.children[i].success)
      && (k == 0 <==> forall i :: 0 <= i < |h.children| ==> !h.children[i].success)
  {
    SuccessfulCount(h.children);
  }
}
