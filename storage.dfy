/** The tables the connector writes while it builds and sends deposits: the
    `EscholArticle` records (at most one per article here, although the database
    allows more), the `AccessToken` table, and
    the remote address an article is given once deposited. Token values are drawn
    from a counter, so each call hands out a new one. */
module Storage {
  import opened Wrappers
  import opened Text
  import opened Models

  /** What the surroundings supply to a deposit: the journal's address prefix under
      which the download route lives, today's day number, whether the repository API
      is configured, the ark the API mints for an article when asked for a provisional
      one, the key the HTML file generated for an article receives when saved, the
      platform's PDF mime types, and the public site of the repository. */
  datatype Env = Env(
    siteUrl: string,
    today: int,
    configured: bool,
    mintedArk: nat -> string,
    htmlFilePk: nat -> nat,
    pdfMimeTypes: set<string>,
    jscholUrl: string)

  /** A download address of one file of one article with its access token, kept as its
      parts; `FileLink` renders it. */
  datatype Download = Download(articlePk: nat, fileId: nat, token: string)

  /** The text of a download address under the journal's site. */
  function FileLink(siteUrl: string, d: Download): (r: string)
    ensures EndsWith(r, "/?access=" + d.token)
    ensures StartsWith(r, siteUrl + "download/" + NatToDecimal(d.articlePk) + "/file/" + NatToDecimal(d.fileId))
  {
    var head := siteUrl + "download/" + NatToDecimal(d.articlePk) + "/file/" + NatToDecimal(d.fileId);
    var r := head + "/?access=" + d.token;
    assert r[..|head|] == head;
    assert r[|r| - |"/?access=" + d.token|..] == "/?access=" + d.token;
    r
  }

  /** The address handed out with the `k`-th token. */
  function Link(articlePk: nat, fileId: nat, k: nat): Download
  {
    Download(articlePk, fileId, TokenText(k))
  }

  /** The token row stored with the `k`-th token. */
  function IssuedRow(env: Env, articlePk: nat, fileId: nat, k: nat): TokenRow
  {
    TokenRow(TokenText(k), env.today, articlePk, fileId)
  }

  /** `rows` hold a token row that opens `d` (same token, article and file), dated `date`. */
  predicate TokenFor(rows: seq<TokenRow>, d: Download, date: int)
  {
    TokenRow(d.token, date, d.articlePk, d.fileId) in rows
  }

  /** Appending rows in two steps appends them in one. */
  lemma AppendAssoc<T>(a: seq<T>, b: seq<T>, c: seq<T>)
    ensures a + b + c == a + (b + c)
  {
  }

  /** A value together with the token rows created while producing it. */
  datatype Issued<+T> = Issued(value: T, rows: seq<TokenRow>)

  /** No token of `rows` is a draw numbered `next` or later. */
  ghost predicate Drawn(rows: seq<TokenRow>, next: nat)
  {
    forall i, j :: 0 <= i < |rows| && next <= j ==> rows[i].token != TokenText(j)
  }

  /** Appending the row of the `k`-th draw to a table holding only earlier draws keeps
      the table's tokens drawn before the counter's next value, and the new token
      belongs to the new row alone: no earlier row carries it. */
  lemma IssuedTokenFresh(rows: seq<TokenRow>, env: Env, articlePk: nat, fileId: nat, k: nat)
    requires Drawn(rows, k)
    ensures Drawn(rows + [IssuedRow(env, articlePk, fileId, k)], k + 1)
    ensures forall i :: 0 <= i < |rows| ==> rows[i].token != TokenText(k)
  {
    var rows' := rows + [IssuedRow(env, articlePk, fileId, k)];
    forall i, j | 0 <= i < |rows'| && k + 1 <= j
      ensures rows'[i].token != TokenText(j)
    {
      if i < |rows| {
        assert rows'[i] == rows[i];
      } else if TokenText(k) == TokenText(j) {
        TokenTextInjective(k, j);
      }
    }
  }

  class Store {
    /** `EscholArticle` rows, keyed by the article they belong to. */
    var records: map<nat, EscholArticle>
    /** The `AccessToken` table. */
    var tokens: seq<TokenRow>
    /** The counter the next token is drawn from. */
    var nextToken: nat
    /** `remote_url` of the articles marked remote. */
    var remoteUrls: map<nat, string>

    /** Every stored token was drawn from the counter before its current value. */
    ghost predicate TokensDrawn()
      reads this
    {
      Drawn(tokens, nextToken)
    }

    constructor (records: map<nat, EscholArticle>, tokens: seq<TokenRow>, nextToken: nat, remoteUrls: map<nat, string>)
      ensures this.records == records && this.tokens == tokens
      ensures this.nextToken == nextToken && this.remoteUrls == remoteUrls
    {
      this.records := records;
      this.tokens := tokens;
      this.nextToken := nextToken;
      this.remoteUrls := remoteUrls;
    }

    /** `get_file_url`: creates an `AccessToken` for the file, generates its token and
        returns the download address that carries it (whose text is `FileLink`). */
    method FileUrl(env: Env, articlePk: nat, fileId: nat) returns (link: Download)
      modifies this
      ensures link == Link(articlePk, fileId, old(nextToken))
      ensures tokens == old(tokens) + [IssuedRow(env, articlePk, fileId, old(nextToken))]
      ensures nextToken == old(nextToken) + 1
      ensures records == old(records) && remoteUrls == old(remoteUrls)
      ensures old(TokensDrawn()) ==> TokensDrawn()
      ensures old(TokensDrawn()) ==> forall i :: 0 <= i < |old(tokens)| ==> old(tokens)[i].token != link.token
    {
      if TokensDrawn() {
        IssuedTokenFresh(tokens, env, articlePk, fileId, nextToken);
      }
      var t := new AccessToken.Create(articlePk, fileId, env.today);
      t.GenerateToken(TokenText(nextToken));
      tokens := tokens + [t.Row()];
      link := Link(articlePk, fileId, nextToken);
      nextToken := nextToken + 1;
    }
  }
}
