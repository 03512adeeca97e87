/** The list-valued parts of a deposit payload that both assemblers build the same
    way: authors, grants, supplementary files and linked files (images and style
    sheets). Entries that point at a stored file carry a download link with a new
    access token, so building them adds rows to the token table. */
module Entries {
  import opened Wrappers
  import opened Text
  import opened Records
  import opened Models
  import opened Storage

  // ---------------------------------------------------------------------------
  // Authors and grants

  /** `nameParts`: first and last name always (possibly null); institution and middle
      name only when non-empty. */
  datatype NameParts = NameParts(fname: Option<string>, lname: Option<string>, institution: Option<string>, mname: Option<string>)

  /** One author of the payload; `email` and `orcid` only when non-empty. */
  datatype AuthorEntry = AuthorEntry(nameParts: NameParts, email: Option<string>, orcid: Option<string>)

  /** One grant: the funder's name and its reference (possibly null). */
  datatype Grant = Grant(name: string, reference: Option<string>)

  /** A nullable text kept only when it is non-empty. */
  function IfPresent(o: Option<string>): (r: Option<string>)
    ensures r.Some? <==> Present(o)
    ensures r.Some? ==> r == o
  {
    if Present(o) then o else None
  }

  /** The payload entry of one frozen author. */
  function AuthorEntryOf(fa: Author): (r: AuthorEntry)
    ensures r.nameParts.fname == fa.firstName && r.nameParts.lname == fa.lastName
    ensures r.nameParts.institution.Some? <==> Present(fa.institution)
    ensures r.nameParts.mname.Some? <==> Present(fa.middleName)
    ensures r.email.Some? <==> Present(fa.email)
    ensures r.orcid.Some? <==> Present(fa.orcid)
    ensures r.nameParts.institution.Some? ==> r.nameParts.institution == fa.institution
    ensures r.nameParts.mname.Some? ==> r.nameParts.mname == fa.middleName
    ensures r.email.Some? ==> r.email == fa.email
    ensures r.orcid.Some? ==> r.orcid == fa.orcid
  {
    AuthorEntry(NameParts(fa.firstName, fa.lastName, IfPresent(fa.institution), IfPresent(fa.middleName)),
                IfPresent(fa.email), IfPresent(fa.orcid))
  }

  /** The entries of the frozen authors, one per author in order. */
  function AuthorEntries(authors: seq<Author>): (r: seq<AuthorEntry>)
    ensures |r| == |authors|
  {
    if |authors| == 0 then [] else AuthorEntries(authors[..|authors| - 1]) + [AuthorEntryOf(authors[|authors| - 1])]
  }

  /** The `i`-th entry is the `i`-th author's. */
  lemma {:induction false} AuthorEntriesEach(authors: seq<Author>, i: nat)
    requires i < |authors|
    ensures AuthorEntries(authors)[i] == AuthorEntryOf(authors[i])
  {
    var n := |authors| - 1;
    if i < n {
      AuthorEntriesEach(authors[..n], i);
    }
  }

  /** The loop over the frozen authors. */
  method CollectAuthors(authors: seq<Author>) returns (entries: seq<AuthorEntry>)
    ensures entries == AuthorEntries(authors)
  {
    entries := [];
    for i := 0 to |authors|
      invariant entries == AuthorEntries(authors[..i])
    {
      assert authors[..i + 1][..i] == authors[..i];
      entries := entries + [AuthorEntryOf(authors[i])];
    }
    assert authors[..|authors|] == authors;
  }

  /** One grant per funder in order, with the reference that `reference` picks from the
      funder. */
  function Grants(funders: seq<Funder>, reference: Funder -> Option<string>): (r: seq<Grant>)
    ensures |r| == |funders|
  {
    if |funders| == 0 then []
    else
      var n := |funders| - 1;
      Grants(funders[..n], reference) + [Grant(funders[n].name, reference(funders[n]))]
  }

  /** The `i`-th grant is the `i`-th funder's. */
  lemma {:induction false} GrantsEach(funders: seq<Funder>, reference: Funder -> Option<string>, i: nat)
    requires i < |funders|
    ensures Grants(funders, reference)[i] == Grant(funders[i].name, reference(funders[i]))
  {
    var n := |funders| - 1;
    if i < n {
      GrantsEach(funders[..n], reference, i);
    }
  }

  /** The loop over the funders. */
  method CollectGrants(funders: seq<Funder>, reference: Funder -> Option<string>) returns (grants: seq<Grant>)
    ensures grants == Grants(funders, reference)
  {
    grants := [];
    for i := 0 to |funders|
      invariant grants == Grants(funders[..i], reference)
    {
      assert funders[..i + 1][..i] == funders[..i];
      grants := grants + [Grant(funders[i].name, reference(funders[i]))];
    }
    assert funders[..|funders|] == funders;
  }

  /** A list kept only when it is non-empty (`if len(xs) > 0: item[key] = xs`). */
  function NonEmpty<T>(xs: seq<T>): (r: Option<seq<T>>)
    ensures r.Some? <==> |xs| > 0
    ensures r.Some? ==> r.value == xs
  {
    if |xs| > 0 then Some(xs) else None
  }

  // ---------------------------------------------------------------------------
  // Files

  /** One supplementary file of the payload. */
  datatype SuppFile = SuppFile(file: string, contentType: string, size: nat, fetchLink: Download, title: Option<string>)

  /** Where an image or style sheet is fetched from: its remote address, or a download
      address of the journal. */
  datatype Address = Remote(url: string) | Local(link: Download)

  /** An image or style sheet of the payload. */
  datatype LinkedFile = LinkedFile(file: string, fetchLink: Address)

  /** `get_supp_file_json` with the `k`-th token: the given name or the original one,
      the mime type, the size, the download link, and the title when one is given. */
  function SuppEntry(f: StoredFile, articlePk: nat, k: nat, name: Option<string>, title: Option<string>): (r: SuppFile)
  {
    SuppFile(if Present(name) then name.value else f.originalFilename, f.mimeType, f.size,
             Link(articlePk, f.pk, k), IfPresent(title))
  }

  /** The article's own supplementary files, the `i`-th with token `k + i`. */
  function ArticleSupp(files: seq<StoredFile>, env: Env, articlePk: nat, k: nat): (r: Issued<seq<SuppFile>>)
    ensures |r.value| == |files| && |r.rows| == |files|
  {
    if |files| == 0 then Issued([], [])
    else
      var n := |files| - 1;
      var prev := ArticleSupp(files[..n], env, articlePk, k);
      Issued(prev.value + [SuppEntry(files[n], articlePk, k + n, None, None)],
             prev.rows + [IssuedRow(env, articlePk, files[n].pk, k + n)])
  }

  /** The `i`-th file is listed under its own name with token `k + i`, and that token's
      row grants access to exactly that file. */
  lemma {:induction false} ArticleSuppEach(files: seq<StoredFile>, env: Env, articlePk: nat, k: nat, i: nat)
    requires i < |files|
    ensures ArticleSupp(files, env, articlePk, k).value[i] == SuppEntry(files[i], articlePk, k + i, None, None)
    ensures ArticleSupp(files, env, articlePk, k).rows[i] == IssuedRow(env, articlePk, files[i].pk, k + i)
  {
    var n := |files| - 1;
    if i < n {
      ArticleSuppEach(files[..n], env, articlePk, k, i);
    }
  }

  /** The loop over the article's supplementary files: one entry per file, and one
      token per entry added to the table. */
  method CollectArticleSupp(store: Store, env: Env, articlePk: nat, files: seq<StoredFile>)
    returns (supp: seq<SuppFile>)
    modifies store
    ensures supp == ArticleSupp(files, env, articlePk, old(store.nextToken)).value
    ensures store.tokens == old(store.tokens) + ArticleSupp(files, env, articlePk, old(store.nextToken)).rows
    ensures store.nextToken == old(store.nextToken) + |files|
    ensures store.records == old(store.records) && store.remoteUrls == old(store.remoteUrls)
  {
    var k := store.nextToken;
    supp := [];
    for i := 0 to |files|
      invariant supp == ArticleSupp(files[..i], env, articlePk, k).value
      invariant store.tokens == old(store.tokens) + ArticleSupp(files[..i], env, articlePk, k).rows
      invariant store.nextToken == k + i
      invariant store.records == old(store.records) && store.remoteUrls == old(store.remoteUrls)
    {
      assert files[..i + 1][..i] == files[..i];
      var link := store.FileUrl(env, articlePk, files[i].pk);
      supp := supp + [SuppFile(files[i].originalFilename, files[i].mimeType, files[i].size, link, None)];
    }
    assert files[..|files|] == files;
  }

  /** An image or style sheet: a remote file links to its remote address, a stored one
      to a download link with the `k`-th token. */
  function LinkedEntry(f: StoredFile, env: Env, articlePk: nat, k: nat): (r: Issued<LinkedFile>)
  {
    if f.isRemote then Issued(LinkedFile(f.originalFilename, Remote(f.remoteUrl)), [])
    else Issued(LinkedFile(f.originalFilename, Local(Link(articlePk, f.pk, k))), [IssuedRow(env, articlePk, f.pk, k)])
  }

  /** `{"file": ..., "fetchLink": remote_url if is_remote else get_file_url(...)}`. */
  method LinkFile(store: Store, env: Env, articlePk: nat, f: StoredFile) returns (entry: LinkedFile)
    modifies store
    ensures entry == LinkedEntry(f, env, articlePk, old(store.nextToken)).value
    ensures store.tokens == old(store.tokens) + LinkedEntry(f, env, articlePk, old(store.nextToken)).rows
    ensures store.nextToken == old(store.nextToken) + |LinkedEntry(f, env, articlePk, old(store.nextToken)).rows|
    ensures store.records == old(store.records) && store.remoteUrls == old(store.remoteUrls)
  {
    if f.isRemote {
      entry := LinkedFile(f.originalFilename, Remote(f.remoteUrl));
    } else {
      var link := store.FileUrl(env, articlePk, f.pk);
      entry := LinkedFile(f.originalFilename, Local(link));
    }
  }

  /** The galley's images in order; the stored ones draw consecutive tokens from `k`. */
  function Images(images: seq<StoredFile>, env: Env, articlePk: nat, k: nat): (r: Issued<seq<LinkedFile>>)
    ensures |r.value| == |images| && |r.rows| <= |images|
  {
    if |images| == 0 then Issued([], [])
    else
      var n := |images| - 1;
      var prev := Images(images[..n], env, articlePk, k);
      var last := LinkedEntry(images[n], env, articlePk, k + |prev.rows|);
      Issued(prev.value + [last.value], prev.rows + last.rows)
  }

  /** The `i`-th entry is named after the `i`-th image; a remote image links to its
      remote address, a stored one to a download address whose token has a row granting
      access to that image. */
  lemma {:induction false} ImagesEach(images: seq<StoredFile>, env: Env, articlePk: nat, k: nat, i: nat)
    requires i < |images|
    ensures Images(images, env, articlePk, k).value[i].file == images[i].originalFilename
    ensures images[i].isRemote ==> Images(images, env, articlePk, k).value[i].fetchLink == Remote(images[i].remoteUrl)
    ensures !images[i].isRemote ==>
      var link := Images(images, env, articlePk, k).value[i].fetchLink;
      link.Local? && link.link.articlePk == articlePk && link.link.fileId == images[i].pk
      && TokenRow(link.link.token, env.today, articlePk, images[i].pk) in Images(images, env, articlePk, k).rows
  {
    var n := |images| - 1;
    var prev := Images(images[..n], env, articlePk, k);
    if i < n {
      ImagesEach(images[..n], env, articlePk, k, i);
      assert images[..n][i] == images[i];
    }
  }

  /** The loop over the galley's images. */
  method CollectImages(store: Store, env: Env, articlePk: nat, images: seq<StoredFile>) returns (files: seq<LinkedFile>)
    modifies store
    ensures files == Images(images, env, articlePk, old(store.nextToken)).value
    ensures store.tokens == old(store.tokens) + Images(images, env, articlePk, old(store.nextToken)).rows
    ensures store.nextToken == old(store.nextToken) + |Images(images, env, articlePk, old(store.nextToken)).rows|
    ensures store.records == old(store.records) && store.remoteUrls == old(store.remoteUrls)
  {
    var k := store.nextToken;
    files := [];
    for i := 0 to |images|
      invariant files == Images(images[..i], env, articlePk, k).value
      invariant store.tokens == old(store.tokens) + Images(images[..i], env, articlePk, k).rows
      invariant store.nextToken == k + |Images(images[..i], env, articlePk, k).rows|
      invariant store.records == old(store.records) && store.remoteUrls == old(store.remoteUrls)
    {
      assert images[..i + 1][..i] == images[..i];
      var entry := LinkFile(store, env, articlePk, images[i]);
      files := files + [entry];
    }
    assert images[..|images|] == images;
  }

  // ---------------------------------------------------------------------------
  // Every download link comes with its token

  /** Each supplementary file links into article `articlePk` with a token that `rows`
      hold for that file, dated `date`. */
  predicate SuppLinked(s: seq<SuppFile>, articlePk: nat, rows: seq<TokenRow>, date: int)
  {
    forall i :: 0 <= i < |s| ==> s[i].fetchLink.articlePk == articlePk && TokenFor(rows, s[i].fetchLink, date)
  }

  /** A remote address, or a download link into article `articlePk` whose token `rows`
      hold, dated `date`. */
  predicate AddressLinked(a: Address, articlePk: nat, rows: seq<TokenRow>, date: int)
  {
    a.Local? ==> a.link.articlePk == articlePk && TokenFor(rows, a.link, date)
  }

  predicate FilesLinked(s: seq<LinkedFile>, articlePk: nat, rows: seq<TokenRow>, date: int)
  {
    forall i :: 0 <= i < |s| ==> AddressLinked(s[i].fetchLink, articlePk, rows, date)
  }

  /** Every file of the article's own list comes with its token row. */
  lemma ArticleSuppLinked(files: seq<StoredFile>, env: Env, articlePk: nat, k: nat)
    ensures SuppLinked(ArticleSupp(files, env, articlePk, k).value, articlePk, ArticleSupp(files, env, articlePk, k).rows, env.today)
  {
    var r := ArticleSupp(files, env, articlePk, k);
    forall i | 0 <= i < |r.value|
      ensures r.value[i].fetchLink.articlePk == articlePk && TokenFor(r.rows, r.value[i].fetchLink, env.today)
    {
      ArticleSuppEach(files, env, articlePk, k, i);
      assert r.rows[i] == TokenRow(r.value[i].fetchLink.token, env.today, articlePk, files[i].pk);
    }
  }

  /** Every stored image comes with its token row. */
  lemma ImagesLinked(images: seq<StoredFile>, env: Env, articlePk: nat, k: nat)
    ensures FilesLinked(Images(images, env, articlePk, k).value, articlePk, Images(images, env, articlePk, k).rows, env.today)
  {
    var r := Images(images, env, articlePk, k);
    forall i | 0 <= i < |r.value|
      ensures AddressLinked(r.value[i].fetchLink, articlePk, r.rows, env.today)
    {
      ImagesEach(images, env, articlePk, k, i);
    }
  }

  /** More token rows, before or after, keep every link open. */
  lemma SuppLinkedGrow(s: seq<SuppFile>, articlePk: nat, rows: seq<TokenRow>, more: seq<TokenRow>, date: int)
    requires SuppLinked(s, articlePk, rows, date)
    ensures SuppLinked(s, articlePk, rows + more, date) && SuppLinked(s, articlePk, more + rows, date)
  {
  }

  lemma FilesLinkedGrow(s: seq<LinkedFile>, articlePk: nat, rows: seq<TokenRow>, more: seq<TokenRow>, date: int)
    requires FilesLinked(s, articlePk, rows, date)
    ensures FilesLinked(s, articlePk, rows + more, date) && FilesLinked(s, articlePk, more + rows, date)
  {
  }
}
