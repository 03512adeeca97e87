/** The journal platform's records as the connector reads them: journals, issues,
    sections, articles with their authors, funders, galleys, files, survey answers
    and identifiers. They are read-only inputs; query results arrive already
    filtered and ordered the way the connector's queries ask for them. */
module Records {
  import opened Wrappers

  /** A journal, with the repository unit of its `JournalUnit` when it has one. */
  datatype Journal = Journal(
    display: string,
    name: string,
    code: string,
    issn: Option<string>,
    pressDomain: string,
    siteUrl: string,
    unit: Option<string>)

  /** A section; `articleCount` is `article_count()` and `publishedCount` is
      `published_articles().count()`. */
  datatype Section = Section(name: string, plural: Option<string>, articleCount: nat, publishedCount: nat)

  /** An issue. Its number is text in the platform, so it may fail to read as an integer. */
  datatype Issue = Issue(
    display: string,
    volume: int,
    number: string,
    title: string,
    date: string,
    description: Option<string>,
    shortDescription: Option<string>,
    coverImageUrl: Option<string>)

  /** A frozen author record. */
  datatype Author = Author(
    firstName: Option<string>,
    lastName: Option<string>,
    middleName: Option<string>,
    institution: Option<string>,
    email: Option<string>,
    orcid: Option<string>)

  datatype Funder = Funder(name: string, fundrefId: Option<string>, fundingId: Option<string>)

  /** A stored file: its key, original name, mime type, size on disk, and the remote
      address when it is hosted elsewhere. */
  datatype StoredFile = StoredFile(
    pk: nat,
    originalFilename: string,
    mimeType: string,
    size: nat,
    isRemote: bool,
    remoteUrl: string)

  /** A galley (rendering of an article), with the images and style sheet it uses. */
  datatype Galley = Galley(
    isPublic: bool,
    isRemote: bool,
    remoteFile: string,
    file: Option<StoredFile>,
    galleyType: string,
    images: seq<StoredFile>,
    cssFile: Option<StoredFile>)

  /** An answer to a custom submission field, such as "Data Availability". */
  datatype FieldAnswer = FieldAnswer(field: string, answer: string)

  datatype Identifier = Identifier(idType: string, identifier: string)

  /** An article. `owner` is the owner's e-mail address (absent without an owner);
      dates are already formatted as "%Y-%m-%d"; `sectionOrder` and `articleOrder`
      are the stored positions of its `SectionOrdering` and `ArticleOrdering` rows in its
      issue, when those rows exist; `galleys` are ordered by their sequence number and
      `pdfs` are its galleys of type PDF; `summary` is its abstract; `hasDoi` tells whether `get_doi()` finds one. */
  datatype Article = Article(
    pk: nat,
    display: string,
    journal: Journal,
    title: Option<string>,
    owner: Option<string>,
    isPublished: bool,
    datePublished: Option<string>,
    dateSubmitted: Option<string>,
    dateAccepted: Option<string>,
    peerReviewed: bool,
    summary: Option<string>,
    customHowToCite: Option<string>,
    firstPage: Option<nat>,
    lastPage: Option<nat>,
    language: Option<string>,
    section: Option<Section>,
    keywords: seq<string>,
    license: Option<string>,
    publisherName: Option<string>,
    fieldAnswers: seq<FieldAnswer>,
    issue: Option<Issue>,
    sectionOrder: Option<nat>,
    articleOrder: Option<nat>,
    authors: seq<Author>,
    funders: seq<Funder>,
    renderGalley: Option<Galley>,
    galleys: seq<Galley>,
    pdfs: seq<Galley>,
    supplementaryFiles: seq<StoredFile>,
    identifiers: seq<Identifier>,
    hasDoi: bool)

  /** Python truthiness of a nullable positive integer column. */
  predicate PresentNumber(o: Option<nat>)
  {
    o.Some? && o.value != 0
  }

  /** The answers to the survey field named `field`, in order. */
  function AnswersTo(answers: seq<FieldAnswer>, field: string): (r: seq<string>)
    ensures |r| <= |answers|
  {
    if |answers| == 0 then []
    else (if answers[0].field == field then [answers[0].answer] else []) + AnswersTo(answers[1..], field)
  }

  /** An answer is among those to `field` exactly when some answer to that field
      gives it. */
  lemma {:induction false} AnswersToMembers(answers: seq<FieldAnswer>, field: string, s: string)
    ensures s in AnswersTo(answers, field) <==>
      exists i :: 0 <= i < |answers| && answers[i].field == field && answers[i].answer == s
  {
    if |answers| > 0 {
      AnswersToMembers(answers[1..], field, s);
      if exists i :: 0 <= i < |answers[1..]| && answers[1..][i].field == field && answers[1..][i].answer == s {
        var i :| 0 <= i < |answers[1..]| && answers[1..][i].field == field && answers[1..][i].answer == s;
        assert answers[i + 1] == answers[1..][i];
      }
      if exists i :: 0 <= i < |answers| && answers[i].field == field && answers[i].answer == s {
        var i :| 0 <= i < |answers| && answers[i].field == field && answers[i].answer == s;
        if i > 0 {
          assert answers[1..][i - 1] == answers[i];
        }
      }
    }
  }

  /** Python's `list(filter(None, words))`: the non-empty keywords, in order. */
  function NonEmptyWords(words: seq<string>): (r: seq<string>)
    ensures |r| <= |words|
  {
    if |words| == 0 then []
    else (if words[0] != "" then [words[0]] else []) + NonEmptyWords(words[1..])
  }

  /** The kept keywords are exactly the non-empty ones. */
  lemma {:induction false} NonEmptyWordsMembers(words: seq<string>, w: string)
    ensures w in NonEmptyWords(words) <==> w in words && w != ""
  {
    if |words| > 0 {
      NonEmptyWordsMembers(words[1..], w);
      assert words == [words[0]] + words[1..];
    }
  }

  /** A query over an article's galleys: only public ones or all, only untyped ones or
      all, and only those whose file has one of the given mime types or all. */
  datatype GalleyQuery = GalleyQuery(publicOnly: bool, untypedOnly: bool, mimeTypes: Option<set<string>>)

  predicate Matches(q: GalleyQuery, g: Galley)
  {
    (q.publicOnly ==> g.isPublic)
    && (q.untypedOnly ==> g.galleyType == "")
    && (q.mimeTypes.Some? ==> g.file.Some? && g.file.value.mimeType in q.mimeTypes.value)
  }

  /** The galleys the query returns, in their order. */
  function Select(gs: seq<Galley>, q: GalleyQuery): (r: seq<Galley>)
    ensures |r| <= |gs|
  {
    if |gs| == 0 then []
    else (if Matches(q, gs[0]) then [gs[0]] else []) + Select(gs[1..], q)
  }

  /** The query returns exactly the matching galleys. */
  lemma {:induction false} SelectMembers(gs: seq<Galley>, q: GalleyQuery, g: Galley)
    ensures g in Select(gs, q) <==> g in gs && Matches(q, g)
  {
    if |gs| > 0 {
      SelectMembers(gs[1..], q, g);
      assert gs == [gs[0]] + gs[1..];
    }
  }

  /** The first galley the query returns (`[0]` of a non-empty result). */
  function FirstMatch(gs: seq<Galley>, q: GalleyQuery): Option<Galley>
  {
    if |gs| == 0 then None
    else if Matches(q, gs[0]) then Some(gs[0])
    else FirstMatch(gs[1..], q)
  }

  /** The first match is the matching galley at the smallest position, and there is
      none exactly when no galley matches. */
  lemma {:induction false} FirstMatchIsFirst(gs: seq<Galley>, q: GalleyQuery)
    ensures FirstMatch(gs, q).None? <==> forall i :: 0 <= i < |gs| ==> !Matches(q, gs[i])
    ensures FirstMatch(gs, q).Some? ==>
      exists i :: 0 <= i < |gs| && gs[i] == FirstMatch(gs, q).value && Matches(q, gs[i])
        && forall j :: 0 <= j < i ==> !Matches(q, gs[j])
  {
    if |gs| > 0 && !Matches(q, gs[0]) {
      FirstMatchIsFirst(gs[1..], q);
      if FirstMatch(gs, q).Some? {
        var i :| 0 <= i < |gs[1..]| && gs[1..][i] == FirstMatch(gs, q).value && Matches(q, gs[1..][i])
          && forall j :: 0 <= j < i ==> !Matches(q, gs[1..][j]);
        assert gs[i + 1] == gs[1..][i];
        forall j | 0 <= j < i + 1 ensures !Matches(q, gs[j]) {
          if j > 0 { assert gs[j] == gs[1..][j - 1]; }
        }
      } else {
        forall i | 0 <= i < |gs| ensures !Matches(q, gs[i]) {
          if i > 0 { assert gs[i] == gs[1..][i - 1]; }
        }
      }
    } else if |gs| > 0 {
      assert gs[0] == FirstMatch(gs, q).value;
    }
  }

  /** The first match is the head of the query's result. */
  lemma {:induction false} FirstMatchSelect(gs: seq<Galley>, q: GalleyQuery)
    ensures FirstMatch(gs, q).None? <==> |Select(gs, q)| == 0
    ensures FirstMatch(gs, q).Some? ==> FirstMatch(gs, q).value == Select(gs, q)[0]
  {
    if |gs| > 0 && !Matches(q, gs[0]) {
      FirstMatchSelect(gs[1..], q);
    }
  }
}
