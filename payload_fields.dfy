/** What each key of the current connector's deposit payload holds, stated about
    `ArticleJson` in terms of the article it was built from (logic.py,
    `get_article_json`). */
module PayloadFields {
  import opened Wrappers
  import opened Text
  import opened Records
  import opened Models
  import opened Normalize
  import opened Storage
  import opened Entries
  import opened Assembler

  /** A payload that was built is the base item of the article with the content fields
      of the article's content. */
  lemma ArticleJsonDone(a: Article, unit: string, records: map<nat, EscholArticle>, env: Env, k: nat)
    ensures var s := ArticleJson(a, unit, records, env, k);
      s.result.Done? ==>
        a.owner.Some? && a.datePublished.Some?
        && ArticleContent(a, RecordOf(records, a), env, k).result.Done?
        && s.result.value == WithContent(BaseItem(a, unit, RecordOf(records, a)), ArticleContent(a, RecordOf(records, a), env, k).result.value)
  {
  }

  /** The keys that are always sent: the submitter is the owner's e-mail address, the
      item is the journal's article published on its publication date and deposited
      into `unit`, with constant type, version and relation. */
  lemma ArticleJsonRequired(a: Article, unit: string, records: map<nat, EscholArticle>, env: Env, k: nat)
    ensures var s := ArticleJson(a, unit, records, env, k);
      s.result.Done? ==>
        var p := s.result.value;
        a.owner == Some(p.submitterEmail) && a.datePublished == Some(p.published)
        && p.datePublished == a.datePublished && p.title == a.title
        && p.sourceURL == a.journal.pressDomain && p.journal == a.journal.name && p.units == [unit]
        && p.isPeerReviewed == a.peerReviewed
        && p.itemType == "ARTICLE" && p.contentVersion == "PUBLISHER_VERSION" && p.pubRelation == "EXTERNAL_PUB"
  {
    ArticleJsonDone(a, unit, records, env, k);
  }

  /** The payload names the article's source: the one its `EscholArticle` records when
      that names one, with the recorded id (printed "None" when missing), and
      "janeway" with the article key otherwise. */
  lemma ArticleJsonSource(a: Article, unit: string, records: map<nat, EscholArticle>, env: Env, k: nat)
    ensures var s := ArticleJson(a, unit, records, env, k);
      s.result.Done? ==>
        var p := s.result.value;
        if a.pk in records && Present(records[a.pk].sourceName)
        then p.sourceName == records[a.pk].sourceName.value && p.sourceID == PyStr(records[a.pk].sourceId)
        else p.sourceName == "janeway" && p.sourceID == NatToDecimal(a.pk)
  {
    ArticleJsonDone(a, unit, records, env, k);
  }

  /** The optional scalar keys are sent exactly when the article's value is truthy,
      and then hold that value; the ISSN is also withheld when it is "0000-0000". */
  lemma ArticleJsonOptional(a: Article, unit: string, records: map<nat, EscholArticle>, env: Env, k: nat)
    ensures var s := ArticleJson(a, unit, records, env, k);
      s.result.Done? ==>
        var p := s.result.value;
        (p.summary.Some? <==> Present(a.summary)) && (p.summary.Some? ==> p.summary == a.summary)
        && (p.dateSubmitted.Some? <==> Present(a.dateSubmitted)) && (p.dateSubmitted.Some? ==> p.dateSubmitted == a.dateSubmitted)
        && (p.dateAccepted.Some? <==> Present(a.dateAccepted)) && (p.dateAccepted.Some? ==> p.dateAccepted == a.dateAccepted)
        && (p.customCitation.Some? <==> Present(a.customHowToCite)) && (p.customCitation.Some? ==> p.customCitation == a.customHowToCite)
        && (p.language.Some? <==> Present(a.language)) && (p.language.Some? ==> p.language == a.language)
        && (p.publisher.Some? <==> Present(a.publisherName)) && (p.publisher.Some? ==> p.publisher == a.publisherName)
        && (p.fpage.Some? <==> PresentNumber(a.firstPage))
        && (p.fpage.Some? ==> a.firstPage.Some? && p.fpage.value == NatToDecimal(a.firstPage.value))
        && (p.lpage.Some? <==> PresentNumber(a.lastPage))
        && (p.lpage.Some? ==> a.lastPage.Some? && p.lpage.value == NatToDecimal(a.lastPage.value))
        && (p.issn.Some? <==> Present(a.journal.issn) && a.journal.issn.value != "0000-0000")
        && (p.issn.Some? ==> p.issn == a.journal.issn)
  {
    ArticleJsonDone(a, unit, records, env, k);
  }

  /** `rights` is sent exactly when the licence URL, with or without a final "/", is one
      of the six accepted licences, and then it is the URL with the final "/". */
  lemma ArticleJsonRights(a: Article, unit: string, records: map<nat, EscholArticle>, env: Env, k: nat)
    ensures var s := ArticleJson(a, unit, records, env, k);
      s.result.Done? ==>
        var p := s.result.value;
        (p.rights.Some? <==> a.license.Some? && (a.license.value in ValidRights || a.license.value + "/" in ValidRights))
        && (p.rights.Some? ==> a.license.Some? && p.rights.value == WithTrailingSlash(a.license.value) && p.rights.value in ValidRights)
  {
    ArticleJsonDone(a, unit, records, env, k);
    if a.license.Some? {
      RightsAccepted(a.license.value);
    }
  }

  /** The section header is the plural name for a section with more than one article
      and a plural, and the section's name otherwise; it is absent without a section. */
  lemma ArticleJsonSectionHeader(a: Article, unit: string, records: map<nat, EscholArticle>, env: Env, k: nat)
    ensures var s := ArticleJson(a, unit, records, env, k);
      s.result.Done? ==>
        var p := s.result.value;
        (p.sectionHeader.Some? <==> a.section.Some?)
        && (a.section.Some? && Present(a.section.value.plural) && a.section.value.articleCount > 1 ==>
              p.sectionHeader == a.section.value.plural)
        && (a.section.Some? && !(Present(a.section.value.plural) && a.section.value.articleCount > 1) ==>
              p.sectionHeader == Some(a.section.value.name))
  {
    ArticleJsonDone(a, unit, records, env, k);
  }

  /** The issue keys are sent exactly when the article has an issue. While the article's
      position has at most four digits, `orderInSection` is ten thousand per section
      position plus the article position, each position being the stored order plus one
      or 1 without an ordering row. */
  lemma ArticleJsonIssue(a: Article, unit: string, records: map<nat, EscholArticle>, env: Env, k: nat)
    ensures var s := ArticleJson(a, unit, records, env, k);
      s.result.Done? ==>
        var p := s.result.value;
        (p.issueFields.Some? <==> a.issue.Some?)
        && (p.issueFields.Some? ==>
              a.issue.Some?
              && p.issueFields.value.volume == IntText(a.issue.value.volume)
              && p.issueFields.value.issue == a.issue.value.number
              && p.issueFields.value.issueTitle == a.issue.value.title
              && p.issueFields.value.issueDate == a.issue.value.date
              && (p.issueFields.value.issueDescription.Some? <==> Present(a.issue.value.description))
              && (p.issueFields.value.issueCoverCaption.Some? <==> Present(a.issue.value.shortDescription)))
        && (p.issueFields.Some? && (a.articleOrder.None? || a.articleOrder.value < 9999) ==>
              p.issueFields.value.orderInSection
                == (if a.sectionOrder.Some? then a.sectionOrder.value + 1 else 1) * 10000
                   + (if a.articleOrder.Some? then a.articleOrder.value + 1 else 1))
  {
    ArticleJsonDone(a, unit, records, env, k);
    if a.articleOrder.None? || a.articleOrder.value < 9999 {
      OrderInSectionValue(OrderPosition(a.sectionOrder), OrderPosition(a.articleOrder));
    }
  }

  /** `localIDs` is always sent: one entry per platform identifier, in order, followed
      by the synthetic "janeway_<pk>" entry. */
  lemma ArticleJsonLocalIds(a: Article, unit: string, records: map<nat, EscholArticle>, env: Env, k: nat)
    ensures var s := ArticleJson(a, unit, records, env, k);
      s.result.Done? ==>
        var p := s.result.value;
        p.localIDs.Some? && |p.localIDs.value| == |a.identifiers| + 1
        && p.localIDs.value[|a.identifiers|] == LocalId("janeway_" + NatToDecimal(a.pk), "OTHER_ID", Some("other"))
        && forall i :: 0 <= i < |a.identifiers| ==> p.localIDs.value[i] == LocalIdOf(a.identifiers[i])
  {
    ArticleJsonDone(a, unit, records, env, k);
    var ids := LocalIds(a);
    forall i | 0 <= i < |a.identifiers|
      ensures ids[i] == LocalIdOf(a.identifiers[i])
    {
      NativeLocalIdsEach(a.identifiers, i);
    }
  }

  /** Keywords are sent exactly when some keyword is non-empty, and then they are
      exactly the non-empty keywords. */
  lemma ArticleJsonKeywords(a: Article, unit: string, records: map<nat, EscholArticle>, env: Env, k: nat)
    ensures var s := ArticleJson(a, unit, records, env, k);
      s.result.Done? ==>
        var p := s.result.value;
        (p.keywords.Some? <==> exists i :: 0 <= i < |a.keywords| && a.keywords[i] != "")
        && (p.keywords.Some? ==> forall w :: w in p.keywords.value <==> w in a.keywords && w != "")
  {
    ArticleJsonDone(a, unit, records, env, k);
    KeywordsKept(a.keywords);
  }

  /** The kept keyword list is present exactly when some keyword is non-empty, and
      holds exactly the non-empty ones. */
  lemma KeywordsKept(words: seq<string>)
    ensures NonEmpty(NonEmptyWords(words)).Some? <==> exists i :: 0 <= i < |words| && words[i] != ""
    ensures forall w :: w in NonEmptyWords(words) <==> w in words && w != ""
  {
    var kept := NonEmptyWords(words);
    forall w ensures w in kept <==> w in words && w != "" {
      NonEmptyWordsMembers(words, w);
    }
    if |kept| > 0 {
      assert kept[0] in kept;
    }
  }

  /** Authors and grants are sent exactly when there are some: one entry per frozen
      author and one grant per funder with its FundRef id, in order. */
  lemma ArticleJsonPeople(a: Article, unit: string, records: map<nat, EscholArticle>, env: Env, k: nat)
    ensures var s := ArticleJson(a, unit, records, env, k);
      s.result.Done? ==>
        var p := s.result.value;
        (p.authors.Some? <==> |a.authors| > 0)
        && (p.authors.Some? ==>
              |p.authors.value| == |a.authors|
              && forall i :: 0 <= i < |a.authors| ==> p.authors.value[i] == AuthorEntryOf(a.authors[i]))
        && (p.grants.Some? <==> |a.funders| > 0)
        && (p.grants.Some? ==>
              |p.grants.value| == |a.funders|
              && forall i :: 0 <= i < |a.funders| ==> p.grants.value[i] == Grant(a.funders[i].name, a.funders[i].fundrefId))
  {
    ArticleJsonDone(a, unit, records, env, k);
    forall i | 0 <= i < |a.authors|
      ensures AuthorEntries(a.authors)[i] == AuthorEntryOf(a.authors[i])
    {
      AuthorEntriesEach(a.authors, i);
    }
    forall i | 0 <= i < |a.funders|
      ensures Grants(a.funders, FundrefId)[i] == Grant(a.funders[i].name, a.funders[i].fundrefId)
    {
      GrantsEach(a.funders, FundrefId, i);
    }
  }

  /** `dataAvailability` is the code of the first recognised "Data Availability"
      answer; `dataURL` is the first "Data URL" answer, sent only with "publicRepo". */
  lemma ArticleJsonDataAvailability(a: Article, unit: string, records: map<nat, EscholArticle>, env: Env, k: nat)
    ensures var s := ArticleJson(a, unit, records, env, k);
      s.result.Done? ==>
        var p := s.result.value;
        var urls := AnswersTo(a.fieldAnswers, "Data URL");
        p.dataAvailability == FirstDataCode(AnswersTo(a.fieldAnswers, "Data Availability"))
        && (p.dataURL.Some? <==> p.dataAvailability == Some("publicRepo") && |urls| > 0)
        && (p.dataURL.Some? ==> |urls| > 0 && p.dataURL.value == urls[0])
  {
    ArticleJsonDone(a, unit, records, env, k);
    DataURLRule(a.fieldAnswers);
  }
}
