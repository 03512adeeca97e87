/** The field rules that both deposit assemblers apply in the same way: licence
    normalisation against the Creative Commons allow-list, the data-availability
    vocabulary, the section heading, the sortable position of an article in its
    issue, native local identifiers, the unit a journal deposits into, and the file
    names derived from an ark. */
module Normalize {
  import opened Wrappers
  import opened Text
  import opened Records

  // ---------------------------------------------------------------------------
  // Rights

  /** The six Creative Commons 4.0 licences the repository accepts, each with a final "/". */
  const ValidRights: seq<string> := [
    "https://creativecommons.org/licenses/by/4.0/",
    "https://creativecommons.org/licenses/by-sa/4.0/",
    "https://creativecommons.org/licenses/by-nd/4.0/",
    "https://creativecommons.org/licenses/by-nc/4.0/",
    "https://creativecommons.org/licenses/by-nc-sa/4.0/",
    "https://creativecommons.org/licenses/by-nc-nd/4.0/"]

  /** The licence URL with a "/" appended when it does not already end with one. */
  function WithTrailingSlash(url: string): (r: string)
    ensures EndsWith(r, "/")
    ensures StartsWith(r, url)
    ensures |r| == |url| || |r| == |url| + 1
  {
    if EndsWith(url, "/") then url
    else
      var r := url + "/";
      assert r[..|url|] == url;
      assert r[|r| - 1..] == "/";
      r
  }

  /** Normalising twice is the same as normalising once. */
  lemma WithTrailingSlashIdempotent(url: string)
    ensures WithTrailingSlash(WithTrailingSlash(url)) == WithTrailingSlash(url)
  {
  }

  /** The `rights` value for an article's licence URL: the normalised URL when it is
      on the allow-list, nothing otherwise (also nothing without a licence). */
  function Rights(licence: Option<string>): (r: Option<string>)
    ensures r.Some? ==> licence.Some? && r.value in ValidRights
    ensures r.Some? ==> r.value == licence.value || r.value == licence.value + "/"
  {
    if licence.None? then None
    else
      var l := WithTrailingSlash(licence.value);
      if l in ValidRights then
        assert l == licence.value || l == licence.value + "/" by {
          if !EndsWith(licence.value, "/") {
            assert l == licence.value + "/";
          }
        }
        Some(l)
      else None
  }

  /** No allowed licence ends with "//", so a URL and the URL with "/" added cannot
      both be allowed. */
  lemma NoDoubleSlash(u: string)
    requires u in ValidRights
    ensures !EndsWith(u, "//")
  {
  }

  /** A licence is accepted exactly when its URL is on the allow-list written with or
      without the final "/", and it is then written with the "/". */
  lemma {:induction false} RightsAccepted(url: string)
    ensures Rights(Some(url)).Some? <==> (url in ValidRights || url + "/" in ValidRights)
    ensures url in ValidRights ==> Rights(Some(url)) == Some(url)
    ensures url + "/" in ValidRights ==> Rights(Some(url)) == Some(url + "/")
  {
    if url + "/" in ValidRights {
      var u := url + "/";
      if EndsWith(url, "/") {
        assert u[|u| - 2..] == "//" by {
          assert u[|u| - 2] == url[|url| - 1];
        }
        NoDoubleSlash(u);
        assert false;
      }
    }
    if url in ValidRights {
      assert url[|url| - 1..] == "/";
    }
  }

  // ---------------------------------------------------------------------------
  // Data availability

  /** The data-availability vocabulary: survey answer to repository code. */
  const DataCodes: map<string, string> := map[
    "Public repository" := "publicRepo",
    "Public repository: available after publication" := "publicRepoLater",
    "Supplemental files" := "suppFiles",
    "Within the manuscript" := "withinManuscript",
    "Available upon request" := "onRequest",
    "Managed by a third party" := "thirdParty",
    "Not available" := "notAvail"]

  /** The code of the first answer that belongs to the vocabulary. */
  function FirstDataCode(answers: seq<string>): (r: Option<string>)
  {
    if |answers| == 0 then None
    else if answers[0] in DataCodes then Some(DataCodes[answers[0]])
    else FirstDataCode(answers[1..])
  }

  /** `FirstDataCode` finds a code exactly when some answer is in the vocabulary, and
      then the code of the first such answer. */
  lemma {:induction false} FirstDataCodeIsFirstMatch(answers: seq<string>)
    ensures FirstDataCode(answers).None? <==> forall i :: 0 <= i < |answers| ==> answers[i] !in DataCodes
    ensures FirstDataCode(answers).Some? ==>
      exists i :: 0 <= i < |answers| && answers[i] in DataCodes
        && FirstDataCode(answers) == Some(DataCodes[answers[i]])
        && forall j :: 0 <= j < i ==> answers[j] !in DataCodes
  {
    if |answers| > 0 && answers[0] !in DataCodes {
      var rest := answers[1..];
      FirstDataCodeIsFirstMatch(rest);
      assert forall i :: 1 <= i < |answers| ==> answers[i] == rest[i - 1];
      if FirstDataCode(rest).Some? {
        var i :| 0 <= i < |rest| && rest[i] in DataCodes
          && FirstDataCode(rest) == Some(DataCodes[rest[i]])
          && forall j :: 0 <= j < i ==> rest[j] !in DataCodes;
        assert answers[i + 1] == rest[i];
        assert forall j :: 0 <= j < i + 1 ==> answers[j] !in DataCodes by {
          forall j | 0 <= j < i + 1 ensures answers[j] !in DataCodes {
            if j > 0 { assert answers[j] == rest[j - 1]; }
          }
        }
      }
    }
  }

  /** `convert_data_availability`: scans the answers and returns the code of the first
      one in the vocabulary, or nothing. */
  method ConvertDataAvailability(answers: seq<string>) returns (code: Option<string>)
    ensures code == FirstDataCode(answers)
    ensures code.Some? ==> code.value in DataCodes.Values
  {
    var i := 0;
    while i < |answers|
      invariant 0 <= i <= |answers|
      invariant FirstDataCode(answers) == FirstDataCode(answers[i..])
    {
      assert answers[i..][1..] == answers[i + 1..];
      if answers[i] in DataCodes {
        return Some(DataCodes[answers[i]]);
      }
      i := i + 1;
    }
    return None;
  }

  /** The two data-availability fields of the payload. */
  datatype DataFields = DataFields(dataAvailability: Option<string>, dataURL: Option<string>)

  /** `dataAvailability` is the first recognised "Data Availability" answer's code; only
      when that code is "publicRepo" is `dataURL` the first "Data URL" answer. */
  function DataAvailabilityFields(answers: seq<FieldAnswer>): (r: DataFields)
  {
    var code := FirstDataCode(AnswersTo(answers, "Data Availability"));
    var urls := AnswersTo(answers, "Data URL");
    if code.Some? && code.value == "publicRepo" && |urls| > 0 then DataFields(code, Some(urls[0]))
    else DataFields(code, None)
  }

  /** The data-availability part of `get_article_json`: the code of the "Data
      Availability" answers when there are any and one is recognised, and with the code
      "publicRepo" the first "Data URL" answer when there is one. */
  method ReadDataAvailability(answers: seq<FieldAnswer>) returns (r: DataFields)
    ensures r == DataAvailabilityFields(answers)
  {
    r := DataFields(None, None);
    var availability := AnswersTo(answers, "Data Availability");
    if |availability| > 0 {
      var code := ConvertDataAvailability(availability);
      if code.Some? {
        r := r.(dataAvailability := code);
        if code.value == "publicRepo" {
          var urls := AnswersTo(answers, "Data URL");
          if |urls| > 0 {
            r := r.(dataURL := Some(urls[0]));
          }
        }
      }
    }
  }

  /** A data URL is given only with the "publicRepo" code, and then whenever some answer
      to "Data URL" exists, as the first of them; the code is never empty. */
  lemma DataURLRule(answers: seq<FieldAnswer>)
    ensures DataAvailabilityFields(answers).dataURL.Some? <==>
      DataAvailabilityFields(answers).dataAvailability == Some("publicRepo") && |AnswersTo(answers, "Data URL")| > 0
    ensures DataAvailabilityFields(answers).dataURL.Some? ==>
      DataAvailabilityFields(answers).dataURL.value == AnswersTo(answers, "Data URL")[0]
    ensures DataAvailabilityFields(answers).dataAvailability.Some? ==>
      DataAvailabilityFields(answers).dataAvailability.value in DataCodes.Values
      && DataAvailabilityFields(answers).dataAvailability.value != ""
  {
    FirstDataCodeIsFirstMatch(AnswersTo(answers, "Data Availability"));
  }

  // ---------------------------------------------------------------------------
  // Section heading

  /** The section header: the plural name when one is set and `count` exceeds one,
      the name otherwise. */
  function SectionHeading(s: Section, count: nat): (h: string)
    ensures h == s.name || (s.plural.Some? && h == s.plural.value)
    ensures h != s.name ==> Present(s.plural) && count > 1
    ensures !Present(s.plural) || count <= 1 ==> h == s.name
    ensures Present(s.plural) && count > 1 ==> h == s.plural.value
  {
    if Present(s.plural) && count > 1 then s.plural.value else s.name
  }

  // ---------------------------------------------------------------------------
  // Position in the issue

  /** The position of an ordering row: its stored order plus one, or 1 without a row. */
  function OrderPosition(stored: Option<nat>): (p: nat)
    ensures p >= 1
    ensures stored.Some? ==> p == stored.value + 1
  {
    if stored.Some? then stored.value + 1 else 1
  }

  /** `int(str(sorder) + str(aorder).zfill(4))`. */
  function OrderInSection(sorder: nat, aorder: nat): nat
  {
    var s := NatToDecimal(sorder) + ZFill(NatToDecimal(aorder), 4);
    assert AllDigits(s) by { ZFillValue(NatToDecimal(aorder), 4); DecimalValueConcat(NatToDecimal(sorder), ZFill(NatToDecimal(aorder), 4)); }
    DecimalValue(s)
  }

  /** While the article position has at most four digits the encoding is arithmetic:
      ten thousand per section step plus the article position. */
  lemma OrderInSectionValue(sorder: nat, aorder: nat)
    requires aorder < 10000
    ensures OrderInSection(sorder, aorder) == sorder * 10000 + aorder
  {
    var a := NatToDecimal(aorder);
    assert Pow10(4) == 10000;
    DecimalLength(aorder, 4);
    ZFillValue(a, 4);
    DecimalValueConcat(NatToDecimal(sorder), ZFill(a, 4));
    DecimalRoundTrip(sorder);
    DecimalRoundTrip(aorder);
  }

  /** Within that range the encoding sorts by section position first and article
      position second, and different positions never collide. */
  lemma OrderInSectionSorts(s1: nat, a1: nat, s2: nat, a2: nat)
    requires a1 < 10000 && a2 < 10000
    ensures OrderInSection(s1, a1) < OrderInSection(s2, a2) <==> s1 < s2 || (s1 == s2 && a1 < a2)
    ensures OrderInSection(s1, a1) == OrderInSection(s2, a2) <==> s1 == s2 && a1 == a2
  {
    OrderInSectionValue(s1, a1);
    OrderInSectionValue(s2, a2);
  }

  /** Beyond four article digits the encoding is no longer injective: the first section's
      article 10001 and the eleventh section's first article share the value 110001. */
  lemma OrderInSectionCollides()
    ensures OrderInSection(1, 10001) == OrderInSection(11, 1) == 110001
  {
    OrderInSectionValue(11, 1);
    var a := NatToDecimal(10001);
    assert DecimalValue(a) == 10001 by { DecimalRoundTrip(10001); }
    assert |a| == 5 by {
      assert Pow10(5) == 100000;
      DecimalLength(10001, 5);
      assert a == NatToDecimal(1000) + [DigitChar(1)];
      assert NatToDecimal(1000) == NatToDecimal(100) + [DigitChar(0)];
      assert NatToDecimal(100) == NatToDecimal(10) + [DigitChar(0)];
      assert NatToDecimal(10) == NatToDecimal(1) + [DigitChar(0)];
    }
    assert ZFill(a, 4) == a;
    DecimalValueConcat(NatToDecimal(1), a);
    assert Pow10(5) == 100000;
    DecimalRoundTrip(1);
  }

  // ---------------------------------------------------------------------------
  // Local identifiers

  /** One entry of `localIDs`; `subScheme` is absent for DOIs. */
  datatype LocalId = LocalId(id: string, scheme: string, subScheme: Option<string>)

  /** A platform identifier as a local id: a "doi" is scheme "DOI", any other type is
      scheme "OTHER_ID" with the type as its sub-scheme. */
  function LocalIdOf(i: Identifier): (r: LocalId)
    ensures r.id == i.identifier
    ensures r.scheme == "DOI" <==> i.idType == "doi"
    ensures r.scheme == "OTHER_ID" <==> i.idType != "doi"
    ensures r.subScheme.None? <==> i.idType == "doi"
    ensures r.subScheme.Some? ==> r.subScheme.value == i.idType
  {
    if i.idType == "doi" then LocalId(i.identifier, "DOI", None)
    else LocalId(i.identifier, "OTHER_ID", Some(i.idType))
  }

  /** The native identifiers as local ids, in order. */
  function NativeLocalIds(ids: seq<Identifier>): (r: seq<LocalId>)
    ensures |r| == |ids|
  {
    if |ids| == 0 then [] else NativeLocalIds(ids[..|ids| - 1]) + [LocalIdOf(ids[|ids| - 1])]
  }

  /** Each identifier becomes the local id in the same position. */
  lemma {:induction false} NativeLocalIdsEach(ids: seq<Identifier>, k: nat)
    requires k < |ids|
    ensures NativeLocalIds(ids)[k] == LocalIdOf(ids[k])
  {
    var n := |ids| - 1;
    if k < n {
      NativeLocalIdsEach(ids[..n], k);
    }
  }

  /** The loop over the article's identifiers that appends one local id per identifier. */
  method CollectNativeLocalIds(ids: seq<Identifier>) returns (localIds: seq<LocalId>)
    ensures localIds == NativeLocalIds(ids)
  {
    localIds := [];
    var k := 0;
    while k < |ids|
      invariant 0 <= k <= |ids|
      invariant localIds == NativeLocalIds(ids[..k])
    {
      assert ids[..k + 1][..k] == ids[..k];
      localIds := localIds + [LocalIdOf(ids[k])];
      k := k + 1;
    }
    assert ids[..k] == ids;
  }

  // ---------------------------------------------------------------------------
  // Unit and ISSN

  /** `get_unit`: the unit of the journal's `JournalUnit`, else the journal code. The
      unit sent is never anything but one of those two. */
  function GetUnit(j: Journal): (r: string)
    ensures j.unit.Some? ==> r == j.unit.value
    ensures j.unit.None? ==> r == j.code
    ensures r == j.code || j.unit == Some(r)
  {
    if j.unit.Some? then j.unit.value else j.code
  }

  /** The ISSN is deposited only when set, non-empty and not the placeholder "0000-0000". */
  function DepositIssn(issn: Option<string>): (r: Option<string>)
    ensures r.Some? <==> Present(issn) && issn.value != "0000-0000"
    ensures r.Some? ==> r == issn
  {
    if Present(issn) && issn.value != "0000-0000" then issn else None
  }

  // ---------------------------------------------------------------------------
  // File names derived from an ark

  /** The stem of the generated file names: the ark's final "/"-separated segment. */
  function ArkStem(ark: string): string
  {
    LastSegment(ark, '/')
  }

  function HtmlName(ark: string): string { ArkStem(ark) + ".html" }
  function XmlName(ark: string): string { ArkStem(ark) + ".xml" }
  function PdfName(ark: string): string { ArkStem(ark) + ".pdf" }

  /** For a canonical ark the three names keep the "qt" of the final segment, unlike
      the eight-character short ark used in the public item address. */
  lemma {:induction false} ArkFileNames(x: string)
    requires |x| == 8 && '/' !in x
    ensures HtmlName("ark:/13030/qt" + x) == "qt" + x + ".html"
    ensures XmlName("ark:/13030/qt" + x) == "qt" + x + ".xml"
    ensures PdfName("ark:/13030/qt" + x) == "qt" + x + ".pdf"
    ensures ArkStem("ark:/13030/qt" + x) != x
  {
    var t := "qt" + x;
    assert '/' !in t by {
      forall i | 0 <= i < |t| ensures t[i] != '/' {
        if i >= 2 { assert t[i] == x[i - 2]; }
      }
    }
    assert "ark:/13030/qt" + x == "ark:/13030" + ['/'] + t;
    LastSegmentAfterSeparator("ark:/13030", '/', t);
    assert |t| != |x|;
  }
}
