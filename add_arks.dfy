/** The `add_arks` management command (management/commands/add_arks.py): it reads an
    export of the repository's arks for one journal, then gives every article of the
    journal that was imported from OJS an `EscholArticle` with its ark, and a DOI
    identifier when the export has one. The export file and the import log entries are
    given already parsed; the printed progress lines are not modelled. */
module AddArks {
  import opened Wrappers
  import opened Text
  import opened Models

  // ---------------------------------------------------------------------------
  // The export file

  /** One row of the tab-separated export: the bare ark (`id`), where the item came
      from, its id there, its DOI, the raw `local_ids` column (`None` when the file has
      no such column) and the `id` of each entry that column holds as JSON. */
  datatype ExportRow = ExportRow(
    id: string,
    source: string,
    externalId: string,
    doi: string,
    localIds: Option<string>,
    localIdValues: seq<string>)

  /** An `id_map` value: the bare ark, the source and the DOI of a row. */
  datatype ArkEntry = ArkEntry(ark: string, source: string, doi: string)

  /** An `ark_map` value: the source and the DOI of a row. */
  datatype SourceEntry = SourceEntry(source: string, doi: string)

  /** A Python local variable, which may not have been assigned yet. */
  datatype Local = Unbound | Bound(value: Option<string>)

  /** What reading the export leaves: `id_map` (OJS id to row), `ark_map` (bare ark to
      row) and the variable `ojs_id` as the last row left it. */
  datatype Export = Export(idMap: map<string, ArkEntry>, arkMap: map<string, SourceEntry>, ojsId: Local)

  /** The `local_ids` column is read only when it is there, non-empty and not "NULL". */
  predicate LocalIdsUsable(r: ExportRow)
  {
    Present(r.localIds) && r.localIds.value != "NULL"
  }

  /** The part after `prefix` of the last id that starts with it. */
  function LastMatch(ids: seq<string>, prefix: string): Option<string>
  {
    if |ids| == 0 then None
    else
      var n := |ids| - 1;
      if StartsWith(ids[n], prefix) then Some(ids[n][|prefix|..]) else LastMatch(ids[..n], prefix)
  }

  /** The OJS id of a row: its `external_id` when it came from OJS; otherwise what
      follows "<journal code>_" in its local ids, if any. */
  function RowOjsId(r: ExportRow, journalCode: string): Option<string>
  {
    if r.source == "ojs" then Some(r.externalId)
    else if LocalIdsUsable(r) then LastMatch(r.localIdValues, journalCode + "_")
    else None
  }

  /** The maps after reading `rows` in order: a row with an OJS id is entered in
      `id_map` under it, and every row in `ark_map` under its ark. */
  function ReadRows(rows: seq<ExportRow>, journalCode: string): Export
  {
    if |rows| == 0 then Export(map[], map[], Unbound)
    else
      var n := |rows| - 1;
      var e := ReadRows(rows[..n], journalCode);
      var r := rows[n];
      var o := RowOjsId(r, journalCode);
      Export(if Present(o) then e.idMap[o.value := ArkEntry(r.id, r.source, r.doi)] else e.idMap,
             e.arkMap[r.id := SourceEntry(r.source, r.doi)],
             Bound(o))
  }

  /** The last local id with the prefix wins; there is none exactly when no local id
      has the prefix. */
  lemma {:induction false} LastMatchRule(ids: seq<string>, prefix: string)
    ensures LastMatch(ids, prefix).None? <==> forall i :: 0 <= i < |ids| ==> !StartsWith(ids[i], prefix)
    ensures LastMatch(ids, prefix).Some? ==>
      exists i :: 0 <= i < |ids| && StartsWith(ids[i], prefix) && LastMatch(ids, prefix).value == ids[i][|prefix|..]
        && forall j :: i < j < |ids| ==> !StartsWith(ids[j], prefix)
  {
    if |ids| > 0 {
      var n := |ids| - 1;
      LastMatchRule(ids[..n], prefix);
      if !StartsWith(ids[n], prefix) && LastMatch(ids[..n], prefix).Some? {
        var i :| 0 <= i < n && StartsWith(ids[..n][i], prefix) && LastMatch(ids[..n], prefix).value == ids[..n][i][|prefix|..]
                 && forall j :: i < j < n ==> !StartsWith(ids[..n][j], prefix);
        assert ids[i] == ids[..n][i];
        assert forall j :: i < j < |ids| ==> !StartsWith(ids[j], prefix) by {
          forall j | i < j < |ids| ensures !StartsWith(ids[j], prefix) {
            if j < n { assert ids[j] == ids[..n][j]; }
          }
        }
      }
      if LastMatch(ids, prefix).None? {
        forall i | 0 <= i < |ids| ensures !StartsWith(ids[i], prefix) {
          if i < n { assert ids[i] == ids[..n][i]; }
        }
      }
    }
  }

  /** `ark_map` holds exactly the arks of the export. */
  lemma {:induction false} ArkMapKeys(rows: seq<ExportRow>, journalCode: string)
    ensures forall k :: k in ReadRows(rows, journalCode).arkMap <==> exists i :: 0 <= i < |rows| && rows[i].id == k
  {
    if |rows| > 0 {
      var n := |rows| - 1;
      ArkMapKeys(rows[..n], journalCode);
      forall k ensures k in ReadRows(rows, journalCode).arkMap <==> exists i :: 0 <= i < |rows| && rows[i].id == k {
        if k in ReadRows(rows[..n], journalCode).arkMap {
          var i :| 0 <= i < n && rows[..n][i].id == k;
          assert rows[i] == rows[..n][i];
        }
        if exists i :: 0 <= i < |rows| && rows[i].id == k {
          var i :| 0 <= i < |rows| && rows[i].id == k;
          if i < n { assert rows[..n][i] == rows[i]; }
        }
      }
    }
  }

  /** The `ark_map` entry of an ark is the source and DOI of the last row with it. */
  lemma {:induction false} ArkMapLastRow(rows: seq<ExportRow>, journalCode: string, i: nat)
    requires i < |rows| && forall j :: i < j < |rows| ==> rows[j].id != rows[i].id
    ensures rows[i].id in ReadRows(rows, journalCode).arkMap
    ensures ReadRows(rows, journalCode).arkMap[rows[i].id] == SourceEntry(rows[i].source, rows[i].doi)
  {
    var n := |rows| - 1;
    if i < n {
      assert rows[..n][i] == rows[i];
      forall j | i < j < n ensures rows[..n][j].id != rows[..n][i].id {
        assert rows[..n][j] == rows[j];
      }
      ArkMapLastRow(rows[..n], journalCode, i);
    }
  }

  /** `id_map` holds exactly the non-empty OJS ids of the rows. */
  lemma {:induction false} IdMapKeys(rows: seq<ExportRow>, journalCode: string)
    ensures forall k :: k in ReadRows(rows, journalCode).idMap <==>
      exists i :: 0 <= i < |rows| && RowOjsId(rows[i], journalCode) == Some(k) && k != ""
  {
    if |rows| > 0 {
      var n := |rows| - 1;
      IdMapKeys(rows[..n], journalCode);
      forall k ensures k in ReadRows(rows, journalCode).idMap <==>
        exists i :: 0 <= i < |rows| && RowOjsId(rows[i], journalCode) == Some(k) && k != ""
      {
        if k in ReadRows(rows[..n], journalCode).idMap {
          var i :| 0 <= i < n && RowOjsId(rows[..n][i], journalCode) == Some(k) && k != "";
          assert rows[i] == rows[..n][i];
        }
        if exists i :: 0 <= i < |rows| && RowOjsId(rows[i], journalCode) == Some(k) && k != "" {
          var i :| 0 <= i < |rows| && RowOjsId(rows[i], journalCode) == Some(k) && k != "";
          if i < n { assert rows[..n][i] == rows[i]; }
        }
      }
    }
  }

  /** The `id_map` entry of an OJS id is the ark, source and DOI of the last row with
      it. */
  lemma {:induction false} IdMapLastRow(rows: seq<ExportRow>, journalCode: string, i: nat)
    requires i < |rows| && Present(RowOjsId(rows[i], journalCode))
    requires forall j :: i < j < |rows| ==> RowOjsId(rows[j], journalCode) != RowOjsId(rows[i], journalCode)
    ensures RowOjsId(rows[i], journalCode).value in ReadRows(rows, journalCode).idMap
    ensures ReadRows(rows, journalCode).idMap[RowOjsId(rows[i], journalCode).value] == ArkEntry(rows[i].id, rows[i].source, rows[i].doi)
  {
    var n := |rows| - 1;
    if i < n {
      assert rows[..n][i] == rows[i];
      forall j | i < j < n ensures RowOjsId(rows[..n][j], journalCode) != RowOjsId(rows[..n][i], journalCode) {
        assert rows[..n][j] == rows[j];
      }
      IdMapLastRow(rows[..n], journalCode, i);
    }
  }

  /** After the export is read, `ojs_id` still holds the last row's OJS id (unassigned
      when the export is empty): the value the first article may be looked up with. */
  lemma ExportLeavesOjsId(rows: seq<ExportRow>, journalCode: string)
    ensures ReadRows(rows, journalCode).ojsId == if |rows| == 0 then Unbound else Bound(RowOjsId(rows[|rows| - 1], journalCode))
  {
  }

  // ---------------------------------------------------------------------------
  // The articles

  /** One external identifier recorded in an import log entry. */
  datatype ExternalIdentifier = ExternalIdentifier(name: string, value: string)

  /** An article of the journal: its reference, its stage, and the external identifiers
      of each log entry saying it was imported by Journal Transporter. */
  datatype ImportedArticle = ImportedArticle(ref: ArticleRef, stage: string, logs: seq<seq<ExternalIdentifier>>)

  /** A DOI `Identifier` created for an article. */
  datatype DoiRow = DoiRow(articlePk: nat, identifier: string)

  /** The command's state between articles: the variable `ojs_id`, the `EscholArticle`
      rows, the DOI identifiers created, and the exception that ended it, if any. */
  datatype ImportState = ImportState(ojsId: Local, records: seq<EscholArticle>, dois: seq<DoiRow>, failed: Option<string>)

  /** The value of the last identifier named `name`. */
  function LastNamed(ids: seq<ExternalIdentifier>, name: string): Option<string>
  {
    if |ids| == 0 then None
    else
      var n := |ids| - 1;
      if ids[n].name == name then Some(ids[n].value) else LastNamed(ids[..n], name)
  }

  /** The last identifier with the name wins; there is none exactly when no identifier
      has the name. */
  lemma {:induction false} LastNamedRule(ids: seq<ExternalIdentifier>, name: string)
    ensures LastNamed(ids, name).None? <==> forall i :: 0 <= i < |ids| ==> ids[i].name != name
    ensures LastNamed(ids, name).Some? ==>
      exists i :: 0 <= i < |ids| && ids[i].name == name && LastNamed(ids, name).value == ids[i].value
        && forall j :: i < j < |ids| ==> ids[j].name != name
  {
    if |ids| > 0 {
      var n := |ids| - 1;
      LastNamedRule(ids[..n], name);
      if ids[n].name != name && LastNamed(ids[..n], name).Some? {
        var i :| 0 <= i < n && ids[..n][i].name == name && LastNamed(ids[..n], name).value == ids[..n][i].value
                 && forall j :: i < j < n ==> ids[..n][j].name != name;
        assert ids[i] == ids[..n][i];
        forall j | i < j < |ids| ensures ids[j].name != name {
          if j < n { assert ids[j] == ids[..n][j]; }
        }
      }
      if LastNamed(ids, name).None? {
        forall i | 0 <= i < |ids| ensures ids[i].name != name {
          if i < n { assert ids[i] == ids[..n][i]; }
        }
      }
    }
  }

  /** `ojs_id` after the log entry: its last "source_id" when it has one, and
      otherwise whatever the variable held before. */
  function LogOjsId(log: seq<ExternalIdentifier>, before: Local): Local
  {
    var o := LastNamed(log, "source_id");
    if o.Some? then Bound(o) else before
  }

  const UnboundOjsId := "local variable 'ojs_id' referenced before assignment"

  function KeyErrorText(key: string): string
  {
    "'" + key + "'"
  }

  /** Where the ark comes from. */
  datatype Choice = NoArk | Chosen(ark: string, source: string, doi: string) | ChoiceFailed(msg: string)

  /** The ark of `id_map` when `ojs_id` is a key of it, otherwise the ark of the log
      entry, looked up in `ark_map` (a `KeyError` when it is not there). An empty ark
      gives no record. */
  function ChooseArk(ojsId: Option<string>, logArk: Option<string>, idMap: map<string, ArkEntry>, arkMap: map<string, SourceEntry>): Choice
  {
    if ojsId.Some? && ojsId.value in idMap then
      var e := idMap[ojsId.value];
      if e.ark != "" then Chosen(e.ark, e.source, e.doi) else NoArk
    else if Present(logArk) then
      if logArk.value in arkMap then Chosen(logArk.value, arkMap[logArk.value].source, arkMap[logArk.value].doi)
      else ChoiceFailed(KeyErrorText(logArk.value))
    else NoArk
  }

  /** A DOI is recorded only when it is non-empty and not "NULL". */
  predicate DoiUsable(doi: string)
  {
    doi != "" && doi != "NULL"
  }

  /** The record `get_or_create` looks for: same article, ark and source. */
  predicate Matches(e: EscholArticle, pk: nat, ark: string, source: string)
  {
    e.article.pk == pk && e.ark == ark && e.sourceName == Some(source)
  }

  /** A position of a record matching article, ark and source, if there is one. */
  function FindRecord(records: seq<EscholArticle>, pk: nat, ark: string, source: string): (r: Option<nat>)
    ensures r.Some? ==> r.value < |records| && Matches(records[r.value], pk, ark, source)
    ensures r.None? ==> forall i :: 0 <= i < |records| ==> !Matches(records[i], pk, ark, source)
  {
    if |records| == 0 then None
    else
      var n := |records| - 1;
      if Matches(records[n], pk, ark, source) then Some(n)
      else
        var r := FindRecord(records[..n], pk, ark, source);
        assert forall i :: 0 <= i < n ==> records[i] == records[..n][i];
        r
  }

  /** `get_or_create` of the record with the full ark, then the DOI: when usable an
      identifier is created and the record marked as having a registered DOI. */
  function SaveRecord(st: ImportState, ojsId: Local, ref: ArticleRef, fullArk: string, source: string, doi: string): ImportState
  {
    var found := FindRecord(st.records, ref.pk, fullArk, source);
    var records := if found.Some? then st.records else st.records + [EscholArticle(ref, fullArk, false, None, Some(source), None)];
    var at := if found.Some? then found.value else |st.records|;
    if DoiUsable(doi) then ImportState(ojsId, records[at := records[at].(isDoiRegistered := true)], st.dois + [DoiRow(ref.pk, doi)], None)
    else ImportState(ojsId, records, st.dois, None)
  }

  /** One article, with `ojs_id` holding `start` when its log entry is read: skipped
      unless it has exactly one import log entry; otherwise its identifiers are read,
      the ark chosen and the record saved. */
  function ImportFrom(st: ImportState, a: ImportedArticle, start: Local, idMap: map<string, ArkEntry>,
                      arkMap: map<string, SourceEntry>): ImportState
  {
    if |a.logs| != 1 then st
    else
      var log := a.logs[0];
      var ojs := LogOjsId(log, start);
      if ojs.Unbound? then st.(failed := Some(UnboundOjsId))
      else
        match ChooseArk(ojs.value, LastNamed(log, "ark"), idMap, arkMap)
        case NoArk => st.(ojsId := ojs)
        case ChoiceFailed(msg) => st.(ojsId := ojs, failed := Some(msg))
        case Chosen(ark, source, doi) => SaveRecord(st, ojs, a.ref, ArkPrefix + ark, source, doi)
  }

  /** One article as the command handles it: `ojs_id` is not reset between articles, so
      it still holds the previous article's value (or the last export row's). */
  function ImportArticle(st: ImportState, a: ImportedArticle, idMap: map<string, ArkEntry>, arkMap: map<string, SourceEntry>): ImportState
  {
    ImportFrom(st, a, st.ojsId, idMap, arkMap)
  }

  /** One article with `ojs_id` reset before its log entry is read, as the rest of the
      command evidently intends. */
  function CorrectedImportArticle(st: ImportState, a: ImportedArticle, idMap: map<string, ArkEntry>,
                                  arkMap: map<string, SourceEntry>): ImportState
  {
    ImportFrom(st, a, Bound(None), idMap, arkMap)
  }

  /** The articles handled in order until one raises, each with `ojs_id` reset before
      its log entry is read. */
  function ImportAll(st: ImportState, articles: seq<ImportedArticle>, idMap: map<string, ArkEntry>, arkMap: map<string, SourceEntry>): ImportState
  {
    if |articles| == 0 then st
    else
      var n := |articles| - 1;
      var s := ImportAll(st, articles[..n], idMap, arkMap);
      if s.failed.Some? then s else CorrectedImportArticle(s, articles[n], idMap, arkMap)
  }

  /** The article loop as written: each article is looked up with whatever `ojs_id`
      the previous article, or the last export row, left behind. */
  function ImportAllAsWritten(st: ImportState, articles: seq<ImportedArticle>, idMap: map<string, ArkEntry>,
                              arkMap: map<string, SourceEntry>): ImportState
  {
    if |articles| == 0 then st
    else
      var n := |articles| - 1;
      var s := ImportAllAsWritten(st, articles[..n], idMap, arkMap);
      if s.failed.Some? then s else ImportArticle(s, articles[n], idMap, arkMap)
  }

  function NoJournalMsg(journalCode: string): string
  {
    "Journal does not exist " + journalCode
  }

  /** The whole command on stored `records` and `dois`: a journal that does not exist
      is refused before anything is read; otherwise the export is read and the
      journal's articles handled. */
  function AddArksOf(journalExists: bool, journalCode: string, rows: seq<ExportRow>, articles: seq<ImportedArticle>,
                     records: seq<EscholArticle>, dois: seq<DoiRow>): ImportState
  {
    if !journalExists then ImportState(Unbound, records, dois, Some(NoJournalMsg(journalCode)))
    else
      var e := ReadRows(rows, journalCode);
      ImportAll(ImportState(e.ojsId, records, dois, None), articles, e.idMap, e.arkMap)
  }

  /** The whole command as written: the articles are handled by `ImportAllAsWritten`,
      starting from the `ojs_id` the export loop left. */
  function AddArksAsWrittenOf(journalExists: bool, journalCode: string, rows: seq<ExportRow>, articles: seq<ImportedArticle>,
                              records: seq<EscholArticle>, dois: seq<DoiRow>): ImportState
  {
    if !journalExists then ImportState(Unbound, records, dois, Some(NoJournalMsg(journalCode)))
    else
      var e := ReadRows(rows, journalCode);
      ImportAllAsWritten(ImportState(e.ojsId, records, dois, None), articles, e.idMap, e.arkMap)
  }

  // ---------------------------------------------------------------------------
  // What one article does

  /** No two records share article, ark and source. */
  ghost predicate NoDuplicates(records: seq<EscholArticle>)
  {
    forall i, j :: 0 <= i < j < |records| ==>
      !(records[i].article.pk == records[j].article.pk && records[i].ark == records[j].ark && records[i].sourceName == records[j].sourceName)
  }

  /** Saving keeps the earlier records, except that the one found may be marked as
      having a registered DOI; a record is added only when none matched, and it holds
      the article, the full ark and the source. Afterwards a record matching them
      exists, marked exactly when the DOI is usable (or it was already), and one DOI
      identifier is added exactly when the DOI is usable. No duplicate is created. */
  lemma SaveRecordRule(st: ImportState, ojsId: Local, ref: ArticleRef, fullArk: string, source: string, doi: string)
    ensures var s := SaveRecord(st, ojsId, ref, fullArk, source, doi);
      var found := FindRecord(st.records, ref.pk, fullArk, source);
      s.failed.None? && s.ojsId == ojsId
      && |s.records| == |st.records| + (if found.Some? then 0 else 1)
      && (forall i :: 0 <= i < |st.records| ==>
            s.records[i] == st.records[i] || s.records[i] == st.records[i].(isDoiRegistered := true))
      && (found.None? ==>
            s.records[|st.records|] == EscholArticle(ref, fullArk, DoiUsable(doi), None, Some(source), None))
      && (exists i :: 0 <= i < |s.records| && Matches(s.records[i], ref.pk, fullArk, source)
                      && (DoiUsable(doi) ==> s.records[i].isDoiRegistered))
      && s.dois == st.dois + (if DoiUsable(doi) then [DoiRow(ref.pk, doi)] else [])
      && (NoDuplicates(st.records) ==> NoDuplicates(s.records))
  {
    var found := FindRecord(st.records, ref.pk, fullArk, source);
    var s := SaveRecord(st, ojsId, ref, fullArk, source, doi);
    var at := if found.Some? then found.value else |st.records|;
    assert Matches(s.records[at], ref.pk, fullArk, source);
  }

  /** An article without exactly one import log entry changes nothing. An article with
      one gets a record exactly when an ark is chosen: the ark of `id_map` for the
      current `ojs_id` when there is one, before any ark of the log entry. The stored
      ark is "ark:/13030/" followed by the chosen one, and a DOI identifier is created
      exactly when the chosen DOI is usable. */
  lemma ImportFromRule(st: ImportState, a: ImportedArticle, start: Local, idMap: map<string, ArkEntry>, arkMap: map<string, SourceEntry>)
    requires st.failed.None?
    ensures var s := ImportFrom(st, a, start, idMap, arkMap);
      (|a.logs| != 1 ==> s == st)
      && (|a.logs| == 1 ==>
            var ojs := LogOjsId(a.logs[0], start);
            var c := if ojs.Bound? then ChooseArk(ojs.value, LastNamed(a.logs[0], "ark"), idMap, arkMap) else NoArk;
            (s.failed.Some? <==> ojs.Unbound? || c.ChoiceFailed?)
            && (!c.Chosen? ==> s.records == st.records && s.dois == st.dois)
            && (c.Chosen? ==>
                  StartsWith(ArkPrefix + c.ark, ArkPrefix)
                  && (exists i :: 0 <= i < |s.records| && Matches(s.records[i], a.ref.pk, ArkPrefix + c.ark, c.source))
                  && s.dois == st.dois + (if DoiUsable(c.doi) then [DoiRow(a.ref.pk, c.doi)] else []))
            && (ojs.Bound? && ojs.value.Some? && ojs.value.value in idMap && idMap[ojs.value.value].ark != "" ==>
                  c == Chosen(idMap[ojs.value.value].ark, idMap[ojs.value.value].source, idMap[ojs.value.value].doi)))
      && (NoDuplicates(st.records) ==> NoDuplicates(s.records))
  {
    if |a.logs| == 1 {
      var ojs := LogOjsId(a.logs[0], start);
      if ojs.Bound? {
        var c := ChooseArk(ojs.value, LastNamed(a.logs[0], "ark"), idMap, arkMap);
        if c.Chosen? {
          SaveRecordRule(st, ojs, a.ref, ArkPrefix + c.ark, c.source, c.doi);
        }
      }
    }
  }

  /** Handling the articles keeps the records free of duplicates, whatever they are. */
  lemma {:induction false} ImportAllNoDuplicates(st: ImportState, articles: seq<ImportedArticle>, idMap: map<string, ArkEntry>,
                                                 arkMap: map<string, SourceEntry>)
    requires NoDuplicates(st.records)
    ensures NoDuplicates(ImportAll(st, articles, idMap, arkMap).records)
  {
    if |articles| > 0 {
      var n := |articles| - 1;
      ImportAllNoDuplicates(st, articles[..n], idMap, arkMap);
      var s := ImportAll(st, articles[..n], idMap, arkMap);
      if s.failed.None? {
        ImportFromRule(s, articles[n], Bound(None), idMap, arkMap);
      }
    }
  }

  /** One article only adds or marks records and only adds DOI identifiers. */
  lemma ImportFromKeeps(st: ImportState, a: ImportedArticle, start: Local, idMap: map<string, ArkEntry>, arkMap: map<string, SourceEntry>)
    ensures var s := ImportFrom(st, a, start, idMap, arkMap);
      |s.records| >= |st.records| && st.dois <= s.dois
      && forall i :: 0 <= i < |st.records| ==>
           s.records[i] == st.records[i] || s.records[i] == st.records[i].(isDoiRegistered := true)
  {
    if |a.logs| == 1 {
      var ojs := LogOjsId(a.logs[0], start);
      if ojs.Bound? {
        var c := ChooseArk(ojs.value, LastNamed(a.logs[0], "ark"), idMap, arkMap);
        if c.Chosen? {
          SaveRecordRule(st, ojs, a.ref, ArkPrefix + c.ark, c.source, c.doi);
        }
      }
    }
  }

  /** Records are only ever added or marked: every record there before is still there,
      at its place, possibly marked as having a registered DOI. */
  lemma {:induction false} ImportAllKeeps(st: ImportState, articles: seq<ImportedArticle>, idMap: map<string, ArkEntry>,
                                          arkMap: map<string, SourceEntry>)
    ensures var s := ImportAll(st, articles, idMap, arkMap);
      |s.records| >= |st.records| && st.dois <= s.dois
      && forall i :: 0 <= i < |st.records| ==>
           s.records[i] == st.records[i] || s.records[i] == st.records[i].(isDoiRegistered := true)
  {
    if |articles| > 0 {
      var n := |articles| - 1;
      ImportAllKeeps(st, articles[..n], idMap, arkMap);
      var s := ImportAll(st, articles[..n], idMap, arkMap);
      if s.failed.None? {
        ImportFromKeeps(s, articles[n], Bound(None), idMap, arkMap);
        var t := CorrectedImportArticle(s, articles[n], idMap, arkMap);
        forall i | 0 <= i < |st.records|
          ensures t.records[i] == st.records[i] || t.records[i] == st.records[i].(isDoiRegistered := true)
        {
          assert s.records[i] == st.records[i] || s.records[i] == st.records[i].(isDoiRegistered := true);
          assert t.records[i] == s.records[i] || t.records[i] == s.records[i].(isDoiRegistered := true);
        }
      }
    }
  }

  /** The loop as written keeps the records free of duplicates too. */
  lemma {:induction false} ImportAllAsWrittenNoDuplicates(st: ImportState, articles: seq<ImportedArticle>,
                                                          idMap: map<string, ArkEntry>, arkMap: map<string, SourceEntry>)
    requires NoDuplicates(st.records)
    ensures NoDuplicates(ImportAllAsWritten(st, articles, idMap, arkMap).records)
  {
    if |articles| > 0 {
      var n := |articles| - 1;
      ImportAllAsWrittenNoDuplicates(st, articles[..n], idMap, arkMap);
      var s := ImportAllAsWritten(st, articles[..n], idMap, arkMap);
      if s.failed.None? {
        ImportFromRule(s, articles[n], s.ojsId, idMap, arkMap);
      }
    }
  }

  /** The loop as written also only adds or marks records and only adds DOI
      identifiers. */
  lemma {:induction false} ImportAllAsWrittenKeeps(st: ImportState, articles: seq<ImportedArticle>, idMap: map<string, ArkEntry>,
                                                   arkMap: map<string, SourceEntry>)
    ensures var s := ImportAllAsWritten(st, articles, idMap, arkMap);
      |s.records| >= |st.records| && st.dois <= s.dois
      && forall i :: 0 <= i < |st.records| ==>
           s.records[i] == st.records[i] || s.records[i] == st.records[i].(isDoiRegistered := true)
  {
    if |articles| > 0 {
      var n := |articles| - 1;
      ImportAllAsWrittenKeeps(st, articles[..n], idMap, arkMap);
      var s := ImportAllAsWritten(st, articles[..n], idMap, arkMap);
      if s.failed.None? {
        ImportFromKeeps(s, articles[n], s.ojsId, idMap, arkMap);
        var t := ImportArticle(s, articles[n], idMap, arkMap);
        forall i | 0 <= i < |st.records|
          ensures t.records[i] == st.records[i] || t.records[i] == st.records[i].(isDoiRegistered := true)
        {
          assert s.records[i] == st.records[i] || s.records[i] == st.records[i].(isDoiRegistered := true);
          assert t.records[i] == s.records[i] || t.records[i] == s.records[i].(isDoiRegistered := true);
        }
      }
    }
  }

  /** As written, with an empty export `ojs_id` is never assigned: the first article
      with one log entry and no "source_id" raises `UnboundLocalError` and nothing is
      stored. With the reset the same article raises only the `KeyError` of an ark its
      log entry names and the empty export lacks. */
  lemma EmptyExportUnbound(journalCode: string, a: ImportedArticle, records: seq<EscholArticle>, dois: seq<DoiRow>)
    requires |a.logs| == 1 && forall i :: 0 <= i < |a.logs[0]| ==> a.logs[0][i].name != "source_id"
    ensures AddArksAsWrittenOf(true, journalCode, [], [a], records, dois) == ImportState(Unbound, records, dois, Some(UnboundOjsId))
    ensures var s := AddArksOf(true, journalCode, [], [a], records, dois);
      s.failed.Some? ==> Present(LastNamed(a.logs[0], "ark")) && s.failed == Some(KeyErrorText(LastNamed(a.logs[0], "ark").value))
  {
    LastNamedRule(a.logs[0], "source_id");
    assert LogOjsId(a.logs[0], Unbound) == Unbound;
    assert LogOjsId(a.logs[0], Bound(None)) == Bound(None);
    assert [a][..0] == [];
    ExportLeavesOjsId([], journalCode);
    var e := ReadRows([], journalCode);
    var st := ImportState(e.ojsId, records, dois, None);
    assert ImportAllAsWritten(st, [a][..0], e.idMap, e.arkMap) == st;
    assert ImportArticle(st, a, e.idMap, e.arkMap) == ImportState(Unbound, records, dois, Some(UnboundOjsId));
    assert ImportAll(st, [a][..0], e.idMap, e.arkMap) == st;
    var t := CorrectedImportArticle(st, a, e.idMap, e.arkMap);
    var c := ChooseArk(None, LastNamed(a.logs[0], "ark"), e.idMap, e.arkMap);
    if c.ChoiceFailed? {
      assert t.failed == Some(c.msg);
    } else {
      assert t.failed.None?;
    }
  }

  // ---------------------------------------------------------------------------
  // The stale `ojs_id`

  /** As written, an article whose log entry names no "source_id" is looked up with
      the `ojs_id` left by the previous article, or by the last export row: here an
      article whose log entry has no identifiers at all receives the ark of the only
      row of the export. Reset before each article, it receives nothing. */
  lemma StaleOjsIdCounterexample()
    ensures var rows := [ExportRow("qt00000001", "ojs", "100", "NULL", None, [])];
      var a := ImportedArticle(ArticleRef(7, "Article 7", "jrnl"), "Published", [[]]);
      var e := ReadRows(rows, "jrnl");
      var st := ImportState(e.ojsId, [], [], None);
      ImportArticle(st, a, e.idMap, e.arkMap).records == [EscholArticle(a.ref, "ark:/13030/qt00000001", false, None, Some("ojs"), None)]
      && CorrectedImportArticle(st, a, e.idMap, e.arkMap).records == []
  {
    var rows := [ExportRow("qt00000001", "ojs", "100", "NULL", None, [])];
    var a := ImportedArticle(ArticleRef(7, "Article 7", "jrnl"), "Published", [[]]);
    assert rows[..0] == [];
    var e := ReadRows(rows, "jrnl");
    assert e.ojsId == Bound(Some("100"));
    assert "100" in e.idMap && e.idMap["100"] == ArkEntry("qt00000001", "ojs", "NULL");
    var st := ImportState(e.ojsId, [], [], None);
    assert LastNamed(a.logs[0], "source_id") == None && LastNamed(a.logs[0], "ark") == None;
    assert LogOjsId(a.logs[0], st.ojsId) == Bound(Some("100"));
    assert ChooseArk(Some("100"), None, e.idMap, e.arkMap) == Chosen("qt00000001", "ojs", "NULL");
    assert ArkPrefix + "qt00000001" == "ark:/13030/qt00000001";
    assert !DoiUsable("NULL");
    assert LogOjsId(a.logs[0], Bound(None)) == Bound(None);
  }

  /** Reset before each article, `ojs_id` is never read unassigned (the only exception
      left is that of an ark missing from `ark_map`), and what the article gets depends
      on its own log entry and the export only, not on the articles before it: an
      article whose log entry names neither "source_id" nor "ark" gets nothing. */
  lemma CorrectedOwnLog(st: ImportState, x: Local, a: ImportedArticle, idMap: map<string, ArkEntry>, arkMap: map<string, SourceEntry>)
    requires st.failed.None?
    ensures var s := CorrectedImportArticle(st, a, idMap, arkMap);
      var t := CorrectedImportArticle(st.(ojsId := x), a, idMap, arkMap);
      s.records == t.records && s.dois == t.dois && s.failed == t.failed
      && (s.failed.Some? ==>
            |a.logs| == 1 && Present(LastNamed(a.logs[0], "ark"))
            && s.failed == Some(KeyErrorText(LastNamed(a.logs[0], "ark").value)))
      && (|a.logs| == 1 && LastNamed(a.logs[0], "source_id").None? && !Present(LastNamed(a.logs[0], "ark")) ==>
            s.records == st.records && s.dois == st.dois && s.failed.None?)
  {
    if |a.logs| == 1 {
      var ojs := LogOjsId(a.logs[0], Bound(None));
      assert ojs.Bound?;
      var c := ChooseArk(ojs.value, LastNamed(a.logs[0], "ark"), idMap, arkMap);
      if c.Chosen? {
        var st' := st.(ojsId := x);
        assert SaveRecord(st, ojs, a.ref, ArkPrefix + c.ark, c.source, c.doi).records
            == SaveRecord(st', ojs, a.ref, ArkPrefix + c.ark, c.source, c.doi).records;
      }
    }
  }

  // ---------------------------------------------------------------------------
  // The command

  /** The `EscholArticle` and DOI `Identifier` tables the command writes to. */
  class ImportDb {
    var records: seq<EscholArticle>
    var dois: seq<DoiRow>

    constructor (records: seq<EscholArticle>, dois: seq<DoiRow>)
      ensures this.records == records && this.dois == dois
    {
      this.records := records;
      this.dois := dois;
    }
  }

  /** The OJS id of one export row, its local ids read one by one. */
  method ReadRowOjsId(r: ExportRow, journalCode: string) returns (ojsId: Option<string>)
    ensures ojsId == RowOjsId(r, journalCode)
  {
    ojsId := None;
    if r.source == "ojs" {
      return Some(r.externalId);
    }
    if LocalIdsUsable(r) {
      var ids := r.localIdValues;
      var prefix := journalCode + "_";
      var i := 0;
      while i < |ids|
        invariant 0 <= i <= |ids|
        invariant ojsId == LastMatch(ids[..i], prefix)
      {
        assert ids[..i + 1][..i] == ids[..i];
        if StartsWith(ids[i], prefix) {
          ojsId := Some(ids[i][|prefix|..]);
        }
        i := i + 1;
      }
      assert ids[..i] == ids;
    }
  }

  /** The first loop of the command: the export read row by row into the two maps. */
  method ReadExport(rows: seq<ExportRow>, journalCode: string)
    returns (idMap: map<string, ArkEntry>, arkMap: map<string, SourceEntry>, ojsId: Local)
    ensures Export(idMap, arkMap, ojsId) == ReadRows(rows, journalCode)
  {
    idMap, arkMap, ojsId := map[], map[], Unbound;
    var i := 0;
    while i < |rows|
      invariant 0 <= i <= |rows|
      invariant Export(idMap, arkMap, ojsId) == ReadRows(rows[..i], journalCode)
    {
      assert rows[..i + 1][..i] == rows[..i];
      var r := rows[i];
      var o := ReadRowOjsId(r, journalCode);
      ojsId := Bound(o);
      if Present(o) {
        idMap := idMap[o.value := ArkEntry(r.id, r.source, r.doi)];
      }
      arkMap := arkMap[r.id := SourceEntry(r.source, r.doi)];
      i := i + 1;
    }
    assert rows[..i] == rows;
  }

  /** The identifiers of a log entry read one by one: the last "source_id" and the
      last "ark". */
  method ScanLog(log: seq<ExternalIdentifier>, before: Local) returns (ojsId: Local, ark: Option<string>)
    ensures ojsId == LogOjsId(log, before) && ark == LastNamed(log, "ark")
  {
    ojsId, ark := before, None;
    var i := 0;
    while i < |log|
      invariant 0 <= i <= |log|
      invariant ojsId == LogOjsId(log[..i], before) && ark == LastNamed(log[..i], "ark")
    {
      assert log[..i + 1][..i] == log[..i];
      if log[i].name == "source_id" {
        ojsId := Bound(Some(log[i].value));
      }
      if log[i].name == "ark" {
        ark := Some(log[i].value);
      }
      i := i + 1;
    }
    assert log[..i] == log;
  }

  /** One pass of the article loop, with `ojs_id` reset before the log entry is read
      (`before` is what the variable held, kept when the article is skipped). */
  method ImportOne(db: ImportDb, a: ImportedArticle, idMap: map<string, ArkEntry>, arkMap: map<string, SourceEntry>, before: Local)
    returns (ojsId: Local, failed: Option<string>)
    modifies db
    ensures var s := CorrectedImportArticle(ImportState(before, old(db.records), old(db.dois), None), a, idMap, arkMap);
      ojsId == s.ojsId && failed == s.failed && db.records == s.records && db.dois == s.dois
  {
    ojsId, failed := before, None;
    if |a.logs| != 1 {
      return;
    }
    var ark;
    ojsId, ark := ScanLog(a.logs[0], Bound(None));
    var c := ChooseArk(ojsId.value, ark, idMap, arkMap);
    match c {
      case NoArk =>
      case ChoiceFailed(msg) =>
        failed := Some(msg);
      case Chosen(bare, source, doi) =>
        var full := ArkPrefix + bare;
        var found := FindRecord(db.records, a.ref.pk, full, source);
        var at: nat;
        if found.Some? {
          at := found.value;
        } else {
          at := |db.records|;
          db.records := db.records + [EscholArticle(a.ref, full, false, None, Some(source), None)];
        }
        if DoiUsable(doi) {
          db.dois := db.dois + [DoiRow(a.ref.pk, doi)];
          db.records := db.records[at := db.records[at].(isDoiRegistered := true)];
        }
    }
  }

  /** `add_arks`: checks the journal, reads the export, then handles the journal's
      articles in order until one raises, resetting `ojs_id` for each. */
  method AddArksCommand(db: ImportDb, journalExists: bool, journalCode: string, rows: seq<ExportRow>, articles: seq<ImportedArticle>)
    returns (failed: Option<string>)
    modifies db
    ensures var s := AddArksOf(journalExists, journalCode, rows, articles, old(db.records), old(db.dois));
      failed == s.failed && db.records == s.records && db.dois == s.dois
  {
    if !journalExists {
      return Some(NoJournalMsg(journalCode));
    }
    var idMap, arkMap, ojsId := ReadExport(rows, journalCode);
    ghost var st0 := ImportState(ojsId, db.records, db.dois, None);
    failed := None;
    var i := 0;
    while i < |articles|
      invariant 0 <= i <= |articles|
      invariant ImportAll(st0, articles[..i], idMap, arkMap) == ImportState(ojsId, db.records, db.dois, failed)
      invariant failed.None?
    {
      assert articles[..i + 1][..i] == articles[..i];
      ojsId, failed := ImportOne(db, articles[i], idMap, arkMap, ojsId);
      if failed.Some? {
        assert ImportAll(st0, articles[..i + 1], idMap, arkMap).failed.Some?;
        StoppedImport(st0, articles, idMap, arkMap, i + 1);
        assert articles[..|articles|] == articles;
        return;
      }
      i := i + 1;
    }
    assert articles[..i] == articles;
  }

  /** Once an article has raised, the remaining ones change nothing. */
  lemma {:induction false} StoppedImport(st: ImportState, articles: seq<ImportedArticle>, idMap: map<string, ArkEntry>,
                                         arkMap: map<string, SourceEntry>, i: nat)
    requires i <= |articles| && ImportAll(st, articles[..i], idMap, arkMap).failed.Some?
    ensures ImportAll(st, articles, idMap, arkMap) == ImportAll(st, articles[..i], idMap, arkMap)
    decreases |articles| - i
  {
    if i < |articles| {
      assert articles[..i + 1][..i] == articles[..i];
      StoppedImport(st, articles, idMap, arkMap, i + 1);
    } else {
      assert articles[..i] == articles;
    }
  }
}
