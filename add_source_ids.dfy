/** The `add_source_ids` management command (management/commands/add_source_ids.py):
    it reads an export of the repository's arks with their sources and external ids,
    and gives every `EscholArticle` of the journal that names a source the external id
    of its ark's row, when the row's source agrees. The export is given already parsed;
    the printed error lines are not modelled. */
module AddSourceIds {
  import opened Wrappers
  import opened Text
  import opened Models
  import opened AddArks

  /** One row of the export: the bare ark (`id`), the source and the id there. */
  datatype SourceRow = SourceRow(id: string, source: string, externalId: string)

  /** An `arks` value: the source and external id of a row. */
  datatype SourceInfo = SourceInfo(source: string, externalId: string)

  /** The `arks` map after reading `rows` in order, each row entered under its ark. */
  function ArkRows(rows: seq<SourceRow>): map<string, SourceInfo>
  {
    if |rows| == 0 then map[]
    else
      var n := |rows| - 1;
      ArkRows(rows[..n])[rows[n].id := SourceInfo(rows[n].source, rows[n].externalId)]
  }

  /** The journal code the records are selected by: its first 24 characters. */
  function JournalKey(code: string): (r: string)
    ensures |r| <= 24 && StartsWith(code, r)
    ensures |code| <= 24 ==> r == code
  {
    if |code| <= 24 then code else code[..24]
  }

  /** The records examined: those of the journal that name a source. */
  predicate Examined(e: EscholArticle, code: string)
  {
    e.article.journalCode == JournalKey(code) && e.sourceName.Some?
  }

  /** The key a record is looked up by: "qt" followed by its short ark. */
  function ArkKey(e: EscholArticle): string
  {
    "qt" + ShortArk(e.ark)
  }

  /** A record after the command: an examined record whose key is in `arks` with the
      same source takes the row's external id; every other record is left alone. */
  function Updated(e: EscholArticle, arks: map<string, SourceInfo>, code: string): EscholArticle
  {
    if Examined(e, code) && ArkKey(e) in arks && arks[ArkKey(e)].source == e.sourceName.value
    then e.(sourceId := Some(arks[ArkKey(e)].externalId))
    else e
  }

  /** The `EscholArticle` table after the command. */
  function UpdateAll(records: seq<EscholArticle>, arks: map<string, SourceInfo>, code: string): seq<EscholArticle>
  {
    seq(|records|, i requires 0 <= i < |records| => Updated(records[i], arks, code))
  }

  /** `arks` holds every ark of the export, with the source and id of the last row
      that has it. */
  lemma {:induction false} ArkRowsLast(rows: seq<SourceRow>, i: nat)
    requires i < |rows| && forall j :: i < j < |rows| ==> rows[j].id != rows[i].id
    ensures rows[i].id in ArkRows(rows)
    ensures ArkRows(rows)[rows[i].id] == SourceInfo(rows[i].source, rows[i].externalId)
  {
    var n := |rows| - 1;
    if i < n {
      assert rows[..n][i] == rows[i];
      forall j | i < j < n ensures rows[..n][j].id != rows[..n][i].id {
        assert rows[..n][j] == rows[j];
      }
      ArkRowsLast(rows[..n], i);
    }
  }

  /** `arks` holds exactly the arks of the export. */
  lemma {:induction false} ArkRowsKeys(rows: seq<SourceRow>)
    ensures forall k :: k in ArkRows(rows) <==> exists i :: 0 <= i < |rows| && rows[i].id == k
  {
    if |rows| > 0 {
      var n := |rows| - 1;
      ArkRowsKeys(rows[..n]);
      forall k ensures k in ArkRows(rows) <==> exists i :: 0 <= i < |rows| && rows[i].id == k {
        if k in ArkRows(rows[..n]) {
          var i :| 0 <= i < n && rows[..n][i].id == k;
          assert rows[i] == rows[..n][i];
        }
        if exists i :: 0 <= i < |rows| && rows[i].id == k {
          var i :| 0 <= i < |rows| && rows[i].id == k;
          if i < n { assert rows[..n][i] == rows[i]; }
        }
      }
    }
  }

  /** Only `source_id` ever changes, and only on an examined record whose key has a row
      with the record's own source, which then supplies it; a source mismatch or a
      missing ark leaves the record unchanged. Records keep their place. */
  lemma UpdateRule(records: seq<EscholArticle>, arks: map<string, SourceInfo>, code: string)
    ensures var r := UpdateAll(records, arks, code);
      |r| == |records|
      && forall i :: 0 <= i < |records| ==>
           r[i].(sourceId := records[i].sourceId) == records[i]
           && (r[i] == records[i]
               || (Examined(records[i], code) && ArkKey(records[i]) in arks
                   && arks[ArkKey(records[i])].source == records[i].sourceName.value))
           && (Examined(records[i], code) && ArkKey(records[i]) in arks
               && arks[ArkKey(records[i])].source == records[i].sourceName.value ==>
                 r[i].sourceId == Some(arks[ArkKey(records[i])].externalId))
  {
  }

  /** Running the command a second time with the same export changes nothing more. */
  lemma UpdateIdempotent(records: seq<EscholArticle>, arks: map<string, SourceInfo>, code: string)
    ensures UpdateAll(UpdateAll(records, arks, code), arks, code) == UpdateAll(records, arks, code)
  {
    var once := UpdateAll(records, arks, code);
    forall i | 0 <= i < |records|
      ensures Updated(once[i], arks, code) == once[i]
    {
      var e := records[i];
      if Examined(e, code) && ArkKey(e) in arks && arks[ArkKey(e)].source == e.sourceName.value {
        assert ArkKey(once[i]) == ArkKey(e);
      }
    }
  }

  /** A record stored by `add_arks` from an export row whose bare ark has the usual
      shape, "qt" and eight characters, is found by `add_source_ids` under that same
      bare ark. */
  lemma StoredArkFound(bare: string, x: string, e: EscholArticle)
    requires bare == "qt" + x && |x| == 8 && '/' !in x && e.ark == ArkPrefix + bare
    ensures ArkKey(e) == bare
  {
    assert ArkPrefix + bare == ArkPrefix + "qt" + x;
    CanonicalArkParts(x, "");
  }

  /** The first loop of the command: the export read row by row. */
  method ReadArks(rows: seq<SourceRow>) returns (arks: map<string, SourceInfo>)
    ensures arks == ArkRows(rows)
  {
    arks := map[];
    var i := 0;
    while i < |rows|
      invariant 0 <= i <= |rows|
      invariant arks == ArkRows(rows[..i])
    {
      assert rows[..i + 1][..i] == rows[..i];
      arks := arks[rows[i].id := SourceInfo(rows[i].source, rows[i].externalId)];
      i := i + 1;
    }
    assert rows[..i] == rows;
  }

  /** One pass of the second loop: the record at `i` is examined and, when its row
      agrees, given the row's external id and saved. */
  method UpdateOne(db: ImportDb, i: nat, key: string, code: string, arks: map<string, SourceInfo>)
    requires i < |db.records| && key == JournalKey(code)
    modifies db`records
    ensures db.records == old(db.records)[i := Updated(old(db.records)[i], arks, code)]
  {
    var a := db.records[i];
    if a.article.journalCode == key && a.sourceName.Some? {
      var ark := "qt" + ShortArk(a.ark);
      if ark in arks {
        var row := arks[ark];
        if row.source == a.sourceName.value {
          db.records := db.records[i := a.(sourceId := Some(row.externalId))];
        }
      }
    }
  }

  /** `add_source_ids`: reads the export, then updates the examined records in place. */
  method AddSourceIdsCommand(db: ImportDb, code: string, rows: seq<SourceRow>)
    modifies db`records
    ensures db.records == UpdateAll(old(db.records), ArkRows(rows), code)
  {
    var key := JournalKey(code);
    var arks := ReadArks(rows);
    ghost var before := db.records;
    var i := 0;
    while i < |db.records|
      invariant 0 <= i <= |db.records| == |before|
      invariant forall j :: 0 <= j < i ==> db.records[j] == Updated(before[j], arks, code)
      invariant forall j :: i <= j < |before| ==> db.records[j] == before[j]
    {
      UpdateOne(db, i, key, code, arks);
      i := i + 1;
    }
  }
}
