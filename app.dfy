/**
 * The page and the request handler together: what the page makes of a
 * `fetch` answer, and what a status toggle does to the sheet.
 */
module GiftRoundTrip {
  import opened JsText
  import opened GiftModel
  import opened Status
  import opened GiftJson
  import opened GiftFilters
  import opened SheetHandler
  import opened GiftPage

  /** The page, unwrapping the JSONP answer to its `fetch` request and
      reading the JSON, gets exactly the records of the sheet, newest
      first, and renders every one of them. */
  lemma PageReadsFetchAnswer(rows: seq<Row>, callback: string)
    requires callback != ""
    ensures var parsed := ParseGifts(UnwrapJsonp(FetchBody(rows, callback), callback).value);
      && parsed == Some(FetchRecords(rows))
      && DisplayGifts(parsed.value) == if FetchRecords(rows) == [] then NoGifts else Cards(FetchRecords(rows))
  {
    FetchedRecordsAreAllShown(rows);
  }

  /** Every fetched record passes the page's validity filter, so the page
      shows all of them and never the "invalid data" state. */
  lemma FetchedRecordsAreAllShown(rows: seq<Row>)
    ensures ValidGifts(FetchRecords(rows)) == FetchRecords(rows)
    ensures DisplayGifts(FetchRecords(rows))
         == if FetchRecords(rows) == [] then NoGifts else Cards(FetchRecords(rows))
  {
    FilterAll(FetchRecords(rows), HasKey);
  }

  /** A toggle on a gift with a `kdo` and a `co` always passes the
      handler's parameter check: the next status is never empty. The row
      it writes holds the pair, the copied `odKoho` and `odkaz`, and the
      next status. */
  lemma ToggleRequestIsAccepted(gs: seq<Gift>, kdo: string, co: string, currentStatus: string)
    requires kdo != "" && co != ""
    ensures SaveParamsPresent(ToggleRequest(gs, kdo, co, currentStatus))
    ensures var p := ToggleRequest(gs, kdo, co, currentStatus);
      SaveValues(p) == [kdo, p["odKoho"], co, p["odkaz"], GetNextStatus(currentStatus)]
  {
    var p := ToggleRequest(gs, kdo, co, currentStatus);
    assert p["status"] in Cycle;
  }

  /** After a toggle on a sheet with its header, the next `fetch` lists
      the gift with its next status. */
  lemma ToggleThenFetchShowsNextStatus(rows: seq<Row>, gs: seq<Gift>, kdo: string, co: string, currentStatus: string)
    requires |rows| >= 1 && kdo != "" && co != ""
    ensures var p := ToggleRequest(gs, kdo, co, currentStatus);
      Gift(kdo, p["odKoho"], co, p["odkaz"], GetNextStatus(currentStatus))
        in FetchRecords(Upsert(rows, SaveValues(p)))
  {
    var p := ToggleRequest(gs, kdo, co, currentStatus);
    ToggleRequestIsAccepted(gs, kdo, co, currentStatus);
    SaveThenFetchShowsGift(rows, SaveValues(p));
  }

  /** A sheet holding the same (kdo, co) pair twice. */
  const DuplicateSheet: seq<Row> := [
    ["Kdo", "Od koho", "Co", "Odkaz", "Status"],
    ["Eva", "Jan", "Kniha", "", "Koupeno"],
    ["Eva", "Petr", "Kniha", "", "Zabaleno"]]

  /** The page lists the newer of the two rows first. */
  lemma DuplicateSheetFetch()
    ensures FetchRecords(DuplicateSheet)
         == [Gift("Eva", "Petr", "Kniha", "", "Zabaleno"), Gift("Eva", "Jan", "Kniha", "", "Koupeno")]
  {
    assert RowToGift(DuplicateSheet[1]) == Gift("Eva", "Jan", "Kniha", "", "Koupeno");
    assert RowToGift(DuplicateSheet[2]) == Gift("Eva", "Petr", "Kniha", "", "Zabaleno");
    var data := RowsToGifts(DuplicateSheet[1..]);
    assert data == [Gift("Eva", "Jan", "Kniha", "", "Koupeno"), Gift("Eva", "Petr", "Kniha", "", "Zabaleno")];
  }

  /** With a duplicated pair the page copies the `odKoho` of the newer
      row, while the handler overwrites the older row: a `toggleStatus`
      call for the first card rewrites the other row and leaves the one
      that card shows as it was. */
  lemma ToggleOnDuplicateRewritesOlderRow()
    ensures var p := ToggleRequest(FetchRecords(DuplicateSheet), "Eva", "Kniha", "Zabaleno");
      var after := Upsert(DuplicateSheet, SaveValues(p));
      && after[2] == DuplicateSheet[2]
      && after[1] == ["Eva", "Petr", "Kniha", "", Presented]
  {
    DuplicateSheetFetch();
    var gs := FetchRecords(DuplicateSheet);
    var p := ToggleRequest(gs, "Eva", "Kniha", "Zabaleno");
    assert p["odKoho"] == "Petr";
    assert FirstMatch(DuplicateSheet, "Eva", "Kniha") == Some(1);
    var values := SaveValues(p);
    assert values == ["Eva", "Petr", "Kniha", "", Presented];
    assert Overwrite(DuplicateSheet[1], values) == values;
  }
}
