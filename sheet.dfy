/**
 * The request handler `doGet` of the spreadsheet behind the page. The
 * sheet is the list of its rows up to the last row with content, row 0
 * being the header; a request's parameters are a map from name to value.
 * `fetch` lists the records of the sheet, `save` updates the row of a
 * gift or appends one, and any other action appends a `[date, quote]`
 * row.
 */
module SheetHandler {
  import opened JsText
  import opened GiftModel
  import opened GiftJson

  /** One row of the sheet, as text cells from column A on. */
  type Row = seq<string>

  /** The cell in column i (0 for column A), or '' past the row's end:
      the handler reads at least five columns, so a short row reads as
      padded with empty cells. */
  function Cell(row: Row, i: nat): string
  {
    if i < |row| then row[i] else ""
  }

  /** A data row read as a record: columns A to E in order, a short row
      padded with empty cells. */
  function RowToGift(row: Row): (g: Gift)
    ensures [g.kdo, g.odKoho, g.co, g.odkaz, g.status] == (row + ["", "", "", "", ""])[..5]
  {
    Gift(Cell(row, 0), Cell(row, 1), Cell(row, 2), Cell(row, 3), Cell(row, 4))
  }

  function RowsToGifts(rs: seq<Row>): (gs: seq<Gift>)
    ensures |gs| == |rs|
    ensures forall i :: 0 <= i < |rs| ==> gs[i] == RowToGift(rs[i])
  {
    seq(|rs|, i requires 0 <= i < |rs| => RowToGift(rs[i]))
  }

  lemma RowsToGiftsAppend(rs: seq<Row>, row: Row)
    ensures RowsToGifts(rs + [row]) == RowsToGifts(rs) + [RowToGift(row)]
  {
    var l, r := RowsToGifts(rs + [row]), RowsToGifts(rs) + [RowToGift(row)];
    assert |l| == |r|;
    forall i | 0 <= i < |l|
      ensures l[i] == r[i]
    {
      if i < |rs| {
        assert (rs + [row])[i] == rs[i];
      }
    }
  }

  /** The records `fetch` answers with: nothing for a sheet with no data
      row; otherwise every data row with a `kdo` and a `co`, newest (last)
      row first. */
  function FetchRecords(rows: seq<Row>): (r: seq<Gift>)
    ensures |rows| <= 1 ==> r == []
    ensures |rows| > 1 ==> |r| <= |rows| - 1
    ensures forall g :: g in r ==> HasKey(g)
    ensures forall g :: g in r <==> exists i :: 1 <= i < |rows| && RowToGift(rows[i]) == g && HasKey(g)
  {
    if |rows| <= 1 then []
    else
      var data := RowsToGifts(rows[1..]);
      var kept := Filter(data, HasKey);
      ReverseMembers(kept);
      assert forall g :: g in data <==> exists i :: 1 <= i < |rows| && RowToGift(rows[i]) == g by {
        forall g ensures g in data <==> exists i :: 1 <= i < |rows| && RowToGift(rows[i]) == g {
          if g in data {
            var k :| 0 <= k < |data| && data[k] == g;
            assert RowToGift(rows[k + 1]) == g;
          }
          if exists i :: 1 <= i < |rows| && RowToGift(rows[i]) == g {
            var i :| 1 <= i < |rows| && RowToGift(rows[i]) == g;
            assert data[i - 1] == g;
          }
        }
      }
      Reverse(kept)
  }

  /** The header row is never read as a record: replacing it changes
      nothing. */
  lemma FetchIgnoresHeader(rows: seq<Row>, header: Row)
    requires |rows| >= 1
    ensures FetchRecords([header] + rows[1..]) == FetchRecords(rows)
  {
    assert ([header] + rows[1..])[1..] == rows[1..];
  }

  /** A row appended below a sheet that has its header comes first in the
      next `fetch` when it has a `kdo` and a `co`, and is skipped
      otherwise; the other records keep their order. */
  lemma FetchNewestFirst(rows: seq<Row>, row: Row)
    requires |rows| >= 1
    ensures HasKey(RowToGift(row)) ==> FetchRecords(rows + [row]) == [RowToGift(row)] + FetchRecords(rows)
    ensures !HasKey(RowToGift(row)) ==> FetchRecords(rows + [row]) == FetchRecords(rows)
  {
    FetchAppendedRow(rows, row);
    FetchOfData(rows);
    ReverseFilterAppend(RowsToGifts(rows[1..]), RowToGift(row), HasKey);
  }

  /** FetchRecords unfolded on a sheet that has its header. */
  lemma FetchOfData(rows: seq<Row>)
    requires |rows| >= 1
    ensures FetchRecords(rows) == Reverse(Filter(RowsToGifts(rows[1..]), HasKey))
  {
    if |rows| == 1 {
      assert RowsToGifts(rows[1..]) == [];
    }
  }

  lemma FetchAppendedRow(rows: seq<Row>, row: Row)
    requires |rows| >= 1
    ensures FetchRecords(rows + [row]) == Reverse(Filter(RowsToGifts(rows[1..]) + [RowToGift(row)], HasKey))
  {
    assert (rows + [row])[1..] == rows[1..] + [row];
    RowsToGiftsAppend(rows[1..], row);
  }

  /** `e.parameter[k]`, where a missing parameter and an empty one are
      both falsy. */
  function Param(p: map<string, string>, k: string): string
  {
    if k in p then p[k] else ""
  }

  const MissingSaveParams: string := "ERROR: Missing required parameters (kdo, co, status)"
  const MissingQuoteParams: string := "ERROR: Missing date or quote parameter"

  /** `save` goes ahead only when `kdo`, `co` and `status` are all
      given and non-empty. */
  predicate SaveParamsPresent(p: map<string, string>)
  {
    Param(p, "kdo") != "" && Param(p, "co") != "" && Param(p, "status") != ""
  }

  /** The five cells `save` writes, `odKoho` and `odkaz` defaulting to ''. */
  function SaveValues(p: map<string, string>): (values: Row)
    ensures |values| == 5
    ensures RowToGift(values)
         == Gift(Param(p, "kdo"), Param(p, "odKoho"), Param(p, "co"), Param(p, "odkaz"), Param(p, "status"))
  {
    [Param(p, "kdo"), Param(p, "odKoho"), Param(p, "co"), Param(p, "odkaz"), Param(p, "status")]
  }

  /** `setValues` on columns A to E of one row: those five cells take the
      new values, the cells from column F on stay as they were. */
  function Overwrite(row: Row, values: Row): (r: Row)
    requires |values| == 5
    ensures |r| == if |row| > 5 then |row| else 5
    ensures r[..5] == values
    ensures forall i :: 5 <= i < |row| ==> r[i] == row[i]
  {
    values + (if |row| > 5 then row[5..] else [])
  }

  predicate KeyAt(rows: seq<Row>, i: nat, kdo: string, co: string)
    requires i < |rows|
  {
    Cell(rows[i], 0) == kdo && Cell(rows[i], 2) == co
  }

  /** The first row at index from or later whose column A is kdo and
      whose column C is co. */
  function MatchFrom(rows: seq<Row>, kdo: string, co: string, from: nat): (r: Option<nat>)
    ensures r.Some? ==> from <= r.value < |rows| && KeyAt(rows, r.value, kdo, co)
    ensures forall j :: from <= j < |rows| && (r.None? || j < r.value) ==> !KeyAt(rows, j, kdo, co)
    decreases |rows| - from
  {
    if from >= |rows| then None
    else if KeyAt(rows, from, kdo, co) then Some(from)
    else MatchFrom(rows, kdo, co, from + 1)
  }

  /** The data row `save` overwrites: the first one below the header that
      carries the pair (kdo, co). */
  function FirstMatch(rows: seq<Row>, kdo: string, co: string): (r: Option<nat>)
    ensures r.Some? ==> 1 <= r.value < |rows| && KeyAt(rows, r.value, kdo, co)
    ensures forall j :: 1 <= j < |rows| && (r.None? || j < r.value) ==> !KeyAt(rows, j, kdo, co)
  {
    MatchFrom(rows, kdo, co, 1)
  }

  /** A row with at least one non-empty cell. */
  predicate HasContent(row: Row)
  {
    exists k :: 0 <= k < |row| && row[k] != ""
  }

  /** The rows of a sheet as `getLastRow` bounds them: the last row, when
      there is one, has content. */
  predicate EndsWithContent(rows: seq<Row>)
  {
    rows == [] || HasContent(rows[|rows| - 1])
  }

  /** The sheet after a `save` whose parameters are present: exactly one
      row, below the header unless the sheet was empty, now starts with
      the five values and every other row is as it was; the sheet grows by
      that row exactly when no data row carried the pair (kdo, co). */
  function Upsert(rows: seq<Row>, values: Row): (r: seq<Row>)
    requires |values| == 5
    ensures |r| == |rows| || r == rows + [values]
    ensures |r| == |rows| <==> FirstMatch(rows, values[0], values[2]).Some?
    ensures exists i :: 0 <= i < |r| && (rows == [] || 1 <= i) && |r[i]| >= 5 && r[i][..5] == values
                        && forall j :: 0 <= j < |rows| && j != i ==> r[j] == rows[j]
    ensures values[0] != "" && EndsWithContent(rows) ==> EndsWithContent(r)
  {
    match FirstMatch(rows, values[0], values[2])
    case Some(i) =>
      var r := rows[i := Overwrite(rows[i], values)];
      assert r[i][0] == values[0];
      assert r[|r| - 1] == rows[|rows| - 1] || r[|r| - 1][0] == values[0];
      r
    case None =>
      var r := rows + [values];
      assert r[|rows|][..5] == values;
      assert r[|r| - 1][0] == values[0];
      r
  }

  /** The text `save` answers with once its parameters are present: it
      names, counting from 1, the row it wrote (the first data row with
      the pair, or the new last row), which now holds the values, and says
      `updated` when the sheet kept its size and `added` when it grew. */
  function SaveBody(rows: seq<Row>, values: Row): (body: string)
    requires |values| == 5
    ensures var r, m := Upsert(rows, values), FirstMatch(rows, values[0], values[2]);
      exists n :: 1 <= n <= |r| && n - 1 == (if m.Some? then m.value else |rows|)
        && |r[n - 1]| >= 5 && r[n - 1][..5] == values
        && body == (if |r| == |rows| then "SUCCESS: Gift updated in row " else "SUCCESS: Gift added to row ")
                   + NatToString(n)
  {
    var r := Upsert(rows, values);
    match FirstMatch(rows, values[0], values[2])
    case Some(i) =>
      assert r[i][..5] == values;
      "SUCCESS: Gift updated in row " + NatToString(i + 1)
    case None =>
      assert r[|rows|][..5] == values;
      "SUCCESS: Gift added to row " + NatToString(|rows| + 1)
  }

  /** The text `fetch` answers with: the page, unwrapping the call to its
      callback and reading the JSON, gets exactly the records of the
      sheet; without a callback the body is that JSON itself. */
  function FetchBody(rows: seq<Row>, callback: string): (body: string)
    ensures callback == "" ==> ParseGifts(body) == Some(FetchRecords(rows))
    ensures callback != "" ==>
              && UnwrapJsonp(body, callback).Some?
              && ParseGifts(UnwrapJsonp(body, callback).value) == Some(FetchRecords(rows))
  {
    JsonpBody(callback, GiftsToJson(FetchRecords(rows)))
  }

  /** When a data row carries the pair, only the first such row changes:
      its columns A to E become the new values, and the row count, the
      header and every other row stay as they were. */
  lemma UpsertOverwritesFirstMatch(rows: seq<Row>, values: Row)
    requires |values| == 5
    requires exists i :: 1 <= i < |rows| && KeyAt(rows, i, values[0], values[2])
    ensures var r := Upsert(rows, values);
      && |r| == |rows|
      && exists i :: 1 <= i < |rows| && KeyAt(rows, i, values[0], values[2])
           && (forall j :: 1 <= j < i ==> !KeyAt(rows, j, values[0], values[2]))
           && |r[i]| == (if |rows[i]| > 5 then |rows[i]| else 5)
           && r[i][..5] == values
           && (forall k :: 5 <= k < |rows[i]| ==> r[i][k] == rows[i][k])
           && (forall j :: 0 <= j < |rows| && j != i ==> r[j] == rows[j])
  {
    var i :| 1 <= i < |rows| && KeyAt(rows, i, values[0], values[2]);
    var m := FirstMatch(rows, values[0], values[2]);
    assert m.Some?;
  }

  /** When no data row carries the pair, exactly one row holding the new
      values is added at the end. */
  lemma UpsertAppendsNewRow(rows: seq<Row>, values: Row)
    requires |values| == 5
    requires forall i :: 1 <= i < |rows| ==> !KeyAt(rows, i, values[0], values[2])
    ensures Upsert(rows, values) == rows + [values]
  {
  }

  lemma OverwriteTwice(row: Row, values: Row)
    requires |values| == 5
    ensures Overwrite(Overwrite(row, values), values) == Overwrite(row, values)
  {
    var once := Overwrite(row, values);
    if |row| > 5 {
      assert once[5..] == row[5..];
    }
  }

  /** Saving the same gift twice leaves the sheet as saving it once, on a
      sheet that has its header row. */
  lemma UpsertIdempotent(rows: seq<Row>, values: Row)
    requires |values| == 5
    requires |rows| >= 1
    ensures Upsert(Upsert(rows, values), values) == Upsert(rows, values)
  {
    var kdo, co := values[0], values[2];
    var once := Upsert(rows, values);
    match FirstMatch(rows, kdo, co)
    case Some(i) =>
      assert KeyAt(once, i, kdo, co);
      assert forall j :: 1 <= j < i ==> once[j] == rows[j];
      assert FirstMatch(once, kdo, co) == Some(i) by {
        var m := FirstMatch(once, kdo, co);
        assert m.Some? && m.value <= i;
        if m.value < i {
          assert KeyAt(rows, m.value, kdo, co);
        }
      }
      OverwriteTwice(rows[i], values);
    case None =>
      var n := |rows|;
      assert KeyAt(once, n, kdo, co);
      assert forall j :: 1 <= j < n ==> once[j] == rows[j];
      assert FirstMatch(once, kdo, co) == Some(n) by {
        var m := FirstMatch(once, kdo, co);
        assert m.Some? && m.value <= n;
        if m.value < n {
          assert KeyAt(rows, m.value, kdo, co);
        }
      }
      assert Overwrite(values, values) == values;
  }

  /** On a sheet with no row at all the first saved gift lands in row 1,
      which every later request treats as the header, so saving the same
      gift again appends it a second time. */
  lemma EmptySheetSavesTwice(values: Row)
    requires |values| == 5
    ensures Upsert([], values) == [values]
    ensures Upsert(Upsert([], values), values) == [values, values]
  {
  }

  /** After a `save` on a sheet with its header, the next `fetch` lists
      the saved gift; a newly added gift comes first, before all the
      records listed before. */
  lemma SaveThenFetchShowsGift(rows: seq<Row>, values: Row)
    requires |values| == 5 && |rows| >= 1
    requires HasKey(RowToGift(values))
    ensures RowToGift(values) in FetchRecords(Upsert(rows, values))
    ensures FirstMatch(rows, values[0], values[2]).None? ==>
              FetchRecords(Upsert(rows, values)) == [RowToGift(values)] + FetchRecords(rows)
  {
    var r := Upsert(rows, values);
    match FirstMatch(rows, values[0], values[2])
    case Some(i) =>
      assert RowToGift(r[i]) == RowToGift(values) by {
        assert r[i][..5] == values;
        assert r[i][0] == values[0] && r[i][1] == values[1] && r[i][2] == values[2]
            && r[i][3] == values[3] && r[i][4] == values[4];
      }
    case None =>
      FetchNewestFirst(rows, values);
  }

  /** The sheet `doGet` reads and writes. */
  class Spreadsheet {
    var rows: seq<Row>

    constructor(initial: seq<Row>)
      requires EndsWithContent(initial)
      ensures rows == initial
    {
      rows := initial;
    }

    /** The `save` branch: check the parameters, look for the first data
        row with the same (kdo, co), then overwrite it or append a row. */
    method Save(p: map<string, string>) returns (body: string)
      requires EndsWithContent(rows)
      modifies this
      ensures EndsWithContent(rows)
      ensures !SaveParamsPresent(p) ==> body == MissingSaveParams && rows == old(rows)
      ensures SaveParamsPresent(p) ==>
                rows == Upsert(old(rows), SaveValues(p)) && body == SaveBody(old(rows), SaveValues(p))
    {
      var kdo, odKoho, co := Param(p, "kdo"), Param(p, "odKoho"), Param(p, "co");
      var odkaz, status := Param(p, "odkaz"), Param(p, "status");
      if kdo == "" || co == "" || status == "" {
        return MissingSaveParams;
      }
      var values := [kdo, odKoho, co, odkaz, status];
      assert values == SaveValues(p);
      var lastRow := |rows|;
      var foundRow := -1;
      if lastRow > 1 {
        var i := 1;
        while i < lastRow
          invariant 1 <= i <= lastRow
          invariant foundRow == -1
          invariant MatchFrom(rows, kdo, co, i) == FirstMatch(rows, kdo, co)
          decreases lastRow - i
        {
          if Cell(rows[i], 0) == kdo && Cell(rows[i], 2) == co {
            foundRow := i + 1;
            break;
          }
          i := i + 1;
        }
      }
      assert foundRow > 0 ==> FirstMatch(rows, kdo, co) == Some(foundRow - 1);
      assert foundRow <= 0 ==> FirstMatch(rows, kdo, co).None?;
      if foundRow > 0 {
        rows := rows[foundRow - 1 := Overwrite(rows[foundRow - 1], values)];
        body := "SUCCESS: Gift updated in row " + NatToString(foundRow);
      } else {
        rows := rows + [values];
        body := "SUCCESS: Gift added to row " + NatToString(|rows|);
      }
    }

    /** The legacy branch: append `[date, quote]` when both are given. */
    method AddQuote(p: map<string, string>) returns (body: string)
      requires EndsWithContent(rows)
      modifies this
      ensures EndsWithContent(rows)
      ensures Param(p, "date") == "" || Param(p, "quote") == "" ==>
                body == MissingQuoteParams && rows == old(rows)
      ensures Param(p, "date") != "" && Param(p, "quote") != "" ==>
                && rows == old(rows) + [[Param(p, "date"), Param(p, "quote")]]
                && body == "SUCCESS: Quote added to row " + NatToString(|rows|)
    {
      var date, quote := Param(p, "date"), Param(p, "quote");
      if date == "" || quote == "" {
        return MissingQuoteParams;
      }
      rows := rows + [[date, quote]];
      assert rows[|rows| - 1][0] == date;
      body := "SUCCESS: Quote added to row " + NatToString(|rows|);
    }

    /** `doGet`: dispatch on the `action` parameter; only `save` and the
        legacy branch write to the sheet. */
    method DoGet(p: map<string, string>) returns (body: string)
      requires EndsWithContent(rows)
      modifies this
      ensures EndsWithContent(rows)
      ensures Param(p, "action") == "fetch" ==>
                rows == old(rows) && body == FetchBody(rows, Param(p, "callback"))
      ensures Param(p, "action") == "save" && SaveParamsPresent(p) ==>
                rows == Upsert(old(rows), SaveValues(p)) && body == SaveBody(old(rows), SaveValues(p))
      ensures Param(p, "action") == "save" && !SaveParamsPresent(p) ==>
                rows == old(rows) && body == MissingSaveParams
      ensures Param(p, "action") != "fetch" && Param(p, "action") != "save" ==>
                if Param(p, "date") == "" || Param(p, "quote") == "" then
                  rows == old(rows) && body == MissingQuoteParams
                else
                  rows == old(rows) + [[Param(p, "date"), Param(p, "quote")]]
                  && body == "SUCCESS: Quote added to row " + NatToString(|rows|)
    {
      var action := Param(p, "action");
      if action == "fetch" {
        body := FetchBody(rows, Param(p, "callback"));
      } else if action == "save" {
        body := Save(p);
      } else {
        body := AddQuote(p);
      }
    }
  }
}
