/** The row loop of `update_sheet`: for each record of the worksheet whose
    FSN is not blank, scrape the product page named by the FSN and write the
    rating and the "ratings & reviews" text into columns D and E, first
    moving the old D and E into F and G when the stored text is non-empty
    and differs from the new one.

    The worksheet is an in-memory grid of cells; the browser is a function
    from an FSN to what the product page shows. */
module ReviewTracker {
  import opened Text
  import opened ExtractFloat
  import opened CleanRrText

  /** What the browser finds on the page of one FSN: the text of the rating
      element and of the ratings & reviews element, each `None` when the
      element did not appear within the wait. */
  datatype Page = Page(ratingText: Option<string>, rrText: Option<string>)

  /** The pair `(rating, rr_text)` that `get_rating_and_rr` returns. */
  datatype Scraped = Scraped(rating: Option<string>, rr: Option<string>)

  /** `get_rating_and_rr` after the page has been loaded: a missing element
      gives `None` for its field only. */
  function GetRatingAndRr(page: Page): (r: Scraped)
    ensures r.rating.Some? <==> page.ratingText.Some? && !NoDigit(page.ratingText.value)
    ensures r.rating.Some? ==> IsNumeral(r.rating.value)
    ensures r.rr.Some? <==> page.rrText.Some?
    ensures r.rr.Some? ==> NormalForm(r.rr.value)
    ensures r.rating.Some? ==> r.rating == ExtractFloat.ExtractFloat(page.ratingText)
    ensures r.rr.Some? ==> r.rr.value == Clean(page.rrText)
  {
    Scraped(
      if page.ratingText.Some? then ExtractFloat.ExtractFloat(page.ratingText) else None,
      if page.rrText.Some? then Some(Clean(page.rrText)) else None)
  }

  /** Sheet row 1 holds the headers; record `k` (from 0) is on row `k + 2`. */
  const FirstDataRow: int := 2
  const RatingCol: int := 4      // D
  const RrCol: int := 5          // E
  const PrevRatingCol: int := 6  // F
  const PrevRrCol: int := 7      // G

  /** A worksheet's cells by (row, column), both counted from 1. A cell that
      is not in the map is empty and reads as "". */
  type Grid = map<(int, int), string>

  function Get(g: Grid, row: int, col: int): string {
    if (row, col) in g then g[(row, col)] else ""
  }

  /** Whether the cell at `p` is the same (present with the same value, or
      absent) in both grids. */
  predicate SameCell(g: Grid, g': Grid, p: (int, int)) {
    (p in g <==> p in g') && (p in g ==> g[p] == g'[p])
  }

  /** Whether row `row` reads the same in both grids. */
  ghost predicate SameRow(g: Grid, g': Grid, row: int) {
    forall col :: Get(g, row, col) == Get(g', row, col)
  }

  /** The start of the loop body of `update_sheet`: the FSN cell is
      stripped of whitespace and the row is skipped when it is blank;
      otherwise the page is scraped, and the row is skipped when either field
      is missing. */
  function ScrapeRow(fsnCell: string, fetch: string -> Page): (r: Option<(string, string)>)
    ensures r.Some? <==>
      var scraped := GetRatingAndRr(fetch(Strip(fsnCell)));
      !AllSpace(fsnCell) && scraped.rating.Some? && scraped.rr.Some?
    ensures r.Some? ==> IsNumeral(r.value.0) && NormalForm(r.value.1)
    ensures r.Some? ==>
      var scraped := GetRatingAndRr(fetch(Strip(fsnCell)));
      r.value == (scraped.rating.value, scraped.rr.value)
  {
    var fsn := Strip(fsnCell);
    if fsn == [] then None
    else
      var scraped := GetRatingAndRr(fetch(fsn));
      if scraped.rating.None? || scraped.rr.None? then None
      else Some((scraped.rating.value, scraped.rr.value))
  }

  /** The rest of the loop body of `update_sheet`: the rule applied to
      sheet row `row` given what `ScrapeRow` made of its record. Only cells D to G of that row can
      change; a skipped row changes nothing; otherwise D and E receive the
      new values, and F and G receive the old D and E exactly when the old E
      is non-empty and differs from the new text. */
  function UpdateRow(g: Grid, row: int, scraped: Option<(string, string)>): (g': Grid)
    ensures forall p: (int, int) :: p.0 != row || p.1 < RatingCol || PrevRrCol < p.1 ==> SameCell(g, g', p)
    ensures scraped.None? ==> g' == g
    ensures scraped.Some? ==>
      var (rating, rr) := scraped.value;
      var (oldRating, oldRr) := (Get(g, row, RatingCol), Get(g, row, RrCol));
      && Get(g', row, RatingCol) == rating
      && Get(g', row, RrCol) == rr
      && if oldRr != "" && oldRr != rr then
           Get(g', row, PrevRatingCol) == oldRating && Get(g', row, PrevRrCol) == oldRr
         else
           SameCell(g, g', (row, PrevRatingCol)) && SameCell(g, g', (row, PrevRrCol))
  {
    match scraped
    case None => g
    case Some((rating, rr)) =>
      var oldRating := Get(g, row, RatingCol);
      var oldRr := Get(g, row, RrCol);
      var archived :=
        if oldRr != "" && oldRr != rr then g[(row, PrevRatingCol) := oldRating][(row, PrevRrCol) := oldRr]
        else g;
      archived[(row, RatingCol) := rating][(row, RrCol) := rr]
  }

  /** What `ScrapeRow` makes of each record, in order. */
  function ScrapeAll(records: seq<string>, fetch: string -> Page): seq<Option<(string, string)>> {
    seq(|records|, k requires 0 <= k < |records| => ScrapeRow(records[k], fetch))
  }

  /** The grid after the rule has been applied to the scraped records
      `results` in order, the record at index `k` on sheet row `k + 2`. Only
      columns D to G of the data rows can change. */
  function UpdateRows(g: Grid, results: seq<Option<(string, string)>>): (g': Grid)
    ensures forall p: (int, int) ::
      p.0 < FirstDataRow || |results| + FirstDataRow <= p.0 || p.1 < RatingCol || PrevRrCol < p.1 ==>
        SameCell(g, g', p)
  {
    if results == [] then g
    else
      var n := |results| - 1;
      UpdateRow(UpdateRows(g, results[..n]), n + FirstDataRow, results[n])
  }

  /** The rule reads nothing of the grid but its own row. */
  lemma UpdateRowReadsOnlyItsRow(g1: Grid, g2: Grid, row: int, scraped: Option<(string, string)>)
    requires SameRow(g1, g2, row)
    ensures SameRow(UpdateRow(g1, row, scraped), UpdateRow(g2, row, scraped), row)
  {
    var h1, h2 := UpdateRow(g1, row, scraped), UpdateRow(g2, row, scraped);
    forall col ensures Get(h1, row, col) == Get(h2, row, col) {
      assert Get(g1, row, col) == Get(g2, row, col);
      assert Get(g1, row, RrCol) == Get(g2, row, RrCol);
      assert Get(g1, row, RatingCol) == Get(g2, row, RatingCol);
      if col != RatingCol && col != RrCol && col != PrevRatingCol && col != PrevRrCol {
        assert SameCell(g1, h1, (row, col)) && SameCell(g2, h2, (row, col));
      }
    }
  }

  /** Running the rule a second time with the same scraped values changes
      nothing: the text in E already equals the new text, so nothing is
      archived again and D and E are rewritten with what they hold. */
  lemma UpdateRowRerun(g: Grid, row: int, scraped: Option<(string, string)>)
    ensures UpdateRow(UpdateRow(g, row, scraped), row, scraped) == UpdateRow(g, row, scraped)
  {
    if scraped.Some? {
      var h := UpdateRow(g, row, scraped);
      assert Get(h, row, RrCol) == scraped.value.1;
      assert h[(row, RatingCol) := scraped.value.0][(row, RrCol) := scraped.value.1] == h;
    }
  }

  /** Each data row ends up as the rule makes it from that row's original
      contents and its own record, whatever the other rows hold. */
  lemma {:induction false} UpdateRowsEachRow(g: Grid, results: seq<Option<(string, string)>>, k: int)
    requires 0 <= k < |results|
    ensures SameRow(UpdateRows(g, results), UpdateRow(g, k + FirstDataRow, results[k]), k + FirstDataRow)
  {
    var n := |results| - 1;
    var row := n + FirstDataRow;
    var before := UpdateRows(g, results[..n]);
    if k < n {
      UpdateRowsEachRow(g, results[..n], k);
    } else {
      forall col ensures Get(before, row, col) == Get(g, row, col) {
        assert SameCell(g, before, (row, col));
      }
      UpdateRowReadsOnlyItsRow(before, g, row, results[n]);
    }
  }

  /** Running the whole loop a second time over pages that have not changed
      leaves every data row as the first run left it. */
  lemma UpdateRowsRerun(g: Grid, results: seq<Option<(string, string)>>, k: int)
    requires 0 <= k < |results|
    ensures SameRow(UpdateRows(UpdateRows(g, results), results), UpdateRows(g, results), k + FirstDataRow)
  {
    var row := k + FirstDataRow;
    var once := UpdateRows(g, results);
    UpdateRowsEachRow(once, results, k);
    UpdateRowsEachRow(g, results, k);
    UpdateRowReadsOnlyItsRow(once, UpdateRow(g, row, results[k]), row, results[k]);
    UpdateRowRerun(g, row, results[k]);
  }

  /** The worksheet, updated in place one cell at a time. */
  class Worksheet {
    var cells: Grid

    constructor (initial: Grid)
      ensures cells == initial
    {
      cells := initial;
    }

    /** `sheet.cell(row, col).value`, with an empty cell read as "". */
    function Cell(row: int, col: int): (v: string)
      reads this
      ensures (row, col) in cells ==> v == cells[(row, col)]
      ensures (row, col) !in cells ==> v == ""
    {
      Get(cells, row, col)
    }

    /** `sheet.update_cell(row, col, value)`. */
    method UpdateCell(row: int, col: int, value: string)
      modifies this
      ensures cells == old(cells)[(row, col) := value]
    {
      cells := cells[(row, col) := value];
    }
  }

  /** The writes of the loop body of `update_sheet` on sheet row `i`, once
      both values have been scraped: archive the old D and E when the stored
      text is non-empty and differs, then write D and E. */
  method WriteRow(sheet: Worksheet, i: int, rating: string, rrText: string)
    modifies sheet
    ensures sheet.cells == UpdateRow(old(sheet.cells), i, Some((rating, rrText)))
  {
    var oldRating := sheet.Cell(i, RatingCol);
    var oldRr := sheet.Cell(i, RrCol);
    if oldRr != "" && oldRr != rrText {
      sheet.UpdateCell(i, PrevRatingCol, oldRating);
      sheet.UpdateCell(i, PrevRrCol, oldRr);
    }
    sheet.UpdateCell(i, RatingCol, rating);
    sheet.UpdateCell(i, RrCol, rrText);
  }

  /** The body of the `for` loop of `update_sheet`: one iteration, for the
      record whose FSN cell is `fsnCell`, on sheet row `i`. */
  method ProcessRecord(sheet: Worksheet, i: int, fsnCell: string, fetch: string -> Page)
    modifies sheet
    ensures sheet.cells == UpdateRow(old(sheet.cells), i, ScrapeRow(fsnCell, fetch))
  {
    var fsn := Strip(fsnCell);
    if fsn != [] {
      var scraped := GetRatingAndRr(fetch(fsn));
      if scraped.rating.Some? && scraped.rr.Some? {
        WriteRow(sheet, i, scraped.rating.value, scraped.rr.value);
      }
    }
  }

  /** `update_sheet` over the records `records` (the FSN cell of each record
      that `get_all_records` returned, in order). */
  method UpdateSheet(sheet: Worksheet, records: seq<string>, fetch: string -> Page)
    modifies sheet
    ensures sheet.cells == UpdateRows(old(sheet.cells), ScrapeAll(records, fetch))
  {
    ghost var results := ScrapeAll(records, fetch);
    for k := 0 to |records|
      invariant sheet.cells == UpdateRows(old(sheet.cells), results[..k])
    {
      assert results[..k + 1][..k] == results[..k];
      ProcessRecord(sheet, k + FirstDataRow, records[k], fetch);
    }
    assert results[..|records|] == results;
  }
}
