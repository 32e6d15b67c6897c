# Flipkart review tracker, modelled in Dafny

`review_tracker.py` keeps a spreadsheet of products up to date. Each record
of the worksheet holds a product identifier (the FSN). For every record
whose FSN is not blank, the script opens the product page and reads two
elements. When both elements are present and the rating text contains a
digit, it writes them into the record's row:

- the star rating, taken from the rating element by `extract_float`, goes
  into column D;
- the "ratings & reviews" label, normalised by `clean_rr_text`, goes into
  column E.

Before column E is overwritten with a label that differs from a non-empty
stored one, the old D and E are copied into F and G.

The model has four modules, one per file:

- `Text` (`text.dfy`): the whitespace and digit classes, and Python's
  `strip`.
- `ExtractFloat` (`extract_float.dfy`): the search for
  `\d+(?:\.\d+)?`.
  - `Search` scans the text.
  - `IsLeftmostMatch` states independently which match the search must
    find: it starts at the first digit, and its digit runs are maximal.
  - `LeftmostMatchUnique` shows that this statement determines the match.
- `CleanRrText` (`clean_rr_text.dfy`): `clean_rr_text`.
  - `Clean` performs the source's five steps one after another: two
    character replacements, two regular-expression substitutions and a
    strip.
  - `Canonical` is an independent one-pass definition of the same normal
    form; `Clean` is proved equal to it.
  - The output shape (`NormalForm`) is proved about `Canonical`.
  - The texts that `Clean` leaves unchanged are proved to be exactly the
    texts in normal form. Idempotence follows from this.
- `ReviewTracker` (`update_sheet.dfy`): `get_rating_and_rr` and the row loop
  of `update_sheet`.
  - The worksheet is a class holding a grid of cells, updated in place one
    cell at a time.
  - `UpdateSheet` is the loop, with `ProcessRecord` as its body. It is
    proved to produce `UpdateRows`, a fold of the per-row rule `UpdateRow`
    over what `ScrapeRow` makes of each record, in order.
  - About that fold, the model proves:
    - which cells can change;
    - that each row depends only on its own record and cells;
    - that a second run over unchanged pages leaves every data row as it
      was.

## Model

| member | source | states |
|---|---|---|
| `Text.IsSpaceChars` | review_tracker.py:52-53 | `IsSpace`, the model of `\s`, holds exactly for space, tab, line feed, vertical tab, form feed, carriage return and U+00A0. |
| `Text.IsDigitChars` | review_tracker.py:43 | `IsDigit`, the model of `\d`, holds exactly for `0` to `9`. |
| `Text.Strip` | review_tracker.py:82 | The stripped FSN neither begins nor ends with whitespace, and is empty exactly when the cell is all whitespace. |
| `Text.LStrip` | review_tracker.py:82 | Leading whitespace is removed. The result is empty exactly when the input is all whitespace; otherwise it starts with a non-whitespace character. |
| `Text.LStripSuffix` | review_tracker.py:82 | `lstrip` returns a suffix of its input, and everything before that suffix is whitespace. |
| `Text.RStripSlices` | review_tracker.py:82 | `rstrip` returns a prefix of its input, and everything after that prefix is whitespace. |
| `Text.StripInfix` | review_tracker.py:82 | `strip` returns a slice of its input with only whitespace before and after it. This is the FSN handed to the browser. |
| `Text.RStrip` | review_tracker.py:82 | The result is a prefix of the input. Everything after it is whitespace, and it does not end in whitespace. |
| `Text.RStripPrefix` | review_tracker.py:53 | Right-stripping only ever removes trailing whitespace: a prefix that ends in a non-whitespace character survives. |
| `ExtractFloat.RunEnd` | review_tracker.py:43 | `\d+` is greedy: the returned end bounds a run of digits, followed by the end of the text or a non-digit. |
| `ExtractFloat.FindDigit` | review_tracker.py:46 | The search position is the first digit at or after the start. There is none exactly when no digit follows. |
| `ExtractFloat.Search` | review_tracker.py:43-46 | No match exactly when the text has no digit. Otherwise the match starts at the first digit with a maximal digit run. The `.digits` group is present exactly when a `.` and a digit follow that run, and its digit run is then maximal. |
| `ExtractFloat.LeftmostMatchUnique` | review_tracker.py:43-46 | Those conditions leave only one possible match. |
| `ExtractFloat.SearchIsTheLeftmostMatch` | review_tracker.py:43-46 | Any match that meets the conditions is the one the search returns. |
| `ExtractFloat.MatchIsNumeral` | review_tracker.py:43 | A matched token consists of digits and at most one `.`, and begins and ends with a digit. |
| `ExtractFloat.ExtractFloat` | review_tracker.py:45-47 | `None` is read as "". The result is absent exactly when the text has no digit. Otherwise it is the matched token, a numeral. |
| `ExtractFloat.Examples` | review_tracker.py:45-47 | "4.3 out of 5" gives 4.3. "4." gives 4, because the fraction needs a digit after the dot. A text without digits gives nothing, and so does `None`. |
| `CleanRrText.ReplaceChar` | review_tracker.py:51 | `str.replace` of one character: the length is unchanged, each occurrence of `a` becomes `b`, and everything else is kept. |
| `CleanRrText.SubAmp` | review_tracker.py:52 | After `\s*&\s*` → `" & "`, every `&` has a neighbour on both sides, and each neighbour is a space. |
| `CleanRrText.Collapse` | review_tracker.py:53 | After `\s+` → `" "`, the only whitespace left is the plain space, and a space is never followed by whitespace. The result is empty only for an empty input, and it begins with whitespace exactly when the input does. |
| `CleanRrText.Canonical` | review_tracker.py:49-54 | The independent normal form. Its only whitespace is the plain space, never two in a row and none at the end. Every `&` has a space on each side where it has a neighbour. It is empty exactly when the input is all whitespace. |
| `CleanRrText.StripCollapse` | review_tracker.py:53 | Collapsing whitespace runs and then stripping equals a single pass that drops whitespace and writes one space between the characters it separates. |
| `CleanRrText.SubAmpSquash` | review_tracker.py:52-53 | The `&` substitution followed by that pass gives the independent normal form. |
| `CleanRrText.CanonicalReplace` | review_tracker.py:51 | Replacing a whitespace character by a space beforehand does not change the normal form. |
| `CleanRrText.CleanSteps` | review_tracker.py:51-53 | The five steps of `clean_rr_text`, composed, give the independent normal form. |
| `CleanRrText.Clean` | review_tracker.py:49-54 | `None` is read as "". The result equals the independent normal form. It has no line feed, no U+00A0, no doubled space, and no space at either end. Every `&` has a space on each side where it has a neighbour. It is empty exactly when the input is all whitespace. |
| `CleanRrText.CanonicalCopies` | review_tracker.py:49-54 | On a text already in normal form, the one-pass normaliser copies it, with one leading space when one is due. |
| `CleanRrText.CleanFixesNormalForm` | review_tracker.py:49-54 | A label already in normal form is returned unchanged. Together with `Clean`'s contract, the results of `clean_rr_text` are exactly the normal-form texts. |
| `CleanRrText.CleanIdempotent` | review_tracker.py:49-54 | Cleaning a cleaned label changes nothing. |
| `CleanRrText.CleanExample` | review_tracker.py:49-54 | `" 7&\n 9 "` becomes `"7 & 9"`. |
| `ReviewTracker.GetRatingAndRr` | review_tracker.py:56-75 | Each field is absent exactly when its element is missing. The rating is also absent when the rating text has no digit. A present rating is `extract_float` of the rating element's text, a numeral. A present label is `clean_rr_text` of the label element's text, in normal form. |
| `ReviewTracker.ScrapeRow` | review_tracker.py:82-91 | A record yields values exactly when its FSN cell is not all whitespace and the page of the stripped FSN yields both fields. The values are then the rating and label that `get_rating_and_rr` returns for that page: a numeral and a normal-form label. |
| `ReviewTracker.UpdateRow` | review_tracker.py:93-104 | Outside columns D-G of its row, nothing changes. A skipped record changes nothing. Otherwise D and E receive the new rating and label. F and G receive the old D and E exactly when the old E is non-empty and differs from the new label; otherwise F and G are untouched. |
| `ReviewTracker.UpdateRowReadsOnlyItsRow` | review_tracker.py:93-104 | The rule's effect on its row depends only on that row's cells. |
| `ReviewTracker.UpdateRowRerun` | review_tracker.py:97-104 | Applying the rule twice with the same scraped values equals applying it once: the second time nothing is archived. |
| `ReviewTracker.UpdateRows` | review_tracker.py:79-104 | The loop as a fold over the scraped records, record `k` on row `k + 2`. It changes no cell outside columns D-G of rows 2 to `records + 1`. |
| `ReviewTracker.UpdateRowsEachRow` | review_tracker.py:79-81 | Record `k` is processed on row `k + 2`. That row ends up exactly as the rule makes it from its original cells and its own record, whatever the other records are. |
| `ReviewTracker.UpdateRowsRerun` | review_tracker.py:77-104 | A second run over pages that have not changed leaves every data row as the first run left it. |
| `ReviewTracker.Worksheet.constructor` | review_tracker.py:25 | The worksheet starts with the given cells. |
| `ReviewTracker.Worksheet.Cell` | review_tracker.py:94-95 | `sheet.cell(i, c).value`: the stored value, or "" for an empty cell. |
| `ReviewTracker.Worksheet.UpdateCell` | review_tracker.py:99-104 | `update_cell` sets one cell and leaves all others as they were. |
| `ReviewTracker.WriteRow` | review_tracker.py:93-104 | Reading D and E, archiving them into F and G when required, then writing D and E leaves the worksheet as `UpdateRow` with the scraped pair describes. |
| `ReviewTracker.ProcessRecord` | review_tracker.py:82-104 | One iteration of the loop leaves the worksheet as `UpdateRow` makes it from what `ScrapeRow` returns for the record. |
| `ReviewTracker.UpdateSheet` | review_tracker.py:77-104 | The in-place loop leaves the worksheet equal to `UpdateRows` applied to the old cells and to what `ScrapeRow` returns for each record, in order. |

## Left out

- Authentication and opening the spreadsheet (lines 10-25) are not modelled. The worksheet is given as a grid of cells.
- The headless browser is not modelled: its options, page loads, the URL built from the FSN, and the 8-second waits (lines 27-41, 57-73). `fetch` is a parameter giving, for each FSN, what the page shows: each element's text, or its absence when the wait fails. A page is assumed not to change during a run.
- `ExtractFloat.ExtractFloat`: the final `float()` conversion is left out, so the model returns the matched token. Every token it returns is a valid decimal numeral.
- The rating is written to column D as that token, not as a floating-point value. The spreadsheet's own formatting of numbers (4 versus 4.0) is left out with it.
- `Text.IsSpace`: Python's `\s` and `str.strip` also treat a few more code points as whitespace, and the model does not cover them. It covers the ASCII whitespace characters and U+00A0. The others left out are U+001C-U+001F, U+0085, U+1680, U+2000-U+200A, U+2028, U+2029, U+202F, U+205F and U+3000.
- `Text.IsDigit`: `\d` also matches digits of other scripts, and the model covers only the ASCII digits.
- `get_all_records` (line 79) is not modelled. The records are the sequence of FSN cell texts in row order, one per row from row 2, as `str(row.get("FSN", ""))` renders them. How the spreadsheet library turns cell values into record fields is out of scope, including turning numeric-looking text into numbers.
- Spreadsheet API failures and exceptions from the browser are not modelled. Nor is the partial state they would leave: `update_cell` is one call per cell.
- Progress messages (`print`) and `driver.quit` (lines 86, 90, 106, 108-115) are left out: they do not affect the sheet.
- An empty cell and a cell holding "" both read as "". The source treats a `None` cell value and "" alike through `old_rr and ...` and `old_rating or ""`.
