# Excel hyperlink splitter: template compiler and partition engine

This project models the two pure cores of a desktop tool. The tool splits a
spreadsheet into several workbooks and adds a WhatsApp link formula to every
row of each one.

- **Template compiler** (`main.py`). A message template is scanned into
  tokens:
  - a run of letters is a column reference;
  - `"…"` is a literal;
  - `[MODE.LETTERS]` is a directive;
  - any other character is dropped.

  Each token is compiled against the first data row into two outputs:
  - a spreadsheet formula fragment, which ends in `,` and carries a `#` where
    the row number goes;
  - a piece of preview text.

  The preview then has its runs of spaces collapsed and its ends stripped.
  The `DATE` directive turns a serial day count, counted from 1899-12-30,
  into a `DD-MM-YYYY` date on the proleptic Gregorian calendar.
- **Partition and link-formula engine** (`utils/generate_hyperlink.py`, driven
  by `generate_files` in `main.py`):
  - bijective base-26 column letters;
  - selecting the rows of one group value;
  - fixed-size chunking;
  - output file names;
  - the per-row `HYPERLINK` formula with its `#` placeholder filled in;
  - column widths capped at 255;
  - the loop over group values, and the check of the form's fields that
    comes before it.

Modules, in dependency order:

| module | file | contents |
|---|---|---|
| `Strings` | strings.dfy | Python whitespace, `upper`, `strip`, `str.replace`, `str(int)`, `int(text)`, zero padding |
| `Calendar` | calendar.dfy | day ordinals (0001-01-01 is day 1), the spreadsheet epoch, `DD-MM-YYYY` |
| `Cells` | cells.dfy | a cell is `Text`, `Int`, `Date` or `Missing`; a table is a header over rows; `astype(str)`; `iloc` column positions |
| `ColumnCodec` | column_codec.dfy | `excel_column_letter_to_index` and its inverse |
| `TemplateScan` | template_scan.dfy | the token regex as a hand-written scanner |
| `Spaces` | spaces.dfy | `remove_extra_spaces` |
| `TemplateCompile` | template_compile.dfy | `extract_data` |
| `Workbook` | workbook.dfy | `add_hyperlink_formula`, `adjust_column_width`, `generate_file_path` |
| `Partition` | partition.dfy | `filter_data`, `process_branch_data`, `generate_files`, the checks of `hyperlink_splitter` |

Python exceptions that end a run are values of `Partition.Failure`:
- `IndexError` when a column position is out of range;
- `ValueError` when `int()` gets text that is not an integer;
- the `ValueError` that `range()` raises for a step of zero, named `ZeroStep`.

Inside `extract_data`, a column token whose cell cannot be read adds
nothing to either output. A directive's formula fragment is appended before
its cell is read and stays; only its preview is dropped.
There a failed read is modelled as `None`.

## Model

| member | source | states |
|---|---|---|
| `Strings.Upper` | utils/generate_hyperlink.py:13 | upper-casing keeps the length, leaves no ASCII lower-case letter, and changes nothing but lower-case letters |
| `Strings.UpperIdempotent` | utils/generate_hyperlink.py:13 | upper-casing twice is the same as once |
| `Strings.UpperLetters` | utils/generate_hyperlink.py:13 | a text is all letters exactly when its upper-cased form is |
| `Strings.Strip` | main.py:288 | the stripped text has no whitespace at either end; it is the part of the input that starts after the leading whitespace, and only whitespace follows it |
| `Strings.StripNoEdgeSpace` | main.py:288 | stripping text that has no whitespace at either end changes nothing |
| `Strings.ReplaceCharRemoves` | utils/generate_hyperlink.py:35 | replacing every `c` by text that has no `c` leaves no `c`, and every other character of the input still occurs |
| `Strings.ReplaceCharAppend` | utils/generate_hyperlink.py:35 | replacing a single character works piece by piece over a concatenation |
| `Strings.NatToStringRoundTrip` | main.py:313 | the decimal digits of `str(n)` read back as `n` |
| `Strings.IntToStringInjective` | main.py:313 | distinct integers have distinct decimal texts |
| `Strings.ParseIntRoundTrip` | main.py:362 | `int(str(n)) == n` for every integer, negative ones included |
| `Strings.ZeroPadRoundTrip` | main.py:365 | a zero-padded field of `strftime` reads back as the number it shows |
| `Strings.ZeroPadSmall` | main.py:365 | day and month fields are exactly two digits wide, and years below 10000 exactly four |
| `Calendar.FromOrdinal` | main.py:363 | every day number from 1 upward is the ordinal of exactly the valid date returned |
| `Calendar.OrdinalRoundTrip` | main.py:363 | converting a valid date to its day number and back gives the same date |
| `Calendar.OrdinalInjective` | main.py:363 | distinct valid dates have distinct day numbers |
| `Calendar.EpochAndMaxOrdinals` | main.py:363 | 1899-12-30 is day 693594 and 9999-12-31 is day 3652059, the last day a Python date can hold |
| `Calendar.SerialToDate` | main.py:363 | a serial day count gives a date exactly when epoch plus count lies within years 1 to 9999, and that date's day number is epoch plus count |
| `Calendar.SerialRoundTrip` | main.py:363 | every date from year 1 to year 9999 is reached by its own serial day count |
| `Calendar.Serial500000` | main.py:363 | serial day 500000 is 3268-12-12 |
| `Calendar.FormatDMYRoundTrip` | main.py:365 | `%d-%m-%Y` of a valid date is ten characters long and reads back as that date |
| `Cells.ResolveColumn` | main.py:307 | an `iloc` position resolves exactly when it lies in `-width .. width-1`; a negative one counts from the right |
| `ColumnCodec.LetterToIndex` | utils/generate_hyperlink.py:12-17 | empty text decodes to -1 and non-empty letters decode to at least 0 |
| `ColumnCodec.LetterToIndexOfName` | utils/generate_hyperlink.py:12-17 | decoding inverts the bijective base-26 column name of every index |
| `ColumnCodec.NameOfLetterIndex` | utils/generate_hyperlink.py:12-17 | every non-empty letter string is the column name of its index, upper-cased |
| `ColumnCodec.LetterToIndexCaseInsensitive` | utils/generate_hyperlink.py:13 | decoding ignores case |
| `ColumnCodec.LetterToIndexInjective` | utils/generate_hyperlink.py:13-17 | distinct labels (ignoring case) decode to distinct indices |
| `ColumnCodec.LetterToIndexExamples` | utils/generate_hyperlink.py:12-17 | `""`→-1, `A`/`a`→0, `Z`→25, `AA`→26, `AZ`→51, `BA`→52 |
| `TemplateScan.MatchDirective` | main.py:25 | a match is a well-formed `[letters.letters]` block and is exactly the text it covers at the start of the input |
| `TemplateScan.Scan` | main.py:25 | every token produced has one of the three regex shapes |
| `TemplateScan.ScanColumn` | main.py:25 | a letter run ends at the first non-letter, which is left for the next token |
| `TemplateScan.ScanLiteral` | main.py:25 | a literal ends at its closing quote, whatever follows it |
| `TemplateScan.ScanDirective` | main.py:25 | a directive ends at its closing bracket, whatever follows it |
| `TemplateScan.ScanToken` | main.py:25 | a token's own text scans as that token followed by the scan of the rest; a column token only needs the next character not to be a letter |
| `TemplateScan.ScanRoundTrip` | main.py:295-302 | scanning the space-separated text of any sequence of well-formed tokens gives back that sequence, in order |
| `TemplateScan.ScanJoinRoundTrip` | main.py:295-302 | tokens written back to back, with no two column tokens touching, scan back to the same sequence: `"Hi "A" bye"` is a literal, a column and a literal |
| `TemplateScan.ScanSkipsOther` | main.py:25 | a character that cannot start a token yields no token |
| `TemplateScan.ScanUnclosedQuote` | main.py:25 | a `"` with no closing quote after it yields no token and is skipped |
| `TemplateScan.ScanStrayBracket` | main.py:25 | a `[` that does not open `[letters.letters]` yields no token and is skipped |
| `Spaces.CollapseNoDoubleSpace` | main.py:288 | after `re.sub(' +', ' ', …)` no two spaces are adjacent |
| `Spaces.CollapseKeepsOthers` | main.py:288 | collapsing keeps every non-space character, tabs and newlines included, in order |
| `Spaces.CollapseFixedPoint` | main.py:288 | text with no double space is unchanged by collapsing |
| `Spaces.CollapseBlanks` | main.py:288 | a run of one or more spaces on its own becomes exactly one space |
| `Spaces.CollapseAppend` | main.py:288 | collapsing works run by run: two texts that do not meet space to space collapse as their parts do |
| `Spaces.CollapseInterior` | main.py:288 | a run of one or more spaces between two texts becomes exactly one space, and the texts collapse on their own |
| `Spaces.RemoveExtraSpaces` | main.py:287-289 | the cleaned text has no two adjacent spaces and no whitespace at either end |
| `Spaces.RemoveExtraSpacesIdempotent` | main.py:287-289 | cleaning twice is the same as cleaning once |
| `Spaces.RemoveExtraSpacesKeepsOthers` | main.py:287-289 | on text with no whitespace at either end, only spaces are removed; every other character stays, in order |
| `Spaces.RemoveExtraSpacesInterior` | main.py:287-289 | two texts with no whitespace at either end, joined by any run of spaces, clean to each text cleaned, with exactly one space between |
| `TemplateCompile.SampleCell` | main.py:307 | the sample cell is read only when the table has a row and the position resolves, and it is the cell at the resolved position |
| `TemplateCompile.LiteralFragment` | main.py:321-334 | every literal's formula fragment is non-empty and ends in `,` |
| `TemplateCompile.CompileToken` | main.py:304-384 | every token's formula fragment is empty or ends in `,` |
| `TemplateCompile.Compile` | main.py:297-384 | the compiled formula template is empty or ends in `,` |
| `TemplateCompile.CompileAppend` | main.py:297-384 | compiling two token sequences one after the other concatenates both outputs |
| `TemplateCompile.Extract` | main.py:291-386 | the formula template is empty or ends in `,`; the preview has no double space and no whitespace at either end |
| `TemplateCompile.FormulaBody` | main.py:245 | dropping the last character removes exactly the final separator: body plus `,` is the template |
| `TemplateCompile.ColumnToken` | main.py:304-319 | a column token whose cell resolves adds `IF(ISBLANK(L#), "N/A", L#),` with the letters as written, and the cell's preview (`N/A` when missing, decimal when an integer); otherwise it adds nothing to either output |
| `TemplateCompile.AmpersandLiteral` | main.py:324-325 | a literal with `&` goes to the formula quoted with every `&` written `%26`, so no `&` is left, and previews nothing |
| `TemplateCompile.NewlineLiteral` | main.py:326-328 | a literal with `\n` and no `&` writes `%0A` in the formula and a real newline in the unquoted preview |
| `TemplateCompile.TabLiteral` | main.py:329-331 | a literal with `\t` and neither `&` nor `\n` writes `%09` in the formula and a real tab in the unquoted preview |
| `TemplateCompile.PlainLiteral` | main.py:332-334 | any other literal goes to the formula quoted and to the preview unquoted |
| `TemplateCompile.SerialPreviewShown` | main.py:362-365 | a serial day `n` previews as the `DD-MM-YYYY` text of the date `n` days after 1899-12-30, and that text reads back as the date; outside years 1 to 9999 it previews nothing |
| `TemplateCompile.DatePreviewOfInt` | main.py:359-362 | an integer cell is read through `int(str(n))` as the serial `n` itself |
| `TemplateCompile.DateDirective` | main.py:347-365 | `[DATE.L]` always adds `IF(ISBLANK(L#), "N/A", TEXT(L#,"dd-mm-yyyy")),`, even when the cell cannot be read; it previews `N/A` for a missing cell, the date of a timestamp, the serial date of an integer and of text holding an integer, and nothing for text that is not an integer |
| `TemplateCompile.AmprDirective` | main.py:367-378 | `[AMPR.L]` adds `SUBSTITUTE(L#, "&", "%26"),` and previews the raw cell text, or `N/A` when the cell is missing |
| `TemplateCompile.OtherDirective` | main.py:379-380 | a directive with any other mode adds nothing to either output |
| `TemplateCompile.PlainLiteralsExtract` | main.py:291-386 | a template of plain literals compiles to each literal followed by `,`, with the cleaned concatenation of their bodies as preview |
| `Workbook.ExpandRow` | utils/generate_hyperlink.py:35 | filling in the row leaves no `#`, and a message without `#` is unchanged |
| `Workbook.ExpandRowAppend` | utils/generate_hyperlink.py:35 | filling in the row works piece by piece over a concatenation |
| `Workbook.ExpandRowHash` | utils/generate_hyperlink.py:35 | each `#` becomes the decimal row number |
| `Workbook.ExpandColumnFragment` | utils/generate_hyperlink.py:35 | a column fragment of the template becomes a test of cell `L{row}` |
| `Workbook.HyperlinkFormulaPhone` | utils/generate_hyperlink.py:36 | the formula opens with the `wa.me` link followed by the address of the phone cell of its own row |
| `Workbook.HyperlinkFormulaNoHash` | utils/generate_hyperlink.py:35-36 | when neither the phone column letters nor the configuration contains `#`, no `#` is left in the formula |
| `Workbook.AddressInjective` | utils/generate_hyperlink.py:37 | different rows of one column have different cell addresses |
| `Workbook.LinkCells` | utils/generate_hyperlink.py:34 | the link cells of `n` rows are exactly the addresses of rows 2 to n+1 |
| `Workbook.HyperlinkFormulas` | utils/generate_hyperlink.py:33-37 | for `n` rows, exactly `n` formulas are written, one at `{link}{r}` for each `r` in 2..n+1, and it is row `r`'s formula |
| `Workbook.LongestCell` | utils/generate_hyperlink.py:41 | the longest stringified cell of a column: at least every cell's length, and equal to one of them |
| `Workbook.ColumnWidths` | utils/generate_hyperlink.py:39-43 | one width per column, never above 255, at least the capped header and every capped cell, and equal to the header length, some cell length, or 255 when one of those reaches 255; this is exactly `min(max(longest cell, header), 255)`; with no rows there is no width |
| `Workbook.BaseName` | utils/generate_hyperlink.py:53 | the base name is the end of the path after its last `/`, or the whole path when it has none |
| `Workbook.StripExtension` | utils/generate_hyperlink.py:53 | `splitext(name)[0]`: a prefix of the name that stops at its last `.`, provided some character before that dot is not a dot; otherwise the whole name |
| `Workbook.ChunkFileNamesDistinct` | utils/generate_hyperlink.py:54 | distinct chunk indices give distinct chunk file names |
| `Workbook.BranchFileNamesDistinct` | utils/generate_hyperlink.py:54 | distinct group values give distinct group file names |
| `Workbook.PathJoinInjective` | utils/generate_hyperlink.py:55 | joining one directory with distinct relative names gives distinct paths |
| `Workbook.ChunkPathsDistinct` | utils/generate_hyperlink.py:52-55 | for a fixed input file and date, distinct chunk indices give distinct output paths |
| `Partition.Sheet` | utils/generate_hyperlink.py:45-49 | a saved sheet gets one link formula per data row and one width per column |
| `Partition.FilterRows` | utils/generate_hyperlink.py:26 | exactly the rows whose stripped group value equals the name, each as often as in the table |
| `Partition.SelectAppend` | utils/generate_hyperlink.py:26 | the selection keeps the table's order: selecting from a concatenation concatenates the selections |
| `Partition.FilterData` | utils/generate_hyperlink.py:22-26 | no group column (or one decoding below 0) returns the whole table and `true`; a column outside the table raises `IndexError`; otherwise the group's rows and `false` |
| `Partition.Chunks` | utils/generate_hyperlink.py:61 | every chunk has 1 to `k` rows and all but the last exactly `k`; there are none only for no rows |
| `Partition.ChunksFlatten` | utils/generate_hyperlink.py:61 | the chunks concatenated in order are the input |
| `Partition.ChunkCount` | utils/generate_hyperlink.py:61 | the number of chunks is the ceiling of `n / k` |
| `Partition.ChunkSlice` | utils/generate_hyperlink.py:61 | chunk `i` is the slice `i*k .. min(i*k+k, n)` |
| `Partition.ChunkFiles` | utils/generate_hyperlink.py:62-64 | one file per chunk; file `i` holds chunk `i` and is named with sequence number `i+1` |
| `Partition.ChunkFilesRows` | utils/generate_hyperlink.py:61-64 | the chunk files together hold every row of the table, in order |
| `Partition.ProcessBranch` | utils/generate_hyperlink.py:57-69 | returns `true` exactly in chunk mode; chunk mode saves every row across ceil(n/k) files, fails with the `range` `ValueError` on size 0 and saves nothing for a negative size; group mode raises `IndexError` for a column outside the table and otherwise saves exactly one file of that group's rows under the group's name |
| `Partition.Distinct` | main.py:234 | `unique()`: the same set of values, each once, in order of first appearance |
| `Partition.GroupNamesAfterFirst` | main.py:234 | the group values iterated are exactly those of data rows 1 onward |
| `Partition.RunBranches` | main.py:236-251 | no group values means no files; with group values, an unparsable chunk size fails with `ValueError` before any file |
| `Partition.GenerateFiles` | main.py:232-251 | a group column outside the table raises `IndexError`; with fewer than two data rows nothing is generated; an unparsable chunk size raises `ValueError` |
| `Partition.JobFor` | main.py:240-247 | the message passed to `process_branch_data` is the template that `extract_data` compiled against the first data row, with its final `,` removed |
| `Partition.RunBranchesByGroup` | main.py:236-251 | splitting by a column inside the table saves one file per group value, in order, holding exactly that group's rows and named after it |
| `Partition.GenerateFilesByGroup` | main.py:232-251 | a whole run split by value saves one file per group value of rows 1 onward, holding exactly that group's rows |
| `Partition.GroupPathsDistinct` | main.py:236-247 | in a run split by value, no two group files have the same path string |
| `Partition.ChunkModeFirstCall` | main.py:236-249 | in chunk mode the run is the outcome of the one call made for the first group value |
| `Partition.GenerateFilesChunked` | main.py:232-249 | chunk mode calls `process_branch_data` once: size 0 fails, a negative size saves nothing, and a positive size saves every row across ceil(n/k) files numbered 1 onward |
| `Partition.FirstRowLost` | main.py:234 | split by value, a first data row whose group value occurs in no other row ends up in no file |
| `Partition.GenerateFilesIntended` | main.py:232-251 | the corrected run: a group column outside the table raises `IndexError`, and an empty table generates nothing |
| `Partition.IntendedByGroup` | main.py:234 | the corrected run saves one file per distinct group value of all rows, holding exactly that group's rows |
| `Partition.IntendedCoversEveryRow` | main.py:234 | in the corrected run every data row, the first included, lies in a file whose rows all share its group value |
| `Partition.IntendedChunksEveryRow` | main.py:234 | in the corrected run, chunk mode saves every row of a one-row table too |
| `Partition.CheckInputs` | main.py:259-279 | the run starts exactly when all needed fields are filled; otherwise the first empty one is reported, in the order output directory, phone column, link column, then split column or chunk size, whichever the mode needs |
| `Partition.EmptyChunkSizeStopsGroupRun` | main.py:246 | split by value with the chunk-size field empty, the checks pass but the run fails with `ValueError` before writing a file |

## Left out

- The GUI is not modelled: widgets, layout, progress bar, status bar and the `<<Modified>>` event wiring. The status messages of `extract_data` and `generate_files` are left out too, except for the text of the input checks.
- Threads are not modelled. `generate_files` and the preview run on threads; the model treats each as one sequential function.
- File dialogs and the JSON save and restore of the form are I/O and are not modelled.
- Spreadsheet I/O is not modelled. Reading the workbook and writing workbooks through pandas and xlsxwriter become a `Table` value and a `SavedFile` (path and rows), with `Partition.Sheet` giving the formulas and widths of its sheet.
- `config.ini` and the clock become parameters: the country code, phone length and anchor text are a `Config`, and the current time is one `Timestamp` in `Job`. `generate_file_path` reads `datetime.now()` once per file (utils/generate_hyperlink.py:54); the model uses that one timestamp for every file of a run, so a run that crosses midnight is not modelled.
- `Workbook.BaseName` and `Workbook.StripExtension` model POSIX `os.path` only: the separator is `/`. On Windows, which the tool targets, `ntpath.basename` also splits at `\` and after a drive prefix such as `C:`.
- `Workbook.PathJoinInjective`: `os.path.join` is modelled for POSIX separators only, and distinct names are kept apart only when neither begins with `/`, because an absolute name replaces the directory.
- `Partition.GroupPathsDistinct` assumes no group value starts with `/`, for the same reason. It also proves only that path strings differ. On a file system that ignores case, such as the Windows one the tool targets, group values `North` and `north` name the same file, and the second save overwrites the first.
- Float cells are not modelled, so `str(int(x))` truncation and float `NaN` are out. A cell is text, an integer, a timestamp or missing; a missing cell is pandas' `NaN`.
- `Cells.TimestampText` renders `str(Timestamp)` without fractional seconds or a time zone.
- `Cells.CellText` renders each cell on its own and does not model pandas column types. In pandas, a date column whose times are all midnight renders as `YYYY-MM-DD`, and its missing cells as `NaT` rather than `nan`. An integer column with blanks becomes a float column and renders `5.0`. These renderings reach group values, group file names and column widths.
- Upper-casing and `int()` cover ASCII letters and digits only. Python's `upper` and `int` also accept other Unicode letters and digits.
- Years below 1000 are padded to four digits in `%Y`. Python's output there depends on the platform's C library.
- `Partition.Sheet` states only how many formulas and widths a sheet gets. Their contents are stated by `Workbook.HyperlinkFormulas` and `Workbook.ColumnWidths`, which `Sheet` calls.
- `Workbook.HyperlinkFormulaNoHash` needs the phone column letters and the configuration to be free of `#`. Their `#` characters are not placeholders and are written as they are.
- Python's `re` engine is replaced by a hand-written scanner that matches the same three token shapes, scanned left to right without overlap.
- A literal containing `&` previews nothing, and only `' '` is collapsed, so tabs and newlines stay (main.py:287-289, main.py:324-325).

## Findings

| source | as written | input that shows it | evidently intended | confidence | as-written member | corrected member |
|---|---|---|---|---|---|---|
| main.py:234 | group values are taken from `df.iloc[1:, col]`, skipping data row 0 | split by column A where the first data row's value `X` occurs in no other row: no file holds that row. A one-row table in chunk mode generates no file at all | take group values from every data row (`df.iloc[:, col]`), so every row lands in its group's file | not executed | `Partition.FirstRowLost` | `Partition.IntendedCoversEveryRow` |
