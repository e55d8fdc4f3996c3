/** What is written into each output workbook: one `HYPERLINK` formula per
    data row, column widths, and the output file's name. The configuration
    values, the input path, the output directory and today's date come in
    as parameters. */
module Workbook {
  import opened Strings
  import opened Calendar
  import opened Cells
  import opened TemplateCompile

  /** `COUNTRY_CODE`, `PHONE_NUMBER_LEN` and `ANCHOR_TEXT`, already stripped. */
  datatype Config = Config(countryCode: string, phoneNumberLen: string, anchorText: string)

  /** `msg.replace('#', str(row))`: the row placeholder filled in. No `#`
      is left, and a message without `#` is unchanged. */
  function ExpandRow(msg: string, row: nat): (r: string)
    ensures '#' !in r
    ensures '#' !in msg ==> r == msg
  {
    ReplaceCharRemoves(msg, '#', NatToString(row));
    ContainsChar(msg, '#');
    Replace(msg, "#", NatToString(row))
  }

  /** A cell address such as `B7`. */
  function CellAddress(col: string, row: nat): string {
    col + NatToString(row)
  }

  /** The link formula for spreadsheet row `row`: a `wa.me` link to the
      phone in cell `{mob}{row}`, prefixed with the country code when it has
      the configured length, carrying the message with its placeholders
      filled in for this row. */
  function HyperlinkFormula(mob: string, row: nat, msg: string, cfg: Config): string {
    var phone := CellAddress(mob, row);
    LinkOpen + phone + ")=" + cfg.phoneNumberLen
      + ",\"" + cfg.countryCode + "\"&" + phone + "," + phone
      + ")&\"?text=\"&TRIM(CONCATENATE(" + ExpandRow(msg, row) + ")),\"" + cfg.anchorText + "\")"
  }

  /** The formula's opening, up to the phone cell's address. */
  const LinkOpen: string := "=HYPERLINK(\"https://wa.me/\"& IF(LEN("

  /** The formula opens with the `wa.me` link and the address of the phone
      cell of its own row. */
  lemma HyperlinkFormulaPhone(mob: string, row: nat, msg: string, cfg: Config)
    ensures LinkOpen + CellAddress(mob, row) <= HyperlinkFormula(mob, row, msg, cfg)
  {
    var phone := CellAddress(mob, row);
    var f := HyperlinkFormula(mob, row, msg, cfg);
    PrefixAppend(LinkOpen + phone, ")=" + cfg.phoneNumberLen
      + ",\"" + cfg.countryCode + "\"&" + phone + "," + phone
      + ")&\"?text=\"&TRIM(CONCATENATE(" + ExpandRow(msg, row) + ")),\"" + cfg.anchorText + "\")");
  }

  lemma PrefixAppend(a: string, b: string)
    ensures a <= a + b
  {
  }

  /** A `#` reaches the formula only through the phone column letters or
      the configuration, never through the message. */
  lemma HyperlinkFormulaNoHash(mob: string, row: nat, msg: string, cfg: Config)
    requires '#' !in mob && '#' !in cfg.countryCode && '#' !in cfg.phoneNumberLen && '#' !in cfg.anchorText
    ensures '#' !in HyperlinkFormula(mob, row, msg, cfg)
  {
    var phone := CellAddress(mob, row);
    assert '#' !in NatToString(row);
    assert '#' !in phone;
    assert '#' !in LinkOpen;
    assert '#' !in ExpandRow(msg, row);
    var f := LinkOpen + phone;
    f := f + ")=" + cfg.phoneNumberLen + ",\"" + cfg.countryCode + "\"&";
    assert '#' !in f;
    f := f + phone + "," + phone + ")&\"?text=\"&TRIM(CONCATENATE(";
    assert '#' !in f;
    f := f + ExpandRow(msg, row) + ")),\"" + cfg.anchorText + "\")";
    assert '#' !in f;
    assert f == HyperlinkFormula(mob, row, msg, cfg);
  }

  lemma NotInAppend(a: string, b: string, c: char)
    requires c !in a && c !in b
    ensures c !in a + b
  {
  }

  lemma AddressInjective(col: string, a: nat, b: nat)
    requires CellAddress(col, a) == CellAddress(col, b)
    ensures a == b
  {
    assert NatToString(a) == CellAddress(col, a)[|col|..];
    assert NatToString(b) == CellAddress(col, b)[|col|..];
    NatToStringInjective(a, b);
  }

  /** The link-column cell of each data row of a sheet with `n` data rows:
      `{link}{row}` for spreadsheet rows 2..n+1, mapped to its row. */
  function LinkCells(n: nat, link: string): (m: map<string, nat>)
    ensures |m| == n
    ensures forall row :: 2 <= row <= n + 1 ==> CellAddress(link, row) in m && m[CellAddress(link, row)] == row
    ensures forall key :: key in m ==> 2 <= m[key] <= n + 1 && key == CellAddress(link, m[key])
  {
    if n == 0 then map[]
    else
      var prev := LinkCells(n - 1, link);
      var key := CellAddress(link, n + 1);
      assert key !in prev by {
        if key in prev {
          AddressInjective(link, prev[key], n + 1);
        }
      }
      prev[key := n + 1]
  }

  /** `add_hyperlink_formula` for a sheet of `n` data rows: exactly one
      formula at `{link}{row}` for each spreadsheet row 2..n+1, built for
      that row, and nothing anywhere else. */
  function HyperlinkFormulas(n: nat, mob: string, link: string, msg: string, cfg: Config)
    : (m: map<string, string>)
    ensures |m| == n
    ensures forall row :: 2 <= row <= n + 1 ==>
      CellAddress(link, row) in m && m[CellAddress(link, row)] == HyperlinkFormula(mob, row, msg, cfg)
    ensures forall key :: key in m ==> exists row :: 2 <= row <= n + 1 && key == CellAddress(link, row)
  {
    FillCells(LinkCells(n, link), (row: nat) => HyperlinkFormula(mob, row, msg, cfg))
  }

  /** Writes `f(row)` into every cell of `cells`. */
  function FillCells(cells: map<string, nat>, f: nat -> string): (m: map<string, string>)
    ensures m.Keys == cells.Keys && |m| == |cells|
    ensures forall key :: key in m ==> m[key] == f(cells[key])
  {
    var m := map key | key in cells :: f(cells[key]);
    assert m.Keys == cells.Keys;
    m
  }

  /** Filling in the row number distributes over the fragments of the
      formula template. */
  lemma ExpandRowAppend(a: string, b: string, row: nat)
    ensures ExpandRow(a + b, row) == ExpandRow(a, row) + ExpandRow(b, row)
  {
    ReplaceCharAppend(a, b, '#', NatToString(row));
  }

  /** A `#` in front is the row number. */
  lemma ExpandRowHash(s: string, row: nat)
    ensures ExpandRow("#" + s, row) == NatToString(row) + ExpandRow(s, row)
  {
    assert ("#" + s)[..1] == "#";
    assert ("#" + s)[1..] == s;
  }

  /** Filling in `x # y`, where `x` holds no `#`. */
  lemma ExpandOnePlace(x: string, y: string, row: nat)
    requires '#' !in x
    ensures ExpandRow(x + ("#" + y), row) == x + (NatToString(row) + ExpandRow(y, row))
  {
    ExpandRowAppend(x, "#" + y, row);
    ExpandRowHash(y, row);
  }

  /** Filling in text of the shape `p l # q l # t`, where only the two
      marked places hold a `#`. */
  lemma ExpandTwoPlaces(p: string, l: string, q: string, t: string, row: nat)
    requires '#' !in p && '#' !in l && '#' !in q && '#' !in t
    ensures ExpandRow(p + l + "#" + q + l + "#" + t, row)
            == p + CellAddress(l, row) + q + CellAddress(l, row) + t
  {
    var r := NatToString(row);
    NotInAppend(p, l, '#');
    NotInAppend(q, l, '#');
    var x := (q + l) + ("#" + t);
    calc {
      ExpandRow(p + l + "#" + q + l + "#" + t, row);
      { assert p + l + "#" + q + l + "#" + t == (p + l) + ("#" + x); }
      ExpandRow((p + l) + ("#" + x), row);
      { ExpandOnePlace(p + l, x, row); }
      (p + l) + (r + ExpandRow(x, row));
      { ExpandOnePlace(q + l, t, row); }
      (p + l) + (r + ((q + l) + (r + t)));
      { assert (p + l) + (r + ((q + l) + (r + t))) == p + (l + r) + q + (l + r) + t; }
      p + (l + r) + q + (l + r) + t;
    }
  }

  /** A column token's fragment, filled in for spreadsheet row `row`,
      refers to cell `{letters}{row}` in both of its places. */
  lemma ExpandColumnFragment(l: string, row: nat)
    requires '#' !in l
    ensures ExpandRow(ColumnFormula(l), row)
            == "IF(ISBLANK(" + CellAddress(l, row) + "), \"N/A\", " + CellAddress(l, row) + "),"
  {
    assert ColumnFormula(l) == "IF(ISBLANK(" + l + "#" + "), \"N/A\", " + l + "#" + "),";
    ExpandTwoPlaces("IF(ISBLANK(", l, "), \"N/A\", ", "),", row);
  }

  // ---------------------------------------------------------------------
  // column widths

  /** Length of the longest stringified cell of column `j`; 0 for no rows. */
  function LongestCell(rows: seq<Row>, j: nat): (m: nat)
    requires forall i :: 0 <= i < |rows| ==> j < |rows[i]|
    ensures forall i :: 0 <= i < |rows| ==> |CellText(rows[i][j])| <= m
    ensures |rows| > 0 ==> exists i :: 0 <= i < |rows| && m == |CellText(rows[i][j])|
    ensures |rows| == 0 ==> m == 0
  {
    if rows == [] then 0
    else
      var rest := LongestCell(rows[1..], j);
      var here := |CellText(rows[0][j])|;
      if here >= rest then here else rest
  }

  function Min(a: int, b: int): int { if a <= b then a else b }
  function Max(a: int, b: int): int { if a >= b then a else b }

  /** `adjust_column_width`: each column is as wide as its longest cell or
      header, capped at 255. With no data rows pandas computes NaN, here
      `None`. */
  function ColumnWidths(t: Table): (ws: seq<Option<nat>>)
    requires WellFormed(t)
    ensures |ws| == |t.header|
    ensures forall j :: 0 <= j < |ws| ==> (ws[j].None? <==> |t.rows| == 0)
    ensures forall j :: 0 <= j < |ws| && ws[j].Some? ==>
      && ws[j].value <= 255
      && Min(255, |t.header[j]|) <= ws[j].value
      && (forall i :: 0 <= i < |t.rows| ==> Min(255, |CellText(t.rows[i][j])|) <= ws[j].value)
      && (|| ws[j].value == 255
          || ws[j].value == |t.header[j]|
          || exists i :: 0 <= i < |t.rows| && ws[j].value == |CellText(t.rows[i][j])|)
      && (ws[j].value == 255 ==>
            || |t.header[j]| >= 255
            || exists i :: 0 <= i < |t.rows| && |CellText(t.rows[i][j])| >= 255)
  {
    seq(|t.header|, j requires 0 <= j < |t.header| =>
      if |t.rows| == 0 then None
      else Some(Min(255, Max(LongestCell(t.rows, j), |t.header[j]|)) as nat))
  }

  // ---------------------------------------------------------------------
  // file names

  /** Position of the last `c` in `s`. */
  function LastIndexOf(s: string, c: char): (r: Option<nat>)
    ensures r.Some? ==> r.value < |s| && s[r.value] == c && c !in s[r.value + 1..]
    ensures r.None? ==> c !in s
  {
    if s == [] then None
    else if s[|s| - 1] == c then Some(|s| - 1)
    else
      var r := LastIndexOf(s[..|s| - 1], c);
      if r.Some? then
        assert s[r.value + 1..] == s[..|s| - 1][r.value + 1..] + [s[|s| - 1]];
        r
      else
        assert s == s[..|s| - 1] + [s[|s| - 1]];
        r
  }

  /** `os.path.basename` (POSIX): the text after the last `/`. */
  function BaseName(path: string): (b: string)
    ensures '/' !in b
    ensures |b| <= |path| && b == path[|path| - |b|..]
    ensures |b| < |path| ==> path[|path| - |b| - 1] == '/'
  {
    match LastIndexOf(path, '/')
    case None => path
    case Some(i) => path[i + 1..]
  }

  /** `os.path.splitext(name)[0]` for a name without `/`: the text before
      the last dot, unless only dots precede that dot. */
  function StripExtension(name: string): (r: string)
    ensures r <= name
    ensures r != name ==>
      && name[|r|] == '.' && '.' !in name[|r| + 1..]
      && exists k :: 0 <= k < |r| && r[k] != '.'
    ensures r == name ==> forall i :: 0 <= i < |name| && name[i] == '.' && '.' !in name[i + 1..] ==>
      forall k :: 0 <= k < i ==> name[k] == '.'
  {
    match LastIndexOf(name, '.')
    case None => name
    case Some(i) =>
      if exists k :: 0 <= k < i && name[k] != '.' then
        assert name[..i] <= name;
        name[..i]
      else
        assert forall p :: i < p < |name| ==> name[p] != '.' by {
          forall p | i < p < |name| ensures name[p] != '.' {
            assert name[p] == name[i + 1..][p - i - 1];
          }
        }
        name
  }

  /** `os.path.join(directory, name)` (POSIX). */
  function PathJoin(directory: string, name: string): string {
    if |name| > 0 && name[0] == '/' then name
    else if directory == [] || directory[|directory| - 1] == '/' then directory + name
    else directory + "/" + name
  }

  /** The name of chunk `i`: `_ALL__{i+1}__[{base}]_{date}.xlsx`. */
  function ChunkFileName(i: nat, base: string, date: string): string {
    "_ALL_" + "_" + NatToString(i + 1) + "__[" + base + "]_" + date + ".xlsx"
  }

  /** The name of a group's file: `{branch}___[{base}]_{date}.xlsx`. */
  function BranchFileName(branch: string, base: string, date: string): string {
    branch + "_" + "" + "__[" + base + "]_" + date + ".xlsx"
  }

  /** `generate_file_path`. */
  function GenerateFilePath(branch: string, filePath: string, outputPath: string, i: nat,
                            noBranch: bool, now: Timestamp): string
  {
    var base := StripExtension(BaseName(filePath));
    var date := FormatDMY(now.Date());
    PathJoin(outputPath, if noBranch then ChunkFileName(i, base, date) else BranchFileName(branch, base, date))
  }

  lemma CancelSuffix(a: string, b: string, x: string)
    requires a + x == b + x
    ensures a == b
  {
    assert a == (a + x)[..|a|];
    assert b == (b + x)[..|b|];
  }

  lemma CancelPrefix(p: string, a: string, b: string)
    requires p + a == p + b
    ensures a == b
  {
    assert a == (p + a)[|p|..];
    assert b == (p + b)[|p|..];
  }

  /** Distinct chunks of one run get distinct names. */
  lemma ChunkFileNamesDistinct(i: nat, j: nat, base: string, date: string)
    requires i != j
    ensures ChunkFileName(i, base, date) != ChunkFileName(j, base, date)
  {
    if ChunkFileName(i, base, date) == ChunkFileName(j, base, date) {
      var x := "__[" + base + "]_" + date + ".xlsx";
      assert ChunkFileName(i, base, date) == "_ALL__" + (NatToString(i + 1) + x);
      assert ChunkFileName(j, base, date) == "_ALL__" + (NatToString(j + 1) + x);
      CancelPrefix("_ALL__", NatToString(i + 1) + x, NatToString(j + 1) + x);
      CancelSuffix(NatToString(i + 1), NatToString(j + 1), x);
      NatToStringInjective(i + 1, j + 1);
    }
  }

  /** Distinct groups of one run get distinct names. */
  lemma BranchFileNamesDistinct(a: string, b: string, base: string, date: string)
    requires a != b
    ensures BranchFileName(a, base, date) != BranchFileName(b, base, date)
  {
    if BranchFileName(a, base, date) == BranchFileName(b, base, date) {
      var x := "___[" + base + "]_" + date + ".xlsx";
      assert BranchFileName(a, base, date) == a + x;
      assert BranchFileName(b, base, date) == b + x;
      CancelSuffix(a, b, x);
    }
  }

  /** Joining one directory with different names that do not start with
      `/` gives different paths. */
  lemma PathJoinInjective(directory: string, a: string, b: string)
    requires a != b && (|a| > 0 ==> a[0] != '/') && (|b| > 0 ==> b[0] != '/')
    ensures PathJoin(directory, a) != PathJoin(directory, b)
  {
    if PathJoin(directory, a) == PathJoin(directory, b) {
      if directory == [] || directory[|directory| - 1] == '/' {
        CancelPrefix(directory, a, b);
      } else {
        assert PathJoin(directory, a) == (directory + "/") + a;
        assert PathJoin(directory, b) == (directory + "/") + b;
        CancelPrefix(directory + "/", a, b);
      }
    }
  }

  /** Distinct chunks of one run are saved to distinct paths. */
  lemma ChunkPathsDistinct(branch: string, filePath: string, outputPath: string, i: nat, j: nat, now: Timestamp)
    requires i != j
    ensures GenerateFilePath(branch, filePath, outputPath, i, true, now)
         != GenerateFilePath(branch, filePath, outputPath, j, true, now)
  {
    var base := StripExtension(BaseName(filePath));
    var date := FormatDMY(now.Date());
    ChunkFileNamesDistinct(i, j, base, date);
    PathJoinInjective(outputPath, ChunkFileName(i, base, date), ChunkFileName(j, base, date));
  }
}
