/** The template compiler `extract_data`. Each token is compiled against the
    sample row (data row 0) into a formula fragment, whose `#` marks where
    the spreadsheet row number goes and which always ends in `,`, and a
    piece of preview text. Tokens whose cell cannot be read contribute
    nothing, except that a directive's formula fragment is appended before
    its cell is read. */
module TemplateCompile {
  import opened Strings
  import opened Calendar
  import opened Cells
  import opened ColumnCodec
  import opened TemplateScan
  import opened Spaces

  datatype Fragment = Fragment(formula: string, preview: string)

  const Empty := Fragment("", "")

  /** The formula is empty or ends in the `,` separator. */
  predicate Separated(formula: string) {
    formula == "" || formula[|formula| - 1] == ','
  }

  /** `self.df.iloc[0, index]`: `None` where pandas raises, that is when the
      table has no rows or the column is out of range. */
  function SampleCell(sample: Option<Row>, index: int): (r: Option<Cell>)
    ensures r.Some? ==> sample.Some? && ResolveColumn(|sample.value|, index).Some?
    ensures r.Some? ==> r.value == sample.value[ResolveColumn(|sample.value|, index).value]
    ensures sample.Some? && 0 <= index < |sample.value| ==> r == Some(sample.value[index])
  {
    match sample
    case None => None
    case Some(row) =>
      match ResolveColumn(|row|, index)
      case None => None
      case Some(j) => Some(row[j])
  }

  /** Preview of a column token's cell: text as is, a missing value as
      `N/A`, an integer in decimal, a timestamp as `str` renders it. */
  function CellPreview(c: Cell): string {
    match c
    case Text(s) => s
    case Missing => "N/A"
    case Int(n) => IntToString(n)
    case Date(t) => TimestampText(t)
  }

  function ColumnFormula(l: string): string {
    "IF(ISBLANK(" + l + "#), \"N/A\", " + l + "#),"
  }

  function DateFormula(l: string): string {
    "IF(ISBLANK(" + l + "#), \"N/A\", TEXT(" + l + "#,\"dd-mm-yyyy\")),"
  }

  function AmprFormula(l: string): string {
    "SUBSTITUTE(" + l + "#, \"&\", \"%26\"),"
  }

  /** Python's `q[1:-1]`. */
  function Unquote(q: string): string {
    if |q| >= 2 then q[1..|q| - 1] else ""
  }

  /** A quoted literal; the first matching case wins: an `&` is
      percent-encoded in the formula and nothing is previewed; otherwise a
      `\n` escape becomes `%0A` in the formula and a newline in the preview;
      otherwise a `\t` escape becomes `%09` and a tab; otherwise the quoted
      text goes to the formula and the unquoted text to the preview. */
  function LiteralFragment(q: string): (f: Fragment)
    ensures |f.formula| > 0 && f.formula[|f.formula| - 1] == ','
  {
    if '&' in q then Fragment(Replace(q, "&", "%26") + ",", "")
    else if Contains(q, "\\n") then
      Fragment(Replace(q, "\\n", "%0A") + ",", Unquote(Replace(q, "\\n", "\n")))
    else if Contains(q, "\\t") then
      Fragment(Replace(q, "\\t", "%09") + ",", Unquote(Replace(q, "\\t", "\t")))
    else Fragment(q + ",", Unquote(q))
  }

  /** Preview of a DATE directive's cell, or `None` where Python raises:
      a missing value is `N/A`, a timestamp is formatted directly, and an
      integer or text is read with `int(str(...))` as a serial day count. */
  function DatePreview(c: Cell): Option<string> {
    match c
    case Missing => Some("N/A")
    case Date(t) => Some(FormatDMY(t.Date()))
    case Int(n) => SerialPreview(ParseInt(IntToString(n)))
    case Text(s) => SerialPreview(ParseInt(s))
  }

  function SerialPreview(serial: Option<int>): Option<string> {
    match serial
    case None => None
    case Some(n) =>
      match SerialToDate(n)
      case None => None
      case Some(d) => Some(FormatDMY(d))
  }

  /** Preview of an AMPR directive's cell: the raw text, `N/A` if missing. */
  function AmprPreview(c: Cell): string {
    if c.Missing? then "N/A" else CellText(c)
  }

  /** A `[MODE.LETTERS]` block, upper-cased before use. */
  function DirectiveFragment(m: string, l: string, sample: Option<Row>): Fragment {
    var mode := Upper(m);
    var col := Upper(l);
    var cell := SampleCell(sample, LetterToIndex(col));
    if mode == "DATE" then
      Fragment(DateFormula(col),
               match cell
               case None => ""
               case Some(c) => match DatePreview(c) case None => "" case Some(p) => p)
    else if mode == "AMPR" then
      Fragment(AmprFormula(col), match cell case None => "" case Some(c) => AmprPreview(c))
    else Empty
  }

  /** One token's contribution. Whatever it is, the formula fragment is
      empty or ends in `,`. */
  function CompileToken(t: Token, sample: Option<Row>): (f: Fragment)
    ensures Separated(f.formula)
  {
    match t
    case Column(l) =>
      (match SampleCell(sample, LetterToIndex(l))
       case None => Empty
       case Some(c) => Fragment(ColumnFormula(l), CellPreview(c)))
    case Literal(q) => LiteralFragment(q)
    case Directive(m, l) => DirectiveFragment(m, l, sample)
  }

  /** All tokens' contributions, concatenated in order. The formula
      template is empty or ends in `,`. */
  function Compile(ts: seq<Token>, sample: Option<Row>): (f: Fragment)
    ensures Separated(f.formula)
  {
    if ts == [] then Empty
    else
      var head := CompileToken(ts[0], sample);
      var tail := Compile(ts[1..], sample);
      Fragment(head.formula + tail.formula, head.preview + tail.preview)
  }

  datatype Compiled = Compiled(formula: string, preview: string)

  /** `extract_data`: scan, compile against the sample row, and clean the
      preview. The formula template ends in `,` unless it is empty, the
      preview has no two spaces in a row and no whitespace at either end. */
  function Extract(template: string, sample: Option<Row>): (c: Compiled)
    ensures Separated(c.formula)
    ensures NoDoubleSpace(c.preview) && NoEdgeSpace(c.preview)
  {
    var f := Compile(Scan(template), sample);
    Compiled(f.formula, RemoveExtraSpaces(f.preview))
  }

  /** `concat_string[:-1]`: the caller drops exactly the final separator. */
  function FormulaBody(formula: string): (body: string)
    ensures Separated(formula) && formula != "" ==> body + "," == formula
    ensures formula == "" ==> body == ""
  {
    if formula == "" then "" else formula[..|formula| - 1]
  }

  // ---------------------------------------------------------------------
  // properties

  /** Compiling two token sequences one after the other is compiling
      their concatenation. */
  lemma {:induction false} CompileAppend(a: seq<Token>, b: seq<Token>, sample: Option<Row>)
    ensures Compile(a + b, sample).formula == Compile(a, sample).formula + Compile(b, sample).formula
    ensures Compile(a + b, sample).preview == Compile(a, sample).preview + Compile(b, sample).preview
    decreases |a|
  {
    if a == [] {
      assert a + b == b;
    } else {
      var ab := a + b;
      assert ab[0] == a[0];
      assert ab[1..] == a[1..] + b;
      CompileAppend(a[1..], b, sample);
      CompileUnfold(ab, sample);
      CompileUnfold(a, sample);
      var h := CompileToken(a[0], sample);
      var x := Compile(a[1..], sample);
      var y := Compile(b, sample);
      Regroup(Compile(ab, sample).formula, h.formula, Compile(a[1..] + b, sample).formula,
              x.formula, y.formula, Compile(a, sample).formula);
      Regroup(Compile(ab, sample).preview, h.preview, Compile(a[1..] + b, sample).preview,
              x.preview, y.preview, Compile(a, sample).preview);
    }
  }

  lemma Regroup(whole: string, h: string, t: string, x: string, y: string, hx: string)
    requires whole == h + t && t == x + y && hx == h + x
    ensures whole == hx + y
  {
  }

  lemma CompileUnfold(ts: seq<Token>, sample: Option<Row>)
    requires ts != []
    ensures Compile(ts, sample).formula
            == CompileToken(ts[0], sample).formula + Compile(ts[1..], sample).formula
    ensures Compile(ts, sample).preview
            == CompileToken(ts[0], sample).preview + Compile(ts[1..], sample).preview
  {
  }

  /** A column token whose cell can be read adds `IF(ISBLANK(L#), "N/A", L#),`
      with the letters exactly as written and the cell's preview text; one
      whose cell cannot be read adds nothing to either output. */
  lemma ColumnToken(l: string, sample: Option<Row>)
    ensures var f := CompileToken(Column(l), sample);
      match SampleCell(sample, LetterToIndex(l))
      case None => f == Empty
      case Some(c) => f.formula == ColumnFormula(l) && f.preview == CellPreview(c)
  {
  }

  lemma {:induction false} ReplaceAppendQuote(b: string, pat: string, rep: string)
    requires |pat| > 0 && '"' !in pat
    ensures Replace(b + "\"", pat, rep) == Replace(b, pat, rep) + "\""
    decreases |b|
  {
    var s := b + "\"";
    if |b| < |pat| <= |s| {
      QuoteBlocksMatch(b, pat);
    }
    if |s| < |pat| {
    } else if s[..|pat|] == pat {
      assert b[..|pat|] == pat;
      assert s[|pat|..] == b[|pat|..] + "\"";
      ReplaceAppendQuote(b[|pat|..], pat, rep);
    } else if b == [] {
      assert s == "\"";
    } else {
      assert s[1..] == b[1..] + "\"";
      ReplaceAppendQuote(b[1..], pat, rep);
      if |b| >= |pat| {
        assert b[..|pat|] == s[..|pat|];
      }
    }
  }

  lemma QuoteBlocksMatch(b: string, pat: string)
    requires '"' !in pat && |b| < |pat| <= |b| + 1
    ensures (b + "\"")[..|pat|] != pat
  {
    assert (b + "\"")[..|pat|][|b|] == '"';
  }

  /** Replacing an escape that contains no quote inside a quoted text
      happens inside the quotes only. */
  lemma ReplaceInsideQuotes(b: string, pat: string, rep: string)
    requires |pat| > 0 && '"' !in pat
    ensures Replace("\"" + b + "\"", pat, rep) == "\"" + Replace(b, pat, rep) + "\""
  {
    var s := "\"" + b + "\"";
    assert s[..1] == "\"";
    if |s| >= |pat| {
      assert s[..|pat|] != pat by {
        assert s[..|pat|][0] == '"';
      }
      assert s[1..] == b + "\"";
    }
    ReplaceAppendQuote(b, pat, rep);
  }

  /** A literal with an `&`: the formula is the quoted body with each `&`
      written `%26`, so no `&` is left, and nothing is previewed. */
  lemma AmpersandLiteral(b: string)
    requires '&' in b && '"' !in b
    ensures var f := LiteralFragment("\"" + b + "\"");
      && f.formula == "\"" + Replace(b, "&", "%26") + "\","
      && '&' !in f.formula
      && f.preview == ""
  {
    var q := "\"" + b + "\"";
    assert '&' in q by { assert q[1..|q| - 1] == b; }
    ReplaceInsideQuotes(b, "&", "%26");
    QuoteComma(Replace(b, "&", "%26"));
    ReplaceCharRemoves(q, '&', "%26");
  }

  /** A literal with a `\n` escape and no `&`: the formula is the quoted body
      with each escape written `%0A`, the preview is the body with each
      escape turned into a newline. */
  lemma NewlineLiteral(b: string)
    requires '&' !in b && '"' !in b && Contains(b, "\\n")
    ensures var f := LiteralFragment("\"" + b + "\"");
      && f.formula == "\"" + Replace(b, "\\n", "%0A") + "\","
      && f.preview == Replace(b, "\\n", "\n")
  {
    var q := "\"" + b + "\"";
    QuotedKeepsOut(b, '&');
    ContainsShift(b, "\\n");
    NewlineBranch(q);
    ReplaceInsideQuotes(b, "\\n", "%0A");
    ReplaceInsideQuotes(b, "\\n", "\n");
    UnquoteQuoted(Replace(b, "\\n", "\n"));
    QuoteComma(Replace(b, "\\n", "%0A"));
  }

  /** A literal with a `\t` escape and neither `&` nor `\n`: the same with
      `%09` in the formula and a tab in the preview. */
  lemma TabLiteral(b: string)
    requires '&' !in b && '"' !in b && !Contains(b, "\\n") && Contains(b, "\\t")
    ensures var f := LiteralFragment("\"" + b + "\"");
      && f.formula == "\"" + Replace(b, "\\t", "%09") + "\","
      && f.preview == Replace(b, "\\t", "\t")
  {
    var q := "\"" + b + "\"";
    QuotedKeepsOut(b, '&');
    NoEscapeQuoted(b, "\\n");
    ContainsShift(b, "\\t");
    TabBranch(q);
    ReplaceInsideQuotes(b, "\\t", "%09");
    ReplaceInsideQuotes(b, "\\t", "\t");
    UnquoteQuoted(Replace(b, "\\t", "\t"));
    QuoteComma(Replace(b, "\\t", "%09"));
  }

  lemma NewlineBranch(q: string)
    requires '&' !in q && Contains(q, "\\n")
    ensures LiteralFragment(q)
         == Fragment(Replace(q, "\\n", "%0A") + ",", Unquote(Replace(q, "\\n", "\n")))
  {
  }

  lemma TabBranch(q: string)
    requires '&' !in q && !Contains(q, "\\n") && Contains(q, "\\t")
    ensures LiteralFragment(q)
         == Fragment(Replace(q, "\\t", "%09") + ",", Unquote(Replace(q, "\\t", "\t")))
  {
  }

  lemma QuoteComma(x: string)
    ensures ("\"" + x + "\"") + "," == "\"" + x + "\","
  {
  }

  lemma QuotedKeepsOut(b: string, c: char)
    requires c != '"' && c !in b
    ensures c !in "\"" + b + "\""
  {
    var q := "\"" + b + "\"";
    forall i | 0 <= i < |q|
      ensures q[i] != c
    {
      if 0 < i < |q| - 1 {
        assert q[i] == b[i - 1];
      }
    }
  }

  lemma UnquoteQuoted(x: string)
    ensures Unquote("\"" + x + "\"") == x
  {
    var q := "\"" + x + "\"";
    assert q[1..|q| - 1] == x;
  }

  lemma ContainsShift(b: string, pat: string)
    requires |pat| > 0 && Contains(b, pat)
    ensures Contains("\"" + b + "\"", pat)
  {
    var s := "\"" + b + "\"";
    assert s[1..] == b + "\"";
    ContainsAppend(b, "\"", pat);
  }

  lemma {:induction false} ContainsAppend(a: string, b: string, pat: string)
    requires |pat| > 0 && Contains(a, pat)
    ensures Contains(a + b, pat)
    decreases |a|
  {
    if a[..|pat|] == pat {
      assert (a + b)[..|pat|] == pat;
    } else {
      ContainsAppend(a[1..], b, pat);
      assert (a + b)[1..] == a[1..] + b;
    }
  }

  /** A literal with no `&`, `\n` or `\t` goes to the formula quoted and
      to the preview unquoted. */
  lemma PlainLiteral(b: string)
    requires '&' !in b && '"' !in b && !Contains(b, "\\n") && !Contains(b, "\\t")
    ensures var f := LiteralFragment("\"" + b + "\"");
      f.formula == "\"" + b + "\"," && f.preview == b
  {
    var q := "\"" + b + "\"";
    NoEscapeQuoted(b, "\\n");
    NoEscapeQuoted(b, "\\t");
  }

  lemma NoEscapeQuoted(b: string, pat: string)
    requires |pat| == 2 && pat[0] == '\\' && pat[1] != '"' && '"' !in b && !Contains(b, pat)
    ensures !Contains("\"" + b + "\"", pat)
  {
    var s := "\"" + b + "\"";
    assert s[1..] == b + "\"";
    NoEscapeAppendQuote(b, pat);
  }

  lemma {:induction false} NoEscapeAppendQuote(b: string, pat: string)
    requires |pat| == 2 && pat[0] == '\\' && pat[1] != '"' && !Contains(b, pat)
    ensures !Contains(b + "\"", pat)
    decreases |b|
  {
    var s := b + "\"";
    if |b| >= 2 {
      assert s[..2] == b[..2];
      assert s[1..] == b[1..] + "\"";
      NoEscapeAppendQuote(b[1..], pat);
    } else if |b| == 1 {
      assert s[..2] != pat;
      assert s[1..] == "\"";
    }
  }

  /** What the preview of serial day `n` must be: the date `n` days after
      1899-12-30 as `DD-MM-YYYY`, or nothing when that date falls outside
      years 1 to 9999. */
  predicate SerialDateShown(n: int, preview: string) {
    match SerialToDate(n)
    case None => preview == "" && !(1 <= EpochOrdinal + n <= MaxOrdinal)
    case Some(d) =>
      && ValidDate(d) && ToOrdinal(d) == EpochOrdinal + n
      && preview == FormatDMY(d)
      && |preview| == 10 && ParseDMY(preview) == Some(d)
  }

  lemma SerialPreviewShown(n: int)
    ensures SerialDateShown(n, match SerialPreview(Some(n)) case None => "" case Some(p) => p)
  {
    match SerialToDate(n)
    case None =>
    case Some(d) => FormatDMYRoundTrip(d);
  }

  /** An integer cell is read as a serial day count: `int(str(n)) == n`. */
  lemma DatePreviewOfInt(n: int)
    ensures DatePreview(Int(n)) == SerialPreview(Some(n))
  {
    ParseIntRoundTrip(n);
  }

  /** A DATE directive always adds its formula fragment, with the column
      letters upper-cased, even when the cell cannot be read or converted.
      For an integer serial `n` the preview is the date `n` days after
      1899-12-30 as `DD-MM-YYYY`, and text holding an integer is read as
      such a serial; a timestamp is formatted the same way; a missing cell
      previews `N/A`; an unreadable cell, or text that is not an integer,
      previews nothing. */
  lemma DateDirective(m: string, l: string, sample: Option<Row>)
    requires Upper(m) == "DATE"
    ensures var f := CompileToken(Directive(m, l), sample);
      var cell := SampleCell(sample, LetterToIndex(Upper(l)));
      && f.formula == DateFormula(Upper(l))
      && (cell.None? ==> f.preview == "")
      && (cell == Some(Missing) ==> f.preview == "N/A")
      && (cell.Some? && cell.value.Date? ==> f.preview == FormatDMY(cell.value.stamp.Date()))
      && (cell.Some? && cell.value.Int? ==> SerialDateShown(cell.value.n, f.preview))
      && (cell.Some? && cell.value.Text? ==>
            match ParseInt(cell.value.text)
            case None => f.preview == ""
            case Some(n) => SerialDateShown(n, f.preview))
  {
    var cell := SampleCell(sample, LetterToIndex(Upper(l)));
    if cell.Some? && cell.value.Int? {
      DatePreviewOfInt(cell.value.n);
      SerialPreviewShown(cell.value.n);
    } else if cell.Some? && cell.value.Text? {
      DateTextShown(cell.value.text);
    }
  }

  lemma DateTextShown(s: string)
    ensures var p := match DatePreview(Text(s)) case None => "" case Some(p) => p;
      match ParseInt(s)
      case None => p == ""
      case Some(n) => SerialDateShown(n, p)
  {
    if ParseInt(s).Some? {
      SerialPreviewShown(ParseInt(s).value);
    }
  }

  /** An AMPR directive always adds `SUBSTITUTE(L#, "&", "%26"),` and
      previews the cell's raw text, `N/A` when it is missing. */
  lemma AmprDirective(m: string, l: string, sample: Option<Row>)
    requires Upper(m) == "AMPR"
    ensures var f := CompileToken(Directive(m, l), sample);
      && f.formula == AmprFormula(Upper(l))
      && match SampleCell(sample, LetterToIndex(Upper(l)))
         case None => f.preview == ""
         case Some(Missing) => f.preview == "N/A"
         case Some(c) => f.preview == CellText(c)
  {
  }

  /** Any other mode contributes nothing. */
  lemma OtherDirective(m: string, l: string, sample: Option<Row>)
    requires Upper(m) != "DATE" && Upper(m) != "AMPR"
    ensures CompileToken(Directive(m, l), sample) == Empty
  {
  }

  function QuoteAll(bodies: seq<string>): seq<Token> {
    if bodies == [] then [] else [Literal("\"" + bodies[0] + "\"")] + QuoteAll(bodies[1..])
  }

  /** The quoted texts, each followed by `,`. */
  function CommaAfterEach(bodies: seq<string>): string {
    if bodies == [] then "" else "\"" + bodies[0] + "\"," + CommaAfterEach(bodies[1..])
  }

  predicate PlainBody(b: string) {
    '&' !in b && '"' !in b && !Contains(b, "\\n") && !Contains(b, "\\t")
  }

  /** A template of plain literals compiles to the quoted literals each
      followed by `,`, and previews as the literals run together with
      extra spaces removed. */
  lemma {:induction false} PlainLiteralsTemplate(bodies: seq<string>, sample: Option<Row>)
    requires forall i :: 0 <= i < |bodies| ==> PlainBody(bodies[i])
    ensures Compile(QuoteAll(bodies), sample) == Fragment(CommaAfterEach(bodies), Flatten(bodies))
  {
    if bodies != [] {
      PlainLiteral(bodies[0]);
      PlainLiteralsTemplate(bodies[1..], sample);
    }
  }

  /** End to end: scanning and compiling a template written as plain
      literals separated by spaces. */
  lemma PlainLiteralsExtract(bodies: seq<string>, sample: Option<Row>)
    requires forall i :: 0 <= i < |bodies| ==> PlainBody(bodies[i])
    ensures Extract(Unparse(QuoteAll(bodies)), sample)
            == Compiled(CommaAfterEach(bodies), RemoveExtraSpaces(Flatten(bodies)))
  {
    QuoteAllWellFormed(bodies);
    ScanRoundTrip(QuoteAll(bodies));
    PlainLiteralsTemplate(bodies, sample);
  }

  lemma {:induction false} QuoteAllWellFormed(bodies: seq<string>)
    requires forall i :: 0 <= i < |bodies| ==> '"' !in bodies[i]
    ensures var ts := QuoteAll(bodies);
      |ts| == |bodies| && forall i :: 0 <= i < |ts| ==> WellFormedToken(ts[i])
  {
    if bodies != [] {
      var q := "\"" + bodies[0] + "\"";
      assert q[1..|q| - 1] == bodies[0];
      QuoteAllWellFormed(bodies[1..]);
    }
  }
}
