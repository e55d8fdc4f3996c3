/** Splitting the data into output workbooks: `filter_data`, the chunking
    and saving of `process_branch_data`, the loop over group values of
    `generate_files`, and the input checks of `hyperlink_splitter`. */
module Partition {
  import opened Strings
  import opened Calendar
  import opened Cells
  import opened ColumnCodec
  import opened Workbook
  import opened TemplateCompile

  /** The exceptions that end a run. */
  datatype Failure =
    | IndexError   // `iloc` with a column position outside the table
    | ValueError   // `int()` of chunk-size text that is not an integer
    | ZeroStep     // `range()` with a chunk size of zero

  datatype Result<T> = Ok(value: T) | Err(failure: Failure)

  /** One saved workbook: where it went and the rows it holds. What its
      sheet contains besides the rows follows from those (see `Sheet`). */
  datatype SavedFile = SavedFile(path: string, data: Table)

  /** What a run needs besides the table: the input workbook's path, the
      output directory, the phone and link columns, the message formula,
      the configuration and the current time. */
  datatype Job = Job(filePath: string, outputPath: string, mob: string, link: string,
                     msg: string, cfg: Config, now: Timestamp)

  /** The preview's sample: `self.df.iloc[0]`, when the table has a row. */
  function FirstRow(t: Table): Option<Row> {
    if |t.rows| > 0 then Some(t.rows[0]) else None
  }

  /** The `Job` that `generate_files` hands to each `process_branch_data`
      call: the message is `concat_string[:-1]`, the formula template that
      `extract_data` compiled against the table's first row, without its
      final `,`. */
  function JobFor(t: Table, template: string, filePath: string, outputPath: string,
                  mob: string, link: string, cfg: Config, now: Timestamp): (job: Job)
    ensures var formula := Extract(template, FirstRow(t)).formula;
      && (formula == "" ==> job.msg == "")
      && (formula != "" ==> job.msg + "," == formula)
    ensures job.filePath == filePath && job.outputPath == outputPath
    ensures job.mob == mob && job.link == link && job.cfg == cfg && job.now == now
  {
    Job(filePath, outputPath, mob, link, FormulaBody(Extract(template, FirstRow(t)).formula), cfg, now)
  }

  /** `save_to_excel`: the rows written to `path`. */
  function SaveToExcel(data: Table, path: string): (f: SavedFile)
    ensures f.path == path && f.data == data
  {
    SavedFile(path, data)
  }

  /** The rest of what `save_to_excel` writes into a saved file's sheet:
      the link formulas of `add_hyperlink_formula` and the column widths of
      `adjust_column_width`. */
  datatype SheetExtras = SheetExtras(formulas: map<string, string>, widths: seq<Option<nat>>)

  function Sheet(f: SavedFile, job: Job): (x: SheetExtras)
    requires WellFormed(f.data)
    ensures |x.formulas| == |f.data.rows| && |x.widths| == |f.data.header|
  {
    SheetExtras(HyperlinkFormulas(|f.data.rows|, job.mob, job.link, job.msg, job.cfg), ColumnWidths(f.data))
  }

  // ---------------------------------------------------------------------
  // filter_data

  /** A row's group value: its cell in column `j`, stringified and
      stripped. Rows of a well-formed table always have that cell. */
  function Key(row: Row, j: nat): string {
    if j < |row| then Strip(CellText(row[j])) else ""
  }

  /** The items satisfying `p`, in order. */
  function Pick<T>(xs: seq<T>, p: T -> bool): seq<T> {
    if xs == [] then [] else (if p(xs[0]) then [xs[0]] else []) + Pick(xs[1..], p)
  }

  lemma {:induction false} PickProperties<T(!new)>(xs: seq<T>, p: T -> bool)
    ensures var r := Pick(xs, p);
      && (forall i :: 0 <= i < |r| ==> p(r[i]))
      && (forall x :: multiset(r)[x] == if p(x) then multiset(xs)[x] else 0)
      && multiset(r) <= multiset(xs)
    decreases |xs|
  {
    if xs != [] {
      PickProperties(xs[1..], p);
      assert xs == [xs[0]] + xs[1..];
    }
  }

  lemma {:induction false} PickAppend<T>(a: seq<T>, b: seq<T>, p: T -> bool)
    ensures Pick(a + b, p) == Pick(a, p) + Pick(b, p)
    decreases |a|
  {
    if a != [] {
      var ab := a + b;
      assert ab[0] == a[0];
      assert ab[1..] == a[1..] + b;
      PickAppend(a[1..], b, p);
    } else {
      assert a + b == b;
    }
  }

  /** Boolean-mask selection: the items satisfying `p`, in their original
      order, each kept as often as it occurs. */
  function Select<T(!new)>(xs: seq<T>, p: T -> bool): (r: seq<T>)
    ensures forall i :: 0 <= i < |r| ==> p(r[i])
    ensures forall x :: multiset(r)[x] == if p(x) then multiset(xs)[x] else 0
    ensures multiset(r) <= multiset(xs)
  {
    PickProperties(xs, p);
    Pick(xs, p)
  }

  /** Selection keeps the order of the items: it distributes over
      concatenation. */
  lemma SelectAppend<T(!new)>(a: seq<T>, b: seq<T>, p: T -> bool)
    ensures Select(a + b, p) == Select(a, p) + Select(b, p)
  {
    PickAppend(a, b, p);
  }

  /** The rows whose group value is `name`. */
  function FilterRows(rows: seq<Row>, j: nat, name: string): (r: seq<Row>)
    ensures forall i :: 0 <= i < |r| ==> Key(r[i], j) == name
    ensures forall x :: multiset(r)[x] == if Key(x, j) == name then multiset(rows)[x] else 0
  {
    Select(rows, (x: Row) => Key(x, j) == name)
  }

  /** `filter_data`: with no usable group column (none given, or letters
      that decode below 0) the whole table and `True`; otherwise the rows of
      group `name` and `False`, or an `IndexError` when the column lies
      beyond the table. */
  function FilterData(t: Table, name: string, branchIndex: Option<string>): (r: Result<(Table, bool)>)
    requires WellFormed(t)
    ensures var chunked := branchIndex.None? || LetterToIndex(branchIndex.value) <= -1;
      && (chunked ==> r == Ok((t, true)))
      && (!chunked && LetterToIndex(branchIndex.value) >= |t.header| ==> r == Err(IndexError))
      && (!chunked && LetterToIndex(branchIndex.value) < |t.header| ==>
            r == Ok((Table(t.header, FilterRows(t.rows, LetterToIndex(branchIndex.value), name)), false)))
    ensures r.Ok? ==> WellFormed(r.value.0)
  {
    if branchIndex.None? || LetterToIndex(branchIndex.value) <= -1 then Ok((t, true))
    else
      var j := LetterToIndex(branchIndex.value);
      if j >= |t.header| then Err(IndexError)
      else
        var kept := FilterRows(t.rows, j, name);
        assert forall i :: 0 <= i < |kept| ==> kept[i] in t.rows by {
          forall i | 0 <= i < |kept| ensures kept[i] in t.rows {
            assert multiset(kept)[kept[i]] > 0;
          }
        }
        Ok((Table(t.header, kept), false))
  }

  // ---------------------------------------------------------------------
  // chunking

  /** `[xs[i:i+k] for i in range(0, len(xs), k)]`: pieces of exactly `k`
      items except a shorter, non-empty last one. */
  function Chunks<T>(xs: seq<T>, k: nat): (cs: seq<seq<T>>)
    requires k > 0
    ensures forall i :: 0 <= i < |cs| ==> 1 <= |cs[i]| <= k
    ensures forall i :: 0 <= i < |cs| - 1 ==> |cs[i]| == k
    ensures |cs| == 0 <==> |xs| == 0
    decreases |xs|
  {
    if |xs| == 0 then []
    else if |xs| <= k then [xs]
    else [xs[..k]] + Chunks(xs[k..], k)
  }

  /** Put back together, the chunks are `xs`. */
  lemma {:induction false} ChunksFlatten<T>(xs: seq<T>, k: nat)
    requires k > 0
    ensures Flatten(Chunks(xs, k)) == xs
    decreases |xs|
  {
    var cs := Chunks(xs, k);
    if |xs| > k {
      ChunksFlatten(xs[k..], k);
      assert cs[0] == xs[..k] && cs[1..] == Chunks(xs[k..], k);
      assert xs[..k] + xs[k..] == xs;
    } else if |xs| > 0 {
      assert cs == [xs];
      assert Flatten(cs) == xs + Flatten(cs[1..]);
    }
  }

  /** There are as few chunks as can hold `xs`: `ceil(len(xs) / k)`. */
  lemma {:induction false} ChunkCount<T>(xs: seq<T>, k: nat)
    requires k > 0
    ensures |xs| <= |Chunks(xs, k)| * k
    ensures |Chunks(xs, k)| > 0 ==> (|Chunks(xs, k)| - 1) * k < |xs|
    decreases |xs|
  {
    if |xs| > k {
      var n := |Chunks(xs[k..], k)|;
      ChunkCount(xs[k..], k);
      assert |Chunks(xs, k)| == n + 1;
      assert (n + 1) * k == n * k + k;
    } else if |xs| > 0 {
      assert |Chunks(xs, k)| == 1;
    }
  }

  /** Where chunk `i` starts: `i * k`, counted up one chunk at a time. */
  function ChunkStart(i: nat, k: nat): nat {
    if i == 0 then 0 else ChunkStart(i - 1, k) + k
  }

  lemma {:induction false} ChunkStartProduct(i: nat, k: nat)
    ensures ChunkStart(i, k) == i * k
  {
    if i > 0 {
      ChunkStartProduct(i - 1, k);
      assert (i - 1) * k + k == i * k;
    }
  }

  lemma ChunkHead<T>(xs: seq<T>, k: nat)
    requires k > 0 && |xs| > 0
    ensures Chunks(xs, k)[0] == xs[0 .. Min(k, |xs|)]
  {
    if |xs| <= k {
      assert xs[0..|xs|] == xs;
    }
  }

  lemma ChunkTail<T>(xs: seq<T>, k: nat, i: nat)
    requires k > 0 && |xs| > k && 0 < i < |Chunks(xs, k)|
    ensures i - 1 < |Chunks(xs[k..], k)| && Chunks(xs, k)[i] == Chunks(xs[k..], k)[i - 1]
  {
    assert Chunks(xs, k) == [xs[..k]] + Chunks(xs[k..], k);
  }

  /** Chunk `i` is the slice `xs[i*k : i*k + k]`, cut short at the end. */
  lemma {:induction false} ChunkSlice<T>(xs: seq<T>, k: nat, i: nat)
    requires k > 0 && i < |Chunks(xs, k)|
    ensures ChunkStart(i, k) < |xs|
    ensures Chunks(xs, k)[i] == xs[ChunkStart(i, k) .. Min(ChunkStart(i, k) + k, |xs|)]
    decreases i
  {
    if i == 0 {
      ChunkHead(xs, k);
    } else {
      var tail := xs[k..];
      ChunkTail(xs, k, i);
      ChunkSlice(tail, k, i - 1);
      var lo := ChunkStart(i - 1, k);
      var hi := Min(lo + k, |tail|);
      assert ChunkStart(i, k) == k + lo;
      assert Min(k + lo + k, |xs|) == k + hi;
      SliceOfSlice(xs, k, lo, hi);
    }
  }

  lemma SliceOfSlice<T>(xs: seq<T>, k: nat, lo: nat, hi: nat)
    requires k <= |xs| && lo <= hi <= |xs| - k
    ensures xs[k..][lo..hi] == xs[k + lo..k + hi]
  {
  }

  // ---------------------------------------------------------------------
  // process_branch_data

  /** The files one call wrote, and whether it ran in chunk mode. */
  datatype Outcome = Outcome(files: seq<SavedFile>, chunked: bool)

  /** Chunk `i` of the table, saved under its numbered name. */
  function ChunkFiles(t: Table, name: string, k: nat, job: Job): (fs: seq<SavedFile>)
    requires WellFormed(t) && k > 0
    ensures |fs| == |Chunks(t.rows, k)|
    ensures forall i :: 0 <= i < |fs| ==>
      && fs[i].data == Table(t.header, Chunks(t.rows, k)[i])
      && fs[i].path == GenerateFilePath(name, job.filePath, job.outputPath, i, true, job.now)
  {
    var cs := Chunks(t.rows, k);
    seq(|cs|, i requires 0 <= i < |cs| =>
      assert WellFormed(Table(t.header, cs[i])) by { ChunkRowsWellFormed(t, k, i); }
      SaveToExcel(Table(t.header, cs[i]), GenerateFilePath(name, job.filePath, job.outputPath, i, true, job.now)))
  }

  lemma ChunkRowsWellFormed(t: Table, k: nat, i: nat)
    requires WellFormed(t) && k > 0 && i < |Chunks(t.rows, k)|
    ensures WellFormed(Table(t.header, Chunks(t.rows, k)[i]))
  {
    ChunkSlice(t.rows, k, i);
    var c := Chunks(t.rows, k)[i];
    forall r | 0 <= r < |c|
      ensures |c[r]| == |t.header|
    {
      assert c[r] == t.rows[ChunkStart(i, k) + r];
    }
  }

  /** The rows of a sequence of saved files, one after another. */
  function SavedRows(fs: seq<SavedFile>): seq<Row> {
    if fs == [] then [] else fs[0].data.rows + SavedRows(fs[1..])
  }

  lemma {:induction false} ChunkFilesRows(t: Table, name: string, k: nat, job: Job)
    requires WellFormed(t) && k > 0
    ensures SavedRows(ChunkFiles(t, name, k, job)) == t.rows
  {
    ChunkFilesRowsFrom(t, name, k, job, Chunks(t.rows, k), ChunkFiles(t, name, k, job));
    ChunksFlatten(t.rows, k);
  }

  lemma {:induction false} ChunkFilesRowsFrom(t: Table, name: string, k: nat, job: Job,
                                              cs: seq<seq<Row>>, fs: seq<SavedFile>)
    requires |fs| == |cs|
    requires forall i :: 0 <= i < |fs| ==> fs[i].data.rows == cs[i]
    ensures SavedRows(fs) == Flatten(cs)
    decreases |fs|
  {
    if fs != [] {
      ChunkFilesRowsFrom(t, name, k, job, cs[1..], fs[1..]);
    }
  }

  /** `process_branch_data`. In chunk mode (no usable group column) the
      whole table is cut into chunks of `k` rows, each saved under its
      number; `k == 0` makes `range` fail before anything is written and a
      negative `k` writes nothing. Otherwise the rows of group `name` go to
      one file named after the group. The flag returned says which mode
      ran. */
  function ProcessBranch(t: Table, name: string, branchIndex: Option<string>, k: int, job: Job)
    : (r: Result<Outcome>)
    requires WellFormed(t)
    ensures var chunked := branchIndex.None? || LetterToIndex(branchIndex.value) <= -1;
      && (r.Ok? ==> r.value.chunked == chunked)
      && (r.Err? ==> (chunked && k == 0 && r.failure == ZeroStep)
                     || (!chunked && LetterToIndex(branchIndex.value) >= |t.header| && r.failure == IndexError))
      && (chunked && k == 0 ==> r == Err(ZeroStep))
      && (!chunked && LetterToIndex(branchIndex.value) >= |t.header| ==> r == Err(IndexError))
      && (chunked && k < 0 ==> r == Ok(Outcome([], true)))
      && (chunked && k > 0 ==> r.Ok? && SavedRows(r.value.files) == t.rows
                               && |r.value.files| == |Chunks(t.rows, k)|)
      && (!chunked && LetterToIndex(branchIndex.value) < |t.header| ==>
            && r.Ok? && |r.value.files| == 1
            && var f := r.value.files[0];
               && f.path == GenerateFilePath(name, job.filePath, job.outputPath, 0, false, job.now)
               && f.data == Table(t.header, FilterRows(t.rows, LetterToIndex(branchIndex.value), name)))
  {
    match FilterData(t, name, branchIndex)
    case Err(e) => Err(e)
    case Ok((data, chunked)) =>
      if chunked then
        if k == 0 then Err(ZeroStep)
        else if k < 0 then Ok(Outcome([], true))
        else
          ChunkFilesRows(data, name, k, job);
          Ok(Outcome(ChunkFiles(data, name, k, job), true))
      else
        var path := GenerateFilePath(name, job.filePath, job.outputPath, 0, false, job.now);
        Ok(Outcome([SaveToExcel(data, path)], false))
  }

  // ---------------------------------------------------------------------
  // generate_files

  /** The group values of column `j`, row by row. */
  function Keys(rows: seq<Row>, j: nat): (ks: seq<string>)
    ensures |ks| == |rows|
    ensures forall i :: 0 <= i < |rows| ==> ks[i] == Key(rows[i], j)
  {
    seq(|rows|, i requires 0 <= i < |rows| => Key(rows[i], j))
  }

  /** Position of the first `x` in `xs`. */
  function IndexOf(xs: seq<string>, x: string): (n: nat)
    requires x in xs
    ensures n < |xs| && xs[n] == x && x !in xs[..n]
  {
    if xs[0] == x then 0
    else
      var n := 1 + IndexOf(xs[1..], x);
      assert xs[..n] == [xs[0]] + xs[1..][..n - 1];
      n
  }

  /** The first occurrence of a value is unchanged by appending. */
  lemma IndexOfAppend(xs: seq<string>, y: string, x: string)
    requires x in xs
    ensures x in xs + [y] && IndexOf(xs + [y], x) == IndexOf(xs, x)
  {
    var n := IndexOf(xs, x);
    var m := IndexOf(xs + [y], x);
    assert (xs + [y])[n] == x;
  }

  /** Each value once, at its first position. */
  function Dedup(xs: seq<string>): seq<string> {
    if xs == [] then []
    else
      var d := Dedup(xs[..|xs| - 1]);
      if xs[|xs| - 1] in d then d else d + [xs[|xs| - 1]]
  }

  lemma {:induction false} DedupProperties(xs: seq<string>)
    ensures var ds := Dedup(xs);
      && (forall x :: x in ds <==> x in xs)
      && (forall a, b :: 0 <= a < b < |ds| ==> ds[a] != ds[b])
      && (forall a, b :: 0 <= a < b < |ds| ==> IndexOf(xs, ds[a]) < IndexOf(xs, ds[b]))
      && (|xs| > 0 ==> |ds| > 0 && ds[0] == xs[0])
    decreases |xs|
  {
    if xs != [] {
      var init := xs[..|xs| - 1];
      DedupProperties(init);
      var d := Dedup(init);
      var last := xs[|xs| - 1];
      assert xs == init + [last];
      forall x | x in init ensures IndexOf(xs, x) == IndexOf(init, x) {
        IndexOfAppend(init, last, x);
      }
      if last !in d {
        assert IndexOf(xs, last) == |xs| - 1;
      }
    }
  }

  /** `Series.unique()`: every value once, in order of first appearance. */
  function Distinct(xs: seq<string>): (ds: seq<string>)
    ensures forall x :: x in ds <==> x in xs
    ensures forall a, b :: 0 <= a < b < |ds| ==> ds[a] != ds[b]
    ensures forall a, b :: 0 <= a < b < |ds| ==> IndexOf(xs, ds[a]) < IndexOf(xs, ds[b])
    ensures |xs| > 0 ==> |ds| > 0 && ds[0] == xs[0]
  {
    DedupProperties(xs);
    Dedup(xs)
  }

  /** `iloc[1:]`: every data row but the first. */
  function AfterFirst(rows: seq<Row>): seq<Row> {
    if |rows| >= 1 then rows[1..] else []
  }

  /** How a run ended: the files written, in order, and the exception
      that stopped it, if any. Files written before an exception stay
      written. */
  datatype Run = Run(saved: seq<SavedFile>, failure: Option<Failure>)

  /** The loop body of `generate_files`, once per group value: the chunk
      size text is converted first, then `process_branch_data` runs, and
      the loop stops after the first call that ran in chunk mode. */
  function RunBranches(t: Table, names: seq<string>, branchIndex: string, chunkText: string, job: Job)
    : (r: Run)
    requires WellFormed(t)
    ensures names == [] ==> r == Run([], None)
    ensures names != [] && ParseInt(chunkText).None? ==> r == Run([], Some(ValueError))
    decreases |names|
  {
    if names == [] then Run([], None)
    else
      match ParseInt(chunkText)
      case None => Run([], Some(ValueError))
      case Some(k) =>
        match ProcessBranch(t, names[0], Some(branchIndex), k, job)
        case Err(e) => Run([], Some(e))
        case Ok(out) =>
          if out.chunked then Run(out.files, None)
          else
            var rest := RunBranches(t, names[1..], branchIndex, chunkText, job);
            Run(out.files + rest.saved, rest.failure)
  }

  /** The group column's letters are used only when splitting by value. */
  function BranchIndex(branchText: string, splitByBranch: bool): string {
    if splitByBranch then branchText else ""
  }

  /** Chunk mode runs when splitting by value is off, or its column
      letters decode below 0. */
  predicate ChunkMode(branchText: string, splitByBranch: bool) {
    LetterToIndex(BranchIndex(branchText, splitByBranch)) <= -1
  }

  /** The group values `generate_files` loops over, as written: taken from
      every data row but the first. */
  function GroupNames(t: Table, j: nat): seq<string> {
    Distinct(Keys(AfterFirst(t.rows), j))
  }

  /** `generate_files`: the column given for splitting is resolved the way
      `iloc` does (so an empty or negative one counts from the right, even in
      chunk mode), its group values are collected from the rows after the
      first, and one `process_branch_data` call runs per value. */
  function GenerateFiles(t: Table, branchText: string, splitByBranch: bool, chunkText: string, job: Job)
    : (r: Run)
    requires WellFormed(t)
    ensures ResolveColumn(|t.header|, LetterToIndex(branchText)).None? ==> r == Run([], Some(IndexError))
    ensures ResolveColumn(|t.header|, LetterToIndex(branchText)).Some? && |t.rows| <= 1 ==> r == Run([], None)
    ensures (ResolveColumn(|t.header|, LetterToIndex(branchText)).Some? && |t.rows| >= 2
             && ParseInt(chunkText).None?) ==> r == Run([], Some(ValueError))
  {
    match ResolveColumn(|t.header|, LetterToIndex(branchText))
    case None => Run([], Some(IndexError))
    case Some(j) =>
      RunBranches(t, GroupNames(t, j), BranchIndex(branchText, splitByBranch), chunkText, job)
  }

  /** When splitting by a column inside the table, every group value gets
      one file holding exactly that group's rows, named after the group. */
  lemma RunBranchesByGroup(t: Table, names: seq<string>, branchIndex: string,
                           chunkText: string, job: Job)
    requires WellFormed(t)
    requires 0 <= LetterToIndex(branchIndex) < |t.header|
    requires ParseInt(chunkText).Some?
    ensures var r := RunBranches(t, names, branchIndex, chunkText, job);
      && r.failure.None? && |r.saved| == |names|
      && forall n :: 0 <= n < |names| ==>
           && r.saved[n].data == Table(t.header, FilterRows(t.rows, LetterToIndex(branchIndex), names[n]))
           && r.saved[n].path == GenerateFilePath(names[n], job.filePath, job.outputPath, 0, false, job.now)
  {
    GroupRun(t, names, branchIndex, chunkText, job);
    MapSeqAt((name: string) => GroupFile(t, name, LetterToIndex(branchIndex), job), names);
  }

  lemma {:induction false} GroupRun(t: Table, names: seq<string>, branchIndex: string, chunkText: string, job: Job)
    requires WellFormed(t)
    requires 0 <= LetterToIndex(branchIndex) < |t.header|
    requires ParseInt(chunkText).Some?
    ensures RunBranches(t, names, branchIndex, chunkText, job) == Run(GroupFiles(t, names, LetterToIndex(branchIndex), job), None)
    decreases |names|
  {
    if names != [] {
      GroupRun(t, names[1..], branchIndex, chunkText, job);
      GroupStep(t, names, branchIndex, chunkText, job);
    }
  }

  /** The file `process_branch_data` writes for one group value. */
  function GroupFile(t: Table, name: string, j: nat, job: Job): SavedFile {
    SavedFile(GenerateFilePath(name, job.filePath, job.outputPath, 0, false, job.now),
              Table(t.header, FilterRows(t.rows, j, name)))
  }

  /** `f` applied to each item, in order. */
  function MapSeq<A, B>(f: A -> B, xs: seq<A>): seq<B> {
    if xs == [] then [] else [f(xs[0])] + MapSeq(f, xs[1..])
  }

  lemma {:induction false} MapSeqAt<A, B>(f: A -> B, xs: seq<A>)
    ensures |MapSeq(f, xs)| == |xs|
    ensures forall n :: 0 <= n < |xs| ==> MapSeq(f, xs)[n] == f(xs[n])
    decreases |xs|
  {
    if xs != [] {
      MapSeqAt(f, xs[1..]);
      forall n | 0 < n < |xs| ensures MapSeq(f, xs)[n] == f(xs[n]) {
        assert xs[n] == xs[1..][n - 1];
      }
    }
  }

  /** The files of a group-mode run, one per value, in order. */
  function GroupFiles(t: Table, names: seq<string>, j: nat, job: Job): seq<SavedFile> {
    MapSeq((name: string) => GroupFile(t, name, j, job), names)
  }

  /** One step of the loop in group mode: the first value's file, then the
      rest of the run. */
  lemma GroupStep(t: Table, names: seq<string>, branchIndex: string, chunkText: string, job: Job)
    requires WellFormed(t) && names != []
    requires 0 <= LetterToIndex(branchIndex) < |t.header|
    requires ParseInt(chunkText).Some?
    ensures var rest := RunBranches(t, names[1..], branchIndex, chunkText, job);
      RunBranches(t, names, branchIndex, chunkText, job)
        == Run([GroupFile(t, names[0], LetterToIndex(branchIndex), job)] + rest.saved, rest.failure)
  {
    var out := ProcessBranch(t, names[0], Some(branchIndex), ParseInt(chunkText).value, job).value;
    assert out.files == [GroupFile(t, names[0], LetterToIndex(branchIndex), job)];
  }

  /** As written, the group values looped over are those of the data rows
      after the first, each once. */
  lemma GroupNamesAfterFirst(t: Table, j: nat)
    ensures forall x :: x in GroupNames(t, j) <==> exists i :: 1 <= i < |t.rows| && x == Key(t.rows[i], j)
  {
    forall x ensures x in GroupNames(t, j) <==> exists i :: 1 <= i < |t.rows| && x == Key(t.rows[i], j)
    {
      assert x in GroupNames(t, j) <==> x in Keys(AfterFirst(t.rows), j);
      InKeysAfterFirst(t, j, x);
    }
  }

  lemma InKeysAfterFirst(t: Table, j: nat, x: string)
    ensures x in Keys(AfterFirst(t.rows), j) <==> exists i :: 1 <= i < |t.rows| && x == Key(t.rows[i], j)
  {
    var rest := AfterFirst(t.rows);
    var ks := Keys(rest, j);
    assert |rest| == if |t.rows| >= 1 then |t.rows| - 1 else 0;
    assert forall m :: 0 <= m < |rest| ==> rest[m] == t.rows[m + 1];
    if x in ks {
      var m :| 0 <= m < |ks| && ks[m] == x;
      assert x == Key(t.rows[m + 1], j);
    }
    if exists i :: 1 <= i < |t.rows| && x == Key(t.rows[i], j) {
      var i :| 1 <= i < |t.rows| && x == Key(t.rows[i], j);
      assert rest[i - 1] == t.rows[i];
      assert ks[i - 1] == x;
    }
  }


  /** Splitting by value, as written: one file per group value looped
      over, holding all rows (the first included) of that group, named
      after it. */
  lemma GenerateFilesByGroup(t: Table, branchText: string, chunkText: string, job: Job)
    requires WellFormed(t)
    requires 0 <= LetterToIndex(branchText) < |t.header|
    requires ParseInt(chunkText).Some?
    ensures var j := LetterToIndex(branchText);
      var names := GroupNames(t, j);
      var r := GenerateFiles(t, branchText, true, chunkText, job);
      && r.failure.None? && |r.saved| == |names|
      && (forall n :: 0 <= n < |names| ==>
            && r.saved[n].data == Table(t.header, FilterRows(t.rows, j, names[n]))
            && r.saved[n].path == GenerateFilePath(names[n], job.filePath, job.outputPath, 0, false, job.now))
  {
    RunBranchesByGroup(t, GroupNames(t, LetterToIndex(branchText)), branchText, chunkText, job);
  }

  /** Distinct groups of one split-by-value run are written to distinct
      paths, unless a group value itself starts with `/` (then
      `os.path.join` drops the output directory). */
  lemma GroupPathsDistinct(t: Table, branchText: string, chunkText: string, job: Job, a: nat, b: nat)
    requires WellFormed(t)
    requires 0 <= LetterToIndex(branchText) < |t.header|
    requires ParseInt(chunkText).Some?
    requires a < b < |GroupNames(t, LetterToIndex(branchText))|
    requires forall n :: 0 <= n < |GroupNames(t, LetterToIndex(branchText))| ==>
               !(|GroupNames(t, LetterToIndex(branchText))[n]| > 0 && GroupNames(t, LetterToIndex(branchText))[n][0] == '/')
    ensures var r := GenerateFiles(t, branchText, true, chunkText, job);
      a < |r.saved| && b < |r.saved| && r.saved[a].path != r.saved[b].path
  {
    var names := GroupNames(t, LetterToIndex(branchText));
    GenerateFilesByGroup(t, branchText, chunkText, job);
    var base := StripExtension(BaseName(job.filePath));
    var date := FormatDMY(job.now.Date());
    BranchFileNamesDistinct(names[a], names[b], base, date);
    BranchFileNameStart(names[a], base, date);
    BranchFileNameStart(names[b], base, date);
    PathJoinInjective(job.outputPath, BranchFileName(names[a], base, date), BranchFileName(names[b], base, date));
  }

  lemma BranchFileNameStart(name: string, base: string, date: string)
    requires !(|name| > 0 && name[0] == '/')
    ensures var f := BranchFileName(name, base, date); |f| > 0 && f[0] != '/'
  {
    var f := BranchFileName(name, base, date);
    if |name| > 0 {
      assert f[0] == name[0];
    } else {
      assert f[0] == '_';
    }
  }

  /** In chunk mode the run is the outcome of the first call alone, the
      one for the first group value. */
  lemma ChunkModeFirstCall(t: Table, branchText: string, splitByBranch: bool, chunkText: string, job: Job)
    requires WellFormed(t)
    requires ResolveColumn(|t.header|, LetterToIndex(branchText)).Some? && |t.rows| >= 2
    requires ChunkMode(branchText, splitByBranch) && ParseInt(chunkText).Some?
    ensures var names := GroupNames(t, ResolveColumn(|t.header|, LetterToIndex(branchText)).value);
      && names != []
      && var r := GenerateFiles(t, branchText, splitByBranch, chunkText, job);
         match ProcessBranch(t, names[0], Some(BranchIndex(branchText, splitByBranch)), ParseInt(chunkText).value, job)
         case Err(e) => r == Run([], Some(e))
         case Ok(out) => r == Run(out.files, None)
  {
    var j := ResolveColumn(|t.header|, LetterToIndex(branchText)).value;
    assert Keys(AfterFirst(t.rows), j) != [];
  }

  /** A chunk file's path does not depend on the group value. */
  lemma ChunkPathsIgnoreName(name: string, job: Job)
    ensures forall i: nat :: GenerateFilePath(name, job.filePath, job.outputPath, i, true, job.now)
                          == GenerateFilePath("", job.filePath, job.outputPath, i, true, job.now)
  {
  }

  /** In chunk mode the loop makes one call: the chunks of the whole table
      are written, numbered from 1, and together hold every row once, in
      order. A chunk size of 0 fails before writing; a negative one writes
      nothing. */
  lemma GenerateFilesChunked(t: Table, branchText: string, splitByBranch: bool, chunkText: string, job: Job)
    requires WellFormed(t)
    requires ResolveColumn(|t.header|, LetterToIndex(branchText)).Some? && |t.rows| >= 2
    requires ChunkMode(branchText, splitByBranch) && ParseInt(chunkText).Some?
    ensures var k := ParseInt(chunkText).value;
      var r := GenerateFiles(t, branchText, splitByBranch, chunkText, job);
      && (k == 0 ==> r == Run([], Some(ZeroStep)))
      && (k < 0 ==> r == Run([], None))
      && (k > 0 ==>
            && r.failure.None? && SavedRows(r.saved) == t.rows
            && |r.saved| == |Chunks(t.rows, k)|
            && forall i :: 0 <= i < |r.saved| ==>
                 r.saved[i].path == GenerateFilePath("", job.filePath, job.outputPath, i, true, job.now))
  {
    var j := ResolveColumn(|t.header|, LetterToIndex(branchText)).value;
    ChunkModeFirstCall(t, branchText, splitByBranch, chunkText, job);
    var name := GroupNames(t, j)[0];
    var k := ParseInt(chunkText).value;
    if k > 0 {
      ChunkFilesRows(t, name, k, job);
      ChunkPathsIgnoreName(name, job);
    }
  }

  // ---------------------------------------------------------------------
  // every row in a file: the run as evidently intended

  /** The loop of `generate_files` over the group values of every data
      row, the first included. */
  function GenerateFilesIntended(t: Table, branchText: string, splitByBranch: bool, chunkText: string,
                                 job: Job): (r: Run)
    requires WellFormed(t)
    ensures ResolveColumn(|t.header|, LetterToIndex(branchText)).None? ==> r == Run([], Some(IndexError))
    ensures ResolveColumn(|t.header|, LetterToIndex(branchText)).Some? && |t.rows| == 0 ==> r == Run([], None)
  {
    match ResolveColumn(|t.header|, LetterToIndex(branchText))
    case None => Run([], Some(IndexError))
    case Some(j) =>
      RunBranches(t, Distinct(Keys(t.rows, j)), BranchIndex(branchText, splitByBranch), chunkText, job)
  }

  /** A row of another group is never selected. */
  lemma NotSelected(rows: seq<Row>, j: nat, name: string, x: Row)
    requires Key(x, j) != name
    ensures x !in FilterRows(rows, j, name)
  {
    assert multiset(FilterRows(rows, j, name))[x] == 0;
  }

  /** A row is selected for its own group. */
  lemma Selected(rows: seq<Row>, j: nat, x: Row)
    requires x in rows
    ensures x in FilterRows(rows, j, Key(x, j))
  {
    assert multiset(FilterRows(rows, j, Key(x, j)))[x] == multiset(rows)[x];
  }

  /** As written, a row whose group value occurs only in the first data
      row is in none of the files of a split-by-value run. */
  lemma FirstRowLost(t: Table, branchText: string, chunkText: string, job: Job)
    requires WellFormed(t)
    requires 0 <= LetterToIndex(branchText) < |t.header| && |t.rows| >= 1
    requires ParseInt(chunkText).Some?
    requires forall i :: 1 <= i < |t.rows| ==>
               Key(t.rows[i], LetterToIndex(branchText)) != Key(t.rows[0], LetterToIndex(branchText))
    ensures var r := GenerateFiles(t, branchText, true, chunkText, job);
      forall n :: 0 <= n < |r.saved| ==> t.rows[0] !in r.saved[n].data.rows
  {
    var j := LetterToIndex(branchText);
    var names := GroupNames(t, j);
    GenerateFilesByGroup(t, branchText, chunkText, job);
    GroupNamesAfterFirst(t, j);
    var r := GenerateFiles(t, branchText, true, chunkText, job);
    forall n | 0 <= n < |r.saved|
      ensures t.rows[0] !in r.saved[n].data.rows
    {
      assert names[n] in names;
      NotSelected(t.rows, j, names[n], t.rows[0]);
    }
  }

  /** As intended, splitting by value writes one file per distinct group
      value of all the data rows. */
  lemma IntendedByGroup(t: Table, branchText: string, chunkText: string, job: Job)
    requires WellFormed(t)
    requires 0 <= LetterToIndex(branchText) < |t.header|
    requires ParseInt(chunkText).Some?
    ensures var j := LetterToIndex(branchText);
      var names := Distinct(Keys(t.rows, j));
      var r := GenerateFilesIntended(t, branchText, true, chunkText, job);
      && r.failure.None? && |r.saved| == |names|
      && (forall n :: 0 <= n < |names| ==> r.saved[n].data.rows == FilterRows(t.rows, j, names[n]))
  {
    RunBranchesByGroup(t, Distinct(Keys(t.rows, LetterToIndex(branchText))), branchText, chunkText, job);
  }

  /** Every row is in some file, and that file holds only rows of the
      same group value. */
  predicate EveryRowInOwnGroupFile(rows: seq<Row>, j: nat, files: seq<SavedFile>) {
    forall i :: 0 <= i < |rows| ==>
      exists n :: 0 <= n < |files| && rows[i] in files[n].data.rows
                  && forall m :: 0 <= m < |files[n].data.rows| ==>
                       Key(files[n].data.rows[m], j) == Key(rows[i], j)
  }

  /** As intended, splitting by value puts every data row into the file of
      its own group value. */
  lemma IntendedCoversEveryRow(t: Table, branchText: string, chunkText: string, job: Job)
    requires WellFormed(t)
    requires 0 <= LetterToIndex(branchText) < |t.header|
    requires ParseInt(chunkText).Some?
    ensures var r := GenerateFilesIntended(t, branchText, true, chunkText, job);
      r.failure.None? && EveryRowInOwnGroupFile(t.rows, LetterToIndex(branchText), r.saved)
  {
    var j := LetterToIndex(branchText);
    IntendedByGroup(t, branchText, chunkText, job);
    GroupFilesCover(t.rows, j, Distinct(Keys(t.rows, j)), GenerateFilesIntended(t, branchText, true, chunkText, job).saved);
  }

  lemma GroupFilesCover(rows: seq<Row>, j: nat, names: seq<string>, files: seq<SavedFile>)
    requires names == Distinct(Keys(rows, j)) && |files| == |names|
    requires forall n :: 0 <= n < |names| ==> files[n].data.rows == FilterRows(rows, j, names[n])
    ensures EveryRowInOwnGroupFile(rows, j, files)
  {
    forall i | 0 <= i < |rows|
      ensures exists n :: 0 <= n < |files| && rows[i] in files[n].data.rows
                          && forall m :: 0 <= m < |files[n].data.rows| ==>
                               Key(files[n].data.rows[m], j) == Key(rows[i], j)
    {
      assert Keys(rows, j)[i] == Key(rows[i], j);
      RowInOwnFile(rows, j, names, files, i);
    }
  }

  lemma RowInOwnFile(rows: seq<Row>, j: nat, names: seq<string>, files: seq<SavedFile>, i: nat)
    requires i < |rows| && Key(rows[i], j) in names && |files| == |names|
    requires forall n :: 0 <= n < |names| ==> files[n].data.rows == FilterRows(rows, j, names[n])
    ensures exists n :: 0 <= n < |files| && rows[i] in files[n].data.rows
                        && forall m :: 0 <= m < |files[n].data.rows| ==>
                             Key(files[n].data.rows[m], j) == Key(rows[i], j)
  {
    var n :| 0 <= n < |names| && names[n] == Key(rows[i], j);
    Selected(rows, j, rows[i]);
  }

  /** As intended, chunk mode writes every row of a one-row table too. */
  lemma IntendedChunksEveryRow(t: Table, branchText: string, splitByBranch: bool, chunkText: string, job: Job)
    requires WellFormed(t)
    requires ResolveColumn(|t.header|, LetterToIndex(branchText)).Some? && |t.rows| >= 1
    requires ChunkMode(branchText, splitByBranch) && ParseInt(chunkText).Some? && ParseInt(chunkText).value > 0
    ensures var r := GenerateFilesIntended(t, branchText, splitByBranch, chunkText, job);
      r.failure.None? && SavedRows(r.saved) == t.rows
  {
    var j := ResolveColumn(|t.header|, LetterToIndex(branchText)).value;
    assert Keys(t.rows, j) != [];
    var names := Distinct(Keys(t.rows, j));
    var bi := BranchIndex(branchText, splitByBranch);
    var k := ParseInt(chunkText).value;
    var out := ProcessBranch(t, names[0], Some(bi), k, job);
    assert out.Ok? && out.value.chunked && SavedRows(out.value.files) == t.rows;
    assert RunBranches(t, names, bi, chunkText, job) == Run(out.value.files, None);
  }

  // ---------------------------------------------------------------------
  // hyperlink_splitter

  /** The empty fields `hyperlink_splitter` refuses, in the order it
      checks them. */
  datatype InputProblem = NoOutputDirectory | NoPhoneColumn | NoHyperlinkColumn | NoSplitColumn | NoChunkSize

  /** The status line shown for each refusal. */
  function ProblemMessage(p: InputProblem): string {
    match p
    case NoOutputDirectory => "Please provde the output directory"
    case NoPhoneColumn => "Please provide the phone column"
    case NoHyperlinkColumn => "Please provide the hyperlink column"
    case NoSplitColumn => "Please provide the column for splitting by value"
    case NoChunkSize => "Please provide the chunk size"
  }

  /** The first empty field, or `None` when the run may start. Splitting by
      value needs its column, chunking needs its size, and neither needs
      the other. */
  function CheckInputs(outputDir: string, phone: string, link: string, splitByBranch: bool,
                       branchText: string, chunkText: string): (p: Option<InputProblem>)
    ensures p.None? <==> outputDir != "" && phone != "" && link != ""
                         && (if splitByBranch then branchText != "" else chunkText != "")
    ensures p == Some(NoOutputDirectory) <==> outputDir == ""
    ensures p == Some(NoPhoneColumn) <==> outputDir != "" && phone == ""
    ensures p == Some(NoHyperlinkColumn) <==> outputDir != "" && phone != "" && link == ""
    ensures p == Some(NoSplitColumn) <==> outputDir != "" && phone != "" && link != "" && splitByBranch && branchText == ""
    ensures p == Some(NoChunkSize) <==> outputDir != "" && phone != "" && link != "" && !splitByBranch && chunkText == ""
  {
    if outputDir == "" then Some(NoOutputDirectory)
    else if phone == "" then Some(NoPhoneColumn)
    else if link == "" then Some(NoHyperlinkColumn)
    else if splitByBranch then (if branchText == "" then Some(NoSplitColumn) else None)
    else if chunkText == "" then Some(NoChunkSize)
    else None
  }

  /** Splitting by value never looks at the chunk size field, yet the run
      converts it: with that field left empty the first `int()` fails and
      no file is written. */
  lemma EmptyChunkSizeStopsGroupRun(t: Table, branchText: string, job: Job)
    requires WellFormed(t)
    requires 0 <= LetterToIndex(branchText) < |t.header| && |t.rows| >= 2
    ensures CheckInputs("out", "A", "B", true, branchText, "").None? == (branchText != "")
    ensures GenerateFiles(t, branchText, true, "", job) == Run([], Some(ValueError))
  {
    assert ResolveColumn(|t.header|, LetterToIndex(branchText)).Some?;
    assert ParseInt("") == None;
  }
}
