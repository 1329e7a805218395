/** `FileParser` of parse_files.py: the tables extracted from a results PDF
    are cleaned (`clean_dataframe`, parse_files.py:19-40), stitched into one
    result per race (`parse_file`, parse_files.py:42-55) and written out
    under names derived from the PDF's name (`parse_files`,
    parse_files.py:57-62). The PDF extraction itself is a parameter. */
module FileParsing {
  import opened Wrappers
  import opened Seqs
  import opened Text
  import opened Calendar

  /** The four columns kept of a results table: place, name, club and age
      category. */
  datatype Row = Row(place: string, name: string, club: string, category: string)

  /** A table as the PDF extraction gives it: rows of `width` cells each. */
  datatype RawTable = RawTable(width: nat, cells: seq<seq<string>>)

  predicate Rectangular(t: RawTable) {
    forall i :: 0 <= i < |t.cells| ==> |t.cells[i]| == t.width
  }

  type Table = t: RawTable | Rectangular(t) witness RawTable(0, [])

  /** The two `IndexError`s of `parse_file`. */
  datatype ParseError =
    | ColumnsOutOfBounds  // `iloc[:, [0, 1, 2, 3]]` on a table with fewer than four columns
    | NoResultToExtend    // `results[-1]` while `results` is empty

  /** `cate_to_keep`: the adult categories (parse_files.py:29). */
  const CategoriesToKeep: seq<string> :=
    ["E", "S", "V", "SV", "A", "SA", "F/E", "F/S", "F/V", "F/SV", "F/A", "F/SA"]

  /** A row survives the first pass: its place, spaces removed, is a number
      or "Ab." (parse_files.py:22-24). */
  predicate HasPlace(row: Row) {
    var p := RemoveSpaces(row.place);
    IsDigitString(p) || p == "Ab."
  }

  /** The row's category, spaces removed, is an adult one
      (parse_files.py:32-33). */
  predicate HasCategory(row: Row) {
    RemoveSpaces(row.category) in CategoriesToKeep
  }

  /** What `clean_dataframe` returns: the rows with a place, in order, or
      none at all when none of those is in an adult category. */
  function Cleaned(df: seq<Row>): seq<Row> {
    var kept := Filter(df, HasPlace);
    if exists i :: 0 <= i < |kept| && HasCategory(kept[i]) then kept else []
  }

  /** `FileParser.clean_dataframe` (parse_files.py:19-40). */
  method CleanDataframe(df: seq<Row>) returns (r: seq<Row>)
    ensures r == Cleaned(df)
  {
    var kept := DropPlaceless(df);
    var drop := AllJunior(kept);
    if drop {
      r := [];
    } else {
      r := kept;
    }
  }

  /** The first pass of `clean_dataframe` (parse_files.py:20-27): collect
      the labels of the rows without a place, drop them and renumber. */
  method DropPlaceless(df: seq<Row>) returns (kept: seq<Row>)
    ensures kept == Filter(df, HasPlace)
  {
    var indices: set<nat> := {};
    for idx := 0 to |df|
      invariant forall i: nat :: i in indices <==> i < idx && !HasPlace(df[i])
    {
      var place := RemoveSpaces(df[idx].place);
      if !IsDigitString(place) && place != "Ab." {
        indices := indices + {idx};
      }
    }
    kept := [];
    for i := 0 to |df|
      invariant kept == Filter(df[..i], HasPlace)
    {
      FilterAppend(df[..i], df[i], HasPlace);
      PrefixAppend(df, i);
      if i !in indices {
        kept := kept + [df[i]];
      }
    }
    assert df[..|df|] == df;
  }

  /** The `drop` flag of the second pass (parse_files.py:30-35): no row is
      in an adult category. */
  method AllJunior(kept: seq<Row>) returns (drop: bool)
    ensures drop <==> forall j :: 0 <= j < |kept| ==> !HasCategory(kept[j])
  {
    drop := true;
    for idx := 0 to |kept|
      invariant drop
      invariant forall j :: 0 <= j < idx ==> !HasCategory(kept[j])
    {
      var category := RemoveSpaces(kept[idx].category);
      assert HasCategory(kept[idx]) == (category in CategoriesToKeep);
      if category in CategoriesToKeep {
        drop := false;
        break;
      }
    }
  }

  /** The cleaned rows are rows of the table, in their order; each has a
      place, and the first pass is undone only by the category check. */
  lemma CleanedShape(df: seq<Row>)
    ensures IsSubsequence(Cleaned(df), df)
    ensures forall i :: 0 <= i < |Cleaned(df)| ==> HasPlace(Cleaned(df)[i])
    ensures Cleaned(df) == [] || Cleaned(df) == Filter(df, HasPlace)
  {
    FilterIsSubsequence(df, HasPlace);
    FilterSatisfies(df, HasPlace);
  }

  /** The cleaned table is empty unless some row has both a place and an
      adult category. */
  lemma CleanedNonEmpty(df: seq<Row>)
    ensures Cleaned(df) != [] <==> exists i :: 0 <= i < |df| && HasPlace(df[i]) && HasCategory(df[i])
  {
    var kept := Filter(df, HasPlace);
    FilterSome(df, HasPlace, HasCategory);
    if exists i :: 0 <= i < |kept| && HasCategory(kept[i]) {
      assert Cleaned(df) == kept && kept != [];
    } else {
      assert Cleaned(df) == [];
    }
  }

  /** Cleaning a cleaned table changes nothing. */
  lemma CleanedIdempotent(df: seq<Row>)
    ensures Cleaned(Cleaned(df)) == Cleaned(df)
  {
    var kept := Filter(df, HasPlace);
    if Cleaned(df) != [] {
      FilterIdempotent(df, HasPlace);
    }
  }

  /** `table.df.iloc[:, [0, 1, 2, 3]]` on a table with four columns or more. */
  function Columns(t: Table): (rows: seq<Row>)
    requires t.width >= 4
    ensures |rows| == |t.cells|
    ensures forall i :: 0 <= i < |t.cells| ==> rows[i] == Row(t.cells[i][0], t.cells[i][1], t.cells[i][2], t.cells[i][3])
  {
    seq(|t.cells|, i requires 0 <= i < |t.cells| => Row(t.cells[i][0], t.cells[i][1], t.cells[i][2], t.cells[i][3]))
  }

  /** One step of the merge loop of `parse_file` (parse_files.py:49-54) on
      a cleaned table: an empty one is skipped, one whose first place is
      exactly "1" starts a new result, any other is added to the last
      result. */
  function MergeTable(results: seq<seq<Row>>, df: seq<Row>): Result<seq<seq<Row>>, ParseError> {
    if df == [] then Success(results)
    else if df[0].place == "1" then Success(results + [df])
    else if results == [] then Failure(NoResultToExtend)
    else Success(ExtendLast(results, df))
  }

  /** `results[-1] = pd.concat([results[-1], df])` */
  function ExtendLast(results: seq<seq<Row>>, df: seq<Row>): seq<seq<Row>>
    requires results != []
  {
    results[..|results| - 1] + [results[|results| - 1] + df]
  }

  /** Extending the last result keeps the number of results and their
      first rows, and adds the rows of `df` at the end. */
  lemma ExtendLastShape(results: seq<seq<Row>>, df: seq<Row>)
    requires results != []
    ensures |ExtendLast(results, df)| == |results|
    ensures Flatten(ExtendLast(results, df)) == Flatten(results) + df
    ensures forall i :: 0 <= i < |results| && StartsRace(results[i]) ==> StartsRace(ExtendLast(results, df)[i])
  {
    var init := results[..|results| - 1];
    var last := results[|results| - 1];
    assert results == init + [last];
    FlattenAppend(init, last);
    FlattenAppend(init, last + df);
  }

  /** The merge loop over tables already cleaned. */
  function Merge(dfs: seq<seq<Row>>): Result<seq<seq<Row>>, ParseError>
    decreases |dfs|
  {
    if dfs == [] then Success([])
    else
      match Merge(dfs[..|dfs| - 1])
      case Failure(e) => Failure(e)
      case Success(results) => MergeTable(results, dfs[|dfs| - 1])
  }

  /** One table of `parse_file`: its first four columns, cleaned, then
      merged into the results. */
  function ParseTable(results: seq<seq<Row>>, t: Table): Result<seq<seq<Row>>, ParseError> {
    if t.width < 4 then Failure(ColumnsOutOfBounds)
    else MergeTable(results, Cleaned(Columns(t)))
  }

  /** What `parse_file` returns for the extracted `tables`. */
  function ParseTables(tables: seq<Table>): Result<seq<seq<Row>>, ParseError>
    decreases |tables|
  {
    if tables == [] then Success([])
    else
      match ParseTables(tables[..|tables| - 1])
      case Failure(e) => Failure(e)
      case Success(results) => ParseTable(results, tables[|tables| - 1])
  }

  /** `FileParser.parse_file` (parse_files.py:42-55), the tables extracted
      from the PDF given. */
  method ParseFile(tables: seq<Table>) returns (r: Result<seq<seq<Row>>, ParseError>)
    ensures r == ParseTables(tables)
  {
    var results: seq<seq<Row>> := [];
    for idx := 0 to |tables|
      invariant ParseTables(tables[..idx]) == Success(results)
    {
      ParseTablesStep(tables, idx, results);
      var next := ParseOne(results, tables[idx]);
      if next.Failure? {
        ParseFailurePersists(tables, idx + 1);
        return next;
      }
      results := next.value;
    }
    assert tables[..|tables|] == tables;
    return Success(results);
  }

  lemma ParseTablesStep(tables: seq<Table>, idx: nat, results: seq<seq<Row>>)
    requires idx < |tables| && ParseTables(tables[..idx]) == Success(results)
    ensures ParseTables(tables[..idx + 1]) == ParseTable(results, tables[idx])
  {
    assert tables[..idx + 1][..idx] == tables[..idx];
  }

  /** One pass of the loop of parse_files.py:44-54. */
  method ParseOne(results: seq<seq<Row>>, table: Table) returns (r: Result<seq<seq<Row>>, ParseError>)
    ensures r == ParseTable(results, table)
  {
    if table.width < 4 {
      return Failure(ColumnsOutOfBounds);
    }
    var df := CleanDataframe(Columns(table));
    if |df| > 0 {
      var firstPlace := df[0].place;
      if firstPlace == "1" {
        return Success(results + [df]);
      } else {
        if results == [] {
          return Failure(NoResultToExtend);
        }
        return Success(ExtendLast(results, df));
      }
    }
    return Success(results);
  }

  /** Once a prefix of the tables fails, the whole file fails the same way. */
  lemma {:induction false} ParseFailurePersists(tables: seq<Table>, k: nat)
    requires k <= |tables| && ParseTables(tables[..k]).Failure?
    ensures ParseTables(tables) == ParseTables(tables[..k])
    decreases |tables| - k
  {
    if k < |tables| {
      var next := tables[..k + 1];
      assert next[..k] == tables[..k];
      ParseFailurePersists(tables, k + 1);
    } else {
      assert tables[..k] == tables;
    }
  }

  function CleanedTables(tables: seq<Table>): (dfs: seq<seq<Row>>)
    requires forall i :: 0 <= i < |tables| ==> tables[i].width >= 4
    ensures |dfs| == |tables|
  {
    seq(|tables|, i requires 0 <= i < |tables| => Cleaned(Columns(tables[i])))
  }

  /** With four columns or more everywhere, `parse_file` is the merge of
      the cleaned tables. */
  lemma {:induction false} ParseWideTables(tables: seq<Table>)
    requires forall i :: 0 <= i < |tables| ==> tables[i].width >= 4
    ensures ParseTables(tables) == Merge(CleanedTables(tables))
    decreases |tables|
  {
    if tables != [] {
      var front := tables[..|tables| - 1];
      ParseWideTables(front);
      assert CleanedTables(tables)[..|tables| - 1] == CleanedTables(front);
    }
  }

  /** A table with fewer than four columns makes `parse_file` fail. */
  lemma {:induction false} ParseNarrowTable(tables: seq<Table>, k: nat)
    requires k < |tables| && tables[k].width < 4
    ensures ParseTables(tables).Failure?
  {
    var prefix := tables[..k + 1];
    assert prefix[..k] == tables[..k];
    assert ParseTables(prefix).Failure?;
    ParseFailurePersists(tables, k + 1);
  }

  predicate NonEmpty(df: seq<Row>) {
    df != []
  }

  predicate StartsRace(df: seq<Row>) {
    df != [] && df[0].place == "1"
  }

  /** The merge fails exactly when the first non-empty table does not
      start at place "1"; once a non-empty table was met, there is a result
      to extend. */
  lemma {:induction false} MergeFailure(dfs: seq<seq<Row>>)
    ensures var ne: seq<seq<Row>> := Filter(dfs, NonEmpty);
      Merge(dfs).Failure? <==> ne != [] && ne[0][0].place != "1"
    ensures Merge(dfs).Success? ==> (Merge(dfs).value != [] <==> Filter(dfs, NonEmpty) != [])
    decreases |dfs|
  {
    if dfs != [] {
      var front := dfs[..|dfs| - 1];
      var df := dfs[|dfs| - 1];
      assert dfs == front + [df];
      MergeFailure(front);
      FilterAppend(front, df, NonEmpty);
      var ne := Filter(front, NonEmpty);
      var ne' := Filter(dfs, NonEmpty);
      if ne != [] {
        assert ne'[0] == ne[0];
      } else if df != [] {
        assert ne' == [df];
      } else {
        assert ne' == [];
      }
    }
  }

  /** A successful merge makes one result per table starting at "1", each
      starting at "1", and keeps every row, in order. */
  lemma {:induction false} MergeResults(dfs: seq<seq<Row>>)
    requires Merge(dfs).Success?
    ensures |Merge(dfs).value| == |Filter(dfs, StartsRace)|
    ensures Flatten(Merge(dfs).value) == Flatten(dfs)
    ensures forall i :: 0 <= i < |Merge(dfs).value| ==> StartsRace(Merge(dfs).value[i])
    decreases |dfs|
  {
    if dfs != [] {
      var front := dfs[..|dfs| - 1];
      var df := dfs[|dfs| - 1];
      assert dfs == front + [df];
      MergeResults(front);
      FilterAppend(front, df, StartsRace);
      FlattenAppend(front, df);
      var results := Merge(front).value;
      if df != [] && df[0].place != "1" {
        ExtendLastShape(results, df);
      } else if df != [] {
        FlattenAppend(results, df);
      }
    }
  }

  /** `f"{file.split('.')[0]}_{idx}.csv"` (parse_files.py:61). */
  function OutputName(file: string, idx: nat): string {
    SplitHead(file, '.') + ['_'] + NatToString(idx) + ".csv"
  }

  /** rank.py's date key of an output file is the PDF's stem whenever that
      stem has no '_'. */
  lemma OutputNameDateKey(file: string, idx: nat)
    requires '_' !in SplitHead(file, '.')
    ensures DateKey(OutputName(file, idx)) == SplitHead(file, '.')
  {
    var stem := SplitHead(file, '.');
    SplitHeadConcat(stem, '_', NatToString(idx) + ".csv");
    assert OutputName(file, idx) == stem + (['_'] + (NatToString(idx) + ".csv"));
  }

  /** The results of one PDF go to distinct files. */
  lemma OutputNameInjective(file: string, i: nat, j: nat)
    requires OutputName(file, i) == OutputName(file, j)
    ensures i == j
  {
    var stem := SplitHead(file, '.');
    var a := NatToString(i);
    var b := NatToString(j);
    var n := OutputName(file, i);
    assert n == stem + ['_'] + a + ".csv";
    assert n == stem + ['_'] + b + ".csv";
    assert |a| == |b|;
    assert a == n[|stem| + 1..|stem| + 1 + |a|];
    assert b == n[|stem| + 1..|stem| + 1 + |b|];
  }

  /** The files `parse_files` writes for one PDF, in order. */
  function Outputs(file: string, results: seq<seq<Row>>): (out: seq<(string, seq<Row>)>)
    ensures |out| == |results|
    ensures forall i :: 0 <= i < |results| ==> out[i] == (OutputName(file, i), results[i])
  {
    seq(|results|, i requires 0 <= i < |results| => (OutputName(file, i), results[i]))
  }

  /** The writes of `parse_files` over `files`, and the error that stopped
      it, if any; the writes before the error stay on disk. */
  function AllOutputs(files: seq<string>, extract: string -> seq<Table>): (seq<(string, seq<Row>)>, Option<ParseError>)
    decreases |files|
  {
    if files == [] then ([], None)
    else
      var (written, err) := AllOutputs(files[..|files| - 1], extract);
      if err.Some? then (written, err)
      else
        match ParseTables(extract(files[|files| - 1]))
        case Failure(e) => (written, Some(e))
        case Success(results) => (written + Outputs(files[|files| - 1], results), None)
  }

  /** `FileParser.parse_files` (parse_files.py:57-62). `extract` stands for
      `camelot.read_pdf` on a file; the writes are returned in order. */
  method ParseFiles(files: seq<string>, extract: string -> seq<Table>)
    returns (written: seq<(string, seq<Row>)>, err: Option<ParseError>)
    ensures (written, err) == AllOutputs(files, extract)
  {
    written := [];
    for k := 0 to |files|
      invariant AllOutputs(files[..k], extract) == (written, None)
    {
      assert files[..k + 1][..k] == files[..k];
      var file := files[k];
      var results := ParseFile(extract(file));
      if results.Failure? {
        OutputsStop(files, extract, k + 1);
        return written, Some(results.error);
      }
      var out := WriteResults(file, results.value);
      written := written + out;
    }
    assert files[..|files|] == files;
    err := None;
  }

  /** The inner loop of parse_files.py:60-62: the results of one PDF, each
      under its numbered name. */
  method WriteResults(file: string, results: seq<seq<Row>>) returns (out: seq<(string, seq<Row>)>)
    ensures out == Outputs(file, results)
  {
    out := [];
    for idx := 0 to |results|
      invariant out == Outputs(file, results[..idx])
    {
      assert Outputs(file, results[..idx + 1]) == out + [(OutputName(file, idx), results[idx])];
      out := out + [(OutputName(file, idx), results[idx])];
    }
    assert results[..|results|] == results;
  }

  /** Once a file fails, nothing more is written. */
  lemma {:induction false} OutputsStop(files: seq<string>, extract: string -> seq<Table>, k: nat)
    requires k <= |files| && AllOutputs(files[..k], extract).1.Some?
    ensures AllOutputs(files, extract) == AllOutputs(files[..k], extract)
    decreases |files| - k
  {
    if k < |files| {
      assert files[..k + 1][..k] == files[..k];
      OutputsStop(files, extract, k + 1);
    } else {
      assert files[..k] == files;
    }
  }
}
