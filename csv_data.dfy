/**
 * Loading price data from CSV files: each file's rows after the header are grouped by the
 * ticker in column 0, in file order, and the groups of successive files are appended ticker by
 * ticker. Reading the files is left out: a file is given as its list of lines, each line a list
 * of fields. Turning a line's fields into a price point (the integer, floating-point and
 * timestamp parsing) is a parameter `decode` that fails with `None`.
 */
module CsvParsing {
  import opened Wrappers
  import opened PriceData

  /** Why loading fails: a file has no header line, a data line has no fields, or a file's line
      count differs from the first file's; `NoValues` is the failure of reading values before
      any were loaded. */
  datatype CsvError = MissingHeader | EmptyRow | SizeMismatch | NoValues

  /** A ticker's list in a map of lists, empty when the ticker is absent. */
  function Lookup(m: map<string, seq<PricePoint>>, ticker: string): seq<PricePoint> {
    if ticker in m then m[ticker] else []
  }

  /** The point a data row stands for: its decoded fields, under the ticker of column 0. */
  function Point(row: seq<string>, decode: seq<string> -> Option<PricePoint>): (p: PricePoint)
    requires row != [] && decode(row).Some?
    ensures p.id == row[0]
  {
    decode(row).value.(id := row[0])
  }

  /** The points of `ticker` among `rows`, in row order: the decoded rows whose column 0 is
      `ticker`, skipping the rows that do not decode. */
  function Column(rows: seq<seq<string>>, ticker: string, decode: seq<string> -> Option<PricePoint>): seq<PricePoint> {
    if rows == [] then []
    else
      var row := rows[|rows| - 1];
      Column(rows[..|rows| - 1], ticker, decode)
        + if row != [] && row[0] == ticker && decode(row).Some? then [Point(row, decode)] else []
  }

  /** The grouping loop of `parseFile` over the data rows: a row with no fields fails; a row
      that does not decode is dropped; every other row is appended to its ticker's list. */
  function Group(rows: seq<seq<string>>, decode: seq<string> -> Option<PricePoint>): Outcome<map<string, seq<PricePoint>>, CsvError> {
    if rows == [] then Ok(map[])
    else
      var prefix := Group(rows[..|rows| - 1], decode);
      var row := rows[|rows| - 1];
      if prefix.Err? then prefix
      else if row == [] then Err(EmptyRow)
      else if decode(row).None? then prefix
      else Ok(prefix.value[row[0] := Lookup(prefix.value, row[0]) + [Point(row, decode)]])
  }

  /** `parseFile`: the size bookkeeping and the grouped rows. A file without a header line fails;
      so does a grouping failure, before the size is touched. The first file sets the size to
      its number of data rows (all tickers together, dropped rows included); a later file with
      another number fails. */
  function Parsed(size: Option<int>, lines: seq<seq<string>>, decode: seq<string> -> Option<PricePoint>)
    : (Option<int>, Outcome<map<string, seq<PricePoint>>, CsvError>)
  {
    if lines == [] then (size, Err(MissingHeader))
    else
      var grouped := Group(lines[1..], decode);
      if grouped.Err? then (size, grouped)
      else if size.None? then (Some(|lines| - 1), grouped)
      else if size.value != |lines| - 1 then (size, Err(SizeMismatch))
      else (size, grouped)
  }

  /** `extendValues`: each ticker of `extension` has its list appended to the existing one, or
      inserted when the ticker is new. */
  function Extend(values: map<string, seq<PricePoint>>, extension: map<string, seq<PricePoint>>)
    : map<string, seq<PricePoint>>
  {
    map t | t in values.Keys + extension.Keys :: Lookup(values, t) + Lookup(extension, t)
  }

  /** `init` over a list of files: parse each file and extend the values with its groups,
      stopping at the first failure with the values of the files before it. */
  function Load(values: map<string, seq<PricePoint>>, size: Option<int>, files: seq<seq<seq<string>>>,
                decode: seq<string> -> Option<PricePoint>)
    : (map<string, seq<PricePoint>>, Option<int>, Outcome<(), CsvError>)
    decreases |files|
  {
    if files == [] then (values, size, Ok(()))
    else
      var (newSize, parsed) := Parsed(size, files[0], decode);
      if parsed.Err? then (values, newSize, Err(parsed.error))
      else Load(Extend(values, parsed.value), newSize, files[1..], decode)
  }

  /** The data rows of all files, header lines dropped, in file order. */
  function DataRows(files: seq<seq<seq<string>>>): seq<seq<string>> {
    if files == [] then []
    else (if files[0] == [] then [] else files[0][1..]) + DataRows(files[1..])
  }

  lemma GroupSnoc(rows: seq<seq<string>>, i: nat, decode: seq<string> -> Option<PricePoint>)
    requires i < |rows|
    ensures Group(rows[..i + 1], decode)
      == var prefix := Group(rows[..i], decode);
         if prefix.Err? then prefix
         else if rows[i] == [] then Err(EmptyRow)
         else if decode(rows[i]).None? then prefix
         else Ok(prefix.value[rows[i][0] := Lookup(prefix.value, rows[i][0]) + [Point(rows[i], decode)]])
  {
    assert rows[..i + 1][..i] == rows[..i];
  }

  /** The grouping loop, one row at a time; a known ticker's list is appended to and a new
      ticker's list is created with its first point. */
  method GroupRows(rows: seq<seq<string>>, decode: seq<string> -> Option<PricePoint>)
    returns (r: Outcome<map<string, seq<PricePoint>>, CsvError>)
    ensures r == Group(rows, decode)
  {
    var parsed: map<string, seq<PricePoint>> := map[];
    var i := 0;
    while i < |rows|
      invariant 0 <= i <= |rows|
      invariant Group(rows[..i], decode) == Ok(parsed)
    {
      GroupSnoc(rows, i, decode);
      var row := rows[i];
      if row == [] {
        GroupFails(rows, decode);
        return Err(EmptyRow);
      }
      var decoded := decode(row);
      if decoded.Some? {
        var ticker := row[0];
        var point := decoded.value.(id := ticker);
        if ticker in parsed {
          parsed := parsed[ticker := parsed[ticker] + [point]];
        } else {
          assert Lookup(parsed, ticker) + [point] == [point];
          parsed := parsed[ticker := [point]];
        }
      }
      i := i + 1;
    }
    assert rows[..|rows|] == rows;
    r := Ok(parsed);
  }

  /** The entries of `m` whose keys are in `keys`. */
  function Only(m: map<string, seq<PricePoint>>, keys: set<string>): map<string, seq<PricePoint>> {
    map t | t in m && t in keys :: m[t]
  }

  lemma ExtendStep(values: map<string, seq<PricePoint>>, extension: map<string, seq<PricePoint>>,
                   done: set<string>, key: string)
    requires key in extension && key !in done
    ensures Lookup(Extend(values, Only(extension, done)), key) == Lookup(values, key)
    ensures Extend(values, Only(extension, done + {key}))
      == Extend(values, Only(extension, done))[key := Lookup(values, key) + extension[key]]
  {
    var before, after := Only(extension, done), Only(extension, done + {key});
    assert after == before[key := extension[key]];
    var grown := Extend(values, before)[key := Lookup(values, key) + extension[key]];
    assert Extend(values, after).Keys == grown.Keys;
    forall t | t in grown
      ensures Extend(values, after)[t] == grown[t]
    {
      if t != key {
        assert Lookup(after, t) == Lookup(before, t);
      }
    }
  }

  /** The loop of `extendValues`, one ticker of the extension at a time. */
  method ExtendEach(values: map<string, seq<PricePoint>>, extension: map<string, seq<PricePoint>>)
    returns (extended: map<string, seq<PricePoint>>)
    ensures extended == Extend(values, extension)
  {
    extended := values;
    var pending := extension.Keys;
    ghost var done: set<string> := {};
    assert Only(extension, done) == map[];
    assert forall t | t in values :: Lookup(values, t) + Lookup(map[], t) == values[t];
    assert Extend(values, map[]) == values;
    while pending != {}
      invariant pending <= extension.Keys && done == extension.Keys - pending
      invariant extended == Extend(values, Only(extension, done))
      decreases pending
    {
      var key :| key in pending;
      ExtendStep(values, extension, done, key);
      assert Lookup(extended, key) == Lookup(values, key);
      if key in extended {
        extended := extended[key := extended[key] + extension[key]];
      } else {
        assert [] + extension[key] == extension[key];
        extended := extended[key := extension[key]];
      }
      pending := pending - {key};
      done := done + {key};
    }
    assert Only(extension, done) == extension;
  }

  /** Grouping fails, with `EmptyRow`, exactly when some row has no fields. */
  lemma {:induction false} GroupFails(rows: seq<seq<string>>, decode: seq<string> -> Option<PricePoint>)
    ensures Group(rows, decode).Err? <==> exists i | 0 <= i < |rows| :: rows[i] == []
    ensures Group(rows, decode).Err? ==> Group(rows, decode).error == EmptyRow
  {
    if rows != [] {
      var prefix := rows[..|rows| - 1];
      GroupFails(prefix, decode);
      assert forall i | 0 <= i < |prefix| :: prefix[i] == rows[i];
      if exists i | 0 <= i < |prefix| :: prefix[i] == [] {
        var i :| 0 <= i < |prefix| && prefix[i] == [];
        assert rows[i] == [];
      }
    }
  }

  /** A successful grouping lists, for each ticker, its column of decoded rows in file order,
      and lists no ticker with no points. */
  lemma {:induction false} GroupColumns(rows: seq<seq<string>>, decode: seq<string> -> Option<PricePoint>)
    requires Group(rows, decode).Ok?
    ensures forall t :: Lookup(Group(rows, decode).value, t) == Column(rows, t, decode)
    ensures forall t | t in Group(rows, decode).value :: Group(rows, decode).value[t] != []
  {
    if rows != [] {
      GroupColumns(rows[..|rows| - 1], decode);
    }
  }

  /** The points of a ticker in two blocks of rows are its points in the first block followed by
      those in the second. */
  lemma {:induction false} ColumnConcat(a: seq<seq<string>>, b: seq<seq<string>>, ticker: string,
                                       decode: seq<string> -> Option<PricePoint>)
    ensures Column(a + b, ticker, decode) == Column(a, ticker, decode) + Column(b, ticker, decode)
    decreases |b|
  {
    if b == [] {
      assert a + b == a;
    } else {
      var prefix := b[..|b| - 1];
      assert (a + b)[..|a + b| - 1] == a + prefix;
      ColumnConcat(a, prefix, ticker, decode);
    }
  }

  /** Extending appends each ticker's lists and leaves every ticker outside the extension as
      it was. */
  lemma ExtendMeaning(values: map<string, seq<PricePoint>>, extension: map<string, seq<PricePoint>>)
    ensures Extend(values, extension).Keys == values.Keys + extension.Keys
    ensures forall t :: Lookup(Extend(values, extension), t) == Lookup(values, t) + Lookup(extension, t)
    ensures forall t | t in values && t !in extension :: Extend(values, extension)[t] == values[t]
  {
  }

  /** Grouping two blocks of rows separately and extending one result by the other gives the
      grouping of the two blocks together. */
  lemma GroupConcat(a: seq<seq<string>>, b: seq<seq<string>>, decode: seq<string> -> Option<PricePoint>)
    requires Group(a, decode).Ok? && Group(b, decode).Ok?
    ensures Group(a + b, decode) == Ok(Extend(Group(a, decode).value, Group(b, decode).value))
  {
    GroupColumns(a, decode);
    GroupColumns(b, decode);
    GroupFails(a, decode);
    GroupFails(b, decode);
    GroupFails(a + b, decode);
    forall i | 0 <= i < |a + b|
      ensures (a + b)[i] != []
    {
      if i < |a| {
        assert (a + b)[i] == a[i];
      } else {
        assert (a + b)[i] == b[i - |a|];
      }
    }
    GroupColumns(a + b, decode);
    var whole := Group(a + b, decode).value;
    var extended := Extend(Group(a, decode).value, Group(b, decode).value);
    forall t
      ensures Lookup(whole, t) == Lookup(extended, t)
    {
      ColumnConcat(a, b, t, decode);
    }
    SameLookups(whole, extended);
  }

  /** Two maps without empty lists that agree on every lookup are equal. */
  lemma SameLookups(m: map<string, seq<PricePoint>>, n: map<string, seq<PricePoint>>)
    requires forall t :: Lookup(m, t) == Lookup(n, t)
    requires forall t | t in m :: m[t] != []
    requires forall t | t in n :: n[t] != []
    ensures m == n
  {
    assert forall t | t in m :: Lookup(m, t) != [];
    assert forall t | t in n :: Lookup(n, t) != [];
  }

  /** A load that succeeds on a non-empty list of files parsed the first one and loaded the
      rest from the values extended by its groups. */
  lemma LoadFirst(values: map<string, seq<PricePoint>>, size: Option<int>,
                  files: seq<seq<seq<string>>>, decode: seq<string> -> Option<PricePoint>)
    requires files != [] && Load(values, size, files, decode).2.Ok?
    ensures files[0] != [] && Parsed(size, files[0], decode).1 == Group(files[0][1..], decode)
    ensures Group(files[0][1..], decode).Ok?
    ensures Load(values, size, files, decode)
      == Load(Extend(values, Group(files[0][1..], decode).value), Parsed(size, files[0], decode).0, files[1..], decode)
  {
  }

  /** A successful load extends the values, ticker by ticker, by the column of the data rows of
      all files in order, each header skipped. */
  lemma {:induction false} LoadContents(values: map<string, seq<PricePoint>>, size: Option<int>,
                                        files: seq<seq<seq<string>>>, decode: seq<string> -> Option<PricePoint>)
    ensures Load(values, size, files, decode).2.Ok? ==>
      forall t :: Lookup(Load(values, size, files, decode).0, t) == Lookup(values, t) + Column(DataRows(files), t, decode)
    decreases |files|
  {
    if files != [] && Load(values, size, files, decode).2.Ok? {
      LoadFirst(values, size, files, decode);
      var grouped := Group(files[0][1..], decode).value;
      var extended := Extend(values, grouped);
      LoadContents(extended, Parsed(size, files[0], decode).0, files[1..], decode);
      GroupColumns(files[0][1..], decode);
      ExtendMeaning(values, grouped);
      assert DataRows(files) == files[0][1..] + DataRows(files[1..]);
      ColumnsCompose(values, extended, Load(values, size, files, decode).0, files[0][1..], DataRows(files[1..]), decode);
    }
  }

  /** One file's step of `LoadContents`: extending by the groups of a first block of rows, then
      by the column of a second block, extends by the column of both blocks. */
  lemma ColumnsCompose(values: map<string, seq<PricePoint>>, extended: map<string, seq<PricePoint>>,
                       loaded: map<string, seq<PricePoint>>, head: seq<seq<string>>, tail: seq<seq<string>>,
                       decode: seq<string> -> Option<PricePoint>)
    requires forall t :: Lookup(extended, t) == Lookup(values, t) + Column(head, t, decode)
    requires forall t :: Lookup(loaded, t) == Lookup(extended, t) + Column(tail, t, decode)
    ensures forall t :: Lookup(loaded, t) == Lookup(values, t) + Column(head + tail, t, decode)
  {
    forall t
      ensures Lookup(loaded, t) == Lookup(values, t) + Column(head + tail, t, decode)
    {
      ColumnConcat(head, tail, t, decode);
      Reassociate(Lookup(loaded, t), Lookup(extended, t), Lookup(values, t), Column(head, t, decode), Column(tail, t, decode));
    }
  }

  lemma Reassociate(loaded: seq<PricePoint>, extended: seq<PricePoint>, a: seq<PricePoint>, b: seq<PricePoint>, c: seq<PricePoint>)
    requires extended == a + b && loaded == extended + c
    ensures loaded == a + (b + c)
  {
  }

  /** A file that parses has a header and records its data-row count as the size, or matches
      the size already recorded. */
  lemma ParsedSize(size: Option<int>, lines: seq<seq<string>>, decode: seq<string> -> Option<PricePoint>)
    requires Parsed(size, lines, decode).1.Ok?
    ensures lines != [] && Parsed(size, lines, decode).0 == Some(|lines| - 1)
    ensures size.Some? ==> Parsed(size, lines, decode).0 == size
  {
  }

  /** After a successful load every file has a header and as many data rows as the size
      records; a size recorded before the load is kept. */
  lemma {:induction false} LoadSizes(values: map<string, seq<PricePoint>>, size: Option<int>,
                                     files: seq<seq<seq<string>>>, decode: seq<string> -> Option<PricePoint>)
    ensures var (_, newSize, r) := Load(values, size, files, decode);
      r.Ok? ==>
        && (forall i | 0 <= i < |files| :: files[i] != [] && newSize == Some(|files[i]| - 1))
        && (size.Some? ==> newSize == size)
    decreases |files|
  {
    if files != [] && Load(values, size, files, decode).2.Ok? {
      LoadFirst(values, size, files, decode);
      var parsed := Parsed(size, files[0], decode);
      ParsedSize(size, files[0], decode);
      var rest := Load(Extend(values, parsed.1.value), parsed.0, files[1..], decode);
      LoadSizes(Extend(values, parsed.1.value), parsed.0, files[1..], decode);
      forall i | 0 <= i < |files|
        ensures files[i] != [] && rest.1 == Some(|files[i]| - 1)
      {
        if i > 0 {
          assert files[i] == files[1..][i - 1];
        }
      }
    }
  }

  /** A ticker whose column holds a decodable row with that ticker has a non-empty column. */
  lemma {:induction false} ColumnHasRow(rows: seq<seq<string>>, i: nat, decode: seq<string> -> Option<PricePoint>)
    requires i < |rows| && rows[i] != [] && decode(rows[i]).Some?
    ensures Column(rows, rows[i][0], decode) != []
    decreases |rows|
  {
    if i < |rows| - 1 {
      ColumnHasRow(rows[..|rows| - 1], i, decode);
    }
  }

  /** When no row decodes, every column is empty. */
  lemma {:induction false} ColumnsEmpty(rows: seq<seq<string>>, ticker: string, decode: seq<string> -> Option<PricePoint>)
    requires forall i | 0 <= i < |rows| && rows[i] != [] :: decode(rows[i]).None?
    ensures Column(rows, ticker, decode) == []
    decreases |rows|
  {
    if rows != [] {
      ColumnsEmpty(rows[..|rows| - 1], ticker, decode);
    }
  }

  /** Loading never lists a ticker with no points, when the values it starts from do not. */
  lemma {:induction false} LoadNoEmptyLists(values: map<string, seq<PricePoint>>, size: Option<int>,
                                            files: seq<seq<seq<string>>>, decode: seq<string> -> Option<PricePoint>)
    requires forall t | t in values :: values[t] != []
    requires Load(values, size, files, decode).2.Ok?
    ensures forall t | t in Load(values, size, files, decode).0 :: Load(values, size, files, decode).0[t] != []
    decreases |files|
  {
    if files != [] {
      LoadFirst(values, size, files, decode);
      var grouped := Group(files[0][1..], decode).value;
      GroupColumns(files[0][1..], decode);
      ExtendMeaning(values, grouped);
      var extended := Extend(values, grouped);
      forall t | t in extended
        ensures extended[t] != []
      {
        assert extended[t] == Lookup(values, t) + Lookup(grouped, t);
      }
      LoadNoEmptyLists(extended, Parsed(size, files[0], decode).0, files[1..], decode);
    }
  }

  /** A map without empty lists whose lookups are the columns of `rows` is empty exactly when
      no row decodes. */
  lemma ColumnsFindNothing(loaded: map<string, seq<PricePoint>>, rows: seq<seq<string>>,
                           decode: seq<string> -> Option<PricePoint>)
    requires forall t :: Lookup(loaded, t) == Column(rows, t, decode)
    requires forall t | t in loaded :: loaded[t] != []
    ensures loaded == map[] <==> forall i | 0 <= i < |rows| && rows[i] != [] :: decode(rows[i]).None?
  {
    if loaded == map[] {
      forall i | 0 <= i < |rows| && rows[i] != []
        ensures decode(rows[i]).None?
      {
        if decode(rows[i]).Some? {
          ColumnHasRow(rows, i, decode);
        }
      }
    } else if forall i | 0 <= i < |rows| && rows[i] != [] :: decode(rows[i]).None? {
      forall t
        ensures Lookup(loaded, t) == Lookup(map[], t)
      {
        ColumnsEmpty(rows, t, decode);
      }
      SameLookups(loaded, map[]);
    }
  }

  /** A successful load from no values finds nothing (the state in which `getValues` fails)
      exactly when no data row of any file decodes. */
  lemma LoadFindsNothing(size: Option<int>, files: seq<seq<seq<string>>>, decode: seq<string> -> Option<PricePoint>)
    requires Load(map[], size, files, decode).2.Ok?
    ensures Load(map[], size, files, decode).0 == map[]
      <==> forall i | 0 <= i < |DataRows(files)| && DataRows(files)[i] != [] :: decode(DataRows(files)[i]).None?
  {
    var loaded := Load(map[], size, files, decode).0;
    LoadContents(map[], size, files, decode);
    LoadNoEmptyLists(map[], size, files, decode);
    forall t
      ensures Lookup(loaded, t) == Column(DataRows(files), t, decode)
    {
      assert Lookup(map[], t) == [];
    }
    ColumnsFindNothing(loaded, DataRows(files), decode);
  }

  /** Every point of a ticker's column carries that ticker as its id. */
  lemma {:induction false} ColumnIds(rows: seq<seq<string>>, ticker: string, decode: seq<string> -> Option<PricePoint>)
    ensures forall k | 0 <= k < |Column(rows, ticker, decode)| :: Column(rows, ticker, decode)[k].id == ticker
    decreases |rows|
  {
    if rows != [] {
      ColumnIds(rows[..|rows| - 1], ticker, decode);
    }
  }

  /** A successful load files every point under its own id, when the values it starts from do. */
  lemma LoadIds(values: map<string, seq<PricePoint>>, size: Option<int>, files: seq<seq<seq<string>>>,
                decode: seq<string> -> Option<PricePoint>)
    requires forall t, k | t in values && 0 <= k < |values[t]| :: values[t][k].id == t
    requires Load(values, size, files, decode).2.Ok?
    ensures var loaded := Load(values, size, files, decode).0;
      forall t, k | t in loaded && 0 <= k < |loaded[t]| :: loaded[t][k].id == t
  {
    var loaded: map<string, seq<PricePoint>> := Load(values, size, files, decode).0;
    LoadContents(values, size, files, decode);
    forall t: string, k: int | t in loaded && 0 <= k < |loaded[t]|
      ensures loaded[t][k].id == t
    {
      assert loaded[t] == Lookup(loaded, t) == Lookup(values, t) + Column(DataRows(files), t, decode);
      ColumnIds(DataRows(files), t, decode);
    }
  }

  /** The CSV data source: the grouped price points per ticker and the common row count. */
  class CsvData {
    const id: string
    var size: Option<int>
    var values: map<string, seq<PricePoint>>

    constructor (dataId: string)
      ensures id == dataId && size == None && values == map[]
    {
      id := dataId;
      size := None;
      values := map[];
    }

    /** `parseFile` on the lines of one file: skips the header, groups the data rows, and
        records or checks the size. */
    method ParseFile(lines: seq<seq<string>>, decode: seq<string> -> Option<PricePoint>)
      returns (r: Outcome<map<string, seq<PricePoint>>, CsvError>)
      modifies this
      ensures (size, r) == Parsed(old(size), lines, decode)
      ensures values == old(values)
    {
      if lines == [] {
        return Err(MissingHeader);
      }
      r := GroupRows(lines[1..], decode);
      if r.Err? {
        return;
      }
      if size.None? {
        size := Some(|lines| - 1);
      } else if size.value != |lines| - 1 {
        r := Err(SizeMismatch);
      }
    }

    /** `extendValues`: append the parsed groups to the values. */
    method ExtendValues(extension: map<string, seq<PricePoint>>)
      modifies this
      ensures values == Extend(old(values), extension)
      ensures size == old(size)
    {
      values := ExtendEach(values, extension);
    }

    /** `init` over the files of a directory (one file is the one-element case): parse and
        extend file by file; on a failure the files before it stay loaded. */
    method Init(files: seq<seq<seq<string>>>, decode: seq<string> -> Option<PricePoint>)
      returns (r: Outcome<(), CsvError>)
      modifies this
      ensures (values, size, r) == Load(old(values), old(size), files, decode)
    {
      var i := 0;
      while i < |files|
        invariant 0 <= i <= |files|
        invariant Load(values, size, files[i..], decode) == Load(old(values), old(size), files, decode)
      {
        assert files[i..][1..] == files[i + 1..];
        var parsed := ParseFile(files[i], decode);
        if parsed.Err? {
          return Err(parsed.error);
        }
        ExtendValues(parsed.value);
        i := i + 1;
      }
      r := Ok(());
    }

    /** `getValues`: fails when nothing has been loaded, otherwise the values. */
    function GetValues(): (r: Outcome<map<string, seq<PricePoint>>, CsvError>)
      reads this
      ensures r.Err? <==> values == map[]
      ensures r.Err? ==> r.error == NoValues
      ensures r.Ok? ==> r.value == values
    {
      if values == map[] then Err(NoValues) else Ok(values)
    }
  }
}
