/** The row step of `load_csv_data` (api/generate.py and
    test_system_simple.py): pick the URL column, skip rows without one,
    and default every expected metric to 0.0. */
module CsvRows {
  import opened Wrappers
  import opened Strings
  import opened Records
  import opened Seqs
  import opened Collecting

  /** A `csv.DictReader` row. A cell is None when the line had fewer fields
      than the header (the reader's `restval`). */
  type Row = map<string, Option<string>>

  /** Python's `float(text)`: the number, or None where it raises. */
  type FloatParser = string -> Option<real>

  /** URL columns tried by api/generate.py, in order. */
  const GenerateUrlColumns: seq<string> := ["url", "URL", "page"]

  /** URL columns tried by test_system_simple.py, in order. */
  const SimpleUrlColumns: seq<string> := ["url", "URL", "page", "Page", "link", "Link"]

  /** Expected columns of the search-performance export. */
  const GscColumns: seq<string> := ["clicks", "impressions", "ctr", "position"]

  /** Expected columns of the page-graph export. */
  const PeColumns: seq<string> := ["importance", "depth", "internal_links", "health"]

  /** `row.get(name)` is truthy: the column exists and holds non-empty text. */
  predicate HasText(row: Row, name: string) {
    name in row && row[name].Some? && row[name].value != ""
  }

  /** Column `names[i]` is the first of `names` with a truthy cell. */
  predicate FirstTextAt(row: Row, names: seq<string>, i: int) {
    0 <= i < |names| && HasText(row, names[i])
    && forall j :: 0 <= j < i ==> !HasText(row, names[j])
  }

  /** `row.get(c1) or row.get(c2) or ...`: the first truthy URL cell. */
  function PickUrl(row: Row, names: seq<string>): (r: Option<string>)
    ensures r.None? <==> forall i :: 0 <= i < |names| ==> !HasText(row, names[i])
    ensures r.Some? ==> exists i :: FirstTextAt(row, names, i) && row[names[i]].value == r.value
  {
    if names == [] then None
    else if HasText(row, names[0]) then
      assert FirstTextAt(row, names, 0);
      Some(row[names[0]].value)
    else
      var r := PickUrl(row, names[1..]);
      assert r.Some? ==> exists i :: FirstTextAt(row, names, i) && row[names[i]].value == r.value by {
        if r.Some? {
          var i :| FirstTextAt(row, names[1..], i) && row[names[1..][i]].value == r.value;
          assert names[i + 1] == names[1..][i];
          forall j | 0 <= j < i + 1
            ensures !HasText(row, names[j])
          {
            if j > 0 {
              assert names[j] == names[1..][j - 1];
            }
          }
          assert FirstTextAt(row, names, i + 1);
        }
      }
      r
  }

  /** `float(row[col])` succeeds. */
  predicate Converts(row: Row, col: string, parse: FloatParser) {
    col in row && row[col].Some? && parse(row[col].value).Some?
  }

  /** The value `load_csv_data` stores for column `col`: `float(row[col])`
      when the column exists and converts, 0.0 otherwise (absent column,
      missing cell, or a conversion error). */
  function MetricValue(row: Row, col: string, parse: FloatParser): real {
    if col in row && row[col].Some? then parse(row[col].value).GetOr(0.0) else 0.0
  }

  /** One iteration of the `for row in reader` loop: None for a skipped row. */
  function LoadRow(row: Row, urlColumns: seq<string>, columns: seq<string>, parse: FloatParser)
    : (r: Option<Record>)
    ensures r.None? <==> forall i :: 0 <= i < |urlColumns| ==> !HasText(row, urlColumns[i])
    ensures r.Some? ==> r.value.url == Strip(PickUrl(row, urlColumns).value)
    ensures r.Some? ==> r.value.metrics.Keys == set c | c in columns
    ensures r.Some? ==> forall c :: c in columns && Converts(row, c, parse) ==>
      r.value.metrics[c] == parse(row[c].value).value
    ensures r.Some? ==> forall c :: c in columns && !Converts(row, c, parse) ==>
      r.value.metrics[c] == 0.0
  {
    match PickUrl(row, urlColumns)
    case None => None
    case Some(url) =>
      Some(Record(Strip(url), map c | c in columns :: MetricValue(row, c, parse)))
  }

  /** The whole loop: loaded entries in row order, skipped rows dropped. */
  function LoadRows(rows: seq<Row>, urlColumns: seq<string>, columns: seq<string>, parse: FloatParser)
    : (r: seq<Record>)
    ensures |r| <= |rows|
    ensures forall i :: 0 <= i < |r| ==> r[i].metrics.Keys == set c | c in columns
    ensures (forall i :: 0 <= i < |rows| ==> PickUrl(rows[i], urlColumns).Some?) ==> |r| == |rows|
  {
    if rows == [] then []
    else
      var rest := LoadRows(rows[1..], urlColumns, columns, parse);
      match LoadRow(rows[0], urlColumns, columns, parse)
      case None => rest
      case Some(e) =>
        assert forall i :: 1 <= i < |rows| ==> rows[1..][i - 1] == rows[i];
        [e] + rest
  }

  /** The rows the loop keeps: those with a URL cell of the chain. */
  function HasUrl(urlColumns: seq<string>): Row -> bool {
    row => PickUrl(row, urlColumns).Some?
  }

  /** The loop body as a skip/take step. */
  function RowStep(urlColumns: seq<string>, columns: seq<string>, parse: FloatParser): Row -> Verdict<Record> {
    row => match LoadRow(row, urlColumns, columns, parse) case None => Skip case Some(e) => Take(e)
  }

  /** `LoadRows` is the skip/take loop over the row step. */
  lemma {:induction false} LoadRowsCollects(rows: seq<Row>, urlColumns: seq<string>, columns: seq<string>, parse: FloatParser)
    ensures Collect(rows, RowStep(urlColumns, columns, parse)) == Success(LoadRows(rows, urlColumns, columns, parse))
    decreases |rows|
  {
    if rows != [] {
      LoadRowsCollects(rows[1..], urlColumns, columns, parse);
    }
  }

  /** The loaded entries are, in row order, the loaded form of exactly the
      rows that have a URL. */
  lemma LoadRowsKeeps(rows: seq<Row>, urlColumns: seq<string>, columns: seq<string>, parse: FloatParser)
    ensures var r, kept := LoadRows(rows, urlColumns, columns, parse), Select(rows, HasUrl(urlColumns), true);
      |r| == |kept| && forall i :: 0 <= i < |r| ==> Some(r[i]) == LoadRow(kept[i], urlColumns, columns, parse)
  {
    var step := RowStep(urlColumns, columns, parse);
    assert forall x :: !step(x).Abort? && Taking(step)(x) == HasUrl(urlColumns)(x);
    LoadRowsCollects(rows, urlColumns, columns, parse);
    CollectKeeps(rows, step);
    SelectSameKey(rows, Taking(step), HasUrl(urlColumns), true);
    var r, kept := LoadRows(rows, urlColumns, columns, parse), Select(rows, HasUrl(urlColumns), true);
    forall i | 0 <= i < |r|
      ensures Some(r[i]) == LoadRow(kept[i], urlColumns, columns, parse)
    {
      assert Taking(step)(kept[i]);
    }
  }

  /** The wider column chain of test_system_simple.py accepts a `Link`
      column that api/generate.py ignores. */
  lemma LinkColumnOnlyInWiderChain(u: string)
    requires u != ""
    ensures PickUrl(map["Link" := Some(u)], SimpleUrlColumns) == Some(u)
    ensures PickUrl(map["Link" := Some(u)], GenerateUrlColumns) == None
  {
    var row: Row := map["Link" := Some(u)];
    assert HasText(row, SimpleUrlColumns[5]);
  }
}
