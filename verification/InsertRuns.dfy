/** Whole runs: a table that grew by incremental inserts against the same table
    built in one go. */
module InsertRuns {
  import opened Ordering
  import opened Codec
  import opened PageCodec
  import opened Streams
  import opened TableImage
  import opened ImageCodec
  import opened TableState
  import opened RowInsert
  import opened IncrementalInsert
  import opened ImageBuilder

  /** The rows a table with this many fields takes, in order. */
  ghost function Accepted(rows: seq<Row>, fieldCount: nat): seq<Row> {
    if rows == [] then []
    else
      var rest, row := Accepted(rows[..|rows| - 1], fieldCount), rows[|rows| - 1];
      if |row| == fieldCount && StringsOk(row) then rest + [row] else rest
  }

  lemma {:induction false} AcceptedFit(rows: seq<Row>, fieldCount: nat)
    ensures Rectangular(Accepted(rows, fieldCount), fieldCount) && |Accepted(rows, fieldCount)| <= |rows|
  {
    hide StringsOk;
    if rows != [] {
      AcceptedFit(rows[..|rows| - 1], fieldCount);
    }
  }

  /** The table after the statements `rows` ran on one created with `rows0`. */
  ghost function AfterRun(fields: seq<Key>, rows0: seq<Row>, rows: seq<Row>): Table {
    var accepted := Accepted(rows, |fields|);
    TableOf(fields, rows0 + accepted, 1 + |accepted|)
  }

  lemma RunStep(fields: seq<Key>, rows0: seq<Row>, rows: seq<Row>, k: nat)
    requires k < |rows| && |rows0| + |rows| < U64 - 1
    ensures var t := AfterRun(fields, rows0, rows[..k]);
      && (Fits(t, rows[k]) <==> |rows[k]| == |fields| && StringsOk(rows[k]))
      && AfterRun(fields, rows0, rows[..k + 1]) == if Fits(t, rows[k]) then WithRow(t, rows[k]) else t
  {
    hide StringsOk, ColumnIndex;
    assert rows[..k + 1][..k] == rows[..k];
    AcceptedFit(rows[..k], |fields|);
    var accepted := Accepted(rows[..k], |fields|);
    assert rows0 + (accepted + [rows[k]]) == (rows0 + accepted) + [rows[k]];
  }

  /** After creation and any statements, valid or not, the image denotes the
      table of all accepted rows, one generation further per accepted row. */
  method RunInserts(fields: seq<Key>, rows0: seq<Row>, rows: seq<Row>) returns (image: Bytes)
    requires FieldsOk(fields) && Rectangular(rows0, |fields|) && |rows0| + |rows| < U64 - 1
    requires PageBudget(fields, rows0) + MAX_GROWTH * |rows| <= NO_PAGE
    ensures Extendable(image, AfterRun(fields, rows0, rows))
  {
    hide FieldsOk, Rectangular, Extendable, ImageDenotes, AfterRun, Fits, DirtyComplete, WithRow, PageBudget;
    assert MAX_GROWTH * |rows| >= 0;
    image := [];
    var created := BuildImage(fields, rows0, 1);
    if created.Err? { return; }
    image := created.value;
    NothingRun(fields, rows0, rows);
    for k := 0 to |rows|
      invariant Extendable(image, AfterRun(fields, rows0, rows[..k]))
      invariant |image| <= PAGE_SIZE * (PageBudget(fields, rows0) + MAX_GROWTH * k)
    {
      RunStep(fields, rows0, rows, k);
      ghost var t := AfterRun(fields, rows0, rows[..k]);
      ExtendableDenotes(image, t);
      forall u | Extendable(image, u) ensures u == t {
        ExtendableDenotes(image, u);
        ImageDenotesUnique(image, t, u);
      }
      PagesLeft(|image|, PageBudget(fields, rows0), MAX_GROWTH, k, |rows|);
      var inserted := BuildIncrementalInsert(image, rows[k]);
      if inserted.Ok? {
        image := inserted.value.image;
      }
    }
    assert rows[..|rows|] == rows;
  }

  lemma NothingRun(fields: seq<Key>, rows0: seq<Row>, rows: seq<Row>)
    ensures AfterRun(fields, rows0, rows[..0]) == TableOf(fields, rows0, 1)
  {
    assert rows0 + [] == rows0;
  }

  lemma PagesLeft(size: nat, budget: nat, growth: nat, k: nat, n: nat)
    requires size <= PAGE_SIZE * (budget + growth * k) && budget + growth * n <= NO_PAGE && k < n
    ensures size / PAGE_SIZE + growth <= NO_PAGE
    ensures size + PAGE_SIZE * growth <= PAGE_SIZE * (budget + growth * (k + 1))
  {
    assert growth * (k + 1) == growth * k + growth;
    assert growth * (k + 1) <= growth * n;
  }

  /** Reading the grown image and reading the rebuilt one give the same fields,
      rows, indexes and generation. */
  method GrowAndRebuild(fields: seq<Key>, rows0: seq<Row>, rows: seq<Row>)
    returns (grown: Result<Table>, rebuilt: Result<Table>)
    requires FieldsOk(fields) && Rectangular(rows0, |fields|) && |rows0| + |rows| < U64 - 1
    requires PageBudget(fields, rows0) + MAX_GROWTH * |rows| <= NO_PAGE
    requires PageBudget(fields, rows0 + Accepted(rows, |fields|)) <= NO_PAGE
    ensures grown == rebuilt == Ok(AfterRun(fields, rows0, rows))
  {
    hide FieldsOk, Extendable, ImageDenotes, ColumnIndex, Denotes, Stores, PageBudget, StringsOk;
    ghost var accepted := Accepted(rows, |fields|);
    ghost var t := AfterRun(fields, rows0, rows);
    AcceptedFit(rows, |fields|);
    var image := RunInserts(fields, rows0, rows);
    ExtendableDenotes(image, t);
    var pages;
    ghost var l;
    grown, pages, l := ParseImage(image);
    ParsedIs(image, grown, t);
    rebuilt := grown;
    if grown.Err? { return; }
    var image' := BuildImage(fields, grown.value.rows, grown.value.generation);
    if image'.Err? { return; }
    rebuilt, pages, l := ParseImage(image'.value);
    ParsedIs(image'.value, rebuilt, t);
  }

  lemma ParsedIs(image: Bytes, parsed: Result<Table>, t: Table)
    requires ImageDenotes(image, t)
    requires parsed.Ok? ==> ImageDenotes(image, parsed.value)
    requires parsed.Err? ==> forall u :: !ImageDenotes(image, u)
    ensures parsed == Ok(t)
  {
    hide ImageDenotes;
    if parsed.Ok? {
      ImageDenotesUnique(image, parsed.value, t);
    }
  }
}
