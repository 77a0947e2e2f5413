// Where the standard puts each row count and each row in the stream of tables
// (section II.24.2.6 of ECMA-335).
module TablePositions {
  import opened Bytes
  import opened MethodBodies
  import opened Tables
  import opened TableStream
  import opened TableFormats

  // The bytes of a row: the widths of its fields.
  function Span(fields: seq<Field>): nat {
    if fields == [] then 0 else fields[0].width + Span(fields[1..])
  }

  // How many of the first k tables have rows.
  function Present(tables: TableSet, k: nat): nat
    requires k <= 64
  {
    if k == 0 then 0 else Present(tables, k - 1) + if tables[k - 1] != [] then 1 else 0
  }

  // The bytes of n rows.
  function Times(n: nat, width: nat): (bytes: nat) { n * width }

  lemma OneMore(n: nat, width: nat)
    ensures Times(0, width) == 0 && Times(n + 1, width) == Times(n, width) + width
  {
  }

  // The bytes of the rows of the first k tables.
  function SpanTo(tables: TableSet, w: Widths, k: nat): nat
    requires k <= 64
  {
    if k == 0 then 0 else SpanTo(tables, w, k - 1) + Times(|tables[k - 1]|, Span(Standard(k - 1, w)))
  }

  // Behind the header of 24 bytes one count of 4 bytes for each table with rows.
  function CountPosition(tables: TableSet, k: nat): nat
    requires k < 64
  {
    24 + 4 * Present(tables, k)
  }

  // Behind the counts the rows, table by table.
  function RowPosition(tables: TableSet, w: Widths, k: nat, j: nat): nat
    requires k < 64
  {
    24 + 4 * Present(tables, 64) + SpanTo(tables, w, k) + Times(j, Span(Standard(k, w)))
  }

  // Each class of rows takes the room the standard gives its table.
  ghost predicate StandardRows(tables: TableSet, sizes: Sizes) {
    && Homogeneous(tables) && sizes[T_GUID] < TWO_32
    && (forall k :: 0 <= k < 64 ==> AllTyped(tables[k]))
    && (tables[EXPORTED_TYPE] != [] ==> IndexWidth(TypeDef, sizes) == 4)
  }

  lemma {:induction false} FieldsTakeColumns(cs: seq<Column>, fields: seq<Field>, sizes: Sizes)
    requires AreFields(cs, fields, sizes)
    ensures ColumnsWidth(cs, sizes) == Span(fields)
  {
    hide ColumnWidth, IsField;
    if cs != [] {
      FieldTakesColumn(cs[0], fields[0], sizes);
      assert forall j :: 0 <= j < |cs[1..]| ==> cs[1..][j] == cs[j + 1] && fields[1..][j] == fields[j + 1];
      FieldsTakeColumns(cs[1..], fields[1..], sizes);
    }
  }

  lemma FieldTakesColumn(c: Column, f: Field, sizes: Sizes)
    requires IsField(c, f, sizes)
    ensures ColumnWidth(c, sizes) == f.width
  {
    hide IndexWidth;
  }

  lemma RowTakesSpan(tables: TableSet, sizes: Sizes, k: nat)
    requires StandardRows(tables, sizes) && k < 64 && tables[k] != []
    ensures RowWidth(k, sizes) == Span(Standard(k, WidthsFor(sizes)))
  {
    hide Schema, Standard, WidthsFor, IndexWidth, IsField, ColumnsWidth, Span, SmallConstants;
    assert RowTyped(tables[k][0]) && tables[k][0].kind == k;
    SchemaIsStandardIff(k, sizes);
    FieldsTakeColumns(Schema(k), Standard(k, WidthsFor(sizes)), sizes);
  }

  // ---- The counts ----

  lemma {:induction false} CountsFrom(tables: TableSet, k: nat)
    requires k <= 64
    ensures var n := 4 * Present(tables, k); n <= |CountBytes(tables, 0)| && CountBytes(tables, 0)[n..] == CountBytes(tables, k)
    decreases k
  {
    hide Le4;
    if k > 0 {
      CountsFrom(tables, k - 1);
      Behind(CountBytes(tables, 0), 4 * Present(tables, k - 1), if tables[k - 1] != [] then Le4(|tables[k - 1]|) else [],
             CountBytes(tables, k));
    }
  }

  // What stands at a position behind an item that stands there.
  lemma Behind(s: seq<byte>, at: nat, item: seq<byte>, rest: seq<byte>)
    requires at <= |s| && s[at..] == item + rest
    ensures at + |item| <= |s| && s[at + |item|..] == rest && s[at..at + |item|] == item
  {
    assert s[at + |item|..] == s[at..][|item|..];
    assert s[at..at + |item|] == s[at..][..|item|];
  }

  // What stands at a position of a part, in the whole.
  lemma InPart(before: seq<byte>, part: seq<byte>, behind: seq<byte>, at: nat)
    requires at <= |part|
    ensures (before + part + behind)[|before| + at..] == part[at..] + behind
  {
  }

  // The count of a table with rows stands behind those of the tables before it.
  lemma CountIsFound(tables: TableSet, sizes: Sizes, k: nat)
    requires forall i :: 0 <= i < 64 ==> AllTyped(tables[i])
    requires k < 64 && 0 < |tables[k]| < TWO_32
    ensures var s, at := StreamBytes(tables, sizes), CountPosition(tables, k);
            at + 4 <= |s| && DWord(s[at..]) == |tables[k]|
  {
    hide Le4, DWord, AllTyped, TableStream.HeaderBytes, TablesBytes, Present, CountBytes;
    CountsFrom(tables, k);
    var header, counts, rows := TableStream.HeaderBytes(tables, sizes), CountBytes(tables, 0), TablesBytes(tables, sizes, 0);
    CountStands(tables, k);
    CountRead(header + counts + rows, header, counts, rows, 4 * Present(tables, k), |tables[k]|);
  }

  lemma CountStands(tables: TableSet, k: nat)
    requires k < 64 && tables[k] != []
    ensures Le4(|tables[k]|) <= CountBytes(tables, k)
  {
    hide Le4;
  }

  lemma CountRead(s: seq<byte>, header: seq<byte>, counts: seq<byte>, rows: seq<byte>, n: nat, v: nat)
    requires s == header + counts + rows && n <= |counts| && Le4(v) <= counts[n..] && v < TWO_32
    ensures |header| + n + 4 <= |s| && DWord(s[|header| + n..]) == v
  {
    hide Le4, DWord;
    var at := |header| + n;
    assert s[at..at + 4] == counts[n..][..4] == Le4(v);
    ReadLe4(s, at, v);
  }

  // ---- The rows ----

  lemma {:induction false} RowsFrom(rows: seq<Row>, sizes: Sizes, kind: nat, j: nat)
    requires AllTyped(rows) && j <= |rows| && forall i :: 0 <= i < |rows| ==> rows[i].kind == kind
    ensures var n := Times(j, RowWidth(kind, sizes));
            n <= |RowsBytes(rows, sizes, 0)| && RowsBytes(rows, sizes, 0)[n..] == RowsBytes(rows, sizes, j)
    decreases j
  {
    hide RowWidth, RowTyped, RowBytes, Times;
    OneMore(if j > 0 then j - 1 else 0, RowWidth(kind, sizes));
    if j > 0 {
      RowsFrom(rows, sizes, kind, j - 1);
      assert RowTyped(rows[j - 1]);
      Behind(RowsBytes(rows, sizes, 0), Times(j - 1, RowWidth(kind, sizes)), RowBytes(rows[j - 1], sizes), RowsBytes(rows, sizes, j));
    }
  }

  lemma {:induction false} TablesFrom(tables: TableSet, sizes: Sizes, k: nat)
    requires StandardRows(tables, sizes) && k <= 64
    ensures |TablesBytes(tables, sizes, 0)| >= SpanTo(tables, WidthsFor(sizes), k)
    ensures TablesBytes(tables, sizes, 0)[SpanTo(tables, WidthsFor(sizes), k)..] == TablesBytes(tables, sizes, k)
    decreases k
  {
    hide Standard, WidthsFor, Span, RowsBytes, AllTyped, RowWidth, IndexWidth, Times;
    if k > 0 {
      TablesFrom(tables, sizes, k - 1);
      TableTakes(tables, sizes, k - 1);
      Behind(TablesBytes(tables, sizes, 0), SpanTo(tables, WidthsFor(sizes), k - 1), RowsBytes(tables[k - 1], sizes, 0),
             TablesBytes(tables, sizes, k));
    }
  }

  lemma TableTakes(tables: TableSet, sizes: Sizes, k: nat)
    requires StandardRows(tables, sizes) && k < 64
    ensures |RowsBytes(tables[k], sizes, 0)| == Times(|tables[k]|, Span(Standard(k, WidthsFor(sizes))))
  {
    hide Standard, WidthsFor, Span, RowWidth, IndexWidth;
    if tables[k] != [] {
      RowTakesSpan(tables, sizes, k);
      RowsWidth(tables[k], sizes, k, 0);
    }
  }

  lemma RowsBehindCounts(tables: TableSet, sizes: Sizes)
    requires forall i :: 0 <= i < 64 ==> AllTyped(tables[i])
    ensures var s, at := StreamBytes(tables, sizes), 24 + 4 * Present(tables, 64);
            at <= |s| && s[at..] == TablesBytes(tables, sizes, 0)
  {
    hide AllTyped, TableStream.HeaderBytes, TablesBytes, CountBytes, Present;
    CountsFrom(tables, 64);
    AllCounts(tables);
    Behind(StreamBytes(tables, sizes), 0, TableStream.HeaderBytes(tables, sizes) + CountBytes(tables, 0), TablesBytes(tables, sizes, 0));
  }

  lemma AllCounts(tables: TableSet)
    ensures |CountBytes(tables, 0)| == 4 * Present(tables, 64)
  {
    CountsFrom(tables, 64);
    assert CountBytes(tables, 64) == [];
  }

  // A reader that follows the standard finds every row of every table at its
  // place, and in it every field with the number the row has for it.
  lemma RowIsFound(tables: TableSet, sizes: Sizes, k: nat, j: nat)
    requires StandardRows(tables, sizes) && k < 64 && j < |tables[k]| && RowFits(tables[k][j], sizes)
    ensures var s, at, fields := StreamBytes(tables, sizes), RowPosition(tables, WidthsFor(sizes), k, j), Standard(k, WidthsFor(sizes));
            && at <= |s|
            && var read := ReadFields(fields, s[at..]);
               read.Some? && read.value.0 == Numbers(fields, tables[k][j].values)
  {
    hide Standard, WidthsFor, Span, RowsBytes, AllTyped, RowWidth, IndexWidth, StreamBytes, TablesBytes, Present, ReadFields, Numbers,
         RowFits, RowTyped, SpanTo, RowBytes, Times;
    var w := WidthsFor(sizes);
    var s, first, span := StreamBytes(tables, sizes), 24 + 4 * Present(tables, 64), SpanTo(tables, w, k);
    RowsBehindCounts(tables, sizes);
    TablesFrom(tables, sizes, k);
    assert s[first + span..] == s[first..][span..] == TablesBytes(tables, sizes, k);
    var row, at := tables[k][j], RowPosition(tables, w, k, j);
    FitsTyped(row, sizes);
    RowStands(tables, sizes, k, j, s, first + span);
    var bytes := RowBytes(row, sizes);
    assert s[at..] == bytes + s[at..][|bytes|..];
    RowIsStandard(row, sizes, s[at..][|bytes|..]);
  }

  lemma FitsTyped(row: Row, sizes: Sizes)
    requires RowFits(row, sizes)
    ensures RowTyped(row)
  {
  }

  lemma RowStands(tables: TableSet, sizes: Sizes, k: nat, j: nat, s: seq<byte>, at: nat)
    requires StandardRows(tables, sizes) && k < 64 && j < |tables[k]| && RowTyped(tables[k][j])
    requires at <= |s| && s[at..] == TablesBytes(tables, sizes, k)
    ensures var pos := at + Times(j, Span(Standard(k, WidthsFor(sizes))));
            pos <= |s| && RowBytes(tables[k][j], sizes) <= s[pos..]
  {
    hide Standard, WidthsFor, Span, RowWidth, IndexWidth, RowTyped, RowBytes, Times;
    var rows, n := tables[k], Times(j, RowWidth(k, sizes));
    RowTakesSpan(tables, sizes, k);
    RowsFrom(rows, sizes, k, j);
    var own, others := RowsBytes(rows, sizes, 0), TablesBytes(tables, sizes, k + 1);
    InPart([], own, others, n);
    assert [] + own + others == s[at..];
    assert own[n..] == RowBytes(rows[j], sizes) + RowsBytes(rows, sizes, j + 1);
    assert s[at + n..] == s[at..][n..] == RowBytes(rows[j], sizes) + (RowsBytes(rows, sizes, j + 1) + others);
  }
}
