// The #~ stream: WriteTables against ReadTables.
module TableStream {
  import opened Bytes
  import opened MethodBodies
  import opened Tables

  // The rows of each of the 64 tables.
  type TableSet = t: seq<seq<Row>> | |t| == 64 witness seq(64, _ => [])

  // Where AddTableEntry files a row; two classes name another table.
  function TableIndex(kind: nat): nat {
    if kind == GENERIC_PARAM_CONSTRAINT then GENERIC_PARAM
    else if kind == EXPORTED_TYPE then MANIFEST_RESOURCE
    else kind
  }

  // Every row stands in the table of its class.
  ghost predicate Homogeneous(tables: TableSet) {
    forall i, j :: 0 <= i < 64 && 0 <= j < |tables[i]| ==> tables[i][j].kind == i
  }

  // What a run of AddTableEntry calls leaves.
  ghost predicate Filed(tables: TableSet) {
    forall i, j :: 0 <= i < 64 && 0 <= j < |tables[i]| ==> RowTyped(tables[i][j]) && TableIndex(tables[i][j].kind) == i
  }

  class TableStore {
    var tables: TableSet

    constructor ()
      ensures Filed(tables) && Homogeneous(tables)
    {
      tables := seq(64, _ => []);
    }

    method AddTableEntry(row: Row) returns (index: nat)
      requires Filed(tables) && RowTyped(row)
      modifies this
      ensures Filed(tables) && index == |tables[TableIndex(row.kind)]|
      ensures tables == old(tables)[TableIndex(row.kind) := old(tables)[TableIndex(row.kind)] + [row]]
      ensures old(Homogeneous(tables)) ==>
                (Homogeneous(tables) <==> row.kind != GENERIC_PARAM_CONSTRAINT && row.kind != EXPORTED_TYPE)
    {
      hide RowTyped;
      assert row.kind < 64 by { KnownIsTable(row); }
      var n := TableIndex(row.kind);
      tables := tables[n := tables[n] + [row]];
      assert tables[n][|tables[n]| - 1] == row;
      return |tables[n]|;
    }
  }

  lemma KnownIsTable(row: Row)
    requires RowTyped(row)
    ensures row.kind < 64
  {
    hide Schema;
  }

  // ---- The presence mask ----

  function Pow2(n: nat): (p: nat)
    ensures p > 0
  {
    if n == 0 then 1 else 2 * Pow2(n - 1)
  }

  predicate Bit(mask: nat, i: nat) { mask / Pow2(i) % 2 == 1 }

  // One bit for each of the first k tables that has rows.
  function Mask(tables: TableSet, k: nat): nat
    requires k <= 64
  {
    if k == 0 then 0 else Mask(tables, k - 1) + if tables[k - 1] != [] then Pow2(k - 1) else 0
  }

  lemma {:induction false} MaskBound(tables: TableSet, k: nat)
    requires k <= 64
    ensures Mask(tables, k) < Pow2(k)
  {
    if k > 0 {
      MaskBound(tables, k - 1);
    }
  }

  lemma {:induction false} Pow2Split(i: nat, j: nat)
    requires i <= j
    ensures Pow2(j) == Pow2(i) * Pow2(j - i)
    decreases j
  {
    if i < j {
      Pow2Split(i, j - 1);
    }
  }

  lemma HighBitsDoNotMatter(m: nat, i: nat, j: nat)
    requires i < j
    ensures Bit(m + Pow2(j), i) == Bit(m, i)
  {
    hide Pow2;
    Pow2Split(i, j);
    Pow2Even(j - i);
    EvenQuotient(m, Pow2(i), Pow2(j - i));
  }

  lemma Pow2Even(n: nat)
    requires n > 0
    ensures Pow2(n) % 2 == 0
  {
    var half := Pow2(n - 1);
    assert Pow2(n) == 2 * half;
    hide Pow2;
    assert 2 * half % 2 == 0;
  }

  lemma EvenQuotient(m: nat, p: nat, d: nat)
    requires p > 0 && d % 2 == 0
    ensures (m + p * d) / p % 2 == m / p % 2
  {
    DivAdd(m, p, d);
    EvenAdd(m / p, d);
  }

  lemma EvenAdd(x: nat, d: nat)
    requires d % 2 == 0
    ensures (x + d) % 2 == x % 2
  {
  }

  lemma {:induction false} MaskBit(tables: TableSet, k: nat, i: nat)
    requires k <= 64
    ensures Bit(Mask(tables, k), i) <==> i < k && tables[i] != []
  {
    hide Bit;
    if k == 0 {
      ZeroBit(i);
    } else if i == k - 1 {
      MaskBound(tables, i);
      TopBit(Mask(tables, i), i);
    } else {
      MaskBit(tables, k - 1, i);
      if tables[k - 1] != [] {
        if i < k - 1 {
          HighBitsDoNotMatter(Mask(tables, k - 1), i, k - 1);
        } else {
          MaskBound(tables, k);
          NoBit(Mask(tables, k), k, i);
        }
      }
    }
  }

  lemma ZeroBit(i: nat)
    ensures !Bit(0, i)
  {
    DivUnique(0, Pow2(i), 0, 0);
  }

  lemma TopBit(m: nat, i: nat)
    requires m < Pow2(i)
    ensures !Bit(m, i) && Bit(m + Pow2(i), i)
  {
    DivUnique(m, Pow2(i), 0, m);
    DivAdd(m, Pow2(i), 1);
  }

  lemma NoBit(m: nat, k: nat, i: nat)
    requires m < Pow2(k) && k <= i
    ensures !Bit(m, i)
  {
    Pow2Split(k, i);
    assert Pow2(i) >= Pow2(k) by { Increases(Pow2(k), Pow2(i - k)); }
    DivUnique(m, Pow2(i), 0, m);
  }

  lemma Increases(a: nat, b: nat)
    requires b > 0
    ensures a * b >= a
  {
  }

  // ---- The writer ----

  function CountsOf(tables: TableSet): (counts: seq<nat>)
    ensures |counts| == 64
  {
    seq(64, i requires 0 <= i < 64 => |tables[i]|)
  }

  function SizesOf(tables: TableSet, strings: nat, us: nat, guid: nat, blob: nat): Sizes {
    CountsOf(tables) + [strings, us, guid, blob]
  }

  function HeapFlags(sizes: Sizes): (flags: nat)
    ensures flags < 8
  {
    (if sizes[T_STRING] >= 65536 then 1 else 0) + (if sizes[T_GUID] >= 65536 then 2 else 0)
    + (if sizes[T_BLOB] >= 65536 then 4 else 0)
  }

  const SORTED := 0x1600_3325_FA00

  function HeaderBytes(tables: TableSet, sizes: Sizes): (s: seq<byte>)
    ensures |s| == 24
  {
    Le4(0) + [2, 0, HeapFlags(sizes), 1] + Le8(Mask(tables, 64)) + Le8(SORTED)
  }

  function CountBytes(tables: TableSet, i: nat): seq<byte>
    requires i <= 64
    decreases 64 - i
  {
    if i == 64 then []
    else (if tables[i] != [] then Le4(|tables[i]|) else []) + CountBytes(tables, i + 1)
  }

  ghost predicate AllTyped(rows: seq<Row>) {
    forall j :: 0 <= j < |rows| ==> RowTyped(rows[j])
  }

  // The bytes of the rows from the j-th on.
  function RowsBytes(rows: seq<Row>, sizes: Sizes, j: nat): seq<byte>
    requires AllTyped(rows) && j <= |rows|
    decreases |rows| - j
  {
    if j == |rows| then [] else RowBytes(rows[j], sizes) + RowsBytes(rows, sizes, j + 1)
  }

  function TablesBytes(tables: TableSet, sizes: Sizes, i: nat): seq<byte>
    requires i <= 64 && forall k :: 0 <= k < 64 ==> AllTyped(tables[k])
    decreases 64 - i
  {
    if i == 64 then [] else RowsBytes(tables[i], sizes, 0) + TablesBytes(tables, sizes, i + 1)
  }

  function StreamBytes(tables: TableSet, sizes: Sizes): seq<byte>
    requires forall k :: 0 <= k < 64 ==> AllTyped(tables[k])
  {
    HeaderBytes(tables, sizes) + CountBytes(tables, 0) + TablesBytes(tables, sizes, 0)
  }

  method WriteTables(tables: TableSet, strings: nat, us: nat, guid: nat, blob: nat, out: OutStream)
    requires forall k :: 0 <= k < 64 ==> AllTyped(tables[k])
    modifies out
    ensures out.bytes == Padded(old(out.bytes) + StreamBytes(tables, SizesOf(tables, strings, us, guid, blob)), 4)
  {
    hide HeaderBytes, CountBytes, TablesBytes, Padded, SizesOf;
    var counts := SizesOf(tables, strings, us, guid, blob);
    out.Put(HeaderBytes(tables, counts));
    WriteCounts(tables, out);
    WriteAllRows(tables, counts, out);
    assert out.bytes == old(out.bytes) + StreamBytes(tables, counts);
    out.Align(4);
  }

  method WriteCounts(tables: TableSet, out: OutStream)
    modifies out
    ensures out.bytes == old(out.bytes) + CountBytes(tables, 0)
  {
    hide Le4;
    var i := 0;
    while i < 64
      invariant i <= 64 && out.bytes + CountBytes(tables, i) == old(out.bytes) + CountBytes(tables, 0)
    {
      ghost var before := out.bytes;
      var n := |tables[i]|;
      if n != 0 {
        out.Put(Le4(n));
        Regroup(before, Le4(n), CountBytes(tables, i + 1));
      } else {
        Regroup(before, [], CountBytes(tables, i + 1));
      }
      i := i + 1;
    }
  }

  method WriteAllRows(tables: TableSet, sizes: Sizes, out: OutStream)
    requires forall k :: 0 <= k < 64 ==> AllTyped(tables[k])
    modifies out
    ensures out.bytes == old(out.bytes) + TablesBytes(tables, sizes, 0)
  {
    hide RowsBytes, AllTyped;
    var i := 0;
    while i < 64
      invariant i <= 64 && out.bytes + TablesBytes(tables, sizes, i) == old(out.bytes) + TablesBytes(tables, sizes, 0)
    {
      ghost var before := out.bytes;
      WriteRows(tables[i], sizes, out);
      Regroup(before, RowsBytes(tables[i], sizes, 0), TablesBytes(tables, sizes, i + 1));
      i := i + 1;
    }
  }

  method WriteRows(rows: seq<Row>, sizes: Sizes, out: OutStream)
    requires AllTyped(rows)
    modifies out
    ensures out.bytes == old(out.bytes) + RowsBytes(rows, sizes, 0)
  {
    hide RowBytes, RowTyped;
    var j := 0;
    while j < |rows|
      invariant j <= |rows| && out.bytes + RowsBytes(rows, sizes, j) == old(out.bytes) + RowsBytes(rows, sizes, 0)
    {
      ghost var before := out.bytes;
      out.Put(RowBytes(rows[j], sizes));
      Regroup(before, RowBytes(rows[j], sizes), RowsBytes(rows, sizes, j + 1));
      j := j + 1;
    }
  }

  lemma Regroup(a: seq<byte>, b: seq<byte>, c: seq<byte>)
    ensures a + b + c == a + (b + c)
    ensures [] + c == c && a + [] == a
  {
  }

  // The room a table takes is its number of rows times the width of one row.
  lemma {:induction false} RowsWidth(rows: seq<Row>, sizes: Sizes, kind: nat, j: nat)
    requires AllTyped(rows) && j <= |rows| && forall k :: 0 <= k < |rows| ==> rows[k].kind == kind
    ensures |RowsBytes(rows, sizes, j)| == (|rows| - j) * RowWidth(kind, sizes)
    decreases |rows| - j
  {
    hide RowWidth, RowTyped, RowBytes;
    if j < |rows| {
      assert RowTyped(rows[j]);
      RowsWidth(rows, sizes, kind, j + 1);
      OneMoreTimes(|rows| - j, RowWidth(kind, sizes));
    }
  }

  lemma OneMoreTimes(n: nat, w: nat)
    requires n > 0
    ensures n * w == w + (n - 1) * w
  {
  }

  // ---- The reader ----

  datatype ReadResult = Tables(tables: TableSet) | UnknownTable | Truncated

  function ReadCounts(mask: nat, i: nat, s: seq<byte>): (r: Option<(seq<nat>, seq<byte>)>)
    requires i <= 64
    ensures r.Some? ==> |r.value.0| == 64 - i
    decreases 64 - i
  {
    if i == 64 then Some(([], s))
    else if Bit(mask, i) then
      if |s| < 4 then None
      else match ReadCounts(mask, i + 1, s[4..])
        case None => None
        case Some((counts, rest)) => Some(([DWord(s)] + counts, rest))
    else match ReadCounts(mask, i + 1, s)
      case None => None
      case Some((counts, rest)) => Some(([0] + counts, rest))
  }

  function ReadRows(kind: nat, sizes: Sizes, n: nat, s: seq<byte>): (r: Option<(seq<Row>, seq<byte>)>)
    ensures r.Some? ==> |r.value.0| == n && forall row :: row in r.value.0 ==> row.kind == kind
    decreases n
  {
    if n == 0 then Some(([], s))
    else if |s| < RowWidth(kind, sizes) then None
    else match ReadRows(kind, sizes, n - 1, s[RowWidth(kind, sizes)..])
      case None => None
      case Some((rows, rest)) => Some(([GetRow(kind, sizes, s)] + rows, rest))
  }

  function ReadFrom(sizes: Sizes, i: nat, s: seq<byte>): (r: Option<seq<seq<Row>>>)
    requires i <= 64
    ensures r.Some? ==> |r.value| == 64 - i
    ensures r.Some? ==> forall k, row :: 0 <= k < 64 - i && row in r.value[k] ==> row.kind == i + k
    decreases 64 - i
  {
    if i == 64 then Some([])
    else match ReadRows(i, sizes, sizes[i], s)
      case None => None
      case Some((rows, rest)) =>
        match ReadFrom(sizes, i + 1, rest)
        case None => None
        case Some(others) =>
          assert forall k :: 0 < k < 64 - i ==> ([rows] + others)[k] == others[k - 1];
          Some([rows] + others)
  }

  ghost predicate OnlyKnown(mask: nat) {
    forall i :: 0 <= i < 64 && Bit(mask, i) ==> Known(i)
  }

  ghost function ReadStream(mem: seq<byte>, strings: nat, us: nat, guid: nat, blob: nat): ReadResult {
    if |mem| < 24 then Truncated
    else
      var mask := QWord(mem[8..]);
      if !OnlyKnown(mask) then UnknownTable
      else match ReadCounts(mask, 0, mem[24..])
        case None => Truncated
        case Some((counts, rest)) =>
          match ReadFrom(counts + [strings, us, guid, blob], 0, rest)
          case None => Truncated
          case Some(tables) => Tables(tables)
  }

  method HasUnknown(mask: nat) returns (unknown: bool)
    ensures unknown <==> !OnlyKnown(mask)
  {
    hide Bit, Known;
    var i := 0;
    while i < 64
      invariant i <= 64 && forall k :: 0 <= k < i && Bit(mask, k) ==> Known(k)
    {
      if Bit(mask, i) && !Known(i) { return true; }
      i := i + 1;
    }
    return false;
  }

  function Before<T>(first: seq<T>, r: Option<(seq<T>, seq<byte>)>): Option<(seq<T>, seq<byte>)> {
    match r case None => None case Some((more, rest)) => Some((first + more, rest))
  }

  method ReadTables(mem: seq<byte>, strings: nat, us: nat, guid: nat, blob: nat) returns (result: ReadResult)
    ensures result == ReadStream(mem, strings, us, guid, blob)
  {
    hide Bit, QWord, DWord, GetRow, RowWidth, OnlyKnown;
    if |mem| < 24 { return Truncated; }
    var tableFlags := QWord(mem[8..]);
    var unknown := HasUnknown(tableFlags);
    if unknown { return UnknownTable; }
    var counts, p, ok := LoadCounts(tableFlags, mem[24..]);
    if !ok { return Truncated; }
    result := LoadTables(counts + [strings, us, guid, blob], p);
  }

  method LoadCounts(tableFlags: nat, mem: seq<byte>) returns (counts: seq<nat>, p: seq<byte>, ok: bool)
    ensures ok <==> ReadCounts(tableFlags, 0, mem).Some?
    ensures ok ==> |counts| == 64 && ReadCounts(tableFlags, 0, mem) == Some((counts, p))
  {
    hide Bit, DWord;
    counts, p, ok := [], mem, true;
    BeforeNothing(ReadCounts(tableFlags, 0, mem));
    var i := 0;
    while i < 64
      invariant |counts| == i <= 64
      invariant ReadCounts(tableFlags, 0, mem) == Before(counts, ReadCounts(tableFlags, i, p))
    {
      if Bit(tableFlags, i) {
        if |p| < 4 { return counts, p, false; }
        BeforeBefore(counts, [DWord(p)], ReadCounts(tableFlags, i + 1, p[4..]));
        counts := counts + [DWord(p)];
        p := p[4..];
      } else {
        BeforeBefore(counts, [0], ReadCounts(tableFlags, i + 1, p));
        counts := counts + [0];
      }
      i := i + 1;
    }
    assert counts + [] == counts;
  }

  method LoadTables(sizes: Sizes, body: seq<byte>) returns (result: ReadResult)
    ensures result == match ReadFrom(sizes, 0, body) case None => Truncated case Some(tables) => Tables(tables)
  {
    hide ReadRows;
    var p := body;
    var tables: seq<seq<Row>> := [];
    assert ReadFrom(sizes, 0, body).Some? ==> [] + ReadFrom(sizes, 0, body).value == ReadFrom(sizes, 0, body).value;
    var i := 0;
    while i < 64
      invariant |tables| == i <= 64
      invariant match ReadFrom(sizes, i, p)
                case None => ReadFrom(sizes, 0, body).None?
                case Some(more) => ReadFrom(sizes, 0, body) == Some(tables + more)
    {
      var rows, rest, ok := ReadTable(i, sizes, sizes[i], p);
      if !ok { return Truncated; }
      ghost var more := ReadFrom(sizes, i + 1, rest);
      assert more.Some? ==> tables + ([rows] + more.value) == tables + [rows] + more.value;
      tables := tables + [rows];
      p := rest;
      i := i + 1;
    }
    assert tables + [] == tables;
    return Tables(tables);
  }

  lemma BeforeNothing<T>(r: Option<(seq<T>, seq<byte>)>)
    ensures Before([], r) == r
  {
    if r.Some? {
      assert [] + r.value.0 == r.value.0;
    }
  }

  lemma BeforeBefore<T>(a: seq<T>, b: seq<T>, r: Option<(seq<T>, seq<byte>)>)
    ensures Before(a, Before(b, r)) == Before(a + b, r)
  {
    if r.Some? {
      assert a + (b + r.value.0) == a + b + r.value.0;
    }
  }

  method ReadTable(kind: nat, sizes: Sizes, n: nat, mem: seq<byte>)
    returns (rows: seq<Row>, p: seq<byte>, ok: bool)
    ensures ok <==> ReadRows(kind, sizes, n, mem).Some?
    ensures ok ==> ReadRows(kind, sizes, n, mem) == Some((rows, p))
  {
    hide GetRow, RowWidth;
    rows, p, ok := [], mem, true;
    BeforeNothing(ReadRows(kind, sizes, n, mem));
    var j := 0;
    while j < n
      invariant |rows| == j <= n
      invariant ReadRows(kind, sizes, n, mem) == Before(rows, ReadRows(kind, sizes, n - j, p))
    {
      if |p| < RowWidth(kind, sizes) { return rows, p, false; }
      var row := GetRow(kind, sizes, p);
      BeforeBefore(rows, [row], ReadRows(kind, sizes, n - (j + 1), p[RowWidth(kind, sizes)..]));
      rows := rows + [row];
      p := p[RowWidth(kind, sizes)..];
      j := j + 1;
    }
    assert rows + [] == rows;
  }

  // ---- Reading back ----

  lemma {:induction false} CountsReadBack(tables: TableSet, mask: nat, i: nat, rest: seq<byte>)
    requires i <= 64 && forall k :: 0 <= k < 64 ==> |tables[k]| < TWO_32 && (Bit(mask, k) <==> tables[k] != [])
    ensures ReadCounts(mask, i, CountBytes(tables, i) + rest) == Some((CountsOf(tables)[i..], rest))
    decreases 64 - i
  {
    hide Bit, Le4, DWord;
    if i < 64 {
      CountsReadBack(tables, mask, i + 1, rest);
      var counts := CountsOf(tables);
      assert counts[i..] == [counts[i]] + counts[i + 1..];
      if tables[i] != [] {
        var tail := CountBytes(tables, i + 1) + rest;
        Le4DWord(|tables[i]|, tail);
        assert CountBytes(tables, i) + rest == Le4(|tables[i]|) + tail;
        assert (Le4(|tables[i]|) + tail)[4..] == tail;
      } else {
        assert CountBytes(tables, i) == CountBytes(tables, i + 1);
      }
    } else {
      assert [] + rest == rest;
    }
  }

  // Rows written with one set of widths and read with the same.
  ghost predicate RowsReadable(rows: seq<Row>, kind: nat, sizes: Sizes) {
    forall j :: 0 <= j < |rows| ==> RowFits(rows[j], sizes) && rows[j].kind == kind
  }

  lemma {:induction false} RowsReadBack(rows: seq<Row>, kind: nat, raw: Sizes, sizes: Sizes, j: nat, rest: seq<byte>)
    requires AllTyped(rows) && RowsReadable(rows, kind, raw) && SameWidths(raw, sizes) && j <= |rows|
    ensures ReadRows(kind, sizes, |rows| - j, RowsBytes(rows, raw, j) + rest) == Some((rows[j..], rest))
    decreases |rows| - j
  {
    hide GetRow, RowFits, RowTyped, RowWidth, SameWidths, RowBytes;
    if j == |rows| {
      assert [] + rest == rest;
    } else {
      var tail := RowsBytes(rows, raw, j + 1) + rest;
      OneRow(rows[j], raw, sizes, tail);
      assert RowsBytes(rows, raw, j) + rest == RowBytes(rows[j], raw) + tail;
      assert (RowBytes(rows[j], raw) + tail)[|RowBytes(rows[j], raw)|..] == tail;
      RowsReadBack(rows, kind, raw, sizes, j + 1, rest);
      assert rows[j..] == [rows[j]] + rows[j + 1..];
    }
  }

  lemma OneRow(row: Row, raw: Sizes, sizes: Sizes, rest: seq<byte>)
    requires RowFits(row, raw) && SameWidths(raw, sizes)
    ensures |RowBytes(row, raw)| == RowWidth(row.kind, sizes)
    ensures GetRow(row.kind, sizes, RowBytes(row, raw) + rest) == row
  {
    hide Schema, ColumnsBytes, GetRow, ColumnsFit;
    SameWidthsSameBytes(Schema(row.kind), row.values, raw, sizes);
    RowReadsBack(row, sizes, rest);
  }

  lemma {:induction false} TablesFromReadBack(tables: TableSet, raw: Sizes, sizes: Sizes, i: nat, rest: seq<byte>)
    requires i <= 64 && SameWidths(raw, sizes) && sizes[..64] == CountsOf(tables)
    requires forall k :: 0 <= k < 64 ==> AllTyped(tables[k])
    requires forall k :: 0 <= k < 64 ==> RowsReadable(tables[k], k, raw)
    ensures ReadFrom(sizes, i, TablesBytes(tables, raw, i) + rest) == Some(tables[i..])
    decreases 64 - i
  {
    hide RowsReadable, SameWidths, AllTyped, RowsBytes, ReadRows;
    if i < 64 {
      var tail := TablesBytes(tables, raw, i + 1) + rest;
      assert sizes[i] == sizes[..64][i] == |tables[i]|;
      hide CountsOf;
      RowsReadBack(tables[i], i, raw, sizes, 0, tail);
      assert tables[i][0..] == tables[i];
      assert TablesBytes(tables, raw, i) + rest == RowsBytes(tables[i], raw, 0) + tail;
      TablesFromReadBack(tables, raw, sizes, i + 1, rest);
      assert tables[i..] == [tables[i]] + tables[i + 1..];
    }
  }

  // Every row fits the widths its sizes choose.
  ghost predicate AllFit(tables: TableSet, sizes: Sizes) {
    forall i, j :: 0 <= i < 64 && 0 <= j < |tables[i]| ==> RowFits(tables[i][j], sizes)
  }

  lemma MaskReadsBack(tables: TableSet, raw: Sizes, rest: seq<byte>)
    ensures QWord((HeaderBytes(tables, raw) + rest)[8..]) == Mask(tables, 64)
    ensures forall i: nat :: i < 64 ==> (Bit(Mask(tables, 64), i) <==> tables[i] != [])
  {
    hide Le4, Le8, QWord, Bit, HeapFlags;
    var mask := Mask(tables, 64);
    MaskBound(tables, 64);
    assert Pow2(64) == TWO_64 by { Pow2Of64(); }
    var s := HeaderBytes(tables, raw) + rest;
    hide Mask;
    assert s[8..] == Le8(mask) + (Le8(SORTED) + rest);
    Le8QWord(mask, Le8(SORTED) + rest);
    assert 0 <= mask < TWO_64;
    forall i: nat | i < 64 ensures Bit(mask, i) <==> tables[i] != [] {
      MaskBit(tables, 64, i);
    }
  }

  lemma Pow2Of64()
    ensures Pow2(64) == TWO_64
  {
    assert Pow2(8) == 256;
    Pow2Split(8, 16);
    Pow2Split(16, 32);
    Pow2Split(32, 64);
  }

  // Reading the stream gives back the tables exactly when every row stands in
  // the table of its class.
  lemma TablesReadBack(tables: TableSet, strings: nat, us: nat, guid: nat, blob: nat, padded: Sizes, rest: seq<byte>)
    requires Filed(tables) && forall k :: 0 <= k < 64 ==> AllTyped(tables[k]) && |tables[k]| < TWO_32
    requires var raw := SizesOf(tables, strings, us, guid, blob);
             && AllFit(tables, raw) && SameWidths(raw, padded) && padded[..64] == CountsOf(tables)
    ensures var raw := SizesOf(tables, strings, us, guid, blob);
            var read := ReadStream(StreamBytes(tables, raw) + rest, padded[T_STRING], padded[T_US], padded[T_GUID], padded[T_BLOB]);
            read == Tables(tables) <==> Homogeneous(tables)
  {
    hide Mask, HeaderBytes, CountBytes, TablesBytes, Bit, QWord, Known, SameWidths, ReadCounts, ReadFrom, RowFits, RowTyped;
    var raw := SizesOf(tables, strings, us, guid, blob);
    var s := StreamBytes(tables, raw) + rest;
    var body := TablesBytes(tables, raw, 0) + rest;
    var mask := Mask(tables, 64);
    assert s == HeaderBytes(tables, raw) + (CountBytes(tables, 0) + body);
    assert s[24..] == CountBytes(tables, 0) + body;
    MaskReadsBack(tables, raw, CountBytes(tables, 0) + body);
    FiledAreKnown(tables);
    assert OnlyKnown(mask);
    CountsReadBack(tables, mask, 0, body);
    assert CountsOf(tables)[0..] == CountsOf(tables);
    assert CountsOf(tables) + [padded[T_STRING], padded[T_US], padded[T_GUID], padded[T_BLOB]] == padded;
    if Homogeneous(tables) {
      forall k | 0 <= k < 64 ensures RowsReadable(tables[k], k, raw) {
      }
      TablesFromReadBack(tables, raw, padded, 0, rest);
      assert tables[0..] == tables;
    }
  }

  lemma FiledAreKnown(tables: TableSet)
    requires Filed(tables)
    ensures forall i :: 0 <= i < 64 && tables[i] != [] ==> Known(i)
  {
    hide Schema, Typed;
    forall i | 0 <= i < 64 && tables[i] != [] ensures Known(i) {
      assert RowTyped(tables[i][0]) && TableIndex(tables[i][0].kind) == i;
    }
  }
}
