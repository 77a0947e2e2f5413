// Where everything in the file is: PEWriter.CalculateObjects plans addresses,
// the Write functions emit the file, and the two agree.
module Layout {
  import opened Bytes
  import opened MethodBodies
  import opened Tables
  import opened TableStream
  import opened MetadataRoot

  // ---- What goes into the file ----

  datatype Contents = Contents(
    dll: bool,
    gui: bool,
    corFlags: nat,
    entryToken: nat,
    time: nat,
    data: seq<byte>,
    methods: seq<PEMethod>,
    tables: TableSet,
    strings: seq<byte>,
    us: seq<byte>,
    guid: seq<byte>,
    blob: seq<byte>,
    signatureLen: nat)

  const FILE_ALIGN := 0x200
  const OBJECT_ALIGN := 0x2000
  const HEADERS_END := 456      // after the DOS header, the PE header and two section headers
  const TEXT_RAW := 0x200
  const TEXT_RVA := 0x2000
  const DELTA := 0x1e00         // address minus file position in the text section
  const AFTER_CORE := 592       // after the import address table and the CLI header

  const EMPTY_US: seq<byte> := [0, 3, 0x20, 0, 0, 0, 0, 0]

  function UsBytes(c: Contents): seq<byte> { if c.us == [] then EMPTY_US else c.us }

  function SizesIn(c: Contents): Sizes { SizesOf(c.tables, |c.strings|, |c.us|, |c.guid|, |c.blob|) }

  ghost predicate TablesTyped(c: Contents) { forall k :: 0 <= k < 64 ==> AllTyped(c.tables[k]) }

  // ---- The addresses of methods in their rows ----

  // The address a row of the given number has from its method, which is 0 for
  // one that is not emitted.
  function AddressFor(methods: seq<PEMethod>, def: nat): nat {
    if methods == [] then 0
    else if methods[0].methodDef == def then methods[0].rva
    else AddressFor(methods[1..], def)
  }

  function WithAddress(row: Row, address: nat): Row {
    if row.kind == METHOD_DEF && row.values != [] then row.(values := [Num(address)] + row.values[1..]) else row
  }

  // A row refers to its method and has the address when it is rendered; here
  // it is filled in as soon as the methods have theirs.
  function Addressed(c: Contents): (r: Contents)
    ensures |r.tables[METHOD_DEF]| == |c.tables[METHOD_DEF]|
  {
    var rows := c.tables[METHOD_DEF];
    c.(tables := c.tables[METHOD_DEF := seq(|rows|, j requires 0 <= j < |rows| => WithAddress(rows[j], AddressFor(c.methods, j + 1)))])
  }

  ghost predicate RowsAddressed(c: Contents) {
    forall j :: 0 <= j < |c.tables[METHOD_DEF]| && c.tables[METHOD_DEF][j].kind == METHOD_DEF ==>
      var row := c.tables[METHOD_DEF][j];
      row.values != [] && row.values[0] == Num(AddressFor(c.methods, j + 1))
  }

  lemma AddressKeepsType(row: Row, address: nat)
    requires RowTyped(row)
    ensures RowTyped(WithAddress(row, address))
    ensures row.kind == METHOD_DEF ==> row.values != []
  {
    if row.kind == METHOD_DEF {
      MethodDefColumns();
      hide Schema;
    }
  }

  lemma MethodDefColumns()
    ensures Schema(METHOD_DEF) != [] && Schema(METHOD_DEF)[0] == Fixed(4)
  {
  }

  lemma AddressedIsTyped(c: Contents)
    requires TablesTyped(c)
    ensures TablesTyped(Addressed(c)) && RowsAddressed(Addressed(c))
  {
    hide AllTyped, RowTyped, AddressFor;
    var rows, after := c.tables[METHOD_DEF], Addressed(c).tables[METHOD_DEF];
    forall j | 0 <= j < |rows|
      ensures RowTyped(after[j])
      ensures after[j].kind == METHOD_DEF ==> after[j].values != [] && after[j].values[0] == Num(AddressFor(c.methods, j + 1))
    {
      assert RowTyped(rows[j]) by { TypedAt(rows, j); }
      AddressKeepsType(rows[j], AddressFor(c.methods, j + 1));
    }
    AllAreTyped(after);
  }

  lemma TypedAt(rows: seq<Row>, j: nat)
    requires AllTyped(rows) && j < |rows|
    ensures RowTyped(rows[j])
  {
    hide RowTyped;
  }

  lemma AllAreTyped(rows: seq<Row>)
    requires forall j :: 0 <= j < |rows| ==> RowTyped(rows[j])
    ensures AllTyped(rows)
  {
    hide RowTyped;
  }

  // Every method is found by the number of its row.
  lemma {:induction false} OwnAddress(methods: seq<PEMethod>, i: nat)
    requires i < |methods| && forall j :: 0 <= j < |methods| && methods[j].methodDef == methods[i].methodDef ==> j == i
    ensures AddressFor(methods, methods[i].methodDef) == methods[i].rva
  {
    if i > 0 {
      assert methods[0].methodDef != methods[i].methodDef;
      assert methods[1..][i - 1] == methods[i];
      OwnAddress(methods[1..], i - 1);
    }
  }

  lemma {:induction false} NoAddress(methods: seq<PEMethod>, def: nat)
    requires forall i :: 0 <= i < |methods| && methods[i].methodDef == def ==> methods[i].rva == 0
    ensures AddressFor(methods, def) == 0
  {
    if methods != [] && methods[0].methodDef != def {
      NoAddress(methods[1..], def);
    }
  }

  // ---- File positions ----

  function DataEnd(c: Contents): nat {
    if c.data == [] then AFTER_CORE else AlignUp(AFTER_CORE + |c.data|, 8)
  }

  // Where a method starting no earlier than pos starts, and where it ends.
  function BodyStart(m: PEMethod, pos: nat): nat { if IsTiny(m) then pos else AlignUp(pos, 4) }

  function AfterMethod(m: PEMethod, pos: nat): nat {
    if IsCil(m) then BodyStart(m, pos) + |BodyBytes(m)| else pos
  }

  // The position after the first k methods.
  function MethodsEnd(ms: seq<PEMethod>, k: nat, pos: nat): nat
    requires k <= |ms|
  {
    if k == 0 then pos else AfterMethod(ms[k - 1], MethodsEnd(ms, k - 1, pos))
  }

  function MethodPos(c: Contents, i: nat): nat
    requires i < |c.methods|
  {
    BodyStart(c.methods[i], MethodsEnd(c.methods, i, DataEnd(c)))
  }

  function RootPos(c: Contents): nat { AlignUp(MethodsEnd(c.methods, |c.methods|, DataEnd(c)), 4) }

  function TablesPos(c: Contents): nat { RootPos(c) + 108 }

  function StringsPos(c: Contents): nat
    requires TablesTyped(c)
  {
    AlignUp(TablesPos(c) + |StreamBytes(c.tables, SizesIn(c))|, 4)
  }

  function UsPos(c: Contents): nat
    requires TablesTyped(c)
  {
    AlignUp(StringsPos(c) + |c.strings|, 4)
  }

  function GuidPos(c: Contents): nat
    requires TablesTyped(c)
  {
    AlignUp(UsPos(c) + |UsBytes(c)|, 4)
  }

  function BlobPos(c: Contents): nat
    requires TablesTyped(c)
  {
    AlignUp(GuidPos(c) + |c.guid|, 4)
  }

  function ImportPos(c: Contents): nat
    requires TablesTyped(c)
  {
    AlignUp(BlobPos(c) + |c.blob|, 4)
  }

  function NamePos(c: Contents): nat
    requires TablesTyped(c)
  {
    AlignUp(ImportPos(c) + 48, 16)
  }

  function EntryPos(c: Contents): nat
    requires TablesTyped(c)
  {
    AlignUp(NamePos(c) + 26, 4) + 2
  }

  function SignaturePos(c: Contents): nat
    requires TablesTyped(c)
  {
    EntryPos(c) + 6
  }

  function TextEnd(c: Contents): nat
    requires TablesTyped(c)
  {
    SignaturePos(c) + c.signatureLen
  }

  // ---- The plan ----

  datatype Plan = Plan(
    metaRoot: nat,
    metaSize: nat,
    streams: Streams,
    importRva: nat,
    importSize: nat,
    entryPoint: nat,
    signatureRva: nat,
    textSize: nat,
    textRawSize: nat,
    relocRva: nat,
    relocRaw: nat,
    imageSize: nat)

  const NO_PLAN := Plan(0, 0, seq(5, _ => Extent(0, 0)), 0, 0, 0, 0, 0, 0, 0, 0, 0)

  // Formats as the constructor chooses them; blocks only in fat methods.
  predicate Plannable(m: PEMethod) {
    IsCil(m) ==> (m.flags % 4 == TINY_FORMAT || m.flags % 4 == FAT_FORMAT) && (IsTiny(m) ==> m.sehData == [])
  }

  function Room(count: nat, width: nat): nat { count * width }

  // The room reserved for the rows of a table: that of the first, for each.
  function PlannedRows(rows: seq<Row>, sizes: Sizes): nat
    requires AllTyped(rows)
  {
    if rows == [] then 0 else Room(|rows|, |RowBytes(rows[0], sizes)|)
  }

  function PlannedTables(tables: TableSet, sizes: Sizes, i: nat): nat
    requires i <= 64 && forall k :: 0 <= k < 64 ==> AllTyped(tables[k])
    decreases 64 - i
  {
    if i == 64 then 0 else PlannedRows(tables[i], sizes) + PlannedTables(tables, sizes, i + 1)
  }

  // Where the plan has the first heap begin.
  function PlannedStrings(c: Contents): nat
    requires TablesTyped(c)
  {
    AlignUp(TablesPos(c) + 24 + |CountBytes(c.tables, 0)| + PlannedTables(c.tables, SizesIn(c), 0), 4)
  }

  // The plan, when the first heap is taken to begin at the given position.
  ghost predicate PlannedFrom(c: Contents, p: Plan, strings: nat)
    requires TablesTyped(c) && strings >= TablesPos(c)
  {
    var root := RootPos(c);
    var us := AlignUp(strings + |c.strings|, 4);
    var guid := AlignUp(us + |UsBytes(c)|, 4);
    var blob := AlignUp(guid + |c.guid|, 4);
    var imports := AlignUp(blob + |c.blob|, 4);
    var name := AlignUp(imports + 48, 16);
    var entry := AlignUp(name + 26, 4) + 2;
    var end := entry + 6 + c.signatureLen;
    && p.metaRoot == root + DELTA
    && p.metaSize == imports - root
    && p.streams[0] == Extent(TablesPos(c) - root, strings - TablesPos(c))
    && p.streams[1] == Extent(strings - root, us - strings)
    && p.streams[2] == Extent(us - root, guid - us)
    && p.streams[3] == Extent(guid - root, blob - guid)
    && p.streams[4] == Extent(blob - root, imports - blob)
    && p.importRva == imports + DELTA
    && p.importSize == name + 27 - imports
    && p.entryPoint == entry + DELTA
    && p.signatureRva == entry + 6 + DELTA
    && p.textSize == end - TEXT_RAW
    && p.textRawSize == AlignUp(end, FILE_ALIGN) - TEXT_RAW
    && p.relocRaw == AlignUp(end, FILE_ALIGN)
    && p.relocRva == AlignUp(end + DELTA, OBJECT_ALIGN)
    && p.imageSize == AlignUp(p.relocRva + 12, OBJECT_ALIGN)
  }

  // The planned addresses are those of the positions.
  ghost predicate InSync(c: Contents, p: Plan)
    requires TablesTyped(c)
  {
    && p.metaRoot == RootPos(c) + DELTA
    && p.metaSize == ImportPos(c) - RootPos(c)
    && StreamsInSync(c, p.streams)
    && p.importRva == ImportPos(c) + DELTA
    && p.importSize == NamePos(c) + 27 - ImportPos(c)
    && p.entryPoint == EntryPos(c) + DELTA
    && p.signatureRva == SignaturePos(c) + DELTA
    && p.textSize == TextEnd(c) - TEXT_RAW
    && p.textRawSize == AlignUp(TextEnd(c), FILE_ALIGN) - TEXT_RAW
    && p.relocRaw == AlignUp(TextEnd(c), FILE_ALIGN)
    && p.relocRva == AlignUp(TextEnd(c) + DELTA, OBJECT_ALIGN)
    && p.imageSize == AlignUp(p.relocRva + 12, OBJECT_ALIGN)
  }

  ghost predicate StreamsInSync(c: Contents, s: Streams)
    requires TablesTyped(c)
  {
    var root := RootPos(c);
    && s[0] == Extent(TablesPos(c) - root, StringsPos(c) - TablesPos(c))
    && s[1] == Extent(StringsPos(c) - root, UsPos(c) - StringsPos(c))
    && s[2] == Extent(UsPos(c) - root, GuidPos(c) - UsPos(c))
    && s[3] == Extent(GuidPos(c) - root, BlobPos(c) - GuidPos(c))
    && s[4] == Extent(BlobPos(c) - root, ImportPos(c) - BlobPos(c))
  }

  // In the text section the alignments used are blind to the difference
  // between address and position.
  lemma AlignShift(x: nat, n: nat)
    requires n in {4, 8, 16}
    ensures AlignUp(x + DELTA, n) == AlignUp(x, n) + DELTA
  {
    if n == 4 {
      Mod4(x, DELTA / 4);
    } else if n == 8 {
      Mod8(x, DELTA / 8);
    } else {
      Mod16(x, DELTA / 16);
    }
  }

  lemma Mod4(x: nat, k: nat)
    ensures (x + 4 * k) % 4 == x % 4
  {
  }

  lemma Mod8(x: nat, k: nat)
    ensures (x + 8 * k) % 8 == x % 8
  {
  }

  lemma Mod16(x: nat, k: nat)
    ensures (x + 16 * k) % 16 == x % 16
  {
  }

  lemma AlignText(y: nat)
    ensures AlignUp(TEXT_RAW + y, FILE_ALIGN) == TEXT_RAW + AlignUp(y, FILE_ALIGN)
  {
  }

  // ---- Planning the parts ----

  // Each method that has code gets the address of its position, the others 0.
  ghost predicate Placed(before: seq<PEMethod>, after: seq<PEMethod>, k: nat, pos: nat) {
    && |after| == |before| && k <= |before|
    && (forall i :: 0 <= i < k ==>
          after[i] == before[i].(rva := if IsCil(before[i]) then BodyStart(before[i], MethodsEnd(before, i, pos)) + DELTA else 0))
    && (forall i :: k <= i < |before| ==> after[i] == before[i])
  }

  lemma NonePlaced(methods: seq<PEMethod>, pos: nat)
    ensures Placed(methods, methods, 0, pos)
  {
  }

  lemma NextPlaced(before: seq<PEMethod>, after: seq<PEMethod>, k: nat, pos: nat, rva: nat)
    requires Placed(before, after, k, pos) && k < |before|
    requires rva == if IsCil(before[k]) then BodyStart(before[k], MethodsEnd(before, k, pos)) + DELTA else 0
    ensures |after| == |before| && Placed(before, after[k := before[k].(rva := rva)], k + 1, pos)
  {
    hide BodyStart, MethodsEnd, IsCil;
  }

  method PlanMethods(methods: seq<PEMethod>, start: nat, ghost pos: nat) returns (placed: seq<PEMethod>, currentRVA: nat)
    requires start == pos + DELTA && forall m :: m in methods ==> Plannable(m)
    ensures Placed(methods, placed, |methods|, pos)
    ensures currentRVA == MethodsEnd(methods, |methods|, pos) + DELTA
  {
    hide AfterMethod, BodyStart, Plannable, IsCil, Placed;
    NonePlaced(methods, pos);
    placed, currentRVA := methods, start;
    var i := 0;
    while i < |methods|
      invariant i <= |methods| && Placed(methods, placed, i, pos)
      invariant currentRVA == MethodsEnd(methods, i, pos) + DELTA
    {
      assert methods[i] in methods;
      var rva;
      rva, currentRVA := PlanMethod(methods[i], currentRVA, MethodsEnd(methods, i, pos));
      NextPlaced(methods, placed, i, pos, rva);
      placed := placed[i := methods[i].(rva := rva)];
      i := i + 1;
    }
  }

  method PlanMethod(m: PEMethod, start: nat, ghost pos: nat) returns (rva: nat, currentRVA: nat)
    requires start == pos + DELTA && Plannable(m)
    ensures rva == if IsCil(m) then BodyStart(m, pos) + DELTA else 0
    ensures currentRVA == AfterMethod(m, pos) + DELTA
  {
    hide BodyBytes, AlignUp;
    rva, currentRVA := 0, start;
    if IsCil(m) {
      AlignShift(pos, 4);
      if !IsTiny(m) {
        currentRVA := AlignUp(currentRVA, 4);
        AlignedEnds(pos);
      }
      rva := currentRVA;
      RoomIsExact(m, currentRVA);
      currentRVA := EndOfBody(m, currentRVA);
    }
  }

  lemma AlignedEnds(x: nat)
    ensures (AlignUp(x, 4) + DELTA) % 4 == 0
  {
  }

  // Room for the counts and the rows, from the first row of each table.
  method PlanTables(tables: TableSet, counts: Sizes) returns (room: nat)
    requires forall k :: 0 <= k < 64 ==> AllTyped(tables[k])
    ensures room == |CountBytes(tables, 0)| + PlannedTables(tables, counts, 0)
  {
    hide RowBytes, Le4, RowTyped;
    var n := 0;
    room := 0;
    ghost var rows := 0;
    var i := 0;
    while i < 64
      invariant i <= 64 && room == 4 * n + rows
      invariant 4 * n + |CountBytes(tables, i)| == |CountBytes(tables, 0)|
      invariant rows + PlannedTables(tables, counts, i) == PlannedTables(tables, counts, 0)
    {
      assert AllTyped(tables[i]);
      if |tables[i]| != 0 {
        n := n + 1;
        var width := |RowBytes(tables[i][0], counts)| * |tables[i]|;
        room := room + 4 + width;
        rows := rows + width;
      }
      i := i + 1;
    }
  }

  // ---- When the plan is right ----

  lemma PlanIsInSyncIff(c: Contents, p: Plan, strings: nat)
    requires TablesTyped(c) && strings >= TablesPos(c) && PlannedFrom(c, p, strings)
    ensures InSync(c, p) <==> strings == StringsPos(c)
  {
    hide AlignUp, RootPos, TablesPos, StreamBytes, UsBytes, SizesIn;
  }

  // The rows of a table that are not of the class of the first.
  function OddRows(rows: seq<Row>, j: nat): nat
    requires j <= |rows|
    decreases |rows| - j
  {
    if j == |rows| then 0 else (if rows[j].kind != rows[0].kind then 1 else 0) + OddRows(rows, j + 1)
  }

  // By how much a row of the first row's class is wider than one of the other.
  function Step(rows: seq<Row>, own: nat, guest: nat, sizes: Sizes): int {
    var d: int := RowWidth(own, sizes) - RowWidth(guest, sizes);
    if rows != [] && rows[0].kind == own then d else -d
  }

  // Room reserved but not used, or the other way round, for a table in which
  // rows of another class are filed among those of its own.
  function Excess(rows: seq<Row>, own: nat, guest: nat, sizes: Sizes): int {
    OddRows(rows, 0) * Step(rows, own, guest, sizes)
  }

  function Drift(tables: TableSet, sizes: Sizes): int {
    Excess(tables[GENERIC_PARAM], GENERIC_PARAM, GENERIC_PARAM_CONSTRAINT, sizes)
    + Excess(tables[MANIFEST_RESOURCE], MANIFEST_RESOURCE, EXPORTED_TYPE, sizes)
  }

  lemma {:induction false} ExcessFrom(rows: seq<Row>, own: nat, guest: nat, sizes: Sizes, j: nat)
    requires AllTyped(rows) && j <= |rows| && rows != []
    requires forall k :: 0 <= k < |rows| ==> rows[k].kind == own || rows[k].kind == guest
    ensures (|rows| - j) * RowWidth(rows[0].kind, sizes)
         == |RowsBytes(rows, sizes, j)| + OddRows(rows, j) * Step(rows, own, guest, sizes)
    decreases |rows| - j
  {
    hide RowWidth, RowTyped, RowBytes;
    if j < |rows| {
      ExcessFrom(rows, own, guest, sizes, j + 1);
      var w, d := RowWidth(rows[0].kind, sizes), Step(rows, own, guest, sizes);
      OneMoreTimes(|rows| - j, w);
      assert (OddRows(rows, j + 1) + 1) * d == OddRows(rows, j + 1) * d + d;
      assert RowTyped(rows[j]);
      assert |RowBytes(rows[j], sizes)| == if rows[j].kind == rows[0].kind then w else w - d;
    }
  }

  lemma ExcessIs(rows: seq<Row>, own: nat, guest: nat, sizes: Sizes)
    requires AllTyped(rows)
    requires forall k :: 0 <= k < |rows| ==> rows[k].kind == own || rows[k].kind == guest
    ensures PlannedRows(rows, sizes) == |RowsBytes(rows, sizes, 0)| + Excess(rows, own, guest, sizes)
  {
    hide RowWidth, RowTyped, RowBytes, Step;
    if rows != [] { ExcessFrom(rows, own, guest, sizes, 0); }
  }

  // One class per table: the first row stands for all.
  lemma OwnRowsOnly(rows: seq<Row>, sizes: Sizes, kind: nat)
    requires AllTyped(rows) && forall k :: 0 <= k < |rows| ==> rows[k].kind == kind
    ensures PlannedRows(rows, sizes) == |RowsBytes(rows, sizes, 0)|
  {
    hide RowWidth, RowTyped, RowBytes;
    RowsWidth(rows, sizes, kind, 0);
  }

  lemma {:induction false} TablesDrift(tables: TableSet, sizes: Sizes, i: nat)
    requires Filed(tables) && i <= 64 && forall k :: 0 <= k < 64 ==> AllTyped(tables[k])
    ensures PlannedTables(tables, sizes, i) == |TablesBytes(tables, sizes, i)|
              + (if i <= GENERIC_PARAM then Excess(tables[GENERIC_PARAM], GENERIC_PARAM, GENERIC_PARAM_CONSTRAINT, sizes) else 0)
              + (if i <= MANIFEST_RESOURCE then Excess(tables[MANIFEST_RESOURCE], MANIFEST_RESOURCE, EXPORTED_TYPE, sizes) else 0)
    decreases 64 - i
  {
    hide RowTyped, RowsBytes, PlannedRows, Excess;
    if i < 64 {
      TablesDrift(tables, sizes, i + 1);
      assert AllTyped(tables[i]);
      if i == GENERIC_PARAM {
        ExcessIs(tables[i], GENERIC_PARAM, GENERIC_PARAM_CONSTRAINT, sizes);
      } else if i == MANIFEST_RESOURCE {
        ExcessIs(tables[i], MANIFEST_RESOURCE, EXPORTED_TYPE, sizes);
      } else {
        OwnRowsOnly(tables[i], sizes, i);
      }
    }
  }

  // The plan reserves the room of the tables, plus a drift that the number of
  // guests in two tables and the widths of four classes of rows decide. What
  // lies behind the tables is planned where it is emitted exactly when the
  // padding swallows the drift.
  lemma StringsPlannedIff(c: Contents)
    requires TablesTyped(c) && Filed(c.tables)
    ensures var room := |StreamBytes(c.tables, SizesIn(c))|;
            && room + Drift(c.tables, SizesIn(c)) >= 0
            && PlannedStrings(c) == AlignUp(TablesPos(c) + room + Drift(c.tables, SizesIn(c)), 4)
            && (PlannedStrings(c) == StringsPos(c)
                <==> AlignUp(room + Drift(c.tables, SizesIn(c)), 4) == AlignUp(room, 4))
  {
    hide RootPos, SizesIn, RowTyped, TablesBytes, PlannedTables, CountBytes, Excess, Mask;
    TablesDrift(c.tables, SizesIn(c), 0);
    var room := |StreamBytes(c.tables, SizesIn(c))|;
    RootIsAligned(c);
    AlignBehind(TablesPos(c), room);
    AlignBehind(TablesPos(c), room + Drift(c.tables, SizesIn(c)));
  }

  lemma RootIsAligned(c: Contents)
    ensures TablesPos(c) % 4 == 0
  {
    hide MethodsEnd;
  }

  lemma AlignBehind(x: nat, y: nat)
    requires x % 4 == 0
    ensures AlignUp(x + y, 4) == x + AlignUp(y, 4)
  {
    var k := x / 4;
    Mod4(y, k);
  }

  lemma HomogeneousHasNoDrift(tables: TableSet, sizes: Sizes)
    requires Homogeneous(tables)
    ensures Drift(tables, sizes) == 0
  {
    hide RowWidth;
    NoOddRows(tables[GENERIC_PARAM], GENERIC_PARAM, 0);
    NoOddRows(tables[MANIFEST_RESOURCE], MANIFEST_RESOURCE, 0);
  }

  lemma {:induction false} NoOddRows(rows: seq<Row>, kind: nat, j: nat)
    requires j <= |rows| && forall k :: 0 <= k < |rows| ==> rows[k].kind == kind
    ensures OddRows(rows, j) == 0
    decreases |rows| - j
  {
    if j < |rows| { NoOddRows(rows, kind, j + 1); }
  }

  // With one class per table the plan is right.
  lemma HomogeneousIsPlanned(c: Contents)
    requires TablesTyped(c) && Filed(c.tables) && Homogeneous(c.tables)
    ensures PlannedStrings(c) == StringsPos(c)
  {
    HomogeneousHasNoDrift(c.tables, SizesIn(c));
    hide Drift, RowTyped, Filed, Homogeneous, PlannedStrings, StringsPos, SizesIn;
    NoDrift(c);
  }

  lemma NoDrift(c: Contents)
    requires TablesTyped(c) && Filed(c.tables) && Drift(c.tables, SizesIn(c)) == 0
    ensures PlannedStrings(c) == StringsPos(c)
  {
    hide AlignUp, RootPos, TablesPos, StreamBytes, SizesIn, Drift, PlannedStrings, RowTyped, Filed;
    StringsPlannedIff(c);
  }

  function TwoClasses(): seq<Row> {
    [Row(GENERIC_PARAM, [Num(0), Num(0), Ref(0, 1), Ref(0, 1)]), Row(GENERIC_PARAM_CONSTRAINT, [Ref(0, 1), Ref(0, 5)])]
  }

  // A generic parameter and a constraint, filed in one table: everything
  // behind the tables is planned 4 bytes too far.
  lemma MixedTableShiftsStrings(c: Contents)
    requires TablesTyped(c) && Filed(c.tables) && forall t :: 0 <= t < 68 ==> SizesIn(c)[t] < 100
    requires c.tables[GENERIC_PARAM] == TwoClasses()
    requires forall j :: 0 <= j < |c.tables[MANIFEST_RESOURCE]| ==> c.tables[MANIFEST_RESOURCE][j].kind == MANIFEST_RESOURCE
    ensures Drift(c.tables, SizesIn(c)) == 4 && PlannedStrings(c) == StringsPos(c) + 4
  {
    MixedTableDrifts(c.tables, SizesIn(c));
    hide *;
    DriftOfFour(c);
  }

  lemma DriftOfFour(c: Contents)
    requires TablesTyped(c) && Filed(c.tables) && Drift(c.tables, SizesIn(c)) == 4
    ensures PlannedStrings(c) == StringsPos(c) + 4
  {
    hide AlignUp, RootPos, TablesPos, StreamBytes, SizesIn, Drift, PlannedStrings, RowTyped, Filed;
    StringsPlannedIff(c);
    FourFurther(TablesPos(c) + |StreamBytes(c.tables, SizesIn(c))|);
  }

  lemma FourFurther(x: nat)
    ensures AlignUp(x + 4, 4) == AlignUp(x, 4) + 4
  {
  }

  lemma MixedTableDrifts(tables: TableSet, sizes: Sizes)
    requires forall t :: 0 <= t < 68 ==> sizes[t] < 100
    requires tables[GENERIC_PARAM] == TwoClasses()
    requires forall j :: 0 <= j < |tables[MANIFEST_RESOURCE]| ==> tables[MANIFEST_RESOURCE][j].kind == MANIFEST_RESOURCE
    ensures Drift(tables, sizes) == 4
  {
    SmallWidths(sizes);
    GuestWidths(sizes);
    hide RowWidth, IndexWidth;
    NoOddRows(tables[MANIFEST_RESOURCE], MANIFEST_RESOURCE, 0);
    var rows := TwoClasses();
    assert OddRows(rows, 1) == 1;
    assert OddRows(rows, 0) == 1;
  }

  // The two tables can make up for each other: with long string indexes one
  // constraint too much room is what three exported types lack.
  lemma MistakesCancel(tables: TableSet, sizes: Sizes)
    requires IndexWidth(String, sizes) == 4 && forall kind :: kind != String ==> IndexWidth(kind, sizes) == 2
    requires tables[GENERIC_PARAM] != [] && tables[MANIFEST_RESOURCE] != []
    requires tables[GENERIC_PARAM][0].kind == GENERIC_PARAM && OddRows(tables[GENERIC_PARAM], 0) == 1
    requires tables[MANIFEST_RESOURCE][0].kind == MANIFEST_RESOURCE && OddRows(tables[MANIFEST_RESOURCE], 0) == 3
    ensures Excess(tables[GENERIC_PARAM], GENERIC_PARAM, GENERIC_PARAM_CONSTRAINT, sizes) == 6
    ensures Drift(tables, sizes) == 0
  {
    GuestWidths(sizes);
    hide RowWidth, IndexWidth, OddRows;
  }

  // The widths of the classes of rows that share a table.
  lemma GuestWidths(sizes: Sizes)
    ensures RowWidth(GENERIC_PARAM, sizes) == 4 + IndexWidth(TypeOrMethodDef, sizes) + IndexWidth(String, sizes)
    ensures RowWidth(GENERIC_PARAM_CONSTRAINT, sizes) == IndexWidth(GenericRef, sizes) + IndexWidth(TypeDefOrRef, sizes)
    ensures RowWidth(MANIFEST_RESOURCE, sizes) == 8 + IndexWidth(String, sizes) + IndexWidth(Implementation, sizes)
    ensures RowWidth(EXPORTED_TYPE, sizes) == 4 + IndexWidth(TypeDef, sizes) + 2 * IndexWidth(String, sizes)
                                              + IndexWidth(Implementation, sizes)
  {
    hide IndexWidth, ColumnsWidth;
    FourColumns(Fixed(2), Fixed(2), Index(TypeOrMethodDef), Index(String), sizes);
    FourColumns(Fixed(4), Fixed(4), Index(String), Index(Implementation), sizes);
    var last := [Index(TypeDef), Index(String), Index(String), Index(Implementation)];
    FourColumns(last[0], last[1], last[2], last[3], sizes);
    assert [Fixed(4)] + last == [Fixed(4), last[0], last[1], last[2], last[3]];
    WidthOf(Fixed(4), last, sizes);
    NoColumns(sizes);
    assert [Index(TypeDefOrRef)] + [] == [Index(TypeDefOrRef)];
    assert [Index(GenericRef)] + [Index(TypeDefOrRef)] == [Index(GenericRef), Index(TypeDefOrRef)];
    WidthOf(Index(TypeDefOrRef), [], sizes);
    WidthOf(Index(GenericRef), [Index(TypeDefOrRef)], sizes);
  }

  lemma NoColumns(sizes: Sizes)
    ensures ColumnsWidth([], sizes) == 0
  {
  }

  lemma FourColumns(a: Column, b: Column, c: Column, d: Column, sizes: Sizes)
    ensures ColumnsWidth([a, b, c, d], sizes)
         == ColumnWidth(a, sizes) + ColumnWidth(b, sizes) + ColumnWidth(c, sizes) + ColumnWidth(d, sizes)
  {
    hide ColumnWidth, ColumnsWidth;
    NoColumns(sizes);
    assert [d] + [] == [d] && [c] + [d] == [c, d] && [b] + [c, d] == [b, c, d] && [a] + [b, c, d] == [a, b, c, d];
    WidthOf(d, [], sizes);
    WidthOf(c, [d], sizes);
    WidthOf(b, [c, d], sizes);
    WidthOf(a, [b, c, d], sizes);
  }

  lemma SmallWidths(sizes: Sizes)
    requires forall t :: 0 <= t < 68 ==> sizes[t] < 100
    ensures forall kind :: IndexWidth(kind, sizes) == 2
  {
    hide HasIndexOverflow;
    forall kind ensures !HasIndexOverflow(kind, sizes) {
      SmallWidth(kind, sizes);
    }
  }

  lemma SmallWidth(kind: IndexKind, sizes: Sizes)
    requires forall t :: 0 <= t < 68 ==> sizes[t] < 100
    ensures !HasIndexOverflow(kind, sizes)
  {
    hide Counted, Large, Scale;
    forall t | t in Counted(kind) ensures !Large(Scale(kind), sizes[t]) {
      SmallProduct(sizes[t], Scale(kind));
      LargeBelowWrap(kind, sizes[t]);
    }
  }

  lemma SmallProduct(x: nat, scale: nat)
    requires x < 100 && scale in {1, 2, 4, 8, 32}
    ensures x * scale < TWO_16
  {
  }

  lemma WidthOf(c: Column, cs: seq<Column>, sizes: Sizes)
    ensures ColumnsWidth([c] + cs, sizes) == ColumnWidth(c, sizes) + ColumnsWidth(cs, sizes)
  {
    assert ([c] + cs)[1..] == cs;
  }

  // Each heap, and the size of its padded stream.
  method PlanHeaps(c: Contents, root: nat, rvaIn: nat, ghost pos: nat) returns (extents: seq<Extent>, currentRVA: nat)
    requires root <= rvaIn == pos + DELTA
    ensures |extents| == 4
    ensures var us := AlignUp(pos + |c.strings|, 4);
            var guid := AlignUp(us + |UsBytes(c)|, 4);
            var blob := AlignUp(guid + |c.guid|, 4);
            var end := AlignUp(blob + |c.blob|, 4);
            && extents[0] == Extent(pos + DELTA - root, us - pos)
            && extents[1] == Extent(us + DELTA - root, guid - us)
            && extents[2] == Extent(guid + DELTA - root, blob - guid)
            && extents[3] == Extent(blob + DELTA - root, end - blob)
            && currentRVA == end + DELTA
  {
    hide AlignUp;
    currentRVA := rvaIn;
    var next := PlanHeap(currentRVA, |c.strings|, pos);
    var strings := Extent(currentRVA - root, next - currentRVA);
    currentRVA := next;
    ghost var us := AlignUp(pos + |c.strings|, 4);
    next := PlanHeap(currentRVA, if |c.us| == 0 then |EMPTY_US| else |c.us|, us);
    var usExtent := Extent(currentRVA - root, next - currentRVA);
    currentRVA := next;
    ghost var guid := AlignUp(us + |UsBytes(c)|, 4);
    next := PlanHeap(currentRVA, |c.guid|, guid);
    var guidExtent := Extent(currentRVA - root, next - currentRVA);
    currentRVA := next;
    next := PlanHeap(currentRVA, |c.blob|, AlignUp(guid + |c.guid|, 4));
    extents := [strings, usExtent, guidExtent, Extent(currentRVA - root, next - currentRVA)];
    currentRVA := next;
  }

  method PlanHeap(currentRVA: nat, size: nat, ghost pos: nat) returns (next: nat)
    requires currentRVA == pos + DELTA
    ensures next == AlignUp(pos + size, 4) + DELTA >= currentRVA
  {
    AlignShift(pos + size, 4);
    next := AlignUp(currentRVA + size, 4);
  }

  // The import directory, the entry stub and the two sections.
  method PlanTail(rvaIn: nat, signatureLen: nat, ghost pos: nat)
    returns (importSize: nat, entryPoint: nat, textSize: nat, textRawSize: nat, relocRva: nat, imageSize: nat)
    requires rvaIn == pos + DELTA && pos >= TEXT_RAW
    ensures var name := AlignUp(pos + 48, 16);
            var entry := AlignUp(name + 26, 4) + 2;
            var end := entry + 6 + signatureLen;
            && importSize == name + 27 - pos && entryPoint == entry + DELTA
            && textSize == end - TEXT_RAW && textRawSize == AlignUp(end, FILE_ALIGN) - TEXT_RAW
            && relocRva == AlignUp(end + DELTA, OBJECT_ALIGN) && imageSize == AlignUp(relocRva + 12, OBJECT_ALIGN)
  {
    AlignShift(pos + 48, 16);
    NamesEnd(AlignUp(pos + 48, 16));
    hide AlignUp;
    var currentRVA := AlignUp(rvaIn + 40 + 8, 16);
    AlignShift(AlignUp(pos + 48, 16) + 27, 4);
    currentRVA := currentRVA + 2 + 12 + 12 + 1;
    importSize := currentRVA - rvaIn;
    currentRVA := AlignUp(currentRVA, 4) + 2;
    entryPoint := currentRVA;
    currentRVA := currentRVA + 6 + signatureLen;
    textSize := currentRVA - TEXT_RVA;
    AlignText(textSize);
    textRawSize := AlignUp(textSize, FILE_ALIGN);
    relocRva := AlignUp(currentRVA, OBJECT_ALIGN);
    imageSize := AlignUp(relocRva + 12, OBJECT_ALIGN);
  }

  // The plan counts one byte more for the names than is written; the next
  // boundary swallows it.
  lemma NamesEnd(name: nat)
    requires name % 16 == 0
    ensures AlignUp(name + 27, 4) == AlignUp(name + 26, 4)
  {
    var k := name / 16;
    assert name == 4 * (4 * k);
    Mod4(26, 4 * k);
    Mod4(27, 4 * k);
  }
}
