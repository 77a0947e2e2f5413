// The metadata tables: rows, indexes of variable width, and the table stream
// of section II.24.2.6 of ECMA-335, written and read back.
module Tables {
  import opened Bytes
  import opened MethodBodies

  // ---- Indexes ----

  datatype IndexKind =
    | ResolutionScope | TypeDefOrRef | TypeOrMethodDef | MethodDefOrRef | MemberRefParent
    | Constant | CustomAttribute | CustomAttributeType | MemberForwarded | EventList
    | FieldList | MethodList | ParamList | PropertyList | TypeDef | ModuleRef
    | DeclSecurity | Semantics | FieldMarshal | GenericRef | Implementation
    | String | US | GUID | Blob

  const MODULE := 0
  const TYPE_REF := 1
  const TYPE_DEF := 2
  const FIELD := 4
  const METHOD_DEF := 6
  const PARAM := 8
  const MEMBER_REF := 10
  const MODULE_REF := 26
  const TYPE_SPEC := 27
  const ASSEMBLY_DEF := 32
  const ASSEMBLY_REF := 35
  const EXPORTED_TYPE := 39
  const MANIFEST_RESOURCE := 40
  const GENERIC_PARAM := 42
  const GENERIC_PARAM_CONSTRAINT := 44
  const MAX_TABLES := 64
  const T_STRING := 64
  const T_US := 65
  const T_GUID := 66
  const T_BLOB := 67

  // Rows of each table, then the sizes of the four heaps.
  type Sizes = s: seq<nat> | |s| == 68 witness seq(68, _ => 0)

  // Two to the number of tag bits.
  function Scale(kind: IndexKind): (scale: nat)
    ensures scale in {1, 2, 4, 8, 32}
  {
    match kind
    case TypeOrMethodDef | MethodDefOrRef | MemberForwarded | Semantics | FieldMarshal => 2
    case ResolutionScope | TypeDefOrRef | Constant | DeclSecurity | Implementation => 4
    case MemberRefParent | CustomAttributeType => 8
    case CustomAttribute => 32
    case _ => 1
  }

  // The sizes that decide the width of an index.
  function Counted(kind: IndexKind): (tables: seq<nat>)
    ensures forall t :: t in tables ==> t < 68
  {
    match kind
    case ResolutionScope => [MODULE, MODULE_REF, ASSEMBLY_REF, TYPE_REF]
    case TypeDefOrRef => [TYPE_DEF, TYPE_REF, TYPE_SPEC]
    case TypeOrMethodDef => [TYPE_DEF, METHOD_DEF]
    case MethodDefOrRef => [METHOD_DEF, MEMBER_REF]
    case MemberRefParent => [TYPE_DEF, TYPE_REF, MODULE, METHOD_DEF, TYPE_SPEC]
    case Constant => [FIELD, PARAM]
    case CustomAttribute =>
      [METHOD_DEF, FIELD, TYPE_REF, TYPE_DEF, PARAM, 28, MEMBER_REF, MODULE, 17, MODULE_REF, TYPE_SPEC, ASSEMBLY_DEF,
       ASSEMBLY_REF]
    case CustomAttributeType => [METHOD_DEF, MEMBER_REF]
    case MemberForwarded => [FIELD, METHOD_DEF]
    case EventList => [20]
    case FieldList => [FIELD]
    case MethodList => [METHOD_DEF]
    case ParamList => [PARAM]
    case PropertyList => [23]
    case TypeDef => [TYPE_DEF]
    case ModuleRef => [MODULE_REF]
    case DeclSecurity => [METHOD_DEF, TYPE_DEF, METHOD_DEF, ASSEMBLY_DEF]
    case Semantics => [20, 23]
    case FieldMarshal => [FIELD, PARAM]
    case GenericRef => [GENERIC_PARAM]
    case Implementation => [38, ASSEMBLY_REF]
    case String => [T_STRING]
    case US => [T_US]
    case GUID => [T_GUID]
    case Blob => [T_BLOB]
  }

  // The size is cut to 32 bits, and so is the shifted value.
  predicate Large(scale: nat, x: nat) { x % TWO_32 * scale % TWO_32 > 0xffff }

  predicate HasIndexOverflow(kind: IndexKind, sizes: Sizes) {
    exists t :: t in Counted(kind) && Large(Scale(kind), sizes[t])
  }

  // Large asks whether some row number of a table of x rows needs more than
  // 16 bits; the shift gives the right answer exactly when the bits it loses
  // do not matter.
  lemma LargeIsExact(kind: IndexKind, x: nat)
    ensures var scale := Scale(kind);
            (Large(scale, x) <==> x * scale >= TWO_16)
            <==> x * scale < TWO_16 || x * scale % TWO_32 >= TWO_16
  {
    var scale := Scale(kind);
    ModTimes(x, scale);
    if x * scale < TWO_16 {
      assert x * scale % TWO_32 == x * scale;
    }
  }

  lemma LargeBelowWrap(kind: IndexKind, x: nat)
    requires x * Scale(kind) < TWO_32
    ensures Large(Scale(kind), x) <==> x * Scale(kind) >= TWO_16
  {
    ModTimes(x, Scale(kind));
  }

  lemma ModTimes(x: nat, scale: nat)
    ensures x % TWO_32 * scale % TWO_32 == x * scale % TWO_32
  {
    var q := x / TWO_32;
    assert x == TWO_32 * q + x % TWO_32;
    assert x * scale == (TWO_32 * q + x % TWO_32) * scale == TWO_32 * (q * scale) + x % TWO_32 * scale;
    ModAdd(q * scale, x % TWO_32 * scale);
  }

  lemma ModAdd(k: nat, y: nat)
    ensures (TWO_32 * k + y) % TWO_32 == y % TWO_32
  {
    assert y == TWO_32 * (y / TWO_32) + y % TWO_32;
    assert TWO_32 * k + y == TWO_32 * (k + y / TWO_32) + y % TWO_32;
  }

  function Coded(kind: IndexKind, tag: nat, index: nat): nat { index * Scale(kind) + tag }

  function IndexWidth(kind: IndexKind, sizes: Sizes): (w: nat)
    ensures w == 2 || w == 4
  {
    if HasIndexOverflow(kind, sizes) then 4 else 2
  }

  // The coded value has the room it is given.
  predicate IndexFits(kind: IndexKind, sizes: Sizes, tag: nat, index: nat) {
    && tag < Scale(kind)
    && Coded(kind, tag, index) < if HasIndexOverflow(kind, sizes) then TWO_32 else TWO_16
  }

  function RenderIndex(kind: IndexKind, sizes: Sizes, tag: nat, index: nat): (s: seq<byte>)
    ensures |s| == IndexWidth(kind, sizes)
  {
    if HasIndexOverflow(kind, sizes) then Le4(Coded(kind, tag, index)) else Le2(Coded(kind, tag, index))
  }

  function GetIndex(kind: IndexKind, sizes: Sizes, s: seq<byte>): Value
    requires |s| >= IndexWidth(kind, sizes)
  {
    var val := if HasIndexOverflow(kind, sizes) then DWord(s) else Word(s);
    Ref(val % Scale(kind), val / Scale(kind))
  }

  lemma IndexReadsBack(kind: IndexKind, sizes: Sizes, tag: nat, index: nat, rest: seq<byte>)
    requires tag < Scale(kind)
    ensures GetIndex(kind, sizes, RenderIndex(kind, sizes, tag, index) + rest) == Ref(tag, index)
            <==> IndexFits(kind, sizes, tag, index)
  {
    hide HasIndexOverflow, Le2, Le4, Word, DWord, Scale;
    var scale, coded := Scale(kind), Coded(kind, tag, index);
    Le2Word(coded, rest);
    Le4DWord(coded, rest);
    var room := if HasIndexOverflow(kind, sizes) then TWO_32 else TWO_16;
    Split(scale, tag, index);
    SameCode(scale, coded % room, coded);
    assert coded % room == coded <==> coded < room by { Below(coded, room); }
  }

  lemma Below(x: nat, room: nat)
    requires room > 0
    ensures x % room == x <==> x < room
  {
  }

  lemma SameCode(scale: nat, a: nat, b: nat)
    requires scale in {1, 2, 4, 8, 32}
    ensures a % scale == b % scale && a / scale == b / scale <==> a == b
  {
    assert a == scale * (a / scale) + a % scale;
    assert b == scale * (b / scale) + b % scale;
  }

  lemma Split(scale: nat, tag: nat, index: nat)
    requires scale in {1, 2, 4, 8, 32} && tag < scale
    ensures (index * scale + tag) % scale == tag && (index * scale + tag) / scale == index
  {
    var x := index * scale + tag;
    DivUnique(x, scale, index, tag);
    assert x == scale * (x / scale) + x % scale;
  }

  // ---- Indexes into tables that have the row ----

  // The table a tag stands for, by section II.24.2.6 of ECMA-335.
  function Target(kind: IndexKind, tag: nat): Option<nat> {
    match kind
    case ResolutionScope => Pick([MODULE, MODULE_REF, ASSEMBLY_REF, TYPE_REF], tag)
    case TypeDefOrRef => Pick([TYPE_DEF, TYPE_REF, TYPE_SPEC], tag)
    case TypeOrMethodDef => Pick([TYPE_DEF, METHOD_DEF], tag)
    case MethodDefOrRef => Pick([METHOD_DEF, MEMBER_REF], tag)
    case MemberRefParent => Pick([TYPE_DEF, TYPE_REF, MODULE_REF, METHOD_DEF, TYPE_SPEC], tag)
    case Constant => Pick([FIELD, PARAM, 23], tag)
    case CustomAttribute =>
      Pick([METHOD_DEF, FIELD, TYPE_REF, TYPE_DEF, PARAM, 9, MEMBER_REF, MODULE, 14, 23, 20, 17, MODULE_REF, TYPE_SPEC,
            ASSEMBLY_DEF, ASSEMBLY_REF, 38, EXPORTED_TYPE, MANIFEST_RESOURCE, GENERIC_PARAM, GENERIC_PARAM_CONSTRAINT, 43], tag)
    case CustomAttributeType => if tag == 2 then Some(METHOD_DEF) else if tag == 3 then Some(MEMBER_REF) else None
    case DeclSecurity => Pick([TYPE_DEF, METHOD_DEF, ASSEMBLY_DEF], tag)
    case MemberForwarded => Pick([FIELD, METHOD_DEF], tag)
    case Semantics => Pick([20, 23], tag)
    case FieldMarshal => Pick([FIELD, PARAM], tag)
    case Implementation => Pick([38, ASSEMBLY_REF, EXPORTED_TYPE], tag)
    case EventList => Pick([20], tag)
    case FieldList => Pick([FIELD], tag)
    case MethodList => Pick([METHOD_DEF], tag)
    case ParamList => Pick([PARAM], tag)
    case PropertyList => Pick([23], tag)
    case TypeDef => Pick([TYPE_DEF], tag)
    case ModuleRef => Pick([MODULE_REF], tag)
    case GenericRef => Pick([GENERIC_PARAM], tag)
    case String => Pick([T_STRING], tag)
    case US => Pick([T_US], tag)
    case GUID => Pick([T_GUID], tag)
    case Blob => Pick([T_BLOB], tag)
  }

  function Pick(tables: seq<nat>, tag: nat): Option<nat> {
    if tag < |tables| then Some(tables[tag]) else None
  }

  // The kinds of target whose table does not take part in the choice of width.
  predicate Overlooked(kind: IndexKind, tag: nat) {
    || (kind == MemberRefParent && tag == 2)
    || (kind == CustomAttribute && tag in {5, 8, 9, 10, 16, 17, 18, 19, 20, 21})
    || (kind == Constant && tag == 2) || (kind == Implementation && tag == 2)
  }

  lemma CountedUnlessOverlooked(kind: IndexKind, tag: nat)
    requires Target(kind, tag).Some?
    ensures Target(kind, tag).value in Counted(kind) <==> !Overlooked(kind, tag)
  {
  }

  // An index to a row that exists has the room it needs.
  lemma ExistingRowFits(kind: IndexKind, sizes: Sizes, tag: nat, index: nat)
    requires Target(kind, tag).Some? && !Overlooked(kind, tag) && tag < Scale(kind)
    requires Target(kind, tag).value < 68 && index <= sizes[Target(kind, tag).value]
    requires (sizes[Target(kind, tag).value] + 1) * Scale(kind) <= TWO_32
    ensures IndexFits(kind, sizes, tag, index)
  {
    var t := Target(kind, tag).value;
    CountedUnlessOverlooked(kind, tag);
    hide Target, Counted, Large;
    Grows(index, sizes[t], Scale(kind));
    if !HasIndexOverflow(kind, sizes) {
      assert !Large(Scale(kind), sizes[t]);
      LargeBelowWrap(kind, sizes[t]);
      assert sizes[t] * Scale(kind) < TWO_16;
      Divides(sizes[t], Scale(kind));
    }
  }

  lemma Grows(a: nat, b: nat, scale: nat)
    requires a <= b
    ensures a * scale <= b * scale && (b + 1) * scale == b * scale + scale
  {
  }

  lemma Divides(x: nat, scale: nat)
    requires scale in {1, 2, 4, 8, 32} && x * scale < TWO_16
    ensures x * scale + scale <= TWO_16
  {
  }

  lemma FitsByRowNumber(kind: IndexKind, sizes: Sizes, tag: nat, index: nat)
    requires tag < Scale(kind)
    ensures IndexFits(kind, sizes, tag, index)
            <==> index < (if HasIndexOverflow(kind, sizes) then TWO_32 else TWO_16) / Scale(kind)
  {
    hide HasIndexOverflow, Counted;
    assert Scale(kind) in {1, 2, 4, 8, 32};
  }

  // An index to an overlooked table fits for the first 2^16 / scale row
  // numbers and for no later one, however many rows that table has, as long
  // as the tables that are looked at are small.
  lemma OverlookedDoesNotFit(kind: IndexKind, sizes: Sizes, tag: nat, index: nat)
    requires Overlooked(kind, tag) && forall t :: t in Counted(kind) ==> sizes[t] * Scale(kind) < TWO_16
    ensures Target(kind, tag).Some? && Target(kind, tag).value !in Counted(kind)
    ensures IndexFits(kind, sizes, tag, index) <==> index < TWO_16 / Scale(kind)
  {
    CountedUnlessOverlooked(kind, tag);
    assert tag < Scale(kind) && Target(kind, tag).Some?;
    hide Counted, Target, Large;
    forall t | t in Counted(kind) ensures !Large(Scale(kind), sizes[t]) {
      LargeBelowWrap(kind, sizes[t]);
    }
    FitsByRowNumber(kind, sizes, tag, index);
  }

  // ---- Rows ----

  datatype Value = Num(n: nat) | Ref(tag: nat, index: nat)

  // A Zero column is an index to a GUID that is never there.
  datatype Column = Fixed(width: nat) | Index(kind: IndexKind) | Const(width: nat, value: nat) | Zero

  // A row and the number of the table its class is for.
  datatype Row = Row(kind: nat, values: seq<Value>)

  predicate Known(kind: nat) {
    kind in {0, 1, 2, 4, 6, 8, 9, 10, 11, 12, 13, 14, 15, 16, 17, 18, 20, 21, 23, 24, 25, 26, 27, 28, 29, 32, 35, 38,
             39, 40, 41, 42, 43, 44}
  }

  function Schema(kind: nat): (columns: seq<Column>)
    ensures forall c :: c in columns ==> GoodColumn(c)
  {
    match kind
    case 0 => [Const(2, 0), Index(String), Index(GUID), Zero, Zero]
    case 1 => [Index(ResolutionScope), Index(String), Index(String)]
    case 2 => [Fixed(4), Index(String), Index(String), Index(TypeDefOrRef), Index(FieldList), Index(MethodList)]
    case 4 => [Fixed(2), Index(String), Index(Blob)]
    case 6 => [Fixed(4), Fixed(2), Fixed(2), Index(String), Index(Blob), Index(ParamList)]
    case 8 => [Fixed(2), Fixed(2), Index(String)]
    case 9 => [Index(TypeDef), Index(TypeDefOrRef)]
    case 10 => [Index(MemberRefParent), Index(String), Index(Blob)]
    case 11 => [Fixed(1), Const(1, 0), Index(Constant), Index(Blob)]
    case 12 => [Index(CustomAttribute), Index(CustomAttributeType), Index(Blob)]
    case 13 => [Index(FieldMarshal), Index(Blob)]
    case 14 => [Fixed(2), Index(DeclSecurity), Index(Blob)]
    case 15 => [Fixed(2), Fixed(4), Index(TypeDef)]
    case 16 => [Fixed(4), Index(FieldList)]
    case 17 => [Index(Blob)]
    case 18 => [Index(TypeDef), Index(EventList)]
    case 20 => [Fixed(2), Index(String), Index(TypeDefOrRef)]
    case 21 => [Index(TypeDef), Index(PropertyList)]
    case 23 => [Fixed(2), Index(String), Index(Blob)]
    case 24 => [Fixed(2), Index(MethodList), Index(Semantics)]
    case 25 => [Index(TypeDef), Index(MethodDefOrRef), Index(MethodDefOrRef)]
    case 26 => [Index(String)]
    case 27 => [Index(Blob)]
    case 28 => [Fixed(2), Index(MemberForwarded), Index(String), Index(ModuleRef)]
    case 29 => [Fixed(4), Index(FieldList)]
    case 32 => [Const(4, 0x8004), Fixed(2), Fixed(2), Fixed(2), Fixed(2), Fixed(4), Index(Blob), Index(String), Index(String)]
    case 35 => [Fixed(2), Fixed(2), Fixed(2), Fixed(2), Fixed(4), Index(Blob), Index(String), Index(String), Index(Blob)]
    case 38 => [Fixed(4), Index(String), Index(Blob)]
    case 39 => [Fixed(4), Index(TypeDef), Index(String), Index(String), Index(Implementation)]
    case 40 => [Fixed(4), Fixed(4), Index(String), Index(Implementation)]
    case 41 => [Index(TypeDef), Index(TypeDef)]
    case 42 => [Fixed(2), Fixed(2), Index(TypeOrMethodDef), Index(String)]
    case 43 => [Index(MethodDefOrRef), Index(Blob)]
    case 44 => [Index(GenericRef), Index(TypeDefOrRef)]
    case _ => []
  }

  predicate GoodColumn(c: Column) {
    match c
    case Fixed(w) => w in {1, 2, 4}
    case Const(w, _) => w in {1, 2, 4}
    case Index(kind) => kind != US
    case Zero => true
  }

  function ColumnWidth(c: Column, sizes: Sizes): nat {
    match c
    case Fixed(w) => w
    case Const(w, _) => w
    case Index(kind) => IndexWidth(kind, sizes)
    case Zero => if sizes[T_GUID] > 65535 then 4 else 2
  }

  function ColumnsWidth(cs: seq<Column>, sizes: Sizes): nat {
    if cs == [] then 0 else ColumnWidth(cs[0], sizes) + ColumnsWidth(cs[1..], sizes)
  }

  function RowWidth(kind: nat, sizes: Sizes): nat { ColumnsWidth(Schema(kind), sizes) }

  predicate HasValue(c: Column) { c.Fixed? || c.Index? }

  // The values are of the kinds the columns ask for.
  predicate Typed(cs: seq<Column>, vs: seq<Value>) {
    if cs == [] then vs == []
    else if !HasValue(cs[0]) then Typed(cs[1..], vs)
    else vs != [] && (cs[0].Fixed? <==> vs[0].Num?) && Typed(cs[1..], vs[1..])
  }

  predicate ColumnFits(c: Column, v: Value, sizes: Sizes)
    requires HasValue(c) && (c.Fixed? <==> v.Num?)
  {
    match c
    case Fixed(w) => v.n < if w == 1 then 256 else if w == 2 then TWO_16 else TWO_32
    case Index(kind) => IndexFits(kind, sizes, v.tag, v.index)
  }

  predicate ColumnsFit(cs: seq<Column>, vs: seq<Value>, sizes: Sizes)
    requires Typed(cs, vs)
  {
    if cs == [] then true
    else if !HasValue(cs[0]) then ColumnsFit(cs[1..], vs, sizes)
    else ColumnFits(cs[0], vs[0], sizes) && ColumnsFit(cs[1..], vs[1..], sizes)
  }

  function NumBytes(n: nat, w: nat): (s: seq<byte>)
    requires w in {1, 2, 4}
    ensures |s| == w
  {
    if w == 1 then [n % 256] else if w == 2 then Le2(n) else Le4(n)
  }

  function ColumnBytes(c: Column, v: Value, sizes: Sizes): (s: seq<byte>)
    requires GoodColumn(c) && (HasValue(c) ==> (c.Fixed? <==> v.Num?))
    ensures |s| == ColumnWidth(c, sizes)
  {
    match c
    case Fixed(w) => NumBytes(v.n, w)
    case Const(w, n) => NumBytes(n, w)
    case Index(kind) => RenderIndex(kind, sizes, v.tag, v.index)
    case Zero => NumBytes(0, if sizes[T_GUID] > 65535 then 4 else 2)
  }

  function ColumnsBytes(cs: seq<Column>, vs: seq<Value>, sizes: Sizes): (s: seq<byte>)
    requires Typed(cs, vs) && forall c :: c in cs ==> GoodColumn(c)
    ensures |s| == ColumnsWidth(cs, sizes)
  {
    if cs == [] then []
    else if !HasValue(cs[0]) then ColumnBytes(cs[0], Num(0), sizes) + ColumnsBytes(cs[1..], vs, sizes)
    else ColumnBytes(cs[0], vs[0], sizes) + ColumnsBytes(cs[1..], vs[1..], sizes)
  }

  predicate RowTyped(row: Row) { Known(row.kind) && Typed(Schema(row.kind), row.values) }

  predicate RowFits(row: Row, sizes: Sizes) { RowTyped(row) && ColumnsFit(Schema(row.kind), row.values, sizes) }

  // Every row of a class takes the same room, whatever its values.
  function RowBytes(row: Row, sizes: Sizes): (s: seq<byte>)
    requires RowTyped(row)
    ensures |s| == RowWidth(row.kind, sizes)
  {
    ColumnsBytes(Schema(row.kind), row.values, sizes)
  }

  // ---- Reading rows ----

  function GetNum(s: seq<byte>, w: nat): nat
    requires w in {1, 2, 4} && |s| >= w
  {
    if w == 1 then s[0] else if w == 2 then Word(s) else DWord(s)
  }

  function GetColumns(cs: seq<Column>, sizes: Sizes, s: seq<byte>): seq<Value>
    requires |s| >= ColumnsWidth(cs, sizes) && forall c :: c in cs ==> GoodColumn(c)
  {
    if cs == [] then []
    else
      var rest := s[ColumnWidth(cs[0], sizes)..];
      assert GoodColumn(cs[0]);
      match cs[0]
      case Fixed(w) => [Num(GetNum(s, w))] + GetColumns(cs[1..], sizes, rest)
      case Index(kind) => [GetIndex(kind, sizes, s)] + GetColumns(cs[1..], sizes, rest)
      case _ => GetColumns(cs[1..], sizes, rest)
  }

  function GetRow(kind: nat, sizes: Sizes, s: seq<byte>): Row
    requires |s| >= RowWidth(kind, sizes)
  {
    Row(kind, GetColumns(Schema(kind), sizes, s))
  }

  lemma NumReadsBack(n: nat, w: nat, rest: seq<byte>)
    requires w in {1, 2, 4}
    ensures GetNum(NumBytes(n, w) + rest, w) == n
            <==> n < if w == 1 then 256 else if w == 2 then TWO_16 else TWO_32
  {
    hide Le2, Le4, Word, DWord;
    Le2Word(n, rest);
    Le4DWord(n, rest);
  }

  lemma {:induction false} ColumnsReadBack(cs: seq<Column>, vs: seq<Value>, sizes: Sizes, rest: seq<byte>)
    requires Typed(cs, vs) && ColumnsFit(cs, vs, sizes) && forall c :: c in cs ==> GoodColumn(c)
    ensures GetColumns(cs, sizes, ColumnsBytes(cs, vs, sizes) + rest) == vs
  {
    hide ColumnWidth, GetIndex, GetNum, ColumnBytes, ColumnFits;
    if cs != [] {
      var c := cs[0];
      var vs' := if HasValue(c) then vs[1..] else vs;
      var head := ColumnBytes(c, if HasValue(c) then vs[0] else Num(0), sizes);
      var tail := ColumnsBytes(cs[1..], vs', sizes) + rest;
      assert ColumnsBytes(cs, vs, sizes) + rest == head + tail;
      assert (head + tail)[ColumnWidth(c, sizes)..] == tail;
      ColumnsReadBack(cs[1..], vs', sizes, rest);
      if HasValue(c) {
        ColumnReadsBack(c, vs[0], sizes, tail);
      }
    }
  }

  lemma ColumnReadsBack(c: Column, v: Value, sizes: Sizes, rest: seq<byte>)
    requires GoodColumn(c) && HasValue(c) && (c.Fixed? <==> v.Num?) && ColumnFits(c, v, sizes)
    ensures var s := ColumnBytes(c, v, sizes) + rest;
            match c
            case Fixed(w) => Num(GetNum(s, w)) == v
            case Index(kind) => GetIndex(kind, sizes, s) == v
            case _ => true
  {
    hide GetIndex, RenderIndex, GetNum, NumBytes, IndexFits;
    match c {
      case Fixed(w) => NumReadsBack(v.n, w, rest);
      case Index(kind) =>
        FitTag(kind, sizes, v.tag, v.index);
        IndexReadsBack(kind, sizes, v.tag, v.index, rest);
      case _ =>
    }
  }

  lemma FitTag(kind: IndexKind, sizes: Sizes, tag: nat, index: nat)
    requires IndexFits(kind, sizes, tag, index)
    ensures tag < Scale(kind)
  {
  }

  lemma RowReadsBack(row: Row, sizes: Sizes, rest: seq<byte>)
    requires RowFits(row, sizes)
    ensures GetRow(row.kind, sizes, RowBytes(row, sizes) + rest) == row
  {
    hide Schema, GetColumns, ColumnsBytes;
    ColumnsReadBack(Schema(row.kind), row.values, sizes, rest);
  }

  // ---- Sizes that choose the same widths ----

  // Both sizes lie on the same side of every limit that matters.
  ghost predicate SameWidths(a: Sizes, b: Sizes) {
    && (forall kind :: kind != US ==> IndexWidth(kind, a) == IndexWidth(kind, b))
    && (a[T_GUID] > 65535 <==> b[T_GUID] > 65535)
  }

  lemma {:induction false} SameWidthsSameBytes(cs: seq<Column>, vs: seq<Value>, a: Sizes, b: Sizes)
    requires SameWidths(a, b) && Typed(cs, vs) && forall c :: c in cs ==> GoodColumn(c)
    ensures ColumnsBytes(cs, vs, a) == ColumnsBytes(cs, vs, b)
    ensures ColumnsFit(cs, vs, a) == ColumnsFit(cs, vs, b)
  {
    hide HasIndexOverflow;
    if cs != [] {
      assert GoodColumn(cs[0]);
      SameWidthsSameBytes(cs[1..], if HasValue(cs[0]) then vs[1..] else vs, a, b);
    }
  }

  // The writer tests the size of a heap, the reader the size of its stream,
  // which is padded: they choose different widths for three sizes.
  lemma PaddingKeepsWidth(kind: IndexKind, x: nat)
    requires Scale(kind) == 1 && x + 3 < TWO_32
    ensures Large(Scale(kind), AlignUp(x, 4)) == Large(Scale(kind), x) <==> !(65533 <= x <= 65535)
  {
    LargeBelowWrap(kind, x);
    LargeBelowWrap(kind, AlignUp(x, 4));
  }

  // The sizes the reader takes: the rows as counted, the heaps as padded.
  ghost predicate PaddedSizes(raw: Sizes, padded: Sizes) {
    && (forall t :: 0 <= t < 64 ==> padded[t] == raw[t])
    && (forall t :: t in {T_STRING, T_GUID, T_BLOB} ==> padded[t] == AlignUp(raw[t], 4))
  }

  predicate NearLimit(x: nat) { 65533 <= x <= 65535 }

  lemma PaddedSizesSameWidths(raw: Sizes, padded: Sizes)
    requires PaddedSizes(raw, padded)
    requires forall t :: t in {T_STRING, T_GUID, T_BLOB} ==> raw[t] + 3 < TWO_32 && !NearLimit(raw[t])
    ensures SameWidths(raw, padded)
  {
    hide Large;
    forall kind | kind != US ensures IndexWidth(kind, raw) == IndexWidth(kind, padded) {
      if kind.String? || kind.GUID? || kind.Blob? {
        var t := Counted(kind)[0];
        PaddingKeepsWidth(kind, raw[t]);
        assert HasIndexOverflow(kind, raw) == Large(1, raw[t]) && HasIndexOverflow(kind, padded) == Large(1, padded[t]);
      } else {
        CountedAreTables(kind);
        hide Counted;
        assert forall t :: t in Counted(kind) ==> raw[t] == padded[t];
      }
    }
    assert AlignUp(raw[T_GUID], 4) > 65535 <==> raw[T_GUID] > 65535;
  }

  lemma CountedAreTables(kind: IndexKind)
    requires !(kind.String? || kind.GUID? || kind.Blob? || kind.US?)
    ensures forall t :: t in Counted(kind) ==> t < 64
  {
  }

  // One heap of 65533 to 65535 bytes is enough for the two to disagree.
  lemma NearLimitDiffers(raw: Sizes, padded: Sizes)
    requires PaddedSizes(raw, padded) && NearLimit(raw[T_STRING])
    ensures IndexWidth(String, raw) == 2 && IndexWidth(String, padded) == 4
  {
    assert Counted(String)[0] == T_STRING;
    LargeBelowWrap(String, raw[T_STRING]);
    LargeBelowWrap(String, padded[T_STRING]);
  }
}
