// The rows the library writes against the tables of section II.22 of ECMA-335:
// their fields, in order and at the standard's widths.
module TableFormats {
  import opened Bytes
  import opened MethodBodies
  import opened Tables
  import opened TableStream

  // The widths of all indexes a row can have.
  datatype Widths = Widths(
    str: nat, guid: nat, blob: nat,
    typeDef: nat, fieldDef: nat, methodDef: nat, param: nat, event: nat, property: nat, moduleRef: nat, genericParam: nat,
    resolutionScope: nat, typeDefOrRef: nat, hasConstant: nat, hasCustomAttribute: nat, customAttributeType: nat,
    hasFieldMarshal: nat, hasDeclSecurity: nat, memberRefParent: nat, hasSemantics: nat, methodDefOrRef: nat,
    memberForwarded: nat, implementation: nat, typeOrMethodDef: nat)

  // A field takes a value of the row, with its tag in the low bits below
  // `scale`, or always holds the same number.
  datatype What = Given(scale: nat) | Always(n: nat)

  datatype Field = Field(name: string, width: nat, what: What)

  function Plain(name: string, width: nat): Field { Field(name, width, Given(1)) }

  function Standard(table: nat, w: Widths): seq<Field> {
    match table
    case 0 => // Module
      [Field("Generation", 2, Always(0)), Plain("Name", w.str), Plain("Mvid", w.guid),
       Field("EncId", w.guid, Always(0)), Field("EncBaseId", w.guid, Always(0))]
    case 1 => // TypeRef
      [Field("ResolutionScope", w.resolutionScope, Given(4)), Plain("TypeName", w.str), Plain("TypeNamespace", w.str)]
    case 2 => // TypeDef
      [Plain("Flags", 4), Plain("TypeName", w.str), Plain("TypeNamespace", w.str), Field("Extends", w.typeDefOrRef, Given(4)),
       Plain("FieldList", w.fieldDef), Plain("MethodList", w.methodDef)]
    case 4 => // Field
      [Plain("Flags", 2), Plain("Name", w.str), Plain("Signature", w.blob)]
    case 6 => // MethodDef
      [Plain("RVA", 4), Plain("ImplFlags", 2), Plain("Flags", 2), Plain("Name", w.str), Plain("Signature", w.blob),
       Plain("ParamList", w.param)]
    case 8 => // Param
      [Plain("Flags", 2), Plain("Sequence", 2), Plain("Name", w.str)]
    case 9 => // InterfaceImpl
      [Plain("Class", w.typeDef), Field("Interface", w.typeDefOrRef, Given(4))]
    case 10 => // MemberRef
      [Field("Class", w.memberRefParent, Given(8)), Plain("Name", w.str), Plain("Signature", w.blob)]
    case 11 => // Constant
      [Plain("Type", 1), Field("Padding", 1, Always(0)), Field("Parent", w.hasConstant, Given(4)), Plain("Value", w.blob)]
    case 12 => // CustomAttribute
      [Field("Parent", w.hasCustomAttribute, Given(32)), Field("Type", w.customAttributeType, Given(8)), Plain("Value", w.blob)]
    case 13 => // FieldMarshal
      [Field("Parent", w.hasFieldMarshal, Given(2)), Plain("NativeType", w.blob)]
    case 14 => // DeclSecurity
      [Plain("Action", 2), Field("Parent", w.hasDeclSecurity, Given(4)), Plain("PermissionSet", w.blob)]
    case 15 => // ClassLayout
      [Plain("PackingSize", 2), Plain("ClassSize", 4), Plain("Parent", w.typeDef)]
    case 16 => // FieldLayout
      [Plain("Offset", 4), Plain("Field", w.fieldDef)]
    case 17 => // StandAloneSig
      [Plain("Signature", w.blob)]
    case 18 => // EventMap
      [Plain("Parent", w.typeDef), Plain("EventList", w.event)]
    case 20 => // Event
      [Plain("EventFlags", 2), Plain("Name", w.str), Field("EventType", w.typeDefOrRef, Given(4))]
    case 21 => // PropertyMap
      [Plain("Parent", w.typeDef), Plain("PropertyList", w.property)]
    case 23 => // Property
      [Plain("Flags", 2), Plain("Name", w.str), Plain("Type", w.blob)]
    case 24 => // MethodSemantics
      [Plain("Semantics", 2), Plain("Method", w.methodDef), Field("Association", w.hasSemantics, Given(2))]
    case 25 => // MethodImpl
      [Plain("Class", w.typeDef), Field("MethodBody", w.methodDefOrRef, Given(2)),
       Field("MethodDeclaration", w.methodDefOrRef, Given(2))]
    case 26 => // ModuleRef
      [Plain("Name", w.str)]
    case 27 => // TypeSpec
      [Plain("Signature", w.blob)]
    case 28 => // ImplMap
      [Plain("MappingFlags", 2), Field("MemberForwarded", w.memberForwarded, Given(2)), Plain("ImportName", w.str),
       Plain("ImportScope", w.moduleRef)]
    case 29 => // FieldRVA
      [Plain("RVA", 4), Plain("Field", w.fieldDef)]
    case 32 => // Assembly, hashed with SHA1
      [Field("HashAlgId", 4, Always(0x8004)), Plain("MajorVersion", 2), Plain("MinorVersion", 2), Plain("BuildNumber", 2),
       Plain("RevisionNumber", 2), Plain("Flags", 4), Plain("PublicKey", w.blob), Plain("Name", w.str), Plain("Culture", w.str)]
    case 35 => // AssemblyRef
      [Plain("MajorVersion", 2), Plain("MinorVersion", 2), Plain("BuildNumber", 2), Plain("RevisionNumber", 2), Plain("Flags", 4),
       Plain("PublicKeyOrToken", w.blob), Plain("Name", w.str), Plain("Culture", w.str), Plain("HashValue", w.blob)]
    case 38 => // File
      [Plain("Flags", 4), Plain("Name", w.str), Plain("HashValue", w.blob)]
    case 39 => // ExportedType
      [Plain("Flags", 4), Plain("TypeDefId", 4), Plain("TypeName", w.str), Plain("TypeNamespace", w.str),
       Field("Implementation", w.implementation, Given(4))]
    case 40 => // ManifestResource
      [Plain("Offset", 4), Plain("Flags", 4), Plain("Name", w.str), Field("Implementation", w.implementation, Given(4))]
    case 41 => // NestedClass
      [Plain("NestedClass", w.typeDef), Plain("EnclosingClass", w.typeDef)]
    case 42 => // GenericParam
      [Plain("Number", 2), Plain("Flags", 2), Field("Owner", w.typeOrMethodDef, Given(2)), Plain("Name", w.str)]
    case 43 => // MethodSpec
      [Field("Method", w.methodDefOrRef, Given(2)), Plain("Instantiation", w.blob)]
    case 44 => // GenericParamConstraint
      [Plain("Owner", w.genericParam), Field("Constraint", w.typeDefOrRef, Given(4))]
    case _ => []
  }

  function WidthsFor(sizes: Sizes): Widths {
    Widths(
      IndexWidth(String, sizes), IndexWidth(GUID, sizes), IndexWidth(Blob, sizes),
      IndexWidth(TypeDef, sizes), IndexWidth(FieldList, sizes), IndexWidth(MethodList, sizes), IndexWidth(ParamList, sizes),
      IndexWidth(EventList, sizes), IndexWidth(PropertyList, sizes), IndexWidth(ModuleRef, sizes), IndexWidth(GenericRef, sizes),
      IndexWidth(ResolutionScope, sizes), IndexWidth(TypeDefOrRef, sizes), IndexWidth(Constant, sizes),
      IndexWidth(CustomAttribute, sizes), IndexWidth(CustomAttributeType, sizes), IndexWidth(FieldMarshal, sizes),
      IndexWidth(DeclSecurity, sizes), IndexWidth(MemberRefParent, sizes), IndexWidth(Semantics, sizes),
      IndexWidth(MethodDefOrRef, sizes), IndexWidth(MemberForwarded, sizes), IndexWidth(Implementation, sizes),
      IndexWidth(TypeOrMethodDef, sizes))
  }

  // ---- A reader of its own ----

  function LittleEndian(s: seq<byte>): nat {
    if s == [] then 0 else s[0] + 256 * LittleEndian(s[1..])
  }

  // The number in each field, and what follows the row.
  function ReadFields(fields: seq<Field>, s: seq<byte>): Option<(seq<nat>, seq<byte>)> {
    if fields == [] then Some(([], s))
    else
      var width := fields[0].width;
      if |s| < width then None
      else match ReadFields(fields[1..], s[width..])
        case None => None
        case Some((more, rest)) => Some(([LittleEndian(s[..width])] + more, rest))
  }

  function NumberOf(v: Value, scale: nat): nat {
    match v case Num(n) => n case Ref(tag, index) => index * scale + tag
  }

  // The numbers the fields should hold.
  function Numbers(fields: seq<Field>, vs: seq<Value>): seq<nat> {
    if fields == [] then []
    else match fields[0].what
      case Always(n) => [n] + Numbers(fields[1..], vs)
      case Given(scale) => if vs == [] then [] else [NumberOf(vs[0], scale)] + Numbers(fields[1..], vs[1..])
  }

  // ---- Columns are fields ----

  predicate IsField(c: Column, f: Field, sizes: Sizes) {
    match c
    case Fixed(width) => f.width == width && f.what == Given(1)
    case Const(width, n) => f.width == width && f.what == Always(n) && n < TWO_16
    case Index(kind) => f.width == IndexWidth(kind, sizes) && f.what == Given(Scale(kind))
    case Zero => f.width == ColumnWidth(Zero, sizes) && f.what == Always(0)
  }

  ghost predicate AreFields(cs: seq<Column>, fields: seq<Field>, sizes: Sizes) {
    |cs| == |fields| && forall j :: 0 <= j < |cs| ==> IsField(cs[j], fields[j], sizes)
  }

  lemma TwoBytes(a: byte, b: byte, more: seq<byte>)
    ensures LittleEndian([a, b] + more) == a + 256 * b + TWO_16 * LittleEndian(more)
  {
    var s := [a, b] + more;
    assert s[1..] == [b] + more && s[1..][1..] == more;
    assert LittleEndian(s) == a + 256 * LittleEndian(s[1..]);
    assert LittleEndian(s[1..]) == b + 256 * LittleEndian(more);
  }

  lemma Le2IsNumber(v: nat, more: seq<byte>)
    ensures LittleEndian(Le2(v) + more) == v % TWO_16 + TWO_16 * LittleEndian(more)
  {
    TwoBytes(v % 256, v / 256 % 256, more);
    hide LittleEndian;
    Le2Word(v, []);
    assert Le2(v) + [] == Le2(v);
  }

  lemma Le4IsNumber(v: nat)
    ensures LittleEndian(Le4(v)) == v % TWO_32
    ensures LittleEndian(Le2(v)) == v % TWO_16
  {
    hide Le2;
    Le2IsNumber(v, Le2(v / TWO_16));
    Le2IsNumber(v / TWO_16, []);
    Le2IsNumber(v, []);
    assert Le2(v) + [] == Le2(v) && Le2(v / TWO_16) + [] == Le2(v / TWO_16);
    SplitAt16(v);
  }

  lemma NumIsNumber(n: nat, w: nat)
    requires w in {1, 2, 4} && n < (if w == 1 then 256 else if w == 2 then TWO_16 else TWO_32)
    ensures LittleEndian(NumBytes(n, w)) == n
  {
    hide Le2, Le4;
    if w == 1 {
      assert NumBytes(n, 1)[1..] == [];
    } else {
      Le4IsNumber(n);
    }
  }

  // A column holds the number its field should.
  lemma ColumnIsRead(c: Column, v: Value, f: Field, sizes: Sizes)
    requires GoodColumn(c) && IsField(c, f, sizes)
    requires HasValue(c) ==> (c.Fixed? <==> v.Num?) && ColumnFits(c, v, sizes)
    requires c.Const? && c.width == 1 ==> c.value < 256
    ensures |ColumnBytes(c, v, sizes)| == f.width
    ensures LittleEndian(ColumnBytes(c, v, sizes)) == match f.what case Always(n) => n case Given(scale) => NumberOf(v, scale)
  {
    hide NumBytes, HasIndexOverflow, IndexFits, RenderIndex, Coded, NumberOf, LittleEndian, Scale;
    NumIs();
    match c {
      case Fixed(w) => NumIsNumber(v.n, w);
      case Const(w, n) => NumIsNumber(n, w);
      case Zero => NumIsNumber(0, if sizes[T_GUID] > 65535 then 4 else 2);
      case Index(kind) => IndexIsNumber(kind, v.tag, v.index, sizes);
    }
  }

  lemma NumIs()
    ensures forall n, scale :: NumberOf(Num(n), scale) == n
  {
  }

  lemma IndexIsNumber(kind: IndexKind, tag: nat, index: nat, sizes: Sizes)
    requires IndexFits(kind, sizes, tag, index)
    ensures LittleEndian(RenderIndex(kind, sizes, tag, index)) == NumberOf(Ref(tag, index), Scale(kind))
  {
    hide HasIndexOverflow, Le2, Le4, LittleEndian, Scale, Coded, NumberOf;
    NumberInWidth(Coded(kind, tag, index), HasIndexOverflow(kind, sizes));
    CodedIsNumber(kind, tag, index);
  }

  lemma CodedIsNumber(kind: IndexKind, tag: nat, index: nat)
    ensures Coded(kind, tag, index) == NumberOf(Ref(tag, index), Scale(kind))
  {
    hide Scale;
  }

  lemma NumberInWidth(n: nat, wide: bool)
    requires n < if wide then TWO_32 else TWO_16
    ensures LittleEndian(if wide then Le4(n) else Le2(n)) == n
  {
    hide Le2, Le4, LittleEndian;
    Le4IsNumber(n);
  }

  // Constants fit the columns they stand in.
  predicate SmallConstants(cs: seq<Column>) {
    forall c :: c in cs && c.Const? && c.width == 1 ==> c.value < 256
  }

  lemma FieldRead(fields: seq<Field>, head: seq<byte>, tail: seq<byte>, more: seq<nat>, rest: seq<byte>)
    requires fields != [] && |head| == fields[0].width && ReadFields(fields[1..], tail) == Some((more, rest))
    ensures ReadFields(fields, head + tail) == Some(([LittleEndian(head)] + more, rest))
  {
    hide LittleEndian;
    var s := head + tail;
    assert s[..fields[0].width] == head && s[fields[0].width..] == tail;
  }

  lemma {:induction false} FieldsAreRead(cs: seq<Column>, vs: seq<Value>, fields: seq<Field>, sizes: Sizes, rest: seq<byte>)
    requires Typed(cs, vs) && ColumnsFit(cs, vs, sizes) && (forall c :: c in cs ==> GoodColumn(c)) && SmallConstants(cs)
    requires AreFields(cs, fields, sizes)
    ensures ReadFields(fields, ColumnsBytes(cs, vs, sizes) + rest) == Some((Numbers(fields, vs), rest))
  {
    hide ColumnWidth, ColumnBytes, ColumnFits, LittleEndian, IsField, NumberOf, ReadFields;
    if cs == [] {
      NothingRead(rest);
      assert ColumnsBytes(cs, vs, sizes) + rest == rest;
    } else {
      var c, f := cs[0], fields[0];
      var v := if HasValue(c) then vs[0] else Num(0);
      var vs' := if HasValue(c) then vs[1..] else vs;
      assert c in cs && IsField(c, f, sizes);
      ColumnIsRead(c, v, f, sizes);
      WhatOf(c, f, sizes);
      FieldsAreRead(cs[1..], vs', fields[1..], sizes, rest);
      var head, tail := ColumnBytes(c, v, sizes), ColumnsBytes(cs[1..], vs', sizes) + rest;
      FieldRead(fields, head, tail, Numbers(fields[1..], vs'), rest);
      assert ColumnsBytes(cs, vs, sizes) + rest == head + tail;
      assert Numbers(fields, vs) == [LittleEndian(head)] + Numbers(fields[1..], vs');
    }
  }

  lemma NothingRead(rest: seq<byte>)
    ensures ReadFields([], rest) == Some(([], rest))
  {
  }

  lemma WhatOf(c: Column, f: Field, sizes: Sizes)
    requires IsField(c, f, sizes)
    ensures HasValue(c) <==> f.what.Given?
  {
  }

  // ---- Every class against its table ----

  predicate IsStandard(kind: nat, sizes: Sizes) {
    var cs, fields := Schema(kind), Standard(kind, WidthsFor(sizes));
    |cs| == |fields| && forall j :: 0 <= j < |cs| ==> IsField(cs[j], fields[j], sizes)
  }

  lemma GuidWidth(sizes: Sizes)
    requires sizes[T_GUID] < TWO_32
    ensures ColumnWidth(Zero, sizes) == IndexWidth(GUID, sizes)
  {
    LargeBelowWrap(GUID, sizes[T_GUID]);
  }

  lemma ModuleRow(sizes: Sizes)
    requires ColumnWidth(Zero, sizes) == IndexWidth(GUID, sizes)
    ensures IsStandard(0, sizes)
  {
    hide IndexWidth, HasIndexOverflow, ColumnWidth;
  }

  lemma TypeRefRow(sizes: Sizes)
    ensures IsStandard(1, sizes)
  {
    hide IndexWidth, HasIndexOverflow, ColumnWidth;
  }

  lemma TypeDefRow(sizes: Sizes)
    ensures IsStandard(2, sizes)
  {
    hide IndexWidth, HasIndexOverflow, ColumnWidth;
  }

  lemma FieldRow(sizes: Sizes)
    ensures IsStandard(4, sizes)
  {
    hide IndexWidth, HasIndexOverflow, ColumnWidth;
  }

  lemma MethodDefRow(sizes: Sizes)
    ensures IsStandard(6, sizes)
  {
    hide IndexWidth, HasIndexOverflow, ColumnWidth;
  }

  lemma ParamRow(sizes: Sizes)
    ensures IsStandard(8, sizes)
  {
    hide IndexWidth, HasIndexOverflow, ColumnWidth;
  }

  lemma InterfaceImplRow(sizes: Sizes)
    ensures IsStandard(9, sizes)
  {
    hide IndexWidth, HasIndexOverflow, ColumnWidth;
  }

  lemma MemberRefRow(sizes: Sizes)
    ensures IsStandard(10, sizes)
  {
    hide IndexWidth, HasIndexOverflow, ColumnWidth;
  }

  lemma ConstantRow(sizes: Sizes)
    ensures IsStandard(11, sizes)
  {
    hide IndexWidth, HasIndexOverflow, ColumnWidth;
  }

  lemma CustomAttributeRow(sizes: Sizes)
    ensures IsStandard(12, sizes)
  {
    hide IndexWidth, HasIndexOverflow, ColumnWidth;
  }

  lemma FieldMarshalRow(sizes: Sizes)
    ensures IsStandard(13, sizes)
  {
    hide IndexWidth, HasIndexOverflow, ColumnWidth;
  }

  lemma DeclSecurityRow(sizes: Sizes)
    ensures IsStandard(14, sizes)
  {
    hide IndexWidth, HasIndexOverflow, ColumnWidth;
  }

  lemma ClassLayoutRow(sizes: Sizes)
    ensures IsStandard(15, sizes)
  {
    hide IndexWidth, HasIndexOverflow, ColumnWidth;
  }

  lemma FieldLayoutRow(sizes: Sizes)
    ensures IsStandard(16, sizes)
  {
    hide IndexWidth, HasIndexOverflow, ColumnWidth;
  }

  lemma StandAloneSigRow(sizes: Sizes)
    ensures IsStandard(17, sizes)
  {
    hide IndexWidth, HasIndexOverflow, ColumnWidth;
  }

  lemma EventMapRow(sizes: Sizes)
    ensures IsStandard(18, sizes)
  {
    hide IndexWidth, HasIndexOverflow, ColumnWidth;
  }

  lemma EventRow(sizes: Sizes)
    ensures IsStandard(20, sizes)
  {
    hide IndexWidth, HasIndexOverflow, ColumnWidth;
  }

  lemma PropertyMapRow(sizes: Sizes)
    ensures IsStandard(21, sizes)
  {
    hide IndexWidth, HasIndexOverflow, ColumnWidth;
  }

  lemma PropertyRow(sizes: Sizes)
    ensures IsStandard(23, sizes)
  {
    hide IndexWidth, HasIndexOverflow, ColumnWidth;
  }

  lemma MethodSemanticsRow(sizes: Sizes)
    ensures IsStandard(24, sizes)
  {
    hide IndexWidth, HasIndexOverflow, ColumnWidth;
  }

  lemma MethodImplRow(sizes: Sizes)
    ensures IsStandard(25, sizes)
  {
    hide IndexWidth, HasIndexOverflow, ColumnWidth;
  }

  lemma ModuleRefRow(sizes: Sizes)
    ensures IsStandard(26, sizes)
  {
    hide IndexWidth, HasIndexOverflow, ColumnWidth;
  }

  lemma TypeSpecRow(sizes: Sizes)
    ensures IsStandard(27, sizes)
  {
    hide IndexWidth, HasIndexOverflow, ColumnWidth;
  }

  lemma ImplMapRow(sizes: Sizes)
    ensures IsStandard(28, sizes)
  {
    hide IndexWidth, HasIndexOverflow, ColumnWidth;
  }

  lemma FieldRvaRow(sizes: Sizes)
    ensures IsStandard(29, sizes)
  {
    hide IndexWidth, HasIndexOverflow, ColumnWidth;
  }

  lemma AssemblyRow(sizes: Sizes)
    ensures IsStandard(32, sizes)
  {
    hide IndexWidth, HasIndexOverflow, ColumnWidth;
  }

  lemma AssemblyRefRow(sizes: Sizes)
    ensures IsStandard(35, sizes)
  {
    hide IndexWidth, HasIndexOverflow, ColumnWidth;
  }

  lemma FileRow(sizes: Sizes)
    ensures IsStandard(38, sizes)
  {
    hide IndexWidth, HasIndexOverflow, ColumnWidth;
  }

  lemma ManifestResourceRow(sizes: Sizes)
    ensures IsStandard(40, sizes)
  {
    hide IndexWidth, HasIndexOverflow, ColumnWidth;
  }

  lemma NestedClassRow(sizes: Sizes)
    ensures IsStandard(41, sizes)
  {
    hide IndexWidth, HasIndexOverflow, ColumnWidth;
  }

  lemma GenericParamRow(sizes: Sizes)
    ensures IsStandard(42, sizes)
  {
    hide IndexWidth, HasIndexOverflow, ColumnWidth;
  }

  lemma MethodSpecRow(sizes: Sizes)
    ensures IsStandard(43, sizes)
  {
    hide IndexWidth, HasIndexOverflow, ColumnWidth;
  }

  lemma GenericParamConstraintRow(sizes: Sizes)
    ensures IsStandard(44, sizes)
  {
    hide IndexWidth, HasIndexOverflow, ColumnWidth;
  }

  lemma ConstantsAreSmall(kind: nat)
    ensures SmallConstants(Schema(kind))
  {
  }

  lemma ExportedTypeRow(sizes: Sizes)
    requires IndexWidth(TypeDef, sizes) == 4
    ensures IsStandard(39, sizes)
  {
    hide IndexWidth, HasIndexOverflow, ColumnWidth;
  }

  lemma TypeDefIdIs(sizes: Sizes)
    ensures |Schema(39)| == |Standard(39, WidthsFor(sizes))| == 5
    ensures Schema(39)[1] == Index(TypeDef) && Standard(39, WidthsFor(sizes))[1].width == 4
  {
    hide IndexWidth, HasIndexOverflow;
  }

  // A row of ExportedType has an index where the standard has four bytes.
  lemma ExportedTypeIff(sizes: Sizes)
    ensures IsStandard(EXPORTED_TYPE, sizes) <==> IndexWidth(TypeDef, sizes) == 4
  {
    hide IndexWidth, HasIndexOverflow, ColumnWidth, Schema, Standard, WidthsFor;
    if IndexWidth(TypeDef, sizes) == 4 {
      ExportedTypeRow(sizes);
    } else {
      TypeDefIdIs(sizes);
    }
  }

  // Every class but ExportedType writes the fields of its table in the
  // standard's order and at its widths, and that one exactly when type
  // definitions need wide indexes.
  lemma SchemaIsStandardIff(kind: nat, sizes: Sizes)
    requires Known(kind) && sizes[T_GUID] < TWO_32
    ensures IsStandard(kind, sizes) <==> kind != EXPORTED_TYPE || IndexWidth(TypeDef, sizes) == 4
    ensures SmallConstants(Schema(kind))
  {
    hide IsStandard, Schema, IndexWidth, HasIndexOverflow, SmallConstants, ColumnWidth;
    ConstantsAreSmall(kind);
    GuidWidth(sizes);
    match kind {
      case 0 => ModuleRow(sizes);
      case 1 => TypeRefRow(sizes);
      case 2 => TypeDefRow(sizes);
      case 4 => FieldRow(sizes);
      case 6 => MethodDefRow(sizes);
      case 8 => ParamRow(sizes);
      case 9 => InterfaceImplRow(sizes);
      case 10 => MemberRefRow(sizes);
      case 11 => ConstantRow(sizes);
      case 12 => CustomAttributeRow(sizes);
      case 13 => FieldMarshalRow(sizes);
      case 14 => DeclSecurityRow(sizes);
      case 15 => ClassLayoutRow(sizes);
      case 16 => FieldLayoutRow(sizes);
      case 17 => StandAloneSigRow(sizes);
      case 18 => EventMapRow(sizes);
      case 20 => EventRow(sizes);
      case 21 => PropertyMapRow(sizes);
      case 23 => PropertyRow(sizes);
      case 24 => MethodSemanticsRow(sizes);
      case 25 => MethodImplRow(sizes);
      case 26 => ModuleRefRow(sizes);
      case 27 => TypeSpecRow(sizes);
      case 28 => ImplMapRow(sizes);
      case 29 => FieldRvaRow(sizes);
      case 32 => AssemblyRow(sizes);
      case 35 => AssemblyRefRow(sizes);
      case 38 => FileRow(sizes);
      case 40 => ManifestResourceRow(sizes);
      case 41 => NestedClassRow(sizes);
      case 42 => GenericParamRow(sizes);
      case 43 => MethodSpecRow(sizes);
      case 44 => GenericParamConstraintRow(sizes);
      case _ => ExportedTypeIff(sizes);
    }
  }

  // A reader that follows the standard finds in the bytes of any row every
  // field of its table with the number the row has for it, and then what
  // follows the row.
  lemma RowIsStandard(row: Row, sizes: Sizes, rest: seq<byte>)
    requires RowFits(row, sizes) && sizes[T_GUID] < TWO_32
    requires row.kind == EXPORTED_TYPE ==> IndexWidth(TypeDef, sizes) == 4
    ensures var fields := Standard(row.kind, WidthsFor(sizes));
            ReadFields(fields, RowBytes(row, sizes) + rest) == Some((Numbers(fields, row.values), rest))
  {
    SchemaIsStandardIff(row.kind, sizes);
    hide Schema, Standard, WidthsFor, IndexWidth, HasIndexOverflow, SmallConstants, IsField, ReadFields, Numbers, ColumnsBytes;
    FieldsAreRead(Schema(row.kind), row.values, Standard(row.kind, WidthsFor(sizes)), sizes, rest);
  }

  // ---- The header of the stream ----

  // One bit for each table the standard wants sorted: InterfaceImpl, Constant
  // to FieldLayout, MethodSemantics, MethodImpl, ImplMap, FieldRVA, NestedClass,
  // GenericParam and GenericParamConstraint.
  const STANDARD_SORTED :=
    0x200 + 0x800 + 0x1000 + 0x2000 + 0x4000 + 0x8000 + 0x1_0000 + 0x100_0000 + 0x200_0000 + 0x1000_0000 + 0x2000_0000
    + 0x200_0000_0000 + 0x400_0000_0000 + 0x1000_0000_0000

  // The library adds EventMap and PropertyMap.
  const LIBRARY_SORTED := 0x4_0000 + 0x20_0000

  // Section II.24.2.6: version 2.0, one bit for each heap with wide indexes, the
  // mask of the tables that have rows, and that of the sorted ones.
  lemma HeaderIsStandard(tables: TableSet, sizes: Sizes, rest: seq<byte>)
    requires sizes[T_STRING] < TWO_32 && sizes[T_GUID] < TWO_32 && sizes[T_BLOB] < TWO_32
    ensures var s := TableStream.HeaderBytes(tables, sizes) + rest;
            && DWord(s) == 0 && s[4] == 2 && s[5] == 0 && s[7] == 1
            && (s[6] % 2 == 1 <==> IndexWidth(String, sizes) == 4)
            && (s[6] / 2 % 2 == 1 <==> IndexWidth(GUID, sizes) == 4)
            && (s[6] / 4 % 2 == 1 <==> IndexWidth(Blob, sizes) == 4)
            && (forall i: nat :: i < 64 ==> (Bit(QWord(s[8..]), i) <==> tables[i] != []))
            && QWord(s[16..]) == STANDARD_SORTED + LIBRARY_SORTED
  {
    HeapBits(sizes);
    MaskReadsBack(tables, sizes, rest);
    HeaderPieces(tables, sizes, rest);
    hide Le8, Le4, QWord, DWord, Bit, Mask, HeapFlags, IndexWidth, TableStream.HeaderBytes;
  }

  lemma HeaderPieces(tables: TableSet, sizes: Sizes, rest: seq<byte>)
    ensures var s := TableStream.HeaderBytes(tables, sizes) + rest;
            && DWord(s) == 0 && s[4] == 2 && s[5] == 0 && s[6] == HeapFlags(sizes) && s[7] == 1
            && QWord(s[16..]) == STANDARD_SORTED + LIBRARY_SORTED
  {
    hide Le8, Le4, QWord, DWord, Mask, HeapFlags;
    var mask := Mask(tables, 64);
    var flags: seq<byte> := [2, 0, HeapFlags(sizes), 1];
    var s := TableStream.HeaderBytes(tables, sizes) + rest;
    assert s == Le4(0) + (flags + Le8(mask) + Le8(SORTED) + rest);
    assert s[4..8] == flags;
    Le4DWord(0, flags + Le8(mask) + Le8(SORTED) + rest);
    assert s[16..] == Le8(SORTED) + rest;
    Le8QWord(SORTED, rest);
  }

  lemma HeapBits(sizes: Sizes)
    requires sizes[T_STRING] < TWO_32 && sizes[T_GUID] < TWO_32 && sizes[T_BLOB] < TWO_32
    ensures HeapFlags(sizes) % 2 == 1 <==> IndexWidth(String, sizes) == 4
    ensures HeapFlags(sizes) / 2 % 2 == 1 <==> IndexWidth(GUID, sizes) == 4
    ensures HeapFlags(sizes) / 4 % 2 == 1 <==> IndexWidth(Blob, sizes) == 4
  {
    LargeBelowWrap(String, sizes[T_STRING]);
    LargeBelowWrap(GUID, sizes[T_GUID]);
    LargeBelowWrap(Blob, sizes[T_BLOB]);
    hide Large;
  }
}
