// The PE writer: plans the file, then emits it, each part where it was planned.
module PEWriting {
  import opened Bytes
  import opened MethodBodies
  import opened Tables
  import opened TableStream
  import opened MetadataRoot
  import opened Layout

  // The position of the PE header stands at 0x3c.
  const MZ_START: seq<byte> := [0x4d, 0x5a]

  const MZ_FIELDS: seq<byte> := [
    0x90, 0x00, 0x03, 0x00, 0x00, 0x00, 0x04, 0x00, 0x00, 0x00, 0xff, 0xff, 0x00, 0x00,
    0xb8, 0x00, 0x00, 0x00, 0x00, 0x00, 0x00, 0x00, 0x40, 0x00, 0x00, 0x00, 0x00, 0x00, 0x00, 0x00,
    0x00, 0x00, 0x00, 0x00, 0x00, 0x00, 0x00, 0x00, 0x00, 0x00, 0x00, 0x00, 0x00, 0x00, 0x00, 0x00,
    0x00, 0x00, 0x00, 0x00, 0x00, 0x00, 0x00, 0x00, 0x00, 0x00, 0x00, 0x00]

  const MZ_STUB: seq<byte> := [
    0x0e, 0x1f, 0xba, 0x0e, 0x00, 0xb4, 0x09, 0xcd, 0x21, 0xb8, 0x01, 0x4c, 0xcd, 0x21, 0x54, 0x68,
    0x69, 0x73, 0x20, 0x70, 0x72, 0x6f, 0x67, 0x72, 0x61, 0x6d, 0x20, 0x63, 0x61, 0x6e, 0x6e, 0x6f,
    0x74, 0x20, 0x62, 0x65, 0x20, 0x72, 0x75, 0x6e, 0x20, 0x69, 0x6e, 0x20, 0x44, 0x4f, 0x53, 0x20,
    0x6d, 0x6f, 0x64, 0x65, 0x2e, 0x0d, 0x0d, 0x0a, 0x24, 0x00, 0x00, 0x00, 0x00, 0x00, 0x00, 0x00]

  function MzHeader(): (s: seq<byte>)
    ensures |s| == 128
  {
    MZ_START + MZ_FIELDS + [0x80, 0, 0, 0] + MZ_STUB
  }

  const IMAGE_BASE := 0x40_0000
  const CORE_POS := 520

  // ---- The headers ----

  function CoffBytes(c: Contents): (s: seq<byte>)
    ensures |s| == 24
  {
    Le4(0x4550) + Le2(0x14c) + Le2(2) + (Le4(c.time) + Zeros(8)) + Le2(0xe0) + Le2(if c.dll then 0x2002 else 2)
  }

  function StandardFields(p: Plan): (s: seq<byte>)
    ensures |s| == 28
  {
    Le2(0x10b) + [6, 0] + Le4(p.textRawSize) + Le4(0x200) + Le4(0) + Le4(p.entryPoint) + Le4(TEXT_RVA) + Le4(p.relocRva)
  }

  function ImageFields(p: Plan): (s: seq<byte>)
    ensures |s| == 40
  {
    Le4(IMAGE_BASE) + Le4(OBJECT_ALIGN) + Le4(FILE_ALIGN) + (Le2(4) + Zeros(6) + Le2(4) + Le2(0) + Le4(0))
    + Le4(p.imageSize) + Le4(0x200) + Le4(0)
  }

  function StackFields(c: Contents): (s: seq<byte>)
    ensures |s| == 28
  {
    Le2(if c.gui then 2 else 3) + Le2(0x8540)
    + Le4(0x10_0000) + Le4(0x1000) + Le4(0x10_0000) + Le4(0x1000) + Le4(0) + Le4(16)
  }

  function OptionalBytes(c: Contents, p: Plan): (s: seq<byte>)
    ensures |s| == 96
  {
    StandardFields(p) + ImageFields(p) + StackFields(c)
  }

  // The data directories: imports, fixups, import addresses, CLI header.
  function DirectoryBytes(p: Plan): (s: seq<byte>)
    ensures |s| == 128
  {
    (Zeros(8) + Le4(p.importRva) + Le4(p.importSize) + Zeros(24) + Le4(p.relocRva) + Le4(12) + Zeros(48)
     + Le4(TEXT_RVA) + Le4(8) + Zeros(8))
    + Le4(TEXT_RVA + 8) + Le4(72) + Zeros(8)
  }

  datatype PEObject = PEObject(virtualSize: nat, virtualAddr: nat, rawSize: nat, rawPtr: nat)

  function ObjectBytes(name: seq<byte>, o: PEObject, flags: nat): (s: seq<byte>)
    requires |name| == 8
    ensures |s| == 40
  {
    name + Le4(o.virtualSize) + Le4(o.virtualAddr) + Le4(o.rawSize) + Le4(o.rawPtr) + Zeros(12) + Le4(flags)
  }

  const TEXT_NAME: seq<byte> := [0x2e, 0x74, 0x65, 0x78, 0x74, 0, 0, 0]
  const RELOC_NAME: seq<byte> := [0x2e, 0x72, 0x65, 0x6c, 0x6f, 0x63, 0, 0]

  function Objects(p: Plan): (objects: seq<PEObject>)
    ensures |objects| == 2
  {
    [PEObject(p.textSize, TEXT_RVA, p.textRawSize, TEXT_RAW), PEObject(12, p.relocRva, 0x200, p.relocRaw)]
  }

  function HeadersBytes(c: Contents, p: Plan): (s: seq<byte>)
    ensures |s| == HEADERS_END
  {
    MzHeader() + CoffBytes(c) + OptionalBytes(c, p) + DirectoryBytes(p)
    + ObjectBytes(TEXT_NAME, Objects(p)[0], 0x6000_0020) + ObjectBytes(RELOC_NAME, Objects(p)[1], 0x4200_0040)
  }

  function Cor20Bytes(c: Contents, p: Plan): (s: seq<byte>)
    ensures |s| == 72
  {
    Le4(72) + Le2(2) + Le2(5) + Le4(p.metaRoot) + Le4(p.metaSize) + Le4(c.corFlags) + Le4(c.entryToken) + Zeros(8)
    + Le4(if c.signatureLen > 0 then p.signatureRva else 0) + Le4(c.signatureLen) + Zeros(32)
  }

  // ---- The imports, the entry stub and the fixup ----

  const EXE_MAIN: seq<byte> := [0x5f, 0x43, 0x6f, 0x72, 0x45, 0x78, 0x65, 0x4d, 0x61, 0x69, 0x6e, 0]
  const DLL_MAIN: seq<byte> := [0x5f, 0x43, 0x6f, 0x72, 0x44, 0x6c, 0x6c, 0x4d, 0x61, 0x69, 0x6e, 0]
  const MSCOREE: seq<byte> := [0x6d, 0x73, 0x63, 0x6f, 0x72, 0x65, 0x65, 0x2e, 0x64, 0x6c, 0x6c, 0]

  // The address of the hint and name, as the import directory gives it.
  function MainName(p: Plan): nat { AlignUp(p.importRva + 48, 16) }

  function ImportDir(p: Plan): (s: seq<byte>)
    ensures |s| == 48
  {
    Le4(p.importRva + 40) + Zeros(8) + Le4(MainName(p) + 14) + Le4(TEXT_RVA) + Zeros(20) + Le4(MainName(p)) + Le4(0)
  }

  function ImportNames(c: Contents): (s: seq<byte>)
    ensures |s| == 26
  {
    [0, 0] + (if c.dll then DLL_MAIN else EXE_MAIN) + MSCOREE
  }

  // jmp through the import address table.
  function EntryStub(): (s: seq<byte>)
    ensures |s| == 6
  {
    Le2(0x25ff) + Le4(TEXT_RVA + IMAGE_BASE)
  }

  function RelocBytes(p: Plan): (s: seq<byte>)
    ensures |s| == 10
  {
    var n := p.entryPoint + 2;
    Le4(n - n % 0x1000) + Le4(12) + Le2(0x3000 + n % 0x1000)
  }

  // The word of the import address table, rounded from another sum.
  function IatWord(p: Plan): nat { AlignUp(p.importRva + 44, 16) }

  // ---- Standing in the file ----

  ghost predicate At(file: seq<byte>, pos: nat, item: seq<byte>) {
    pos + |item| <= |file| && file[pos..pos + |item|] == item
  }

  lemma AtGrows(a: seq<byte>, b: seq<byte>, pos: nat, item: seq<byte>)
    requires a <= b && At(a, pos, item)
    ensures At(b, pos, item)
  {
    assert b[..|a|] == a;
    assert b[pos..pos + |item|] == a[pos..pos + |item|];
  }

  lemma AtEnd(a: seq<byte>, item: seq<byte>)
    ensures At(a + item, |a|, item) && a <= a + item
  {
  }

  lemma PrefixTransitive(a: seq<byte>, b: seq<byte>, c: seq<byte>)
    requires a <= b && b <= c
    ensures a <= c
  {
    assert c[..|a|] == b[..|a|] == a;
  }

  ghost predicate FrontAt(c: Contents, p: Plan, file: seq<byte>) {
    && At(file, 0, HeadersBytes(c, p))
    && At(file, TEXT_RAW, Le4(IatWord(p)) + Le4(0))
    && At(file, CORE_POS, Cor20Bytes(c, p))
    && At(file, AFTER_CORE, c.data)
  }

  ghost predicate MethodsAt(c: Contents, file: seq<byte>, k: nat)
    requires k <= |c.methods|
  {
    forall i :: 0 <= i < k && IsCil(c.methods[i]) ==> At(file, MethodPos(c, i), BodyBytes(c.methods[i]))
  }

  ghost predicate MetadataAt(c: Contents, p: Plan, file: seq<byte>)
    requires TablesTyped(c)
  {
    && At(file, RootPos(c), RootBytes(p.streams))
    && At(file, TablesPos(c), StreamBytes(c.tables, SizesIn(c)))
    && At(file, StringsPos(c), c.strings)
    && At(file, UsPos(c), UsBytes(c))
    && At(file, GuidPos(c), c.guid)
    && At(file, BlobPos(c), c.blob)
  }

  ghost predicate BackAt(c: Contents, p: Plan, file: seq<byte>)
    requires TablesTyped(c)
  {
    && At(file, ImportPos(c), ImportDir(p))
    && At(file, NamePos(c), ImportNames(c))
    && At(file, EntryPos(c), EntryStub())
    && At(file, SignaturePos(c), Zeros(c.signatureLen))
    && At(file, AlignUp(TextEnd(c), FILE_ALIGN), RelocBytes(p))
  }

  // Every item stands at its position.
  ghost predicate Emitted(c: Contents, p: Plan, file: seq<byte>)
    requires TablesTyped(c)
  {
    FrontAt(c, p, file) && MethodsAt(c, file, |c.methods|) && MetadataAt(c, p, file) && BackAt(c, p, file)
  }

  ghost predicate Ready(c: Contents) {
    TablesTyped(c) && forall m :: m in c.methods ==> Plannable(m)
  }

  // The methods with code have the address of their position.
  ghost predicate MethodsPlanned(c: Contents) {
    forall i :: 0 <= i < |c.methods| ==>
      c.methods[i].rva == if IsCil(c.methods[i]) then MethodPos(c, i) + DELTA else 0
  }

  // Everything but the addresses of the methods, in themselves and in their rows.
  ghost predicate SameButAddresses(a: Contents, b: Contents) {
    && b == Addressed(a.(methods := b.methods)) && |b.methods| == |a.methods|
    && forall i :: 0 <= i < |a.methods| ==> b.methods[i] == a.methods[i].(rva := b.methods[i].rva)
  }

  lemma Rises(x: nat, n: nat)
    requires n > 0
    ensures x <= AlignUp(x, n) < x + n
  {
  }

  lemma {:induction false} MethodsRise(ms: seq<PEMethod>, j: nat, k: nat, pos: nat)
    requires j <= k <= |ms|
    ensures pos <= MethodsEnd(ms, j, pos) <= MethodsEnd(ms, k, pos)
    decreases k
  {
    hide BodyBytes;
    if k > 0 {
      MethodsRise(ms, if j < k then j else k - 1, k - 1, pos);
    }
  }

  lemma RootInText(c: Contents)
    ensures TEXT_RAW < RootPos(c)
  {
    hide AlignUp, MethodsEnd;
    MethodsRise(c.methods, 0, |c.methods|, DataEnd(c));
    Rises(AFTER_CORE + |c.data|, 8);
    Rises(MethodsEnd(c.methods, |c.methods|, DataEnd(c)), 4);
  }

  // The parts follow one another.
  lemma PositionsRise(c: Contents)
    requires TablesTyped(c)
    ensures AFTER_CORE <= DataEnd(c) <= RootPos(c) && AFTER_CORE + |c.data| <= DataEnd(c)
    ensures MethodsEnd(c.methods, |c.methods|, DataEnd(c)) <= RootPos(c)
    ensures RootPos(c) + 108 == TablesPos(c)
    ensures TablesPos(c) + |StreamBytes(c.tables, SizesIn(c))| <= StringsPos(c)
    ensures StringsPos(c) + |c.strings| <= UsPos(c) && UsPos(c) + |UsBytes(c)| <= GuidPos(c)
    ensures GuidPos(c) + |c.guid| <= BlobPos(c) && BlobPos(c) + |c.blob| <= ImportPos(c)
    ensures ImportPos(c) + 48 <= NamePos(c) && NamePos(c) + 26 <= EntryPos(c) <= SignaturePos(c) <= TextEnd(c)
  {
    hide AlignUp, StreamBytes, SizesIn, MethodsEnd, UsBytes;
    MethodsRise(c.methods, 0, |c.methods|, DataEnd(c));
    Rises(AFTER_CORE + |c.data|, 8);
    Rises(MethodsEnd(c.methods, |c.methods|, DataEnd(c)), 4);
    Rises(TablesPos(c) + |StreamBytes(c.tables, SizesIn(c))|, 4);
    Rises(StringsPos(c) + |c.strings|, 4);
    Rises(UsPos(c) + |UsBytes(c)|, 4);
    Rises(GuidPos(c) + |c.guid|, 4);
    Rises(BlobPos(c) + |c.blob|, 4);
    Rises(ImportPos(c) + 48, 16);
    Rises(NamePos(c) + 26, 4);
  }

  // ---- The writer ----

  class PEWriter {
    var contents: Contents
    var plan: Plan

    constructor (contents: Contents)
      ensures this.contents == contents
    {
      this.contents := contents;
      plan := NO_PLAN;
    }

    // Every address planned is that of the position where the parts before it
    // will have been emitted, when the rows take the room planned for them.
    method CalculateObjects()
      requires Ready(contents)
      modifies this
      ensures SameButAddresses(old(contents), contents)
      ensures TablesTyped(contents) && MethodsPlanned(contents) && RowsAddressed(contents)
      ensures PlannedStrings(contents) >= TablesPos(contents) && PlannedFrom(contents, plan, PlannedStrings(contents))
      ensures InSync(contents, plan) <==> PlannedStrings(contents) == StringsPos(contents)
    {
      hide AlignUp, CountBytes, PlannedTables, SizesIn, UsBytes, MethodsEnd, Plannable, RowTyped, InSync, PlannedFrom,
           PlannedStrings, StringsPos, StreamBytes, WithAddress, AddressFor, RowsAddressed, AllTyped;
      ghost var before := contents;
      var c := contents;
      var currentRVA := TEXT_RVA + 8 + 72;
      if |c.data| != 0 {
        AlignShift(AFTER_CORE + |c.data|, 8);
        currentRVA := AlignUp(currentRVA + |c.data|, 8);
      }
      var placed;
      placed, currentRVA := PlanMethods(c.methods, currentRVA, DataEnd(c));
      c := Addressed(c.(methods := placed));
      PlacedKeepsPositions(before, c);
      AddressedIsTyped(before.(methods := placed));
      PositionsRise(c);
      AlignShift(MethodsEnd(c.methods, |c.methods|, DataEnd(c)), 4);
      var root := AlignUp(currentRVA, 4);
      contents := c;
      plan := PlanMetadata(c, root);
      PlanIsInSyncIff(c, plan, PlannedStrings(c));
    }

    // From the metadata root to the end of the image.
    method PlanMetadata(c: Contents, root: nat) returns (p: Plan)
      requires TablesTyped(c) && root == RootPos(c) + DELTA
      ensures PlannedStrings(c) >= TablesPos(c) && PlannedFrom(c, p, PlannedStrings(c))
    {
      hide AlignUp, CountBytes, PlannedTables, SizesIn, UsBytes, RootPos, RowTyped;
      var currentRVA := root + 108;
      var room := PlanStream(c);
      AlignShift(TablesPos(c) + room, 4);
      Rises(TablesPos(c) + room, 4);
      var tablesEnd := AlignUp(currentRVA + room, 4);
      var tables := Extent(currentRVA - root, tablesEnd - currentRVA);
      ghost var strings := PlannedStrings(c);
      assert tablesEnd == strings + DELTA;
      hide PlannedStrings;
      var heaps, heapsEnd := PlanHeaps(c, root, tablesEnd, strings);
      RootInText(c);
      Rises(strings + |c.strings|, 4);
      Rises(AlignUp(strings + |c.strings|, 4) + |UsBytes(c)|, 4);
      Rises(AlignUp(AlignUp(strings + |c.strings|, 4) + |UsBytes(c)|, 4) + |c.guid|, 4);
      Rises(AlignUp(AlignUp(AlignUp(strings + |c.strings|, 4) + |UsBytes(c)|, 4) + |c.guid|, 4) + |c.blob|, 4);
      var importSize, entryPoint, textSize, textRawSize, relocRva, imageSize :=
        PlanTail(heapsEnd, c.signatureLen, heapsEnd - DELTA);
      p := Plan(root, heapsEnd - root, [tables] + heaps, heapsEnd, importSize, entryPoint,
                entryPoint + 6, textSize, textRawSize, relocRva, TEXT_RAW + textRawSize, imageSize);
    }

    method PlanStream(c: Contents) returns (room: nat)
      requires TablesTyped(c)
      ensures room == 24 + |CountBytes(c.tables, 0)| + PlannedTables(c.tables, SizesIn(c), 0)
    {
      hide RowTyped, CountBytes, PlannedTables;
      var rows := PlanTables(c.tables, SizesOf(c.tables, |c.strings|, |c.us|, |c.guid|, |c.blob|));
      room := 24 + rows;
    }

    method WriteFront(out: OutStream)
      requires out.bytes == []
      modifies out
      ensures FrontAt(contents, plan, out.bytes) && |out.bytes| == DataEnd(contents)
    {
      hide HeadersBytes, Cor20Bytes, Le4, At;
      var headers := HeadersBytes(contents, plan);
      out.Put(headers);
      AtEnd([], headers);
      assert [] + headers == headers;
      assert At(out.bytes, 0, headers);
      ghost var s0 := out.bytes;
      out.Align(FILE_ALIGN);
      var iat := Le4(IatWord(plan)) + Le4(0);
      ghost var s1 := out.bytes;
      assert |s1| == TEXT_RAW;
      out.Put(iat);
      AtEnd(s1, iat);
      ghost var s2 := out.bytes;
      var cor20 := Cor20Bytes(contents, plan);
      out.Put(cor20);
      AtEnd(s2, cor20);
      ghost var s3 := out.bytes;
      out.Put(contents.data);
      AtEnd(s3, contents.data);
      ghost var s4 := out.bytes;
      if |contents.data| != 0 {
        out.Align(8);
      }
      FrontGrows(s0, s1, s2, s3, s4, out.bytes, headers, iat, cor20, contents.data);
    }

    method WriteMethods(out: OutStream)
      requires |out.bytes| == DataEnd(contents) && forall m :: m in contents.methods ==> Plannable(m)
      modifies out
      ensures old(out.bytes) <= out.bytes && MethodsAt(contents, out.bytes, |contents.methods|)
      ensures |out.bytes| == MethodsEnd(contents.methods, |contents.methods|, DataEnd(contents))
    {
      hide BodyBytes, At, AlignUp, Padded;
      var methods := contents.methods;
      var i := 0;
      while i < |methods|
        invariant i <= |methods| && old(out.bytes) <= out.bytes
        invariant |out.bytes| == MethodsEnd(methods, i, DataEnd(contents))
        invariant MethodsAt(contents, out.bytes, i)
      {
        ghost var before := out.bytes;
        assert methods[i] in methods;
        if IsCil(methods[i]) {
          if methods[i].flags % 4 == FAT_FORMAT {
            out.Align(4);
          }
          ghost var start := out.bytes;
          var _ := Write(methods[i], out);
          AtEnd(start, BodyBytes(methods[i]));
          PrefixTransitive(before, start, out.bytes);
          PrefixTransitive(old(out.bytes), before, out.bytes);
          MethodsGrow(contents, before, out.bytes, i);
        }
        i := i + 1;
      }
    }

    method WriteMetadata(out: OutStream)
      requires TablesTyped(contents)
      requires |out.bytes| == MethodsEnd(contents.methods, |contents.methods|, DataEnd(contents))
      modifies out
      ensures old(out.bytes) <= out.bytes && MetadataAt(contents, plan, out.bytes) && |out.bytes| == ImportPos(contents)
    {
      hide At, AlignUp, Padded, MethodsEnd, StreamBytes, RootBytes, UsBytes;
      var c := contents;
      UsWritten(c);
      WriteMetadataHeaders(plan.streams, out);
      ghost var s0 := Padded(old(out.bytes), 4);
      ghost var s1 := out.bytes;
      AtEnd(s0, RootBytes(plan.streams));
      WriteTables(c.tables, |c.strings|, |c.us|, |c.guid|, |c.blob|, out);
      ghost var s2 := out.bytes;
      PutThenPad(s1, StreamBytes(c.tables, SizesIn(c)), s2);
      WriteHeap(contents.strings, out);
      ghost var s3 := out.bytes;
      WriteHeap(if |contents.us| == 0 then EMPTY_US else contents.us, out);
      ghost var s4 := out.bytes;
      assert At(s4, UsPos(c), UsBytes(c));
      WriteHeap(contents.guid, out);
      ghost var s5 := out.bytes;
      WriteHeap(contents.blob, out);
      MetadataGrows(c, plan, old(out.bytes), s0, s1, s2, s3, s4, s5, out.bytes);
    }

    method WriteHeap(heap: seq<byte>, out: OutStream)
      modifies out
      ensures At(out.bytes, |old(out.bytes)|, heap) && old(out.bytes) <= out.bytes
      ensures |out.bytes| == AlignUp(|old(out.bytes)| + |heap|, 4)
    {
      hide At, AlignUp;
      out.Put(heap);
      ghost var put := out.bytes;
      out.Align(4);
      PutThenPad(old(out.bytes), heap, out.bytes);
    }

    method WriteBack(out: OutStream)
      requires TablesTyped(contents) && |out.bytes| == ImportPos(contents)
      modifies out
      ensures old(out.bytes) <= out.bytes && BackAt(contents, plan, out.bytes)
    {
      hide At, AlignUp, Padded, ImportPos, EntryStub, RelocBytes, ImportDir, ImportNames, TablesTyped, Zeros;
      ghost var c := contents;
      ghost var s0 := out.bytes;
      WriteImports(out);
      ghost var s1 := out.bytes;
      out.Put([0, 0]);
      ghost var s2 := out.bytes;
      AtEnd(s1, [0, 0]);
      out.Put(EntryStub());
      ghost var s3 := out.bytes;
      AtEnd(s2, EntryStub());
      out.Put(Zeros(contents.signatureLen));
      ghost var s4 := out.bytes;
      AtEnd(s3, Zeros(contents.signatureLen));
      out.Align(FILE_ALIGN);
      ghost var s5 := out.bytes;
      out.Put(RelocBytes(plan));
      ghost var s6 := out.bytes;
      AtEnd(s5, RelocBytes(plan));
      out.Align(FILE_ALIGN);
      BackGrows(c, plan, s0, s1, s2, s3, s4, s5, s6, out.bytes);
    }

    method WriteImports(out: OutStream)
      requires TablesTyped(contents) && |out.bytes| == ImportPos(contents)
      modifies out
      ensures old(out.bytes) <= out.bytes
      ensures At(out.bytes, ImportPos(contents), ImportDir(plan)) && At(out.bytes, NamePos(contents), ImportNames(contents))
      ensures |out.bytes| == AlignUp(NamePos(contents) + 26, 4)
    {
      hide At, AlignUp, Padded, ImportPos, ImportDir, ImportNames, TablesTyped;
      ghost var s0 := out.bytes;
      out.Put(ImportDir(plan));
      ghost var s1 := out.bytes;
      AtEnd(s0, ImportDir(plan));
      out.Align(16);
      ghost var s2 := out.bytes;
      out.Put(ImportNames(contents));
      ghost var s3 := out.bytes;
      AtEnd(s2, ImportNames(contents));
      out.Align(4);
      PrefixTransitive(s0, s1, s2);
      PrefixTransitive(s2, s3, out.bytes);
      PrefixTransitive(s0, s2, out.bytes);
      PrefixTransitive(s1, s2, out.bytes);
      AtGrows(s1, out.bytes, |s0|, ImportDir(plan));
      AtGrows(s3, out.bytes, |s2|, ImportNames(contents));
    }

    // The file: every part is emitted at its position, and that is where the
    // plan has it if and only if the plan has the first heap there.
    method WriteFile(out: OutStream) returns (written: bool)
      requires Ready(contents) && out.bytes == []
      modifies this, out
      ensures written == (old(contents).entryToken != 0 || old(contents).dll)
      ensures written ==>
                && SameButAddresses(old(contents), contents)
                && TablesTyped(contents) && MethodsPlanned(contents) && RowsAddressed(contents)
                && (InSync(contents, plan) <==> PlannedStrings(contents) == StringsPos(contents))
                && Emitted(contents, plan, out.bytes)
    {
      hide At, FrontAt, MethodsAt, MetadataAt, BackAt, InSync, MethodsEnd, DataEnd, ImportPos, Plannable, AllTyped, PlannedFrom,
           PlannedStrings, Addressed, RowsAddressed;
      if contents.entryToken == 0 && !contents.dll {
        return false;
      }
      ghost var before := contents;
      CalculateObjects();
      SamePlannable(before, contents);
      WriteFront(out);
      ghost var front := out.bytes;
      WriteMethods(out);
      ghost var methods := out.bytes;
      WriteMetadata(out);
      ghost var metadata := out.bytes;
      WriteBack(out);
      PrefixTransitive(methods, metadata, out.bytes);
      PrefixTransitive(front, methods, out.bytes);
      FrontStays(contents, plan, front, out.bytes);
      MethodsGrow(contents, methods, out.bytes, |contents.methods|);
      MetadataStays(contents, plan, metadata, out.bytes);
      return true;
    }
  }

  lemma AddressIrrelevant(m: PEMethod, rva: nat, pos: nat)
    ensures var moved := m.(rva := rva);
            && BodyBytes(moved) == BodyBytes(m) && IsCil(moved) == IsCil(m) && IsTiny(moved) == IsTiny(m)
            && AfterMethod(moved, pos) == AfterMethod(m, pos) && BodyStart(moved, pos) == BodyStart(m, pos)
  {
    hide SectionBytes;
    assert MethodBodies.HeaderBytes(m.(rva := rva)) == MethodBodies.HeaderBytes(m);
  }

  lemma {:induction false} PlacedKeepsEnds(before: seq<PEMethod>, after: seq<PEMethod>, k: nat, pos: nat)
    requires |after| == |before| && k <= |before|
    requires forall i :: 0 <= i < |before| ==> after[i] == before[i].(rva := after[i].rva)
    ensures MethodsEnd(after, k, pos) == MethodsEnd(before, k, pos)
  {
    hide AfterMethod;
    if k > 0 {
      PlacedKeepsEnds(before, after, k - 1, pos);
      AddressIrrelevant(before[k - 1], after[k - 1].rva, MethodsEnd(before, k - 1, pos));
    }
  }

  lemma PlacedKeepsPositions(before: Contents, after: Contents)
    requires after == Addressed(before.(methods := after.methods))
    requires Placed(before.methods, after.methods, |before.methods|, DataEnd(before))
    ensures SameButAddresses(before, after) && MethodsPlanned(after)
    ensures DataEnd(after) == DataEnd(before)
    ensures MethodsEnd(after.methods, |after.methods|, DataEnd(after)) == MethodsEnd(before.methods, |before.methods|, DataEnd(before))
  {
    hide MethodsEnd, AlignUp, BodyStart, IsCil, WithAddress, AddressFor;
    forall i | 0 <= i < |before.methods|
      ensures after.methods[i].rva == if IsCil(after.methods[i]) then MethodPos(after, i) + DELTA else 0
    {
      AddressIrrelevant(before.methods[i], after.methods[i].rva, MethodsEnd(before.methods, i, DataEnd(before)));
      PlacedKeepsEnds(before.methods, after.methods, i, DataEnd(before));
    }
    PlacedKeepsEnds(before.methods, after.methods, |before.methods|, DataEnd(before));
  }

  // ---- Items stay where they are while the file grows ----

  lemma FrontGrows(s0: seq<byte>, s1: seq<byte>, s2: seq<byte>, s3: seq<byte>, s4: seq<byte>, s5: seq<byte>,
                   a: seq<byte>, b: seq<byte>, c: seq<byte>, d: seq<byte>)
    requires s0 <= s1 <= s2 <= s3 <= s4 <= s5
    requires At(s0, 0, a) && At(s2, |s1|, b) && At(s3, |s2|, c) && At(s4, |s3|, d)
    ensures At(s5, 0, a) && At(s5, |s1|, b) && At(s5, |s2|, c) && At(s5, |s3|, d)
  {
    hide At;
    AtGrows(s4, s5, |s3|, d);
    AtGrows(s3, s4, |s2|, c);
    AtGrows(s4, s5, |s2|, c);
    AtGrows(s2, s3, |s1|, b);
    AtGrows(s3, s4, |s1|, b);
    AtGrows(s4, s5, |s1|, b);
    PrefixTransitive(s0, s1, s2);
    AtGrows(s0, s2, 0, a);
    AtGrows(s2, s3, 0, a);
    AtGrows(s3, s4, 0, a);
    AtGrows(s4, s5, 0, a);
  }

  lemma MethodsGrow(c: Contents, before: seq<byte>, after: seq<byte>, k: nat)
    requires k <= |c.methods| && MethodsAt(c, before, k) && before <= after
    ensures MethodsAt(c, after, k)
  {
    hide At, BodyBytes, MethodPos;
    forall i | 0 <= i < k && IsCil(c.methods[i]) ensures At(after, MethodPos(c, i), BodyBytes(c.methods[i])) {
      AtGrows(before, after, MethodPos(c, i), BodyBytes(c.methods[i]));
    }
  }

  lemma PutThenPad(before: seq<byte>, item: seq<byte>, after: seq<byte>)
    requires after == Padded(before + item, 4)
    ensures At(after, |before|, item) && before <= after && |after| == AlignUp(|before| + |item|, 4)
  {
    AtEnd(before, item);
    AtGrows(before + item, after, |before|, item);
    PrefixTransitive(before, before + item, after);
  }

  lemma UsWritten(c: Contents)
    ensures UsBytes(c) == if |c.us| == 0 then EMPTY_US else c.us
  {
  }

  lemma MetadataGrows(c: Contents, p: Plan, s: seq<byte>, s0: seq<byte>, s1: seq<byte>, s2: seq<byte>, s3: seq<byte>,
                      s4: seq<byte>, s5: seq<byte>, s6: seq<byte>)
    requires TablesTyped(c) && s <= s0 <= s1 <= s2 <= s3 <= s4 <= s5 <= s6
    requires At(s1, RootPos(c), RootBytes(p.streams)) && At(s2, TablesPos(c), StreamBytes(c.tables, SizesIn(c)))
    requires At(s3, StringsPos(c), c.strings) && At(s4, UsPos(c), UsBytes(c)) && At(s5, GuidPos(c), c.guid)
    requires At(s6, BlobPos(c), c.blob)
    ensures MetadataAt(c, p, s6) && s <= s6
  {
    hide At, StreamBytes, RootBytes, RootPos, TablesPos, StringsPos, UsPos, GuidPos, BlobPos, UsBytes, AllTyped;
    PrefixTransitive(s4, s5, s6);
    PrefixTransitive(s3, s4, s6);
    PrefixTransitive(s2, s3, s6);
    PrefixTransitive(s1, s2, s6);
    PrefixTransitive(s0, s1, s6);
    PrefixTransitive(s, s0, s6);
    AtGrows(s1, s6, RootPos(c), RootBytes(p.streams));
    AtGrows(s2, s6, TablesPos(c), StreamBytes(c.tables, SizesIn(c)));
    AtGrows(s3, s6, StringsPos(c), c.strings);
    AtGrows(s4, s6, UsPos(c), UsBytes(c));
    AtGrows(s5, s6, GuidPos(c), c.guid);
  }

  lemma BackGrows(c: Contents, p: Plan, s0: seq<byte>, s1: seq<byte>, s2: seq<byte>, s3: seq<byte>, s4: seq<byte>,
                  s5: seq<byte>, s6: seq<byte>, s7: seq<byte>)
    requires TablesTyped(c) && s0 <= s1 <= s2 <= s3 <= s4 <= s5 <= s6 <= s7
    requires At(s1, ImportPos(c), ImportDir(p)) && At(s1, NamePos(c), ImportNames(c)) && At(s3, EntryPos(c), EntryStub())
    requires At(s4, SignaturePos(c), Zeros(c.signatureLen)) && At(s6, AlignUp(TextEnd(c), FILE_ALIGN), RelocBytes(p))
    ensures BackAt(c, p, s7) && s0 <= s7
  {
    hide At, ImportDir, ImportNames, EntryStub, RelocBytes, ImportPos, NamePos, EntryPos, SignaturePos, TextEnd, AlignUp,
         AllTyped;
    PrefixTransitive(s5, s6, s7);
    PrefixTransitive(s4, s5, s7);
    PrefixTransitive(s3, s4, s7);
    PrefixTransitive(s2, s3, s7);
    PrefixTransitive(s1, s2, s7);
    PrefixTransitive(s0, s1, s7);
    AtGrows(s1, s7, ImportPos(c), ImportDir(p));
    AtGrows(s1, s7, NamePos(c), ImportNames(c));
    AtGrows(s3, s7, EntryPos(c), EntryStub());
    AtGrows(s4, s7, SignaturePos(c), Zeros(c.signatureLen));
    AtGrows(s6, s7, AlignUp(TextEnd(c), FILE_ALIGN), RelocBytes(p));
  }

  lemma FrontStays(c: Contents, p: Plan, before: seq<byte>, after: seq<byte>)
    requires FrontAt(c, p, before) && before <= after
    ensures FrontAt(c, p, after)
  {
    hide At, HeadersBytes, Cor20Bytes, Le4;
    AtGrows(before, after, 0, HeadersBytes(c, p));
    AtGrows(before, after, TEXT_RAW, Le4(IatWord(p)) + Le4(0));
    AtGrows(before, after, CORE_POS, Cor20Bytes(c, p));
    AtGrows(before, after, AFTER_CORE, c.data);
  }

  lemma MetadataStays(c: Contents, p: Plan, before: seq<byte>, after: seq<byte>)
    requires TablesTyped(c) && MetadataAt(c, p, before) && before <= after
    ensures MetadataAt(c, p, after)
  {
    hide At, StreamBytes, RootBytes, RootPos, TablesPos, StringsPos, UsPos, GuidPos, BlobPos, UsBytes, AllTyped;
    AtGrows(before, after, RootPos(c), RootBytes(p.streams));
    AtGrows(before, after, TablesPos(c), StreamBytes(c.tables, SizesIn(c)));
    AtGrows(before, after, StringsPos(c), c.strings);
    AtGrows(before, after, UsPos(c), UsBytes(c));
    AtGrows(before, after, GuidPos(c), c.guid);
    AtGrows(before, after, BlobPos(c), c.blob);
  }

  lemma SamePlannable(a: Contents, b: Contents)
    requires SameButAddresses(a, b) && forall m :: m in a.methods ==> Plannable(m)
    ensures forall m :: m in b.methods ==> Plannable(m)
  {
    forall m | m in b.methods ensures Plannable(m) {
      var i :| 0 <= i < |b.methods| && b.methods[i] == m;
      assert a.methods[i] in a.methods;
    }
  }
}
