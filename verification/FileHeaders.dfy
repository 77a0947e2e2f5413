// The fields of the PE headers and of the CLI header at the offsets that
// ECMA-335 gives them (sections II.25.2 and II.25.3.3), in the written file.
module FileHeaders {
  import opened Bytes
  import opened MethodBodies
  import opened Tables
  import opened TableStream
  import opened MetadataRoot
  import opened Layout
  import opened PEWriting
  import opened PEReading

  // The 4 and the 2 bytes at a position of the file, as a little-endian number.
  predicate Field4(file: seq<byte>, pos: nat, v: nat) { pos + 4 <= |file| && DWord(file[pos..]) == v }

  predicate Field2(file: seq<byte>, pos: nat, v: nat) { pos + 2 <= |file| && Word(file[pos..]) == v }

  lemma Reads4(file: seq<byte>, pos: nat, item: seq<byte>, k: nat, v: nat)
    requires At(file, pos, item) && v < TWO_32
    requires k + 4 <= |item| && item[k..k + 4] == Le4(v)
    ensures Field4(file, pos + k, v)
  {
    hide Le4, DWord;
    Inside(file, pos, item, k, k + 4);
    ReadLe4(file, pos + k, v);
  }

  lemma Reads2(file: seq<byte>, pos: nat, item: seq<byte>, k: nat, v: nat)
    requires At(file, pos, item) && v < TWO_16
    requires k + 2 <= |item| && item[k..k + 2] == Le2(v)
    ensures Field2(file, pos + k, v)
  {
    hide Le2, Word;
    Inside(file, pos, item, k, k + 2);
    ReadLe2(file, pos + k, v);
  }

  // Values that fit the 4 bytes they are written in.
  predicate Storable(c: Contents, p: Plan) {
    && c.time < TWO_32 && c.corFlags < TWO_32 && c.entryToken < TWO_32 && c.signatureLen < TWO_32
    && p.metaRoot < TWO_32 && p.metaSize < TWO_32 && p.signatureRva < TWO_32
    && p.importRva < TWO_32 && p.importSize < TWO_32 && p.entryPoint < TWO_32
    && p.textRawSize < TWO_32 && p.relocRva < TWO_32 && p.imageSize < TWO_32
  }

  // The signature and the file header of section II.25.2.2.
  predicate FileHeaderIsStandard(c: Contents, file: seq<byte>) {
    && Field4(file, 128, 0x4550) && Field2(file, 132, 0x14c) && Field2(file, 134, 2) && Field4(file, 136, c.time)
    && Field2(file, 148, 0xe0) && Field2(file, 150, if c.dll then 0x2002 else 0x0002)
  }

  lemma FileHeaderReads(c: Contents, file: seq<byte>)
    requires At(file, 128, CoffBytes(c)) && c.time < TWO_32
    ensures FileHeaderIsStandard(c, file)
  {
    hide At, Le2, Le4, Zeros, Field2, Field4;
    var bytes, flags := CoffBytes(c), if c.dll then 0x2002 else 2;
    assert bytes == Le4(0x4550) + Le2(0x14c) + Le2(2) + (Le4(c.time) + Zeros(8)) + Le2(0xe0) + Le2(flags);
    assert bytes[0..4] == Le4(0x4550) && bytes[4..6] == Le2(0x14c) && bytes[6..8] == Le2(2) && bytes[8..12] == Le4(c.time);
    assert bytes[20..22] == Le2(0xe0) && bytes[22..24] == Le2(flags);
    hide CoffBytes;
    Reads4(file, 128, bytes, 0, 0x4550);
    Reads2(file, 128, bytes, 4, 0x14c);
    Reads2(file, 128, bytes, 6, 2);
    Reads4(file, 128, bytes, 8, c.time);
    Reads2(file, 128, bytes, 20, 0xe0);
    Reads2(file, 128, bytes, 22, flags);
  }

  // The standard fields of section II.25.2.3.1.
  predicate StandardFieldsHold(p: Plan, file: seq<byte>) {
    && Field2(file, 152, 0x10b) && Field4(file, 156, p.textRawSize) && Field4(file, 160, 0x200) && Field4(file, 164, 0)
    && Field4(file, 168, p.entryPoint) && Field4(file, 172, 0x2000) && Field4(file, 176, p.relocRva)
  }

  lemma StandardFieldsRead(p: Plan, file: seq<byte>)
    requires At(file, 152, StandardFields(p)) && p.textRawSize < TWO_32 && p.entryPoint < TWO_32 && p.relocRva < TWO_32
    ensures StandardFieldsHold(p, file)
  {
    hide At, Le2, Le4, Field2, Field4;
    var bytes := StandardFields(p);
    assert bytes[0..2] == Le2(0x10b) && bytes[4..8] == Le4(p.textRawSize);
    assert bytes[8..12] == Le4(0x200) && bytes[12..16] == Le4(0);
    assert bytes[16..20] == Le4(p.entryPoint) && bytes[20..24] == Le4(0x2000) && bytes[24..28] == Le4(p.relocRva);
    hide StandardFields;
    Reads2(file, 152, bytes, 0, 0x10b);
    Reads4(file, 152, bytes, 4, p.textRawSize);
    Reads4(file, 152, bytes, 8, 0x200);
    Reads4(file, 152, bytes, 12, 0);
    Reads4(file, 152, bytes, 16, p.entryPoint);
    Reads4(file, 152, bytes, 20, 0x2000);
    Reads4(file, 152, bytes, 24, p.relocRva);
  }

  // The fields of section II.25.2.3.2.
  predicate ImageFieldsHold(p: Plan, file: seq<byte>) {
    && Field4(file, 180, 0x40_0000) && Field4(file, 184, 0x2000) && Field4(file, 188, 0x200)
    && Field4(file, 208, p.imageSize) && Field4(file, 212, 0x200) && Field4(file, 216, 0)
  }

  lemma ImageFieldsRead(p: Plan, file: seq<byte>)
    requires At(file, 180, ImageFields(p)) && p.imageSize < TWO_32
    ensures ImageFieldsHold(p, file)
  {
    hide At, Le2, Le4, Zeros, Field4;
    var bytes := ImageFields(p);
    assert bytes[0..4] == Le4(0x40_0000) && bytes[4..8] == Le4(0x2000) && bytes[8..12] == Le4(0x200);
    assert bytes[28..32] == Le4(p.imageSize) && bytes[32..36] == Le4(0x200) && bytes[36..40] == Le4(0);
    hide ImageFields;
    Reads4(file, 180, bytes, 0, 0x40_0000);
    Reads4(file, 180, bytes, 4, 0x2000);
    Reads4(file, 180, bytes, 8, 0x200);
    Reads4(file, 180, bytes, 28, p.imageSize);
    Reads4(file, 180, bytes, 32, 0x200);
    Reads4(file, 180, bytes, 36, 0);
  }

  predicate StackFieldsHold(c: Contents, file: seq<byte>) {
    && Field2(file, 220, if c.gui then 2 else 3)
    && Field4(file, 224, 0x10_0000) && Field4(file, 228, 0x1000) && Field4(file, 232, 0x10_0000) && Field4(file, 236, 0x1000)
    && Field4(file, 240, 0) && Field4(file, 244, 16)
  }

  lemma StackFieldsRead(c: Contents, file: seq<byte>)
    requires At(file, 220, StackFields(c))
    ensures StackFieldsHold(c, file)
  {
    hide At, Le2, Le4, Field2, Field4;
    var bytes := StackFields(c);
    assert bytes[0..2] == Le2(if c.gui then 2 else 3);
    assert bytes[4..8] == Le4(0x10_0000) && bytes[8..12] == Le4(0x1000);
    assert bytes[12..16] == Le4(0x10_0000) && bytes[16..20] == Le4(0x1000);
    assert bytes[20..24] == Le4(0) && bytes[24..28] == Le4(16);
    hide StackFields;
    Reads2(file, 220, bytes, 0, if c.gui then 2 else 3);
    Reads4(file, 220, bytes, 4, 0x10_0000);
    Reads4(file, 220, bytes, 8, 0x1000);
    Reads4(file, 220, bytes, 12, 0x10_0000);
    Reads4(file, 220, bytes, 16, 0x1000);
    Reads4(file, 220, bytes, 20, 0);
    Reads4(file, 220, bytes, 24, 16);
  }

  lemma OptionalHeaderReads(c: Contents, p: Plan, file: seq<byte>)
    requires At(file, 152, OptionalBytes(c, p)) && Storable(c, p)
    ensures StandardFieldsHold(p, file) && ImageFieldsHold(p, file) && StackFieldsHold(c, file)
  {
    hide At, StandardFields, ImageFields, StackFields, StandardFieldsHold, ImageFieldsHold, StackFieldsHold;
    AtPart(file, 152, StandardFields(p) + ImageFields(p), StackFields(c));
    AtPart(file, 152, StandardFields(p), ImageFields(p));
    StandardFieldsRead(p, file);
    ImageFieldsRead(p, file);
    StackFieldsRead(c, file);
  }

  // The directories of section II.25.2.3.3: imports, relocations, import
  // addresses and the CLI header.
  predicate DirectoriesAreStandard(p: Plan, file: seq<byte>) {
    && Field4(file, 256, p.importRva) && Field4(file, 260, p.importSize)
    && Field4(file, 288, p.relocRva) && Field4(file, 292, 12)
    && Field4(file, 344, 0x2000) && Field4(file, 348, 8)
    && Field4(file, 360, 0x2008) && Field4(file, 364, 72)
  }

  lemma DirectoriesRead(p: Plan, file: seq<byte>)
    requires At(file, 248, DirectoryBytes(p)) && p.importRva < TWO_32 && p.importSize < TWO_32 && p.relocRva < TWO_32
    ensures DirectoriesAreStandard(p, file)
  {
    hide At, Le4, Zeros, Field4;
    var bytes := DirectoryBytes(p);
    assert bytes[8..12] == Le4(p.importRva) && bytes[12..16] == Le4(p.importSize);
    assert bytes[40..44] == Le4(p.relocRva) && bytes[44..48] == Le4(12);
    assert bytes[96..100] == Le4(0x2000) && bytes[100..104] == Le4(8);
    assert bytes[112..116] == Le4(0x2008) && bytes[116..120] == Le4(72);
    hide DirectoryBytes;
    Reads4(file, 248, bytes, 8, p.importRva);
    Reads4(file, 248, bytes, 12, p.importSize);
    Reads4(file, 248, bytes, 40, p.relocRva);
    Reads4(file, 248, bytes, 44, 12);
    Reads4(file, 248, bytes, 96, 0x2000);
    Reads4(file, 248, bytes, 100, 8);
    Reads4(file, 248, bytes, 112, 0x2008);
    Reads4(file, 248, bytes, 116, 72);
  }

  // The fields of section II.25.3.3, with the CLI header at position 520.
  predicate CliHeaderIsStandard(c: Contents, p: Plan, file: seq<byte>) {
    && Field4(file, 520, 72) && Field2(file, 524, 2) && Field2(file, 526, 5)
    && Field4(file, 528, p.metaRoot) && Field4(file, 532, p.metaSize)
    && Field4(file, 536, c.corFlags) && Field4(file, 540, c.entryToken)
    && Field4(file, 552, if c.signatureLen > 0 then p.signatureRva else 0) && Field4(file, 556, c.signatureLen)
  }

  lemma CliHeaderReads(c: Contents, p: Plan, file: seq<byte>)
    requires At(file, 520, Cor20Bytes(c, p)) && Storable(c, p)
    ensures CliHeaderIsStandard(c, p, file)
  {
    hide At, Le2, Le4, Zeros, Field2, Field4;
    var bytes := Cor20Bytes(c, p);
    var signature := if c.signatureLen > 0 then p.signatureRva else 0;
    assert bytes[0..4] == Le4(72) && bytes[4..6] == Le2(2) && bytes[6..8] == Le2(5) && bytes[8..12] == Le4(p.metaRoot);
    assert bytes[12..16] == Le4(p.metaSize) && bytes[16..20] == Le4(c.corFlags) && bytes[20..24] == Le4(c.entryToken);
    assert bytes[32..36] == Le4(signature) && bytes[36..40] == Le4(c.signatureLen);
    hide Cor20Bytes;
    Reads4(file, 520, bytes, 0, 72);
    Reads2(file, 520, bytes, 4, 2);
    Reads2(file, 520, bytes, 6, 5);
    Reads4(file, 520, bytes, 8, p.metaRoot);
    Reads4(file, 520, bytes, 12, p.metaSize);
    Reads4(file, 520, bytes, 16, c.corFlags);
    Reads4(file, 520, bytes, 20, c.entryToken);
    Reads4(file, 520, bytes, 32, signature);
    Reads4(file, 520, bytes, 36, c.signatureLen);
  }

  // In an image below 4 GB every planned number can be stored.
  lemma SmallImageIsStorable(c: Contents, p: Plan)
    requires TablesTyped(c) && InSync(c, p) && p.imageSize < TWO_32
    requires c.time < TWO_32 && c.corFlags < TWO_32 && c.entryToken < TWO_32
    ensures Storable(c, p)
  {
    hide StreamsInSync, AllTyped, AlignUp, MethodsEnd, DataEnd, StreamBytes, SizesIn, UsBytes;
    PositionsRise(c);
    SectionsRise(TextEnd(c));
    ImportsInText(c);
    assert SignaturePos(c) + c.signatureLen == TextEnd(c);
  }

  // What stands where the section table puts the address in a header field.
  ghost predicate LeadsTo(p: Plan, file: seq<byte>, field: nat, item: seq<byte>) {
    && field + 4 <= |file|
    && var at := LocationFrom(Objects(p), DWord(file[field..]), 0);
       at >= 0 && At(file, at, item)
  }

  lemma Leads(p: Plan, file: seq<byte>, field: nat, rva: nat, at: nat, item: seq<byte>)
    requires Field4(file, field, rva) && LocationFrom(Objects(p), rva, 0) == at && At(file, at, item)
    ensures LeadsTo(p, file, field, item)
  {
    hide At, LocationFrom, Objects, DWord;
  }

  // Every reader that follows the standard finds the values of the contents
  // and of the plan in the fields named for them.
  lemma HeadersAreStandard(c: Contents, p: Plan, file: seq<byte>)
    requires At(file, 0, HeadersBytes(c, p)) && At(file, 520, Cor20Bytes(c, p)) && Storable(c, p)
    ensures FileHeaderIsStandard(c, file)
    ensures StandardFieldsHold(p, file) && ImageFieldsHold(p, file) && StackFieldsHold(c, file)
    ensures DirectoriesAreStandard(p, file) && CliHeaderIsStandard(c, p, file)
  {
    hide At, HeadersBytes, CoffBytes, OptionalBytes, DirectoryBytes, ObjectBytes, Cor20Bytes, FileHeaderIsStandard,
         StandardFieldsHold, ImageFieldsHold, StackFieldsHold, DirectoriesAreStandard, CliHeaderIsStandard;
    HeaderPieces(c, p, file);
    FileHeaderReads(c, file);
    OptionalHeaderReads(c, p, file);
    DirectoriesRead(p, file);
    CliHeaderReads(c, p, file);
  }

  // Following the addresses of the entry point, of the imports, of the
  // relocations, of the CLI header, of the metadata and of the signature from
  // these fields comes to the stub, to the directory, to the fixup, to the
  // header, to the root and to the room for the signature.
  lemma AddressesLead(c: Contents, p: Plan, file: seq<byte>)
    requires TablesTyped(c) && InSync(c, p) && Emitted(c, p, file) && Storable(c, p)
    ensures LeadsTo(p, file, 168, EntryStub()) && LeadsTo(p, file, 256, ImportDir(p))
    ensures LeadsTo(p, file, 288, RelocBytes(p)) && LeadsTo(p, file, 360, Cor20Bytes(c, p))
    ensures LeadsTo(p, file, 528, RootBytes(p.streams))
    ensures c.signatureLen > 0 ==> LeadsTo(p, file, 552, Zeros(c.signatureLen))
  {
    hide At, InSync, Emitted, AllTyped, HeadersBytes, Cor20Bytes, RootBytes, ImportDir, EntryStub, RelocBytes, Zeros,
         LocationFrom, SignaturePos, ImportPos, EntryPos, RootPos, LeadsTo, Field2, Field4, Objects;
    FromEmitted(c, p, file);
    HeadersAreStandard(c, p, file);
    RootInSync(c, p);
    PartAddresses(c, p);
    Leads(p, file, 168, p.entryPoint, EntryPos(c), EntryStub());
    Leads(p, file, 256, p.importRva, ImportPos(c), ImportDir(p));
    Leads(p, file, 288, p.relocRva, p.relocRaw, RelocBytes(p));
    Leads(p, file, 360, 0x2008, 520, Cor20Bytes(c, p));
    Leads(p, file, 528, p.metaRoot, RootPos(c), RootBytes(p.streams));
    if c.signatureLen > 0 {
      Leads(p, file, 552, p.signatureRva, SignaturePos(c), Zeros(c.signatureLen));
    }
  }

  // The import directory table and the import lookup table of section
  // II.25.3.1, with the directory at position at.
  predicate ImportsAreStandard(p: Plan, file: seq<byte>, at: nat) {
    && Field4(file, at, p.importRva + 40) && Field4(file, at + 12, MainName(p) + 14)
    && Field4(file, at + 16, 0x2000) && Field4(file, at + 40, MainName(p)) && Field4(file, at + 44, 0)
  }

  lemma ImportsRead(p: Plan, file: seq<byte>, at: nat)
    requires At(file, at, ImportDir(p)) && p.importRva + 40 < TWO_32 && MainName(p) + 14 < TWO_32
    ensures ImportsAreStandard(p, file, at)
  {
    hide At, MainName, Field4, Le4, Zeros;
    var head := Le4(p.importRva + 40) + Zeros(8) + Le4(MainName(p) + 14) + Le4(TEXT_RVA);
    var tail := Le4(MainName(p)) + Le4(0);
    assert ImportDir(p) == head + Zeros(20) + tail;
    hide ImportDir;
    AtPart(file, at, head + Zeros(20), tail);
    AtPart(file, at, head, Zeros(20));
    assert head[0..4] == Le4(p.importRva + 40) && head[12..16] == Le4(MainName(p) + 14) && head[16..20] == Le4(0x2000);
    assert tail[0..4] == Le4(MainName(p)) && tail[4..8] == Le4(0);
    Reads4(file, at, head, 0, p.importRva + 40);
    Reads4(file, at, head, 12, MainName(p) + 14);
    Reads4(file, at, head, 16, 0x2000);
    Reads4(file, at + 40, tail, 0, MainName(p));
    Reads4(file, at + 40, tail, 4, 0);
  }

  // The words of the import directory lead to the name of the library and to
  // that of the function, behind its hint.
  lemma ImportsLead(c: Contents, p: Plan, file: seq<byte>)
    requires TablesTyped(c) && InSync(c, p) && Emitted(c, p, file) && p.imageSize < TWO_32
    ensures ImportsAreStandard(p, file, ImportPos(c))
    ensures LeadsTo(p, file, ImportPos(c) + 12, MSCOREE)
    ensures LeadsTo(p, file, ImportPos(c) + 40, [0, 0] + if c.dll then DLL_MAIN else EXE_MAIN)
  {
    hide At, InSync, Emitted, AllTyped, HeadersBytes, Cor20Bytes, RootBytes, ImportDir, EntryStub, Zeros, LocationFrom,
         SignaturePos, ImportPos, EntryPos, NamePos, RootPos, LeadsTo, Field4, Objects, MainName;
    FromEmitted(c, p, file);
    NamesInImage(c, p);
    NameAddress(c, p);
    ImportSpan(c, p);
    ImportsRead(p, file, ImportPos(c));
    var main := [0, 0] + if c.dll then DLL_MAIN else EXE_MAIN;
    AtPart(file, NamePos(c), main, MSCOREE);
    Leads(p, file, ImportPos(c) + 12, MainName(p) + 14, NamePos(c) + 14, MSCOREE);
    Leads(p, file, ImportPos(c) + 40, MainName(p), NamePos(c), main);
  }

  lemma NamesInImage(c: Contents, p: Plan)
    requires TablesTyped(c) && InSync(c, p)
    ensures p.importRva + 40 < p.imageSize && MainName(p) + 14 < p.imageSize
  {
    hide StreamsInSync, AllTyped, AlignUp, MethodsEnd, DataEnd, StreamBytes, SizesIn, UsBytes, ImportPos, NamePos, EntryPos,
         SignaturePos, TextEnd, MainName, RootPos, TablesPos, StringsPos, UsPos, GuidPos, BlobPos;
    PositionsRise(c);
    NameAddress(c, p);
    SectionsRise(TextEnd(c));
  }

  // The fixup of section II.25.3.2: one entry of type 3, that of a 32-bit
  // address, for the operand of the jump in the entry stub.
  lemma FixupIsStandard(p: Plan, file: seq<byte>, at: nat)
    requires At(file, at, RelocBytes(p)) && p.entryPoint + 2 < TWO_32
    ensures at + 10 <= |file|
    ensures var page, entry := DWord(file[at..]), Word(file[at + 8..]);
            && page % 0x1000 == 0 && entry / 0x1000 == 3 && page + entry % 0x1000 == p.entryPoint + 2
            && Field4(file, at + 4, 12)
  {
    hide At, Le2, Le4, Field2, Field4;
    var n := p.entryPoint + 2;
    var page, entry := n - n % 0x1000, 0x3000 + n % 0x1000;
    var bytes := RelocBytes(p);
    assert bytes == Le4(page) + Le4(12) + Le2(entry);
    hide RelocBytes;
    assert bytes[0..4] == Le4(page) && bytes[4..8] == Le4(12) && bytes[8..10] == Le2(entry);
    Reads4(file, at, bytes, 0, page);
    Reads4(file, at, bytes, 4, 12);
    Reads2(file, at, bytes, 8, entry);
    assert DWord(file[at..]) == page && Word(file[at + 8..]) == entry && at + 10 <= |file| by {
      hide *;
      FieldValue4(file, at, page);
      FieldValue2(file, at + 8, entry);
    }
    PageAndRest(n);
  }

  lemma FieldValue4(file: seq<byte>, pos: nat, v: nat)
    requires Field4(file, pos, v)
    ensures pos + 4 <= |file| && DWord(file[pos..]) == v
  {
  }

  lemma FieldValue2(file: seq<byte>, pos: nat, v: nat)
    requires Field2(file, pos, v)
    ensures pos + 2 <= |file| && Word(file[pos..]) == v
  {
  }

  lemma PageAndRest(n: nat)
    ensures (n - n % 0x1000) % 0x1000 == 0
    ensures (0x3000 + n % 0x1000) / 0x1000 == 3 && (0x3000 + n % 0x1000) % 0x1000 == n % 0x1000
  {
  }

  // The stub is an indirect jump through the first word of the import address
  // table, at the address the image base and the directory of that table give.
  lemma StubIsStandard(c: Contents, p: Plan, file: seq<byte>, at: nat)
    requires At(file, at, EntryStub()) && ImageFieldsHold(p, file) && DirectoriesAreStandard(p, file)
    ensures at + 6 <= |file| && file[at] == 0xff && file[at + 1] == 0x25
    ensures Field4(file, at + 2, DWord(file[180..]) + DWord(file[344..]))
  {
    FieldValue4(file, 180, 0x40_0000);
    FieldValue4(file, 344, 0x2000);
    hide Field4, Le4, Word, DWord;
    var bytes := EntryStub();
    assert bytes[2..6] == Le4(0x40_2000);
    assert bytes[0] == 0xff && bytes[1] == 0x25;
    hide EntryStub;
    Reads4(file, at, bytes, 2, 0x40_2000);
    assert file[at..at + 6] == bytes;
  }

  // The metadata root and the stream headers of sections II.24.2.1 and
  // II.24.2.2, with the root at position at.
  ghost predicate RootIsStandard(p: Plan, file: seq<byte>, at: nat) {
    && Field4(file, at, 0x424A5342) && Field2(file, at + 4, 1) && Field2(file, at + 6, 1) && Field4(file, at + 8, 0)
    && Field4(file, at + 12, 12) && At(file, at + 16, [0x76, 0x34, 0x2e, 0x30, 0x2e, 0x33, 0x30, 0x33, 0x31, 0x39, 0, 0])
    && Field2(file, at + 28, 0) && Field2(file, at + 30, 5)
    && StreamHeaderAt(file, at + 32, p.streams[0], [0x23, 0x7e, 0, 0])
    && StreamHeaderAt(file, at + 44, p.streams[1], [0x23, 0x53, 0x74, 0x72, 0x69, 0x6e, 0x67, 0x73, 0, 0, 0, 0])
    && StreamHeaderAt(file, at + 64, p.streams[2], [0x23, 0x55, 0x53, 0])
    && StreamHeaderAt(file, at + 76, p.streams[3], [0x23, 0x47, 0x55, 0x49, 0x44, 0, 0, 0])
    && StreamHeaderAt(file, at + 92, p.streams[4], [0x23, 0x42, 0x6c, 0x6f, 0x62, 0, 0, 0])
  }

  // Offset, size and name, padded to a multiple of 4 bytes.
  ghost predicate StreamHeaderAt(file: seq<byte>, at: nat, e: Extent, name: seq<byte>) {
    Field4(file, at, e.offset) && Field4(file, at + 4, e.size) && At(file, at + 8, name)
  }

  lemma StreamHeaderReads(file: seq<byte>, at: nat, e: Extent, name: seq<byte>)
    requires At(file, at, Le4(e.offset) + Le4(e.size) + name) && e.offset < TWO_32 && e.size < TWO_32
    ensures StreamHeaderAt(file, at, e, name)
  {
    hide At, Le4, Field4;
    var fixed := Le4(e.offset) + Le4(e.size);
    AtPart(file, at, fixed, name);
    assert fixed[0..4] == Le4(e.offset) && fixed[4..8] == Le4(e.size);
    Reads4(file, at, fixed, 0, e.offset);
    Reads4(file, at, fixed, 4, e.size);
  }

  // A header is the name and between one and four zero bytes.
  lemma HeaderIs(e: Extent, name: seq<byte>, n: nat)
    requires 0 < n <= 4 && (|name| + n) % 4 == 0
    ensures StreamHeader(e, name) == Le4(e.offset) + Le4(e.size) + (name + Zeros(n))
  {
    hide Le4;
    assert Zeros(n) == [0] + Zeros(n - 1);
    var bare := Le4(e.offset) + Le4(e.size) + name + [0];
    assert |bare| == 9 + |name|;
    assert Padded(bare, 4) == bare + Zeros(n - 1);
  }

  lemma NamesArePadded()
    ensures [0x23, 0x7e, 0, 0] == TILDE + Zeros(2)
    ensures [0x23, 0x53, 0x74, 0x72, 0x69, 0x6e, 0x67, 0x73, 0, 0, 0, 0] == STRINGS + Zeros(4)
    ensures [0x23, 0x55, 0x53, 0] == MetadataRoot.US + Zeros(1)
    ensures [0x23, 0x47, 0x55, 0x49, 0x44, 0, 0, 0] == MetadataRoot.GUID + Zeros(3)
    ensures [0x23, 0x42, 0x6c, 0x6f, 0x62, 0, 0, 0] == BLOB + Zeros(3)
  {
  }

  lemma RootHeadReads(file: seq<byte>, at: nat)
    requires At(file, at, RootHead())
    ensures Field4(file, at, 0x424A5342) && Field2(file, at + 4, 1) && Field2(file, at + 6, 1) && Field4(file, at + 8, 0)
    ensures Field4(file, at + 12, 12) && At(file, at + 16, [0x76, 0x34, 0x2e, 0x30, 0x2e, 0x33, 0x30, 0x33, 0x31, 0x39, 0, 0])
    ensures Field2(file, at + 28, 0) && Field2(file, at + 30, 5)
  {
    hide Le2, Le4, At, Field2, Field4;
    var version: seq<byte> := [0x76, 0x34, 0x2e, 0x30, 0x2e, 0x33, 0x30, 0x33, 0x31, 0x39, 0, 0];
    var head := Le4(0x424A5342) + Le2(1) + Le2(1) + Le4(0) + Le4(12);
    var tail := Le2(0) + Le2(5);
    assert version == VERSION + [0];
    assert RootHead() == head + VERSION + [0] + tail == head + version + tail;
    hide RootHead;
    AtPart(file, at, head + version, tail);
    AtPart(file, at, head, version);
    assert head[0..4] == Le4(0x424A5342) && head[4..6] == Le2(1) && head[6..8] == Le2(1);
    assert head[8..12] == Le4(0);
    assert head[12..16] == Le4(12) by { assert head == head[..12] + Le4(12); }
    assert tail[0..2] == Le2(0) && tail[2..4] == Le2(5);
    Reads4(file, at, head, 0, 0x424A5342);
    Reads2(file, at, head, 4, 1);
    Reads2(file, at, head, 6, 1);
    Reads4(file, at, head, 8, 0);
    Reads4(file, at, head, 12, 12);
    Reads2(file, at + 28, tail, 0, 0);
    Reads2(file, at + 28, tail, 2, 5);
  }

  lemma RootHeaderIsStandard(p: Plan, file: seq<byte>, at: nat)
    requires At(file, at, RootBytes(p.streams))
    requires forall k :: 0 <= k < 5 ==> p.streams[k].offset < TWO_32 && p.streams[k].size < TWO_32
    ensures RootIsStandard(p, file, at)
  {
    var s := p.streams;
    RootPieces(s, file, at);
    NamesArePadded();
    HeaderIs(s[0], TILDE, 2);
    HeaderIs(s[1], STRINGS, 4);
    HeaderIs(s[2], MetadataRoot.US, 1);
    HeaderIs(s[3], MetadataRoot.GUID, 3);
    HeaderIs(s[4], BLOB, 3);
    hide At, Field2, Field4, Le4, Zeros, RootHead, StreamHeader, StreamHeaderAt, RootBytes;
    RootHeadReads(file, at);
    StreamHeaderReads(file, at + 32, s[0], TILDE + Zeros(2));
    StreamHeaderReads(file, at + 44, s[1], STRINGS + Zeros(4));
    StreamHeaderReads(file, at + 64, s[2], MetadataRoot.US + Zeros(1));
    StreamHeaderReads(file, at + 76, s[3], MetadataRoot.GUID + Zeros(3));
    StreamHeaderReads(file, at + 92, s[4], BLOB + Zeros(3));
  }

  lemma RootPieces(s: Streams, file: seq<byte>, at: nat)
    requires At(file, at, RootBytes(s))
    ensures At(file, at, RootHead())
    ensures At(file, at + 32, StreamHeader(s[0], TILDE)) && At(file, at + 44, StreamHeader(s[1], STRINGS))
    ensures At(file, at + 64, StreamHeader(s[2], MetadataRoot.US)) && At(file, at + 76, StreamHeader(s[3], MetadataRoot.GUID))
    ensures At(file, at + 92, StreamHeader(s[4], BLOB))
  {
    hide At, RootHead, HeadersFrom, StreamHeader;
    AtPart(file, at, RootHead(), HeadersFrom(s, 0));
    OneHeader(s, file, at + 32, 0);
    OneHeader(s, file, at + 44, 1);
    OneHeader(s, file, at + 64, 2);
    OneHeader(s, file, at + 76, 3);
    OneHeader(s, file, at + 92, 4);
  }

  lemma OneHeader(s: Streams, file: seq<byte>, at: nat, k: nat)
    requires k < 5 && At(file, at, HeadersFrom(s, k))
    ensures var header := StreamHeader(s[k], StreamName(k)); At(file, at, header) && At(file, at + |header|, HeadersFrom(s, k + 1))
  {
    hide At, StreamHeader, StreamName;
    AtPart(file, at, StreamHeader(s[k], StreamName(k)), HeadersFrom(s, k + 1));
  }

  lemma FromEmitted(c: Contents, p: Plan, file: seq<byte>)
    requires TablesTyped(c) && Emitted(c, p, file)
    ensures At(file, 0, HeadersBytes(c, p)) && At(file, 520, Cor20Bytes(c, p))
    ensures At(file, RootPos(c), RootBytes(p.streams)) && At(file, ImportPos(c), ImportDir(p))
    ensures At(file, EntryPos(c), EntryStub()) && At(file, SignaturePos(c), Zeros(c.signatureLen))
    ensures At(file, NamePos(c), ImportNames(c)) && At(file, AlignUp(TextEnd(c), FILE_ALIGN), RelocBytes(p))
  {
    hide At, AllTyped, HeadersBytes, Cor20Bytes, RootBytes, EntryStub, ImportDir, Zeros, ImportPos, SignaturePos, EntryPos, RootPos,
         MethodsAt, StreamBytes, SizesIn, UsBytes, RelocBytes, AlignUp, TextEnd, NamePos, TablesPos, StringsPos, UsPos, GuidPos, BlobPos;
  }

  // The fixup lies behind the text in memory, at the start of its own section.
  lemma RelocLocation(c: Contents, p: Plan)
    requires TablesTyped(c) && InSync(c, p)
    ensures LocationFrom(Objects(p), p.relocRva, 0) == p.relocRaw == AlignUp(TextEnd(c), FILE_ALIGN)
  {
    hide AllTyped, AlignUp, StreamsInSync, TextEnd, RootPos, ImportPos, NamePos, EntryPos, SignaturePos;
    SectionsRise(TextEnd(c));
    var objects := Objects(p);
    assert objects[1] == PEObject(12, p.relocRva, 0x200, p.relocRaw);
    assert objects[0].virtualAddr + objects[0].virtualSize <= p.relocRva by { ImportsInText(c); RootInText(c); }
    assert LocationFrom(objects, p.relocRva, 1) == p.relocRaw;
  }

  lemma PartAddresses(c: Contents, p: Plan)
    requires TablesTyped(c) && InSync(c, p)
    ensures LocationFrom(Objects(p), p.importRva, 0) == ImportPos(c)
    ensures LocationFrom(Objects(p), p.entryPoint, 0) == EntryPos(c)
    ensures LocationFrom(Objects(p), p.relocRva, 0) == p.relocRaw == AlignUp(TextEnd(c), FILE_ALIGN)
    ensures c.signatureLen > 0 ==> LocationFrom(Objects(p), p.signatureRva, 0) == SignaturePos(c)
  {
    hide AllTyped, AlignUp, MethodsEnd, DataEnd, StreamBytes, SizesIn, UsBytes, LocationFrom, StreamsInSync;
    RootInText(c);
    ImportsInText(c);
    ImportSpan(c, p);
    RelocLocation(c, p);
    TextLocation(c, p, ImportPos(c));
    if c.signatureLen > 0 {
      PositionsRise(c);
      TextLocation(c, p, SignaturePos(c));
    }
  }
}
