// The PE reader: finding things again by address, in the file the writer made.
module PEReading {
  import opened Bytes
  import opened MethodBodies
  import opened Tables
  import opened TableStream
  import opened MetadataRoot
  import opened Layout
  import opened PEWriting

  // ---- The reader ----

  function ReadObject(file: seq<byte>, at: nat): PEObject
    requires at + 40 <= |file|
  {
    PEObject(DWord(file[at + 8..]), DWord(file[at + 12..]), DWord(file[at + 16..]), DWord(file[at + 20..]))
  }

  function ReadObjects(file: seq<byte>, at: nat, n: nat): seq<PEObject>
    requires at + 40 * n <= |file|
    decreases n
  {
    if n == 0 then [] else [ReadObject(file, at)] + ReadObjects(file, at + 40, n - 1)
  }

  // The position of the PE header and the section table behind it.
  function PELocation(file: seq<byte>): Option<(nat, seq<PEObject>)> {
    if |file| < 0x40 || Word(file) != 0x5A4D then None
    else
      var pe := DWord(file[0x3c..]);
      if pe + 248 > |file| || Word(file[pe..]) != 0x4550 then None
      else if Word(file[pe + 24..]) != 0x10b || Word(file[pe + 20..]) != 0xe0 then None
      else
        var n := Word(file[pe + 6..]);
        if pe + 248 + 40 * n > |file| then None else Some((pe, ReadObjects(file, pe + 248, n)))
  }

  // The position of an address in the first of the sections that holds it,
  // from the i-th on; 0 when none does.
  function LocationFrom(objects: seq<PEObject>, rva: nat, i: nat): int
    requires i <= |objects|
    decreases |objects| - i
  {
    if i == |objects| then 0
    else if objects[i].virtualAddr <= rva < objects[i].virtualAddr + objects[i].virtualSize then
      rva - objects[i].virtualAddr + objects[i].rawPtr
    else LocationFrom(objects, rva, i + 1)
  }

  method RVAToFileLocation(objects: seq<PEObject>, rva: nat) returns (location: int)
    ensures location == LocationFrom(objects, rva, 0)
  {
    var i := 0;
    while i < |objects|
      invariant i <= |objects| && LocationFrom(objects, rva, 0) == LocationFrom(objects, rva, i)
    {
      if rva >= objects[i].virtualAddr && rva < objects[i].virtualAddr + objects[i].virtualSize {
        return rva - objects[i].virtualAddr + objects[i].rawPtr;
      }
      i := i + 1;
    }
    return 0;
  }

  // The address of the CLI header and that of the metadata root.
  function Cor20Location(file: seq<byte>, pe: nat, objects: seq<PEObject>): Option<(nat, nat)> {
    if pe + 248 > |file| then None
    else
      var offs, size := DWord(file[pe + 232..]), DWord(file[pe + 236..]);
      var cor20 := LocationFrom(objects, offs, 0);
      if cor20 < 0 || cor20 + 72 > |file| then None
      else if DWord(file[cor20..]) != size || Word(file[cor20 + 4..]) != 2 || Word(file[cor20 + 6..]) != 5 then None
      else
        var root := DWord(file[cor20 + 8..]);
        var meta := LocationFrom(objects, root, 0);
        if meta < 0 || meta + 12 > |file| then None
        else if DWord(file[meta..]) != 0x424A5342 || Word(file[meta + 4..]) != 1 || Word(file[meta + 6..]) != 1 then None
        else Some((offs, root))
  }

  // Address and size of a stream, looked for in 512 bytes at the root.
  function FileStream(file: seq<byte>, objects: seq<PEObject>, root: nat, name: seq<byte>): (nat, nat) {
    var meta := LocationFrom(objects, root, 0);
    if meta < 0 || meta > |file| then (0, 0)
    else StreamAt(file[meta..if meta + 512 <= |file| then meta + 512 else |file|], root, name)
  }

  ghost function LoadTables(file: seq<byte>, objects: seq<PEObject>, root: nat): ReadResult {
    var (tilde, size) := FileStream(file, objects, root, TILDE);
    var at := LocationFrom(objects, tilde, 0);
    if at < 0 || at + size > |file| then Truncated
    else ReadStream(file[at..at + size], FileStream(file, objects, root, STRINGS).1,
                    FileStream(file, objects, root, MetadataRoot.US).1,
                    FileStream(file, objects, root, MetadataRoot.GUID).1, FileStream(file, objects, root, BLOB).1)
  }

  // ---- Reading what stands at a position ----

  lemma AtPart(file: seq<byte>, pos: nat, a: seq<byte>, b: seq<byte>)
    requires At(file, pos, a + b)
    ensures At(file, pos, a) && At(file, pos + |a|, b)
  {
    Inside(file, pos, a + b, 0, |a|);
    Inside(file, pos, a + b, |a|, |a| + |b|);
    assert (a + b)[0..|a|] == a && (a + b)[|a|..|a| + |b|] == b;
  }

  lemma AtWord(file: seq<byte>, pos: nat, v: nat)
    requires At(file, pos, Le2(v)) && v < TWO_16
    ensures pos + 2 <= |file| && Word(file[pos..]) == v
  {
    ReadLe2(file, pos, v);
  }

  lemma AtDWord(file: seq<byte>, pos: nat, v: nat)
    requires At(file, pos, Le4(v)) && v < TWO_32
    ensures pos + 4 <= |file| && DWord(file[pos..]) == v
  {
    ReadLe4(file, pos, v);
  }

  // All numbers of the plan fit the fields of the headers.
  predicate Representable(p: Plan) {
    && p.textSize < TWO_32 && p.textRawSize < TWO_32 && p.relocRaw < TWO_32 && p.relocRva < TWO_32
    && p.metaRoot < TWO_32 && p.metaSize < TWO_32
    && forall k :: 0 <= k < 5 ==> p.streams[k].offset < TWO_32 && p.streams[k].size < TWO_32
  }

  lemma MzReads(file: seq<byte>)
    requires At(file, 0, MzHeader())
    ensures |file| >= 0x40 && Word(file) == 0x5A4D && DWord(file[0x3c..]) == 0x80
  {
    hide At;
    var offset: seq<byte> := [0x80, 0, 0, 0];
    AtPart(file, 0, MZ_START + MZ_FIELDS + offset, MZ_STUB);
    AtPart(file, 0, MZ_START + MZ_FIELDS, offset);
    AtPart(file, 0, MZ_START, MZ_FIELDS);
    InFile(file, 64, MZ_STUB);
    assert MZ_START == Le2(0x5A4D) && offset == Le4(0x80);
    hide Le2, Le4, Word, DWord;
    AtWord(file, 0, 0x5A4D);
    assert file[0..] == file;
    AtDWord(file, 60, 0x80);
  }

  lemma CoffReads(c: Contents, file: seq<byte>, pe: nat)
    requires At(file, pe, CoffBytes(c))
    ensures Word(file[pe..]) == 0x4550 && Word(file[pe + 6..]) == 2 && Word(file[pe + 20..]) == 0xe0
  {
    hide Le2, Le4, At, Word, DWord, Zeros;
    var flags := if c.dll then 0x2002 else 2;
    assert CoffBytes(c) == Le4(0x4550) + (Le2(0x14c) + (Le2(2) + ((Le4(c.time) + Zeros(8)) + (Le2(0xe0) + Le2(flags)))));
    assert Le4(0x4550) == Le2(0x4550) + Le2(0) by { SmallLe4(0x4550); }
    AtPart(file, pe, Le4(0x4550), Le2(0x14c) + (Le2(2) + ((Le4(c.time) + Zeros(8)) + (Le2(0xe0) + Le2(flags)))));
    AtPart(file, pe, Le2(0x4550), Le2(0));
    AtPart(file, pe + 4, Le2(0x14c), Le2(2) + ((Le4(c.time) + Zeros(8)) + (Le2(0xe0) + Le2(flags))));
    AtPart(file, pe + 6, Le2(2), (Le4(c.time) + Zeros(8)) + (Le2(0xe0) + Le2(flags)));
    AtPart(file, pe + 8, Le4(c.time) + Zeros(8), Le2(0xe0) + Le2(flags));
    AtPart(file, pe + 20, Le2(0xe0), Le2(flags));
    AtWord(file, pe, 0x4550);
    AtWord(file, pe + 6, 2);
    AtWord(file, pe + 20, 0xe0);
  }

  lemma SmallLe4(v: nat)
    requires v < TWO_16
    ensures Le4(v) == Le2(v) + Le2(0)
  {
  }

  lemma ObjectReads(file: seq<byte>, at: nat, name: seq<byte>, o: PEObject, flags: nat)
    requires |name| == 8 && At(file, at, ObjectBytes(name, o, flags))
    requires o.virtualSize < TWO_32 && o.virtualAddr < TWO_32 && o.rawSize < TWO_32 && o.rawPtr < TWO_32
    ensures at + 40 <= |file| && ReadObject(file, at) == o
  {
    hide Le4, DWord, Zeros;
    var bytes := ObjectBytes(name, o, flags);
    assert bytes[8..12] == Le4(o.virtualSize) && bytes[12..16] == Le4(o.virtualAddr)
           && bytes[16..20] == Le4(o.rawSize) && bytes[20..24] == Le4(o.rawPtr);
    Inside(file, at, bytes, 8, 12);
    Inside(file, at, bytes, 12, 16);
    Inside(file, at, bytes, 16, 20);
    Inside(file, at, bytes, 20, 24);
    ReadLe4(file, at + 8, o.virtualSize);
    ReadLe4(file, at + 12, o.virtualAddr);
    ReadLe4(file, at + 16, o.rawSize);
    ReadLe4(file, at + 20, o.rawPtr);
  }

  // The headers, one by one.
  lemma HeaderPieces(c: Contents, p: Plan, file: seq<byte>)
    requires At(file, 0, HeadersBytes(c, p))
    ensures At(file, 0, MzHeader()) && At(file, 128, CoffBytes(c)) && At(file, 152, OptionalBytes(c, p))
    ensures At(file, 248, DirectoryBytes(p))
    ensures At(file, 376, ObjectBytes(TEXT_NAME, Objects(p)[0], 0x6000_0020))
    ensures At(file, 416, ObjectBytes(RELOC_NAME, Objects(p)[1], 0x4200_0040))
  {
    hide At, CoffBytes, OptionalBytes, DirectoryBytes, ObjectBytes;
    var a, b, d := MzHeader(), CoffBytes(c), OptionalBytes(c, p);
    var e, f, g := DirectoryBytes(p), ObjectBytes(TEXT_NAME, Objects(p)[0], 0x6000_0020), ObjectBytes(RELOC_NAME, Objects(p)[1], 0x4200_0040);
    AtPart(file, 0, a + b + d + e + f, g);
    AtPart(file, 0, a + b + d + e, f);
    AtPart(file, 0, a + b + d, e);
    AtPart(file, 0, a + b, d);
    AtPart(file, 0, a, b);
  }

  lemma HeadersRead(c: Contents, p: Plan, file: seq<byte>)
    requires At(file, 0, HeadersBytes(c, p)) && Representable(p)
    ensures PELocation(file) == Some((128, Objects(p)))
    ensures 376 <= |file| && DWord(file[360..]) == TEXT_RVA + 8 && DWord(file[364..]) == 72
  {
    hide At, HeadersBytes, CoffBytes, ObjectBytes, Word, DWord, Le4, Le2, ReadObject;
    HeaderPieces(c, p, file);
    MzReads(file);
    CoffReads(c, file, 128);
    OptionalReads(c, p, file);
    DirectoryReads(p, file);
    var o := Objects(p);
    ObjectReads(file, 376, TEXT_NAME, o[0], 0x6000_0020);
    ObjectReads(file, 416, RELOC_NAME, o[1], 0x4200_0040);
    assert ReadObjects(file, 456, 0) == [];
    assert ReadObjects(file, 416, 1) == [o[1]];
    assert ReadObjects(file, 376, 2) == [o[0]] + [o[1]] == o;
  }

  lemma OptionalReads(c: Contents, p: Plan, file: seq<byte>)
    requires At(file, 152, OptionalBytes(c, p))
    ensures Word(file[152..]) == 0x10b
  {
    hide At, Le4, ImageFields, StackFields;
    var bytes := StandardFields(p);
    assert bytes[..2] == Le2(0x10b);
    hide StandardFields;
    AtPart(file, 152, bytes + ImageFields(p), StackFields(c));
    AtPart(file, 152, bytes, ImageFields(p));
    assert bytes == Le2(0x10b) + bytes[2..];
    AtPart(file, 152, Le2(0x10b), bytes[2..]);
    AtWord(file, 152, 0x10b);
  }

  lemma DirectoryReads(p: Plan, file: seq<byte>)
    requires At(file, 248, DirectoryBytes(p))
    ensures 376 <= |file| && DWord(file[360..]) == TEXT_RVA + 8 && DWord(file[364..]) == 72
  {
    hide At, Le4, Zeros, DWord;
    var bytes := DirectoryBytes(p);
    assert bytes[112..116] == Le4(TEXT_RVA + 8) && bytes[116..120] == Le4(72);
    hide DirectoryBytes;
    assert bytes == bytes[..112] + (Le4(TEXT_RVA + 8) + (Le4(72) + bytes[120..]));
    AtPart(file, 248, bytes[..112], Le4(TEXT_RVA + 8) + (Le4(72) + bytes[120..]));
    AtPart(file, 360, Le4(TEXT_RVA + 8), Le4(72) + bytes[120..]);
    AtPart(file, 364, Le4(72), bytes[120..]);
    AtDWord(file, 360, TEXT_RVA + 8);
    AtDWord(file, 364, 72);
    InFile(file, 248, bytes);
  }

  lemma InFile(file: seq<byte>, pos: nat, item: seq<byte>)
    requires At(file, pos, item)
    ensures pos + |item| <= |file|
  {
  }

  // ---- Addresses of the text section ----

  lemma TextLocation(c: Contents, p: Plan, pos: nat)
    requires TablesTyped(c) && InSync(c, p) && TEXT_RAW <= pos < TextEnd(c)
    ensures LocationFrom(Objects(p), pos + DELTA, 0) == pos
  {
    hide TextEnd, RootPos, TablesPos, StringsPos, UsPos, GuidPos, BlobPos, ImportPos, NamePos, EntryPos, SignaturePos, AlignUp,
         AllTyped, StreamsInSync;
  }

  lemma CoreReads(c: Contents, p: Plan, file: seq<byte>)
    requires At(file, CORE_POS, Cor20Bytes(c, p)) && p.metaRoot < TWO_32
    ensures CORE_POS + 72 <= |file| && DWord(file[CORE_POS..]) == 72 && DWord(file[CORE_POS + 8..]) == p.metaRoot
    ensures Word(file[CORE_POS + 4..]) == 2 && Word(file[CORE_POS + 6..]) == 5
  {
    hide Le2, Le4, Zeros, Word, DWord;
    var bytes := Cor20Bytes(c, p);
    assert bytes[0..4] == Le4(72) && bytes[4..6] == Le2(2) && bytes[6..8] == Le2(5) && bytes[8..12] == Le4(p.metaRoot);
    Inside(file, CORE_POS, bytes, 0, 4);
    Inside(file, CORE_POS, bytes, 4, 6);
    Inside(file, CORE_POS, bytes, 6, 8);
    Inside(file, CORE_POS, bytes, 8, 12);
    ReadLe4(file, CORE_POS, 72);
    ReadLe2(file, CORE_POS + 4, 2);
    ReadLe2(file, CORE_POS + 6, 5);
    ReadLe4(file, CORE_POS + 8, p.metaRoot);
  }

  lemma RootReads(p: Plan, file: seq<byte>, root: nat)
    requires At(file, root, RootBytes(p.streams))
    ensures root + 108 <= |file|
    ensures DWord(file[root..]) == 0x424A5342 && Word(file[root + 4..]) == 1 && Word(file[root + 6..]) == 1
  {
    hide Le2, Le4, Zeros, Word, DWord, HeadersFrom;
    var bytes := RootBytes(p.streams);
    assert bytes[0..4] == RootHead()[0..4] == Le4(0x424A5342);
    assert bytes[4..6] == RootHead()[4..6] == Le2(1);
    assert bytes[6..8] == RootHead()[6..8] == Le2(1);
    hide RootHead, RootBytes;
    Inside(file, root, bytes, 0, 4);
    Inside(file, root, bytes, 4, 6);
    Inside(file, root, bytes, 6, 8);
    ReadLe4(file, root, 0x424A5342);
    ReadLe2(file, root + 4, 1);
    ReadLe2(file, root + 6, 1);
  }

  lemma RootFrom(c: Contents, p: Plan, file: seq<byte>, root: nat)
    requires At(file, 0, HeadersBytes(c, p)) && At(file, CORE_POS, Cor20Bytes(c, p)) && At(file, root, RootBytes(p.streams))
    requires Representable(p) && p.metaRoot == root + DELTA
    requires LocationFrom(Objects(p), TEXT_RVA + 8, 0) == CORE_POS && LocationFrom(Objects(p), root + DELTA, 0) == root
    ensures PELocation(file) == Some((128, Objects(p)))
    ensures Cor20Location(file, 128, Objects(p)) == Some((TEXT_RVA + 8, root + DELTA))
  {
    hide At, HeadersBytes, Cor20Bytes, RootBytes, Word, DWord, LocationFrom, PELocation;
    HeadersRead(c, p, file);
    CoreReads(c, p, file);
    RootReads(p, file, root);
  }

  lemma RootInSync(c: Contents, p: Plan)
    requires TablesTyped(c) && InSync(c, p)
    ensures p.metaRoot == RootPos(c) + DELTA
    ensures LocationFrom(Objects(p), TEXT_RVA + 8, 0) == CORE_POS
    ensures LocationFrom(Objects(p), RootPos(c) + DELTA, 0) == RootPos(c)
  {
    PositionsRise(c);
    TextLocation(c, p, CORE_POS);
    TextLocation(c, p, RootPos(c));
    hide RootPos, TablesPos, StringsPos, UsPos, GuidPos, BlobPos, ImportPos, NamePos, EntryPos, SignaturePos, AlignUp,
         AllTyped, StreamsInSync, LocationFrom, TextEnd;
  }

  // The reader gets from the start of the file to the metadata root.
  lemma RootIsFound(c: Contents, p: Plan, file: seq<byte>)
    requires TablesTyped(c) && InSync(c, p) && Emitted(c, p, file) && Representable(p)
    ensures PELocation(file) == Some((128, Objects(p)))
    ensures Cor20Location(file, 128, Objects(p)) == Some((TEXT_RVA + 8, RootPos(c) + DELTA))
    ensures LocationFrom(Objects(p), RootPos(c) + DELTA, 0) == RootPos(c)
  {
    hide InSync, At, HeadersBytes, Cor20Bytes, RootBytes, LocationFrom, MethodsAt, BackAt, RootPos, PELocation, Cor20Location,
         StringsPos, UsPos, GuidPos, BlobPos, TablesPos, Representable, AllTyped;
    RootInSync(c, p);
    RootFrom(c, p, file, RootPos(c));
  }

  // What a stream holds, and where.
  function StreamItem(c: Contents, k: nat): seq<byte>
    requires TablesTyped(c) && k < 5
  {
    if k == 0 then StreamBytes(c.tables, SizesIn(c)) else if k == 1 then c.strings else if k == 2 then UsBytes(c)
    else if k == 3 then c.guid else c.blob
  }

  function StreamPos(c: Contents, k: nat): nat
    requires TablesTyped(c) && k < 5
  {
    if k == 0 then TablesPos(c) else if k == 1 then StringsPos(c) else if k == 2 then UsPos(c)
    else if k == 3 then GuidPos(c) else BlobPos(c)
  }

  // Each stream is found under its name, at the position where it was
  // emitted, with its size up to the next boundary.
  lemma StreamsAreFound(c: Contents, p: Plan, file: seq<byte>, k: nat)
    requires TablesTyped(c) && InSync(c, p) && Emitted(c, p, file) && Representable(p) && k < 5
    ensures var (rva, size) := FileStream(file, Objects(p), RootPos(c) + DELTA, StreamName(k));
            && rva == StreamPos(c, k) + DELTA && size == AlignUp(StreamPos(c, k) + |StreamItem(c, k)|, 4) - StreamPos(c, k)
            && LocationFrom(Objects(p), rva, 0) == StreamPos(c, k)
            && At(file, StreamPos(c, k), StreamItem(c, k))
  {
    hide At, RootBytes, LocationFrom, MethodsAt, BackAt, FrontAt, FileStream, InSync, RootPos, StreamPos, StreamItem, AllTyped,
         StringsPos, UsPos, GuidPos, BlobPos, TablesPos, Representable, StreamName, Objects, TextEnd, AlignUp, StreamBytes,
         SizesIn, UsBytes;
    RootInSync(c, p);
    StreamFrom(p, file, RootPos(c), k);
    StreamPlanned(c, p, k);
    StreamEmitted(c, p, file, k);
  }

  lemma StreamFrom(p: Plan, file: seq<byte>, root: nat, k: nat)
    requires At(file, root, RootBytes(p.streams)) && Representable(p) && k < 5
    requires LocationFrom(Objects(p), root + DELTA, 0) == root
    ensures FileStream(file, Objects(p), root + DELTA, StreamName(k))
         == (root + DELTA + p.streams[k].offset, p.streams[k].size)
  {
    hide At, RootBytes, LocationFrom, StreamAt, StreamName;
    RootWindow(p, file, root);
    var window := file[root..if root + 512 <= |file| then root + 512 else |file|];
    StreamIsFound(p.streams, root + DELTA, k, window[108..]);
  }

  lemma StreamPlanned(c: Contents, p: Plan, k: nat)
    requires TablesTyped(c) && InSync(c, p) && k < 5
    ensures RootPos(c) + DELTA + p.streams[k].offset == StreamPos(c, k) + DELTA
    ensures p.streams[k].size == AlignUp(StreamPos(c, k) + |StreamItem(c, k)|, 4) - StreamPos(c, k)
    ensures LocationFrom(Objects(p), StreamPos(c, k) + DELTA, 0) == StreamPos(c, k)
  {
    hide AlignUp, StreamBytes, SizesIn, UsBytes, AllTyped, MethodsEnd, LocationFrom;
    PositionsRise(c);
    assert StreamsInSync(c, p.streams);
    TextLocation(c, p, StreamPos(c, k));
  }

  lemma StreamEmitted(c: Contents, p: Plan, file: seq<byte>, k: nat)
    requires TablesTyped(c) && MetadataAt(c, p, file) && k < 5
    ensures At(file, StreamPos(c, k), StreamItem(c, k))
  {
    hide At, StreamBytes, SizesIn, UsBytes, AllTyped, RootPos, StringsPos, UsPos, GuidPos, BlobPos, TablesPos, RootBytes;
  }

  lemma RootWindow(p: Plan, file: seq<byte>, root: nat)
    requires At(file, root, RootBytes(p.streams))
    ensures root + 108 <= |file|
    ensures var window := file[root..if root + 512 <= |file| then root + 512 else |file|];
            |window| >= 108 && window == RootBytes(p.streams) + window[108..]
  {
    hide RootBytes;
    var window := file[root..if root + 512 <= |file| then root + 512 else |file|];
    assert window[..108] == file[root..root + 108];
  }

  // What stands at the location decodes to the body of the method.
  ghost predicate BodyIsAt(file: seq<byte>, at: int, m: PEMethod) {
    at >= 0 && ReadBody(file, at) == Some(Body(if IsTiny(m) then 8 else m.maxStack, m.code, m.signatureToken, m.sehData))
  }

  // Every method with code is found at its address: its body reads back.
  lemma MethodIsFound(c: Contents, p: Plan, file: seq<byte>, i: nat)
    requires TablesTyped(c) && InSync(c, p) && Emitted(c, p, file) && MethodsPlanned(c)
    requires i < |c.methods| && IsCil(c.methods[i]) && WellFormed(c.methods[i])
    ensures BodyIsAt(file, LocationFrom(Objects(p), c.methods[i].rva, 0), c.methods[i])
  {
    hide ReadBody, BodyBytes, LocationFrom, FrontAt, MetadataAt, BackAt, InSync, MethodPos, RootPos, TextEnd, AllTyped;
    var m := c.methods[i];
    var pos := MethodPos(c, i);
    MethodAddress(c, p, i);
    assert At(file, pos, BodyBytes(m));
    BodyReadsBack(m, file, pos);
  }

  lemma TextSpan(c: Contents)
    requires TablesTyped(c)
    ensures TEXT_RAW < DataEnd(c) && MethodsEnd(c.methods, |c.methods|, DataEnd(c)) <= RootPos(c) < TextEnd(c)
  {
    hide RootPos, TablesPos, StringsPos, UsPos, GuidPos, BlobPos, ImportPos, NamePos, EntryPos, SignaturePos, TextEnd,
         AllTyped, MethodsEnd, DataEnd, StreamBytes, SizesIn, UsBytes;
    PositionsRise(c);
  }

  lemma MethodAddress(c: Contents, p: Plan, i: nat)
    requires TablesTyped(c) && InSync(c, p) && i < |c.methods| && IsCil(c.methods[i])
    ensures LocationFrom(Objects(p), MethodPos(c, i) + DELTA, 0) == MethodPos(c, i)
    ensures !IsTiny(c.methods[i]) ==> MethodPos(c, i) % 4 == 0
  {
    hide BodyBytes, LocationFrom, InSync, MethodPos, RootPos, TablesPos, StringsPos, UsPos, GuidPos, BlobPos, ImportPos, NamePos,
         EntryPos, SignaturePos, TextEnd, AllTyped, MethodsEnd, DataEnd;
    TextSpan(c);
    MethodInText(c, i);
    TextLocation(c, p, MethodPos(c, i));
  }

  lemma MethodInText(c: Contents, i: nat)
    requires i < |c.methods| && IsCil(c.methods[i])
    ensures DataEnd(c) <= MethodPos(c, i) && MethodPos(c, i) <= MethodsEnd(c.methods, |c.methods|, DataEnd(c))
    ensures !IsTiny(c.methods[i]) ==> MethodPos(c, i) % 4 == 0
  {
    hide BodyBytes, DataEnd;
    MethodsRise(c.methods, i, |c.methods|, DataEnd(c));
    MethodsRise(c.methods, i + 1, |c.methods|, DataEnd(c));
    Rises(MethodsEnd(c.methods, i, DataEnd(c)), 4);
  }

  // The sizes the reader gets for the heaps.
  function ReaderSizes(c: Contents): Sizes {
    CountsOf(c.tables)
    + [AlignUp(|c.strings|, 4), AlignUp(|UsBytes(c)|, 4), AlignUp(|c.guid|, 4), AlignUp(|c.blob|, 4)]
  }

  lemma StreamsAreAligned(c: Contents)
    requires TablesTyped(c)
    ensures forall k :: 0 <= k < 5 ==> StreamPos(c, k) % 4 == 0
  {
    hide StreamBytes, SizesIn, MethodsEnd, UsBytes, AllTyped, AlignUp;
    AlignedTo4(MethodsEnd(c.methods, |c.methods|, DataEnd(c)));
    AlignedTo4(TablesPos(c) + |StreamBytes(c.tables, SizesIn(c))|);
    AlignedTo4(StringsPos(c) + |c.strings|);
    AlignedTo4(UsPos(c) + |UsBytes(c)|);
    AlignedTo4(GuidPos(c) + |c.guid|);
    assert TablesPos(c) % 4 == 0;
  }

  lemma AlignedTo4(x: nat)
    ensures AlignUp(x, 4) % 4 == 0
  {
  }

  lemma StreamSize(x: nat, n: nat)
    requires x % 4 == 0
    ensures AlignUp(x + n, 4) - x == AlignUp(n, 4)
  {
    assert (x + n) % 4 == n % 4;
  }

  // No heap of one of the three sizes at which padding changes the width of
  // its indexes.
  predicate HeapsOffLimit(c: Contents) {
    !NearLimit(|c.strings|) && !NearLimit(|c.guid|) && !NearLimit(|c.blob|)
  }

  lemma SmallIfPadded(x: nat)
    requires AlignUp(x, 4) < TWO_32
    ensures x + 3 < TWO_32
  {
  }

  lemma StreamIsSmall(c: Contents, p: Plan, k: nat)
    requires TablesTyped(c) && InSync(c, p) && Representable(p) && k < 5
    ensures |StreamItem(c, k)| + 3 < TWO_32
  {
    hide AlignUp, RootPos, StreamPos, StreamItem, InSync, AllTyped;
    StreamPlanned(c, p, k);
    StreamsAreAligned(c);
    StreamSize(StreamPos(c, k), |StreamItem(c, k)|);
    SmallIfPadded(|StreamItem(c, k)|);
  }

  lemma HeapsKeepWidths(c: Contents, p: Plan)
    requires TablesTyped(c) && InSync(c, p) && Representable(p) && HeapsOffLimit(c)
    ensures SameWidths(SizesIn(c), ReaderSizes(c))
  {
    hide InSync, Representable, StreamItem, AllTyped, AlignUp, UsBytes, NearLimit;
    Items(c);
    StreamIsSmall(c, p, 1);
    StreamIsSmall(c, p, 3);
    StreamIsSmall(c, p, 4);
    SizesAgree(c);
    PaddedSizesSameWidths(SizesIn(c), ReaderSizes(c));
  }

  // The tables of the file are those of the writer, exactly when every row
  // stands in the table of its class.
  lemma FileReadsBack(c: Contents, p: Plan, file: seq<byte>)
    requires TablesTyped(c) && InSync(c, p) && Emitted(c, p, file) && Representable(p)
    requires Filed(c.tables) && forall k :: 0 <= k < 64 ==> |c.tables[k]| < TWO_32
    requires AllFit(c.tables, SizesIn(c)) && HeapsOffLimit(c)
    ensures LoadTables(file, Objects(p), RootPos(c) + DELTA) == TableStream.Tables(c.tables) <==> Homogeneous(c.tables)
  {
    hide At, StreamBytes, FileStream, LocationFrom, InSync, MethodsAt, BackAt, FrontAt, RootPos, AlignUp, SizesIn, UsBytes,
         Filed, TableStream.AllFit, SameWidths, Homogeneous, AllTyped, StreamPos, StreamItem, LoadTables, ReadStream, MetadataAt,
         ReaderSizes, Representable, HeapsOffLimit;
    forall k: nat | k < 5 ensures StreamFound(c, p, file, k) {
      StreamSized(c, p, file, k);
    }
    assert MetadataAt(c, p, file);
    HeapsKeepWidths(c, p);
    TablesWindow(c, p, file);
    SizesAgree(c);
    Items(c);
    var s := StreamBytes(c.tables, SizesIn(c));
    var at, size := TablesPos(c), AlignUp(|s|, 4);
    LoadIs(c, p, file, at, size);
    var rest := file[at + |s|..at + size];
    assert file[at..at + size] == s + rest;
    TablesReadBack(c.tables, |c.strings|, |c.us|, |c.guid|, |c.blob|, ReaderSizes(c), rest);
  }

  // Every method has a row of its own.
  ghost predicate HaveRows(c: Contents) {
    && (forall i :: 0 <= i < |c.methods| ==> 0 < c.methods[i].methodDef <= |c.tables[METHOD_DEF]|)
    && (forall i, j :: 0 <= i < |c.methods| && 0 <= j < |c.methods| && c.methods[i].methodDef == c.methods[j].methodDef ==> i == j)
  }

  // The method with code that a row is for.
  ghost predicate IsMethodOf(c: Contents, i: nat, def: nat) {
    i < |c.methods| && c.methods[i].methodDef == def && IsCil(c.methods[i])
  }

  // The address in a row that has been loaded.
  function LoadedAddress(tables: TableSet, def: nat): Option<nat> {
    if 0 < def <= |tables[METHOD_DEF]| then
      var row := tables[METHOD_DEF][def - 1];
      if row.values != [] && row.values[0].Num? then Some(row.values[0].n) else None
    else None
  }

  // From the bytes of the file alone: the row of a method, loaded, has the
  // address that leads to the body of that method, and no other row has one.
  lemma RowsLeadToBodies(c: Contents, p: Plan, file: seq<byte>, def: nat)
    requires TablesTyped(c) && InSync(c, p) && Emitted(c, p, file) && Representable(p)
    requires Filed(c.tables) && Homogeneous(c.tables) && forall k :: 0 <= k < 64 ==> |c.tables[k]| < TWO_32
    requires AllFit(c.tables, SizesIn(c)) && HeapsOffLimit(c)
    requires MethodsPlanned(c) && RowsAddressed(c) && HaveRows(c) && 0 < def <= |c.tables[METHOD_DEF]|
    ensures var loaded := LoadTables(file, Objects(p), RootPos(c) + DELTA);
            && loaded.Tables? && LoadedAddress(loaded.tables, def).Some?
            && var address := LoadedAddress(loaded.tables, def).value;
               && (address != 0 <==> exists i: nat :: IsMethodOf(c, i, def))
               && forall i: nat :: IsMethodOf(c, i, def) && WellFormed(c.methods[i]) ==>
                    BodyIsAt(file, LocationFrom(Objects(p), address, 0), c.methods[i])
  {
    hide LoadTables, InSync, Emitted, Representable, AllFit, HeapsOffLimit, LocationFrom, RootPos, SizesIn, WellFormed, Filed,
         BodyIsAt, AllTyped, AddressFor;
    FileReadsBack(c, p, file);
    var address := AddressFor(c.methods, def);
    assert c.tables[METHOD_DEF][def - 1].kind == METHOD_DEF;
    assert LoadedAddress(c.tables, def) == Some(address);
    if i: nat :| i < |c.methods| && c.methods[i].methodDef == def {
      OwnAddress(c.methods, i);
      assert address == c.methods[i].rva;
      assert IsMethodOf(c, i, def) <==> IsCil(c.methods[i]);
      if IsCil(c.methods[i]) && WellFormed(c.methods[i]) {
        MethodIsFound(c, p, file, i);
      }
    } else {
      NoAddress(c.methods, def);
    }
  }

  ghost predicate StreamFound(c: Contents, p: Plan, file: seq<byte>, k: nat)
    requires TablesTyped(c) && k < 5
  {
    && FileStream(file, Objects(p), RootPos(c) + DELTA, StreamName(k))
       == (StreamPos(c, k) + DELTA, AlignUp(|StreamItem(c, k)|, 4))
    && LocationFrom(Objects(p), StreamPos(c, k) + DELTA, 0) == StreamPos(c, k)
  }

  lemma StreamSized(c: Contents, p: Plan, file: seq<byte>, k: nat)
    requires TablesTyped(c) && InSync(c, p) && Emitted(c, p, file) && Representable(p) && k < 5
    ensures StreamFound(c, p, file, k)
  {
    hide At, FileStream, LocationFrom, InSync, Emitted, RootPos, AlignUp, AllTyped, StreamName, StreamPos, StreamItem, Representable;
    StreamsAreAligned(c);
    StreamsAreFound(c, p, file, k);
    StreamSize(StreamPos(c, k), |StreamItem(c, k)|);
  }

  lemma Items(c: Contents)
    requires TablesTyped(c)
    ensures StreamPos(c, 0) == TablesPos(c) && StreamItem(c, 0) == StreamBytes(c.tables, SizesIn(c))
    ensures StreamItem(c, 1) == c.strings && StreamItem(c, 2) == UsBytes(c) && StreamItem(c, 3) == c.guid && StreamItem(c, 4) == c.blob
  {
    hide StreamBytes, SizesIn, UsBytes, AllTyped;
  }

  lemma LoadIs(c: Contents, p: Plan, file: seq<byte>, at: nat, size: nat)
    requires TablesTyped(c) && forall k: nat :: k < 5 ==> StreamFound(c, p, file, k)
    requires at == StreamPos(c, 0) && size == AlignUp(|StreamItem(c, 0)|, 4) && at + size <= |file|
    ensures LoadTables(file, Objects(p), RootPos(c) + DELTA)
         == ReadStream(file[at..at + size], AlignUp(|StreamItem(c, 1)|, 4), AlignUp(|StreamItem(c, 2)|, 4),
                       AlignUp(|StreamItem(c, 3)|, 4), AlignUp(|StreamItem(c, 4)|, 4))
  {
    hide FileStream, LocationFrom, RootPos, AlignUp, AllTyped, StreamName, StreamPos, StreamItem, ReadStream;
    Names();
    assert StreamFound(c, p, file, 0) && StreamFound(c, p, file, 1) && StreamFound(c, p, file, 2)
           && StreamFound(c, p, file, 3) && StreamFound(c, p, file, 4);
  }

  lemma SizesAgree(c: Contents)
    ensures SizesIn(c) == SizesOf(c.tables, |c.strings|, |c.us|, |c.guid|, |c.blob|)
    ensures ReaderSizes(c)[..64] == CountsOf(c.tables)
    ensures ReaderSizes(c)[T_STRING] == AlignUp(|c.strings|, 4) && ReaderSizes(c)[T_US] == AlignUp(|UsBytes(c)|, 4)
    ensures ReaderSizes(c)[T_GUID] == AlignUp(|c.guid|, 4) && ReaderSizes(c)[T_BLOB] == AlignUp(|c.blob|, 4)
  {
    hide AlignUp, UsBytes;
  }

  // The stream with its padding ends before the strings.
  lemma TablesWindow(c: Contents, p: Plan, file: seq<byte>)
    requires TablesTyped(c) && MetadataAt(c, p, file)
    ensures var s := StreamBytes(c.tables, SizesIn(c));
            && TablesPos(c) + |s| <= TablesPos(c) + AlignUp(|s|, 4) <= |file|
            && file[TablesPos(c)..TablesPos(c) + |s|] == s
  {
    hide StreamBytes, SizesIn, UsBytes, RootBytes;
    var s := StreamBytes(c.tables, SizesIn(c));
    StreamsAreAligned(c);
    assert StreamPos(c, 0) == TablesPos(c);
    StreamSize(TablesPos(c), |s|);
    Rises(|s|, 4);
    assert StringsPos(c) == TablesPos(c) + AlignUp(|s|, 4);
  }

  lemma Names()
    ensures StreamName(0) == TILDE && StreamName(1) == STRINGS && StreamName(2) == MetadataRoot.US
    ensures StreamName(3) == MetadataRoot.GUID && StreamName(4) == BLOB
  {
  }

  // An image below 4 GB has headers that can hold its plan.
  lemma SmallImageIsRepresentable(c: Contents, p: Plan)
    requires TablesTyped(c) && InSync(c, p) && p.imageSize < TWO_32
    ensures Representable(p)
  {
    hide StreamsInSync, AllTyped, AlignUp, RootPos, TablesPos, StringsPos, UsPos, GuidPos, BlobPos, ImportPos, NamePos, EntryPos,
         SignaturePos, TextEnd;
    TextSpan(c);
    ImportsInText(c);
    SectionsRise(TextEnd(c));
    forall k | 0 <= k < 5 ensures p.streams[k].offset < TextEnd(c) && p.streams[k].size < TextEnd(c) {
      ExtentInText(c, p, k);
    }
  }

  lemma SectionsRise(end: nat)
    ensures var reloc := AlignUp(end + DELTA, OBJECT_ALIGN);
            end <= AlignUp(end, FILE_ALIGN) <= reloc && end + DELTA <= reloc <= AlignUp(reloc + 12, OBJECT_ALIGN)
  {
    RawBelowImage(end);
    Rises(end, FILE_ALIGN);
    Rises(end + DELTA, OBJECT_ALIGN);
    Rises(AlignUp(end + DELTA, OBJECT_ALIGN) + 12, OBJECT_ALIGN);
  }

  lemma ImportsInText(c: Contents)
    requires TablesTyped(c)
    ensures RootPos(c) <= ImportPos(c) < TextEnd(c)
  {
    hide RootPos, TablesPos, StringsPos, UsPos, GuidPos, BlobPos, ImportPos, NamePos, EntryPos, SignaturePos, TextEnd,
         AllTyped, MethodsEnd, DataEnd, StreamBytes, SizesIn, UsBytes;
    PositionsRise(c);
  }

  lemma ExtentInText(c: Contents, p: Plan, k: nat)
    requires TablesTyped(c) && InSync(c, p) && k < 5
    ensures p.streams[k].offset < TextEnd(c) && p.streams[k].size < TextEnd(c)
  {
    hide InSync, RootPos, TextEnd, StreamPos, StreamItem, AllTyped, AlignUp, LocationFrom;
    StreamPlanned(c, p, k);
    StreamSpan(c, k);
  }

  lemma StreamSpan(c: Contents, k: nat)
    requires TablesTyped(c) && k < 5
    ensures RootPos(c) <= StreamPos(c, k) < TextEnd(c)
    ensures AlignUp(StreamPos(c, k) + |StreamItem(c, k)|, 4) < TextEnd(c)
  {
    hide AlignUp, RootPos, TextEnd, NamePos, EntryPos, SignaturePos, MethodsEnd, DataEnd, StreamBytes, SizesIn, UsBytes, AllTyped;
    PositionsRise(c);
  }

  lemma RawBelowImage(end: nat)
    ensures AlignUp(end, FILE_ALIGN) <= AlignUp(end + DELTA, OBJECT_ALIGN)
  {
    Rises(end, FILE_ALIGN);
    Rises(end + DELTA, OBJECT_ALIGN);
  }

  // The addresses in the import directory and of the entry point are those of
  // the name of the runtime's start function, of its library and of the stub.
  lemma ImportsAreFound(c: Contents, p: Plan, file: seq<byte>)
    requires TablesTyped(c) && InSync(c, p) && BackAt(c, p, file)
    ensures var main := LocationFrom(Objects(p), MainName(p), 0);
            main >= 0 && At(file, main, [0, 0] + if c.dll then DLL_MAIN else EXE_MAIN)
    ensures var library := LocationFrom(Objects(p), MainName(p) + 14, 0); library >= 0 && At(file, library, MSCOREE)
    ensures var entry := LocationFrom(Objects(p), p.entryPoint, 0); entry >= 0 && At(file, entry, EntryStub())
  {
    hide At, EntryStub, AllTyped, LocationFrom, ImportDir, RelocBytes, Zeros, InSync, NamePos, EntryPos, SignaturePos, TextEnd,
         ImportPos, AlignUp, MainName;
    NameAddress(c, p);
    ImportSpan(c, p);
    AtPart(file, NamePos(c), [0, 0] + (if c.dll then DLL_MAIN else EXE_MAIN), MSCOREE);
  }

  lemma NameAddress(c: Contents, p: Plan)
    requires TablesTyped(c) && InSync(c, p)
    ensures MainName(p) == NamePos(c) + DELTA
  {
    hide AlignUp, ImportPos, TextEnd, EntryPos, RootPos, TablesPos, StringsPos, UsPos, GuidPos, BlobPos, SignaturePos, AllTyped,
         StreamsInSync;
    AlignShift(ImportPos(c) + 48, 16);
  }

  lemma ImportSpan(c: Contents, p: Plan)
    requires TablesTyped(c) && InSync(c, p)
    ensures LocationFrom(Objects(p), NamePos(c) + DELTA, 0) == NamePos(c)
    ensures LocationFrom(Objects(p), NamePos(c) + 14 + DELTA, 0) == NamePos(c) + 14
    ensures LocationFrom(Objects(p), p.entryPoint, 0) == EntryPos(c)
  {
    hide StreamBytes, SizesIn, UsBytes, AllTyped, MethodsEnd, DataEnd, LocationFrom;
    PositionsRise(c);
    assert p.entryPoint == EntryPos(c) + DELTA;
    assert EntryPos(c) < TextEnd(c);
    hide RootPos, TablesPos, StringsPos, UsPos, GuidPos, BlobPos, ImportPos, AlignUp, NamePos, EntryPos, SignaturePos, TextEnd, InSync;
    TextLocation(c, p, NamePos(c));
    TextLocation(c, p, NamePos(c) + 14);
    TextLocation(c, p, EntryPos(c));
  }

  // The word of the import address table is that of the directory unless the
  // imports start 4 bytes after a multiple of 16.
  lemma IatAgrees(p: Plan)
    requires p.importRva % 4 == 0
    ensures IatWord(p) == MainName(p) <==> p.importRva % 16 != 4
  {
    hide AlignUp;
    var q, r := p.importRva / 16, p.importRva % 16;
    assert p.importRva == 16 * q + r;
    AlignBy16(r + 44, q);
    AlignBy16(r + 48, q);
    Residues(r);
  }

  lemma AlignBy16(x: nat, q: nat)
    ensures AlignUp(x + 16 * q, 16) == AlignUp(x, 16) + 16 * q
  {
    Mod16(x, q);
  }

  lemma Residues(r: nat)
    requires r < 16 && r % 4 == 0
    ensures AlignUp(r + 44, 16) == AlignUp(r + 48, 16) <==> r != 4
  {
  }
}
