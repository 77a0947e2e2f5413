// Method bodies in the file: what PEMethod.Write emits, read back after
// section II.25.4 of ECMA-335, and the room CalculateObjects leaves for it.
module MethodBodies {
  import opened Bytes
  import opened SehClauses

  // The two low bits of flags tell the format; bits from 0x1000 on are not
  // part of the file.
  datatype PEMethod = PEMethod(
    flags: nat,
    maxStack: int,
    code: seq<byte>,
    signatureToken: int,
    rva: nat,
    methodDef: nat,      // the number of its row
    sehData: seq<SEHData>)

  const TINY_FORMAT := 2
  const FAT_FORMAT := 3
  const MORE_SECTS := 8
  const CIL := 0x4000

  predicate IsTiny(m: PEMethod) { m.flags % 4 == TINY_FORMAT }

  predicate IsCil(m: PEMethod) { m.flags / CIL % 2 == 1 }

  // The format the constructor chooses; maxStack is already cut to a Word.
  function ChosenFlags(hasSEH: bool, flags: nat, maxStack: int, localCount: nat, codeSize: nat): nat {
    if flags % 0x1000 != 0 then flags
    else if maxStack <= 8 && codeSize < 64 && localCount == 0 && !hasSEH then flags + TINY_FORMAT
    else flags + FAT_FORMAT
  }

  function NewMethod(hasSEH: bool, flags: nat, methodDef: nat, maxStack: int, localCount: nat, code: seq<byte>,
                     signature: int, sehData: seq<SEHData>): (m: PEMethod)
  {
    PEMethod(ChosenFlags(hasSEH, flags, maxStack % TWO_16, localCount, |code|),
             maxStack % TWO_16, code, signature, 0, methodDef, sehData)
  }

  // ---- The writer ----

  class OutStream {
    var bytes: seq<byte>

    constructor ()
      ensures bytes == []
    {
      bytes := [];
    }

    method Put(data: seq<byte>)
      modifies this
      ensures bytes == old(bytes) + data
    {
      bytes := bytes + data;
    }

    // Pads with zeros up to the next multiple of n.
    method Align(n: nat)
      requires n > 0
      modifies this
      ensures bytes == Padded(old(bytes), n)
    {
      if |bytes| % n != 0 {
        bytes := bytes + Zeros(n - |bytes| % n);
      }
    }
  }

  function Zeros(n: nat): (z: seq<byte>)
    ensures |z| == n
  {
    seq(n, _ => 0)
  }

  function AlignUp(x: nat, n: nat): nat
    requires n > 0
  {
    if x % n == 0 then x else x + (n - x % n)
  }

  function Padded(s: seq<byte>, n: nat): (p: seq<byte>)
    requires n > 0
    ensures |p| == AlignUp(|s|, n) && s <= p
  {
    if |s| % n == 0 then s else s + Zeros(n - |s| % n)
  }

  function HeaderWord(m: PEMethod): nat {
    0x3000 + m.flags % 0x1000 + if m.sehData != [] then MORE_SECTS else 0
  }

  function HeaderBytes(m: PEMethod): (h: seq<byte>)
    ensures |h| == if IsTiny(m) then 1 else 12
  {
    if IsTiny(m) then [(TINY_FORMAT + 4 * |m.code|) % 256]
    else Le2(HeaderWord(m)) + Le2(m.maxStack) + Le4(|m.code|) + Le4(m.signatureToken)
  }

  // The clause fits the small form.
  predicate IsSmall(d: SEHData) {
    d.tryOffset < 65536 && d.tryLength < 256 && d.handlerOffset < 65536 && d.handlerLength < 256
  }

  predicate AllSmall(ds: seq<SEHData>) {
    forall i :: 0 <= i < |ds| ==> IsSmall(ds[i])
  }

  predicate SmallSection(ds: seq<SEHData>) { AllSmall(ds) && |ds| < 21 }

  function SmallClause(d: SEHData): (s: seq<byte>)
    ensures |s| == 12
  {
    [d.flags % 256, 0] + Le2(d.tryOffset) + [d.tryLength % 256] + Le2(d.handlerOffset)
    + [d.handlerLength % 256] + Le4(d.extra)
  }

  function FatClause(d: SEHData): (s: seq<byte>)
    ensures |s| == 24
  {
    [d.flags % 256, 0, 0, 0] + Le4(d.tryOffset) + Le4(d.tryLength) + Le4(d.handlerOffset)
    + Le4(d.handlerLength) + Le4(d.extra)
  }

  function SmallClauses(ds: seq<SEHData>): (s: seq<byte>)
    ensures |s| == 12 * |ds|
  {
    if ds == [] then [] else SmallClause(ds[0]) + SmallClauses(ds[1..])
  }

  function FatClauses(ds: seq<SEHData>): (s: seq<byte>)
    ensures |s| == 24 * |ds|
  {
    if ds == [] then [] else FatClause(ds[0]) + FatClauses(ds[1..])
  }

  function SectionSize(ds: seq<SEHData>): nat {
    4 + |ds| * if SmallSection(ds) then 12 else 24
  }

  function SectionBytes(ds: seq<SEHData>): (s: seq<byte>)
    ensures |s| == SectionSize(ds)
  {
    if SmallSection(ds) then [1, (|ds| * 12 + 4) % 256, 0, 0] + SmallClauses(ds)
    else
      var q := |ds| * 24 + 4;
      [0x41] + Le2(q) + [q / TWO_16 % 256] + FatClauses(ds)
  }

  function BodyBytes(m: PEMethod): (s: seq<byte>) {
    var plain := HeaderBytes(m) + m.code;
    if m.sehData == [] then plain else Padded(plain, 4) + SectionBytes(m.sehData)
  }

  method CountSmall(ds: seq<SEHData>) returns (end: nat)
    ensures end <= |ds| && (end == |ds| <==> AllSmall(ds))
  {
    end := 0;
    while end < |ds|
      invariant end <= |ds| && forall i :: 0 <= i < end ==> IsSmall(ds[i])
    {
      if !IsSmall(ds[end]) { break; }
      end := end + 1;
    }
  }

  // Returns the number of bytes written.
  method Write(m: PEMethod, out: OutStream) returns (n: nat)
    modifies out
    ensures out.bytes == old(out.bytes) + BodyBytes(m)
    ensures n == |BodyBytes(m)|
  {
    hide HeaderBytes, SectionBytes, SectionSize, Zeros;
    var dest := HeaderBytes(m);
    n := if IsTiny(m) then 1 else 12;
    out.Put(dest);
    out.Put(m.code);
    n := n + |m.code|;
    if |m.sehData| != 0 {
      if n % 4 != 0 {
        out.Put(Zeros(4 - n % 4));
        n := n + 4 - n % 4;
      }
      assert out.bytes == old(out.bytes) + Padded(HeaderBytes(m) + m.code, 4);
      hide Padded;
      var written := WriteSection(m.sehData, out);
      n := n + written;
    }
  }

  method WriteSection(ds: seq<SEHData>, out: OutStream) returns (n: nat)
    requires ds != []
    modifies out
    ensures out.bytes == old(out.bytes) + SectionBytes(ds) && n == SectionSize(ds)
  {
    hide SmallClauses, FatClauses, Le2, AllSmall, IsSmall, SectionBytes;
    var end := CountSmall(ds);
    if end >= |ds| && |ds| < 21 {
      SectionIsSmall(ds, out.bytes);
      out.Put([1, |ds| * 12 + 4, 0, 0]);
      n := WriteSmall(ds, out);
    } else {
      SectionIsFat(ds, out.bytes);
      var q := |ds| * 24 + 4;
      out.Put([0x41] + Le2(q) + [q / TWO_16 % 256]);
      n := WriteFat(ds, out);
    }
    n := n + 4;
  }

  lemma SectionIsSmall(ds: seq<SEHData>, before: seq<byte>)
    requires SmallSection(ds) && |ds| < 21
    ensures before + [1, |ds| * 12 + 4, 0, 0] + SmallClauses(ds) == before + SectionBytes(ds)
  {
    hide SmallClauses, FatClauses, SmallSection;
    var head: seq<byte> := [1, |ds| * 12 + 4, 0, 0];
    assert SectionBytes(ds) == head + SmallClauses(ds);
    assert before + head + SmallClauses(ds) == before + (head + SmallClauses(ds));
  }

  lemma SectionIsFat(ds: seq<SEHData>, before: seq<byte>)
    requires !SmallSection(ds)
    ensures var q := |ds| * 24 + 4;
            before + ([0x41] + Le2(q) + [q / TWO_16 % 256]) + FatClauses(ds) == before + SectionBytes(ds)
  {
    hide SmallClauses, FatClauses, SmallSection, Le2;
    var q := |ds| * 24 + 4;
    var head: seq<byte> := [0x41] + Le2(q) + [q / TWO_16 % 256];
    assert SectionBytes(ds) == head + FatClauses(ds);
    assert before + head + FatClauses(ds) == before + (head + FatClauses(ds));
  }

  method WriteSmall(ds: seq<SEHData>, out: OutStream) returns (n: nat)
    modifies out
    ensures out.bytes == old(out.bytes) + SmallClauses(ds) && n == 12 * |ds|
  {
    hide SmallClause;
    n := 0;
    var i := 0;
    while i < |ds|
      invariant i <= |ds| && n == 12 * i
      invariant out.bytes + SmallClauses(ds[i..]) == old(out.bytes) + SmallClauses(ds)
    {
      ghost var before := out.bytes;
      out.Put(SmallClause(ds[i]));
      assert ds[i..][1..] == ds[i + 1..];
      assert out.bytes + SmallClauses(ds[i + 1..]) == before + SmallClauses(ds[i..]);
      n := n + 12;
      i := i + 1;
    }
  }

  method WriteFat(ds: seq<SEHData>, out: OutStream) returns (n: nat)
    modifies out
    ensures out.bytes == old(out.bytes) + FatClauses(ds) && n == 24 * |ds|
  {
    hide FatClause;
    n := 0;
    var i := 0;
    while i < |ds|
      invariant i <= |ds| && n == 24 * i
      invariant out.bytes + FatClauses(ds[i..]) == old(out.bytes) + FatClauses(ds)
    {
      ghost var before := out.bytes;
      out.Put(FatClause(ds[i]));
      assert ds[i..][1..] == ds[i + 1..];
      assert out.bytes + FatClauses(ds[i + 1..]) == before + FatClauses(ds[i..]);
      n := n + 24;
      i := i + 1;
    }
  }

  // ---- The room the planner leaves ----

  // Where CalculateObjects has the next item, given where the method starts.
  function EndOfBody(m: PEMethod, start: nat): nat {
    var afterCode := start + (if IsTiny(m) then 1 else 12) + |m.code|;
    if m.sehData == [] then afterCode else AlignUp(afterCode, 4) + SectionSize(m.sehData)
  }

  // The writer aligns the clauses from the start of the method, the planner
  // from the start of the image; they agree exactly when the method starts on
  // a boundary or has no clauses.
  lemma RoomIsExact(m: PEMethod, start: nat)
    ensures EndOfBody(m, start) == start + |BodyBytes(m)| <==> m.sehData == [] || start % 4 == 0
  {
    hide SectionBytes, HeaderBytes, Padded, AlignUp;
    if m.sehData != [] {
      AlignFrom(start, |HeaderBytes(m) + m.code|);
    }
  }

  lemma AlignFrom(start: nat, n: nat)
    ensures AlignUp(start + n, 4) == start + AlignUp(n, 4) <==> start % 4 == 0
  {
    assert (start + n) % 4 == (start % 4 + n % 4) % 4;
  }

  // ---- The reader of section II.25.4 ----

  datatype Body = Body(maxStack: int, code: seq<byte>, localsToken: int, clauses: seq<SEHData>)

  function ReadSmallClause(s: seq<byte>): SEHData
    requires |s| >= 12
  {
    SEHData(Word(s), Word(s[2..]), s[4], Word(s[5..]), s[7], DWord(s[8..]))
  }

  function ReadFatClause(s: seq<byte>): SEHData
    requires |s| >= 24
  {
    SEHData(DWord(s), DWord(s[4..]), DWord(s[8..]), DWord(s[12..]), DWord(s[16..]), DWord(s[20..]))
  }

  function ReadClauses(s: seq<byte>, n: nat, size: nat): (clauses: seq<SEHData>)
    requires size == 12 || size == 24
    requires |s| >= n * size
    ensures |clauses| == n
  {
    if n == 0 then []
    else [if size == 12 then ReadSmallClause(s) else ReadFatClause(s)] + ReadClauses(s[size..], n - 1, size)
  }

  // One section of exception clauses, the last of the body.
  function ReadSection(s: seq<byte>): Option<seq<SEHData>> {
    if |s| < 4 || s[0] % 2 != 1 || s[0] >= 0x80 then None
    else
      var fat := s[0] / 0x40 % 2 == 1;
      var size := if fat then 24 else 12;
      var data: int := if fat then s[1] + 256 * s[2] + TWO_16 * s[3] else s[1];
      if data < 4 || |s| - 4 < (data - 4) / size * size then None
      else Some(ReadClauses(s[4..], (data - 4) / size, size))
  }

  // The body at address `at` of an image; sections start on 4-byte boundaries.
  function ReadBody(image: seq<byte>, at: nat): Option<Body> {
    if at >= |image| then None
    else if image[at] % 4 == TINY_FORMAT then
      var size := image[at] / 4;
      if at + 1 + size > |image| then None else Some(Body(8, image[at + 1..at + 1 + size], 0, []))
    else if image[at] % 4 == FAT_FORMAT && at + 12 <= |image| && Word(image[at..]) / 0x1000 == 3 then
      var size := DWord(image[at + 4..]);
      if at + 12 + size > |image| then None
      else
        var body := Body(Word(image[at + 2..]), image[at + 12..at + 12 + size], DWord(image[at + 8..]), []);
        if Word(image[at..]) / MORE_SECTS % 2 == 0 then Some(body)
        else
          var section := AlignUp(at + 12 + size, 4);
          if section > |image| then None
          else match ReadSection(image[section..])
            case None => None
            case Some(clauses) => Some(body.(clauses := clauses))
    else None
  }

  // ---- Reading back ----

  // The fields a clause has in the file can hold its values.
  predicate ClauseFits(d: SEHData) {
    && 0 <= d.flags < 256
    && 0 <= d.tryOffset < TWO_32 && 0 <= d.tryLength < TWO_32
    && 0 <= d.handlerOffset < TWO_32 && 0 <= d.handlerLength < TWO_32
    && 0 <= d.extra < TWO_32
  }

  predicate ClausesFit(ds: seq<SEHData>) {
    forall i :: 0 <= i < |ds| ==> ClauseFits(ds[i])
  }

  lemma SmallClauseReadsBack(d: SEHData, rest: seq<byte>)
    requires ClauseFits(d) && IsSmall(d)
    ensures ReadSmallClause(SmallClause(d) + rest) == d
  {
    hide Le2, Le4, Word, DWord;
    var s := SmallClause(d) + rest;
    assert s[..2] == [d.flags % 256, 0] == Le2(d.flags) by { LowByte(d.flags); }
    assert s[2..4] == Le2(d.tryOffset) && s[5..7] == Le2(d.handlerOffset) && s[8..12] == Le4(d.extra);
    assert s[0..] == s && s[0..2] == s[..2];
    ReadLe2(s, 0, d.flags);
    ReadLe2(s, 2, d.tryOffset);
    ReadLe2(s, 5, d.handlerOffset);
    ReadLe4(s, 8, d.extra);
  }

  lemma LowByte(v: int)
    requires 0 <= v < 256
    ensures Le2(v) == [v, 0] && Le4(v) == [v, 0, 0, 0]
  {
  }

  lemma FatClauseReadsBack(d: SEHData, rest: seq<byte>)
    requires ClauseFits(d)
    ensures ReadFatClause(FatClause(d) + rest) == d
  {
    hide Le2, Le4, Word, DWord;
    var s := FatClause(d) + rest;
    assert s[..4] == [d.flags % 256, 0, 0, 0] == Le4(d.flags) by { LowByte(d.flags); }
    assert s[4..8] == Le4(d.tryOffset) && s[8..12] == Le4(d.tryLength) && s[12..16] == Le4(d.handlerOffset);
    assert s[16..20] == Le4(d.handlerLength) && s[20..24] == Le4(d.extra);
    assert s[0..] == s && s[0..4] == s[..4];
    ReadLe4(s, 0, d.flags);
    ReadLe4(s, 4, d.tryOffset);
    ReadLe4(s, 8, d.tryLength);
    ReadLe4(s, 12, d.handlerOffset);
    ReadLe4(s, 16, d.handlerLength);
    ReadLe4(s, 20, d.extra);
  }

  lemma {:induction false} SmallClausesReadBack(ds: seq<SEHData>, rest: seq<byte>)
    requires ClausesFit(ds) && AllSmall(ds)
    ensures ReadClauses(SmallClauses(ds) + rest, |ds|, 12) == ds
  {
    hide SmallClause, ReadSmallClause;
    if ds != [] {
      var s, tail := SmallClauses(ds) + rest, SmallClauses(ds[1..]) + rest;
      assert s == SmallClause(ds[0]) + tail;
      SmallClauseReadsBack(ds[0], tail);
      SmallClausesReadBack(ds[1..], rest);
      assert s[12..] == tail;
    }
  }

  lemma {:induction false} FatClausesReadBack(ds: seq<SEHData>, rest: seq<byte>)
    requires ClausesFit(ds)
    ensures ReadClauses(FatClauses(ds) + rest, |ds|, 24) == ds
  {
    hide FatClause, ReadFatClause;
    if ds != [] {
      var s, tail := FatClauses(ds) + rest, FatClauses(ds[1..]) + rest;
      assert s == FatClause(ds[0]) + tail;
      FatClauseReadsBack(ds[0], tail);
      FatClausesReadBack(ds[1..], rest);
      assert s[24..] == tail;
    }
  }

  lemma SmallHead(ds: seq<SEHData>, s: seq<byte>)
    requires SmallSection(ds) && |s| >= 4 && s[0] == 1 && s[1] == (|ds| * 12 + 4) % 256
    requires |s| - 4 >= 12 * |ds|
    ensures ReadSection(s) == Some(ReadClauses(s[4..], |ds|, 12))
  {
    hide ReadClauses, AllSmall;
    Times(|ds|);
  }

  lemma Times(n: nat)
    requires n < 21
    ensures (n * 12 + 4) % 256 == n * 12 + 4 && (n * 12 + 4 - 4) / 12 == n
  {
  }

  // The size field has three bytes.
  function CountInFile(n: nat): int { (n * 24 + 4) % 0x100_0000 }

  lemma ThreeBytes(q: nat)
    ensures q % 256 + 256 * (q / 256 % 256) + TWO_16 * (q / TWO_16 % 256) == q % 0x100_0000
  {
    var a, x := q / 256, q % 256;
    var b, y := a / 256, a % 256;
    var c, z := b / 256, b % 256;
    assert q == 256 * a + x && a == 256 * b + y && b == 256 * c + z;
    DivUnique(q, TWO_16, b, 256 * y + x);
    assert 0x100_0000 * c + (x + 256 * y + TWO_16 * z) == q && x + 256 * y + TWO_16 * z < 0x100_0000;
    DivUnique(q, 0x100_0000, c, x + 256 * y + TWO_16 * z);
  }

  lemma FatHead(ds: seq<SEHData>, s: seq<byte>)
    requires |s| >= 4 && |s| - 4 >= 24 * |ds|
    requires s[0] == 0x41 && s[1] + 256 * s[2] + TWO_16 * s[3] == CountInFile(|ds|)
    ensures ReadSection(s) == if CountInFile(|ds|) < 4 then None
                              else Some(ReadClauses(s[4..], (CountInFile(|ds|) - 4) / 24, 24))
  {
    hide ReadClauses;
    FewerFit(CountInFile(|ds|), |ds|);
  }

  lemma FewerFit(data: int, n: nat)
    requires data <= n * 24 + 4
    ensures data >= 4 ==> 0 <= (data - 4) / 24 * 24 <= n * 24
  {
  }

  // The clauses come back exactly when their number fits the size field.
  lemma SectionReadsBack(ds: seq<SEHData>, rest: seq<byte>)
    requires ClausesFit(ds)
    ensures ReadSection(SectionBytes(ds) + rest) == Some(ds) <==> |ds| * 24 + 4 < 0x100_0000
  {
    if SmallSection(ds) {
      SmallSectionReadsBack(ds, rest);
    } else {
      FatSectionReadsBack(ds, rest);
    }
  }

  lemma SmallSectionReadsBack(ds: seq<SEHData>, rest: seq<byte>)
    requires ClausesFit(ds) && SmallSection(ds)
    ensures ReadSection(SectionBytes(ds) + rest) == Some(ds)
  {
    hide ReadSection, ReadClauses, SmallClauses;
    var head: seq<byte> := [1, (|ds| * 12 + 4) % 256, 0, 0];
    var s := head + SmallClauses(ds) + rest;
    assert s[0] == head[0] && s[1] == head[1];
    assert s[4..] == SmallClauses(ds) + rest;
    SmallHead(ds, s);
    SmallClausesReadBack(ds, rest);
  }

  lemma FatSectionReadsBack(ds: seq<SEHData>, rest: seq<byte>)
    requires ClausesFit(ds) && !SmallSection(ds)
    ensures ReadSection(SectionBytes(ds) + rest) == Some(ds) <==> |ds| * 24 + 4 < 0x100_0000
  {
    hide ReadSection, ReadClauses, FatClauses, SmallSection;
    var q := |ds| * 24 + 4;
    var head: seq<byte> := [0x41] + Le2(q) + [q / TWO_16 % 256];
    var s := head + FatClauses(ds) + rest;
    assert s[0] == head[0] && s[1] == head[1] && s[2] == head[2] && s[3] == head[3];
    assert s[4..] == FatClauses(ds) + rest;
    ThreeBytes(q);
    FatHead(ds, s);
    if q < 0x100_0000 {
      assert CountInFile(|ds|) == q && (q - 4) / 24 == |ds|;
      FatClausesReadBack(ds, rest);
    } else {
      assert CountInFile(|ds|) < q;
    }
  }

  // What a constructed method holds once it has been compiled.
  predicate WellFormed(m: PEMethod) {
    && 0 <= m.maxStack < TWO_16 && |m.code| < TWO_32 && 0 <= m.signatureToken < TWO_32
    && (m.flags % 0x1000 == TINY_FORMAT || m.flags % 0x1000 == FAT_FORMAT)
    && (IsTiny(m) ==> |m.code| < 64 && m.sehData == [] && m.signatureToken == 0 && m.maxStack <= 8)
    && ClausesFit(m.sehData) && |m.sehData| * 24 + 4 < 0x100_0000
  }

  // Tiny exactly where section II.25.4.2 allows it: no locals, no exception
  // blocks, a stack of at most 8 and less than 64 bytes.
  // A body without locals has no local signature, and hasSEH is set by
  // Optimize whenever there are exception blocks.
  lemma ConstructedIsWellFormed(hasSEH: bool, flags: nat, methodDef: nat, maxStack: int, localCount: nat, code: seq<byte>,
                                signature: int, sehData: seq<SEHData>)
    requires flags % 0x1000 == 0 && |code| < TWO_32 && 0 <= signature < TWO_32
    requires localCount == 0 ==> signature == 0
    requires sehData != [] ==> hasSEH
    requires ClausesFit(sehData) && |sehData| * 24 + 4 < 0x100_0000
    ensures WellFormed(NewMethod(hasSEH, flags, methodDef, maxStack, localCount, code, signature, sehData))
    ensures maxStack % TWO_16 == maxStack <==> 0 <= maxStack < TWO_16
    ensures IsTiny(NewMethod(hasSEH, flags, methodDef, maxStack, localCount, code, signature, sehData))
            <==> localCount == 0 && !hasSEH && maxStack % TWO_16 <= 8 && |code| < 64
  {
    var more := ChosenFlags(hasSEH, flags, maxStack % TWO_16, localCount, |code|);
    var q := flags / 0x1000;
    assert flags == 0x1000 * q;
    Formats(q);
  }

  lemma Formats(q: nat)
    ensures (0x1000 * q + TINY_FORMAT) % 0x1000 == TINY_FORMAT && (0x1000 * q + FAT_FORMAT) % 0x1000 == FAT_FORMAT
    ensures (0x1000 * q + TINY_FORMAT) % 4 == TINY_FORMAT && (0x1000 * q + FAT_FORMAT) % 4 == FAT_FORMAT
  {
    ModAddTimes(TINY_FORMAT, 0x1000, q);
    ModAddTimes(FAT_FORMAT, 0x1000, q);
    ModAddTimes(TINY_FORMAT, 4, 0x400 * q);
    ModAddTimes(FAT_FORMAT, 4, 0x400 * q);
  }

  lemma FatHeaderReadsBack(m: PEMethod, image: seq<byte>, at: nat)
    requires WellFormed(m) && !IsTiny(m) && at + 12 <= |image| && image[at..at + 12] == HeaderBytes(m)
    ensures image[at] % 4 == FAT_FORMAT && Word(image[at..]) / 0x1000 == 3
    ensures Word(image[at..]) / MORE_SECTS % 2 == if m.sehData == [] then 0 else 1
    ensures Word(image[at + 2..]) == m.maxStack && DWord(image[at + 4..]) == |m.code|
    ensures DWord(image[at + 8..]) == m.signatureToken
  {
    hide Le2, Le4, Word, DWord, HeaderBytes;
    var word := HeaderWord(m);
    var h := HeaderBytes(m);
    HeaderWordParts(m);
    HeaderParts(m);
    Inside(image, at, h, 0, 2);
    Inside(image, at, h, 2, 4);
    Inside(image, at, h, 4, 8);
    Inside(image, at, h, 8, 12);
    ReadLe2(image, at, word);
    ReadLe2(image, at + 2, m.maxStack);
    ReadLe4(image, at + 4, |m.code|);
    ReadLe4(image, at + 8, m.signatureToken);
    FirstByte(image, at);
  }

  lemma HeaderParts(m: PEMethod)
    requires !IsTiny(m)
    ensures var h := HeaderBytes(m);
            && h[0..2] == Le2(HeaderWord(m)) && h[2..4] == Le2(m.maxStack)
            && h[4..8] == Le4(|m.code|) && h[8..12] == Le4(m.signatureToken)
  {
    hide Le2, Le4, HeaderWord;
  }

  lemma HeaderWordParts(m: PEMethod)
    requires m.flags % 0x1000 == FAT_FORMAT
    ensures var word := HeaderWord(m);
            && 0 <= word < TWO_16 && word % 256 % 4 == FAT_FORMAT && word / 0x1000 == 3
            && word / MORE_SECTS % 2 == if m.sehData == [] then 0 else 1
  {
  }

  lemma FirstByte(image: seq<byte>, at: nat)
    requires at + 2 <= |image|
    ensures image[at] == Word(image[at..]) % 256
  {
  }

  lemma Inside(image: seq<byte>, at: nat, part: seq<byte>, i: nat, j: nat)
    requires at + |part| <= |image| && image[at..at + |part|] == part && i <= j <= |part|
    ensures image[at + i..at + j] == part[i..j]
  {
    forall k | 0 <= k < j - i ensures image[at + i..at + j][k] == part[i..j][k] {
      assert image[at..at + |part|][i + k] == part[i + k];
    }
  }

  // The body read where Write put it is the method's: its code, its local
  // signature and its clauses. Fat headers need a 4-byte boundary.
  lemma BodyReadsBack(m: PEMethod, image: seq<byte>, at: nat)
    requires WellFormed(m) && (!IsTiny(m) ==> at % 4 == 0)
    requires at + |BodyBytes(m)| <= |image| && image[at..at + |BodyBytes(m)|] == BodyBytes(m)
    ensures ReadBody(image, at)
         == Some(Body(if IsTiny(m) then 8 else m.maxStack, m.code, m.signatureToken, m.sehData))
  {
    HeaderAndCode(m, image, at);
    if IsTiny(m) {
      hide SectionBytes, ReadSection, Word, DWord, ClausesFit, BodyBytes, HeaderBytes;
      TinyHeader(m);
      assert image[at] == image[at..at + 1][0];
    } else {
      FatBodyReadsBack(m, image, at);
    }
  }

  lemma HeaderAndCode(m: PEMethod, image: seq<byte>, at: nat)
    requires at + |BodyBytes(m)| <= |image| && image[at..at + |BodyBytes(m)|] == BodyBytes(m)
    ensures var h := |HeaderBytes(m)|;
            at + h + |m.code| <= |image| && image[at..at + h] == HeaderBytes(m) && image[at + h..at + h + |m.code|] == m.code
  {
    hide HeaderBytes, SectionBytes;
    var bytes := BodyBytes(m);
    var h := |HeaderBytes(m)|;
    Inside(image, at, bytes, 0, h);
    Inside(image, at, bytes, h, h + |m.code|);
    assert bytes[0..h] == HeaderBytes(m) && bytes[h..h + |m.code|] == m.code;
  }

  lemma FatBodyReadsBack(m: PEMethod, image: seq<byte>, at: nat)
    requires WellFormed(m) && !IsTiny(m) && at % 4 == 0
    requires at + |BodyBytes(m)| <= |image| && image[at..at + |BodyBytes(m)|] == BodyBytes(m)
    ensures ReadBody(image, at) == Some(Body(m.maxStack, m.code, m.signatureToken, m.sehData))
  {
    hide HeaderBytes, SectionBytes, ReadSection, Word, DWord, BodyBytes, AlignUp, WellFormed;
    HeaderAndCode(m, image, at);
    FatHeaderReadsBack(m, image, at);
    if m.sehData != [] {
      ClausesReadBack(m, image, at);
    }
  }

  lemma ClausesReadBack(m: PEMethod, image: seq<byte>, at: nat)
    requires WellFormed(m) && !IsTiny(m) && at % 4 == 0 && m.sehData != []
    requires at + |BodyBytes(m)| <= |image| && image[at..at + |BodyBytes(m)|] == BodyBytes(m)
    ensures var section := AlignUp(at + 12 + |m.code|, 4);
            section <= |image| && ReadSection(image[section..]) == Some(m.sehData)
  {
    hide HeaderBytes, SectionBytes, ReadSection, ClausesFit, AlignUp;
    var bytes := BodyBytes(m);
    var section := AlignUp(12 + |m.code|, 4);
    AlignFrom(at, 12 + |m.code|);
    Inside(image, at, bytes, section, |bytes|);
    assert bytes[section..|bytes|] == SectionBytes(m.sehData);
    assert image[at + section..] == image[at + section..at + |bytes|] + image[at + |bytes|..];
    SectionReadsBack(m.sehData, image[at + |bytes|..]);
  }

  lemma TinyHeader(m: PEMethod)
    requires IsTiny(m) && |m.code| < 64
    ensures HeaderBytes(m)[0] % 4 == TINY_FORMAT && HeaderBytes(m)[0] / 4 == |m.code|
  {
  }
}
