// The metadata root and its stream headers: WriteMetadataHeaders against
// GetStream (section II.24.2.1 of ECMA-335).
module MetadataRoot {
  import opened Bytes
  import opened MethodBodies

  const TILDE: seq<byte> := [0x23, 0x7e]
  const STRINGS: seq<byte> := [0x23, 0x53, 0x74, 0x72, 0x69, 0x6e, 0x67, 0x73]
  const US: seq<byte> := [0x23, 0x55, 0x53]
  const GUID: seq<byte> := [0x23, 0x47, 0x55, 0x49, 0x44]
  const BLOB: seq<byte> := [0x23, 0x42, 0x6c, 0x6f, 0x62]

  // v4.0.30319 and its terminator.
  const VERSION: seq<byte> := [0x76, 0x34, 0x2e, 0x30, 0x2e, 0x33, 0x30, 0x33, 0x31, 0x39, 0]

  function StreamName(k: nat): (name: seq<byte>)
    requires k < 5
  {
    if k == 0 then TILDE else if k == 1 then STRINGS else if k == 2 then US else if k == 3 then GUID else BLOB
  }

  // Offset from the root, and size.
  datatype Extent = Extent(offset: nat, size: nat)

  type Streams = s: seq<Extent> | |s| == 5 witness seq(5, _ => Extent(0, 0))

  function StreamHeader(e: Extent, name: seq<byte>): (s: seq<byte>)
    ensures |s| == AlignUp(9 + |name|, 4)
  {
    Padded(Le4(e.offset) + Le4(e.size) + name + [0], 4)
  }

  function RootHead(): (s: seq<byte>)
    ensures |s| == 32
  {
    Le4(0x424A5342) + Le2(1) + Le2(1) + Le4(0) + Le4(12) + VERSION + [0] + Le2(0) + Le2(5)
  }

  // The headers of the streams from the k-th on.
  function HeadersFrom(streams: Streams, k: nat): seq<byte>
    requires k <= 5
    decreases 5 - k
  {
    if k == 5 then [] else StreamHeader(streams[k], StreamName(k)) + HeadersFrom(streams, k + 1)
  }

  function RootBytes(streams: Streams): (s: seq<byte>)
    ensures |s| == 108
  {
    assert |HeadersFrom(streams, 5)| == 0;
    assert |HeadersFrom(streams, 3)| == 32;
    assert |HeadersFrom(streams, 1)| == 64;
    RootHead() + HeadersFrom(streams, 0)
  }

  method WriteMetadataHeaders(streams: Streams, out: OutStream)
    modifies out
    ensures out.bytes == Padded(old(out.bytes), 4) + RootBytes(streams)
  {
    hide Le4, Le2, HeadersFrom;
    out.Align(4);
    ghost var root := out.bytes;
    out.Put(Le4(0x424A5342) + Le2(1) + Le2(1) + Le4(0));
    var n := |VERSION|;
    if n % 4 != 0 { n := n + 4 - n % 4; }
    out.Put(Le4(n));
    out.Put(VERSION);
    AlignAfter(out.bytes, root, 27);
    out.Align(4);
    out.Put(Le2(0));
    out.Put(Le2(5));
    assert out.bytes == root + RootHead();
    WriteStreamHeaders(streams, out);
  }

  lemma AlignAfter(bytes: seq<byte>, before: seq<byte>, n: nat)
    requires |before| % 4 == 0 && |bytes| == |before| + n
    ensures n % 4 == 0 ==> Padded(bytes, 4) == bytes
    ensures n % 4 != 0 ==> Padded(bytes, 4) == bytes + Zeros(4 - n % 4)
    ensures Zeros(1) == [0]
  {
    assert |bytes| % 4 == n % 4;
  }

  method WriteStreamHeaders(streams: Streams, out: OutStream)
    requires |out.bytes| % 4 == 0
    modifies out
    ensures out.bytes == old(out.bytes) + HeadersFrom(streams, 0)
  {
    hide StreamHeader, StreamName, AlignUp;
    var i := 0;
    while i < 5
      invariant i <= 5 && |out.bytes| % 4 == 0
      invariant out.bytes + HeadersFrom(streams, i) == old(out.bytes) + HeadersFrom(streams, 0)
    {
      ghost var before := out.bytes;
      WriteStreamHeader(streams[i], StreamName(i), out);
      assert out.bytes + HeadersFrom(streams, i + 1) == before + HeadersFrom(streams, i);
      i := i + 1;
    }
  }

  method WriteStreamHeader(e: Extent, name: seq<byte>, out: OutStream)
    requires |out.bytes| % 4 == 0
    modifies out
    ensures out.bytes == old(out.bytes) + StreamHeader(e, name) && |out.bytes| % 4 == 0
  {
    hide Le4, Padded;
    out.Put(Le4(e.offset));
    out.Put(Le4(e.size));
    out.Put(name + [0]);
    ghost var header := Le4(e.offset) + Le4(e.size) + name + [0];
    assert out.bytes == old(out.bytes) + header;
    PadsAlike(old(out.bytes), header);
    out.Align(4);
  }

  // Behind a boundary, padding the whole is padding the part.
  lemma PadsAlike(before: seq<byte>, part: seq<byte>)
    requires |before| % 4 == 0
    ensures Padded(before + part, 4) == before + Padded(part, 4)
    ensures |before + Padded(part, 4)| % 4 == 0
  {
    assert |before + part| % 4 == |part| % 4;
    assert |Padded(part, 4)| % 4 == 0;
  }

  // ---- The reader ----

  // The string up to its terminator.
  function CString(s: seq<byte>): (name: seq<byte>)
    ensures |name| <= |s|
  {
    if s == [] || s[0] == 0 then [] else [s[0]] + CString(s[1..])
  }

  // The first of n stream headers with the name.
  function FindStream(s: seq<byte>, n: nat, name: seq<byte>): Option<(int, int)>
    decreases n
  {
    if n == 0 || |s| < 8 then None
    else
      var q := CString(s[8..]);
      if q == name then Some((DWord(s), DWord(s[4..])))
      else
        var l := AlignUp(8 + |q| + 1, 4);
        if l > |s| then None else FindStream(s[l..], n - 1, name)
  }

  // Address and size of the stream; no such stream has address 0.
  function StreamAt(root: seq<byte>, base: nat, name: seq<byte>): (nat, nat) {
    if |root| < 16 then (0, 0)
    else
      var p := 12 + DWord(root[12..]) + 4;
      if p + 4 > |root| || Word(root[p..]) != 0 || Word(root[p + 2..]) != 5 then (0, 0)
      else match FindStream(root[p + 4..], 5, name)
        case None => (0, 0)
        case Some((offset, size)) => (base + offset, size)
  }

  method GetStream(root: seq<byte>, base: nat, name: seq<byte>) returns (pos: (nat, nat))
    ensures pos == StreamAt(root, base, name)
  {
    hide CString, DWord, Word, AlignUp;
    if |root| < 16 { return (0, 0); }
    var start := 12 + DWord(root[12..]) + 4;
    if start + 4 > |root| || Word(root[start..]) != 0 || Word(root[start + 2..]) != 5 { return (0, 0); }
    var p := root[start + 4..];
    var i := 0;
    while i < 5
      invariant i <= 5 && FindStream(root[start + 4..], 5, name) == FindStream(p, 5 - i, name)
    {
      if |p| < 8 { return (0, 0); }
      var q := CString(p[8..]);
      if q == name {
        return (base + DWord(p), DWord(p[4..]));
      }
      var l := AlignUp(8 + |q| + 1, 4);
      if l > |p| { return (0, 0); }
      p := p[l..];
      i := i + 1;
    }
    return (0, 0);
  }

  // ---- Finding what was written ----

  lemma {:induction false} CStringReads(name: seq<byte>, rest: seq<byte>)
    requires 0 !in name
    ensures CString(name + [0] + rest) == name
  {
    var s := name + [0] + rest;
    if name != [] {
      assert s[1..] == name[1..] + [0] + rest;
      CStringReads(name[1..], rest);
    }
  }

  lemma NamesHaveNoZero(k: nat)
    requires k < 5
    ensures 0 !in StreamName(k)
    ensures forall j: nat :: j < 5 && j != k ==> StreamName(j) != StreamName(k)
  {
    assert StreamName(0)[1] == 0x7e && StreamName(1)[1] == 0x53 && StreamName(2)[1] == 0x55
           && StreamName(3)[1] == 0x47 && StreamName(4)[1] == 0x42;
  }

  lemma HeaderReads(e: Extent, name: seq<byte>, rest: seq<byte>)
    requires 0 !in name && e.offset < TWO_32 && e.size < TWO_32
    ensures var s := StreamHeader(e, name) + rest;
            && CString(s[8..]) == name && DWord(s) == e.offset && DWord(s[4..]) == e.size
            && |s| >= AlignUp(9 + |name|, 4) >= 8 && s[AlignUp(9 + |name|, 4)..] == rest
  {
    hide Le4, DWord, CString;
    var pad := StreamHeader(e, name)[9 + |name|..];
    var s := StreamHeader(e, name) + rest;
    assert s == Le4(e.offset) + (Le4(e.size) + (name + [0] + (pad + rest)));
    assert s[4..] == Le4(e.size) + (name + [0] + (pad + rest));
    assert s[8..] == name + [0] + (pad + rest);
    CStringReads(name, pad + rest);
    Le4DWord(e.offset, Le4(e.size) + (name + [0] + (pad + rest)));
    Le4DWord(e.size, name + [0] + (pad + rest));
  }

  lemma {:induction false} FindsFrom(streams: Streams, i: nat, k: nat, rest: seq<byte>)
    requires i <= k < 5
    requires forall j :: 0 <= j < 5 ==> streams[j].offset < TWO_32 && streams[j].size < TWO_32
    ensures FindStream(HeadersFrom(streams, i) + rest, 5 - i, StreamName(k))
         == Some((streams[k].offset, streams[k].size))
    decreases k - i
  {
    hide StreamHeader, StreamName, CString, DWord, AlignUp;
    NamesHaveNoZero(i);
    var tail := HeadersFrom(streams, i + 1) + rest;
    HeaderReads(streams[i], StreamName(i), tail);
    assert HeadersFrom(streams, i) + rest == StreamHeader(streams[i], StreamName(i)) + tail;
    if i < k {
      FindsFrom(streams, i + 1, k, rest);
    }
  }

  lemma RootHeadReads(rest: seq<byte>)
    ensures var s := RootHead() + rest;
            && DWord(s[12..]) == 12 && Word(s[28..]) == 0 && Word(s[30..]) == 5 && s[32..] == rest
  {
    hide Le4, Le2, DWord, Word;
    var s := RootHead() + rest;
    assert s[12..] == Le4(12) + s[16..];
    Le4DWord(12, s[16..]);
    assert s[28..] == Le2(0) + s[30..];
    Le2Word(0, s[30..]);
    assert s[30..] == Le2(5) + s[32..];
    Le2Word(5, s[32..]);
  }

  // Every stream is found under its name, at its address and with its size.
  lemma StreamIsFound(streams: Streams, base: nat, k: nat, rest: seq<byte>)
    requires k < 5
    requires forall j :: 0 <= j < 5 ==> streams[j].offset < TWO_32 && streams[j].size < TWO_32
    ensures StreamAt(RootBytes(streams) + rest, base, StreamName(k))
         == (base + streams[k].offset, streams[k].size)
  {
    hide RootHead, HeadersFrom, StreamName, DWord, Word, FindStream;
    var tail := HeadersFrom(streams, 0) + rest;
    assert RootBytes(streams) + rest == RootHead() + tail;
    RootHeadReads(tail);
    FindsFrom(streams, 0, k, rest);
  }
}
