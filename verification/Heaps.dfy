// The heaps the writer fills and the reader looks into: #Strings, #Blob and
// #GUID, over whole runs of insertions.
module Heaps {
  import opened Bytes
  import opened Compression
  import opened MethodBodies

  // ---- The pool ----

  // A buffer that doubles.
  class Pool {
    var size: nat
    var base: array<byte>

    ghost predicate Valid()
      reads this
    {
      200 <= base.Length && size <= base.Length
    }

    // What the pool holds; an empty pool is followed by the zeros of calloc.
    ghost function Held(): seq<byte>
      requires Valid()
      reads this, base
    {
      base[..size]
    }

    constructor ()
      ensures Valid() && size == 0 && fresh(base) && base[0] == 0
    {
      size := 0;
      base := new byte[200](_ => 0);
    }

    // Makes room for newSize more bytes; what is held stays.
    method Ensure(newSize: nat)
      requires Valid()
      modifies this`base
      ensures Valid() && size + newSize <= base.Length
      ensures base == old(base) || fresh(base)
      ensures Held() == old(Held()) && base[0] == old(base[0])
      ensures base != old(base) <==> size + newSize > old(base.Length)
    {
      var maxSize := base.Length;
      if size + newSize > maxSize {
        if size + newSize < maxSize * 2 {
          maxSize := maxSize * 2;
        } else {
          maxSize := (maxSize + newSize) * 2;
        }
        var bigger := new byte[maxSize](_ => 0);
        forall i | 0 <= i < base.Length {
          bigger[i] := base[i];
        }
        base := bigger;
      }
    }

    // The zero byte every heap starts with.
    method Start()
      requires Valid() && (size == 0 ==> base[0] == 0)
      modifies this`size
      ensures Valid() && size > 0
      ensures Held() == if old(size) == 0 then [0] else old(Held())
    {
      if size == 0 {
        size := size + 1;
      }
    }

    method Append(data: seq<byte>)
      requires Valid() && size + |data| <= base.Length
      modifies this`size, base
      ensures Valid() && base == old(base) && Held() == old(Held()) + data
    {
      forall i | 0 <= i < |data| {
        base[size + i] := data[i];
      }
      size := size + |data|;
    }
  }

  // ---- Strings ----

  type Text = seq<byte>

  datatype StringHeap = StringHeap(bytes: seq<byte>, index: map<Text, nat>)

  const NO_STRINGS := StringHeap([], map[])

  function Started(bytes: seq<byte>): (b: seq<byte>)
    ensures |b| > 0
  {
    if bytes == [] then [0] else bytes
  }

  // A string known already keeps its index, a new one goes to the end.
  function AddString(h: StringHeap, s: Text): (StringHeap, nat) {
    if s in h.index then (h, h.index[s])
    else
      var bytes := Started(h.bytes);
      (StringHeap(bytes + s + [0], h.index[s := |bytes|]), |bytes|)
  }

  // The heap after the first k strings of a run, and the index of the last.
  function StringsAfter(run: seq<Text>, k: nat): StringHeap
    requires k <= |run|
  {
    if k == 0 then NO_STRINGS else AddString(StringsAfter(run, k - 1), run[k - 1]).0
  }

  function StringIndex(run: seq<Text>, k: nat): nat
    requires k < |run|
  {
    AddString(StringsAfter(run, k), run[k]).1
  }

  class StringPool {
    const strings: Pool
    var stringMap: map<Text, nat>

    ghost predicate Valid()
      reads this, strings, strings.base
    {
      strings.Valid() && (strings.size == 0 ==> strings.base[0] == 0)
    }

    ghost function Value(): StringHeap
      requires Valid()
      reads this, strings, strings.base
    {
      StringHeap(strings.Held(), stringMap)
    }

    constructor ()
      ensures Valid() && fresh(strings) && fresh(strings.base) && Value() == NO_STRINGS
    {
      strings := new Pool();
      stringMap := map[];
    }

    method HashString(utf8: Text) returns (rv: nat)
      requires Valid()
      modifies this, strings, strings.base
      ensures Valid() && (strings.base == old(strings.base) || fresh(strings.base))
      ensures (Value(), rv) == AddString(old(Value()), utf8)
    {
      if utf8 in stringMap {
        return stringMap[utf8];
      }
      strings.Start();
      strings.Ensure(|utf8| + 1);
      rv := strings.size;
      strings.Append(utf8 + [0]);
      assert old(Started(strings.Held())) + (utf8 + [0]) == old(Started(strings.Held())) + utf8 + [0];
      stringMap := stringMap[utf8 := rv];
    }
  }

  // ---- Reading strings ----

  function UpToZero(data: seq<byte>, at: nat): (s: Text)
    requires at <= |data|
    ensures |s| <= |data| - at
    decreases |data| - at
  {
    if at == |data| || data[at] == 0 then [] else [data[at]] + UpToZero(data, at + 1)
  }

  // At most len - 1 bytes go to the caller's buffer.
  method ReadFromString(stringData: seq<byte>, len: nat, offset: nat) returns (buf: Text)
    requires offset < |stringData| && len > 0
    ensures var s := UpToZero(stringData, offset);
            buf == if |s| < len then s else s[..len - 1]
  {
    buf := [];
    var i := offset;
    while i < |stringData| && stringData[i] != 0 && i < offset + len - 1
      invariant offset <= i <= |stringData| && i <= offset + len - 1 && |buf| == i - offset
      invariant buf + UpToZero(stringData, i) == UpToZero(stringData, offset)
    {
      Regroup(buf, stringData[i], UpToZero(stringData, i + 1));
      buf := buf + [stringData[i]];
      i := i + 1;
    }
    StopsThere(buf, UpToZero(stringData, i));
  }

  lemma Regroup(a: Text, b: byte, c: Text)
    ensures a + [b] + c == a + ([b] + c)
  {
  }

  lemma StopsThere(buf: Text, rest: Text)
    ensures (buf + rest)[..|buf|] == buf
    ensures rest == [] ==> buf + rest == buf
  {
  }

  // ---- Runs of HashString ----

  // The string with its terminator stands at the index.
  ghost predicate StoredAt(bytes: seq<byte>, at: nat, s: Text) {
    0 < at && at + |s| + 1 <= |bytes| && bytes[at..at + |s|] == s && bytes[at + |s|] == 0
  }

  ghost predicate Sound(h: StringHeap) {
    && (forall s :: s in h.index ==> StoredAt(h.bytes, h.index[s], s))
    && (forall s, t :: s in h.index && t in h.index && h.index[s] == h.index[t] ==> s == t)
  }

  lemma AddKeepsSound(h: StringHeap, s: Text)
    requires Sound(h)
    ensures var (after, index) := AddString(h, s);
            && Sound(after) && s in after.index && after.index[s] == index
            && (forall t :: t in h.index ==> t in after.index && after.index[t] == h.index[t])
  {
    if s !in h.index {
      var bytes := Started(h.bytes);
      var after := bytes + s + [0];
      assert after[|bytes|..|bytes| + |s|] == s;
      forall t | t in h.index ensures StoredAt(after, h.index[t], t) && h.index[t] < |bytes| {
        assert StoredAt(h.bytes, h.index[t], t);
        assert after[h.index[t]..h.index[t] + |t|] == h.bytes[h.index[t]..h.index[t] + |t|];
      }
    }
  }

  lemma {:induction false} RunIsSound(run: seq<Text>, k: nat)
    requires k <= |run|
    ensures Sound(StringsAfter(run, k))
  {
    if k > 0 {
      hide Sound, AddString;
      RunIsSound(run, k - 1);
      AddKeepsSound(StringsAfter(run, k - 1), run[k - 1]);
    }
  }

  // An index once returned is the index of its string ever after.
  lemma {:induction false} IndexStays(run: seq<Text>, i: nat, k: nat)
    requires i < k <= |run|
    ensures run[i] in StringsAfter(run, k).index && StringsAfter(run, k).index[run[i]] == StringIndex(run, i)
    decreases k
  {
    hide Sound, AddString;
    RunIsSound(run, k - 1);
    AddKeepsSound(StringsAfter(run, k - 1), run[k - 1]);
    if i < k - 1 {
      IndexStays(run, i, k - 1);
    }
  }

  lemma {:induction false} UpToZeroReads(data: seq<byte>, at: nat, s: Text)
    requires at + |s| < |data| && data[at..at + |s|] == s && data[at + |s|] == 0
    ensures UpToZero(data, at) == s <==> 0 !in s
    decreases |s|
  {
    if s != [] {
      assert s[0] == data[at..at + |s|][0] == data[at];
      assert data[at + 1..at + 1 + |s[1..]|] == s[1..] by {
        assert data[at..at + |s|][1..] == s[1..];
      }
      UpToZeroReads(data, at + 1, s[1..]);
      assert s == [s[0]] + s[1..];
    }
  }

  // After any run every index still reads back its own string, exactly when
  // the string has no zero byte; padding behind the heap does not matter.
  lemma StringsReadBack(run: seq<Text>, i: nat, padding: seq<byte>)
    requires i < |run|
    ensures var data := StringsAfter(run, |run|).bytes + padding;
            StringIndex(run, i) < |data| && (UpToZero(data, StringIndex(run, i)) == run[i] <==> 0 !in run[i])
  {
    RunIsSound(run, |run|);
    IndexStays(run, i, |run|);
    var h := StringsAfter(run, |run|);
    var at := StringIndex(run, i);
    assert StoredAt(h.bytes, at, run[i]);
    var data := h.bytes + padding;
    assert data[at..at + |run[i]|] == h.bytes[at..at + |run[i]|];
    UpToZeroReads(data, at, run[i]);
  }

  // Equal indexes exactly for equal strings, whatever the strings hold.
  lemma IndexesTellStringsApart(run: seq<Text>, i: nat, j: nat)
    requires i < |run| && j < |run|
    ensures StringIndex(run, i) == StringIndex(run, j) <==> run[i] == run[j]
  {
    RunIsSound(run, |run|);
    IndexStays(run, i, |run|);
    IndexStays(run, j, |run|);
  }

  // ---- Blobs ----

  // The length kept for a blob of n bytes.
  function KeptLength(n: nat): (kept: nat)
    ensures kept <= n
  {
    n % LIMIT
  }

  function AddBlob(heap: seq<byte>, data: seq<byte>): (seq<byte>, nat) {
    var bytes := Started(heap);
    (bytes + Compressed(|data|) + data[..KeptLength(|data|)], |bytes|)
  }

  function BlobsAfter(run: seq<seq<byte>>, k: nat): seq<byte>
    requires k <= |run|
  {
    if k == 0 then [] else AddBlob(BlobsAfter(run, k - 1), run[k - 1]).0
  }

  function BlobIndex(run: seq<seq<byte>>, k: nat): nat
    requires k < |run|
  {
    AddBlob(BlobsAfter(run, k), run[k]).1
  }

  class BlobPool {
    const blob: Pool

    ghost predicate Valid()
      reads this, blob, blob.base
    {
      blob.Valid() && (blob.size == 0 ==> blob.base[0] == 0)
    }

    constructor ()
      ensures Valid() && fresh(blob) && fresh(blob.base) && blob.Held() == []
    {
      blob := new Pool();
    }

    method HashBlob(blobData: seq<byte>) returns (rv: nat)
      requires Valid()
      modifies blob, blob.base
      ensures Valid() && (blob.base == old(blob.base) || fresh(blob.base))
      ensures (blob.Held(), rv) == AddBlob(old(blob.Held()), blobData)
    {
      hide Compressed;
      blob.Start();
      blob.Ensure(|blobData| + 4);
      rv := blob.size;
      var blobLen := AppendLength(|blobData|);
      blob.Append(blobData[..blobLen]);
    }

    method AppendLength(n: nat) returns (blobLen: nat)
      requires blob.Valid() && blob.size + n + 4 <= blob.base.Length
      modifies blob`size, blob.base
      ensures blob.Valid() && blob.base == old(blob.base) && blobLen == KeptLength(n)
      ensures blob.Held() == old(blob.Held()) + Compressed(n)
    {
      blobLen := n;
      if blobLen < 0x80 {
        blob.Append([blobLen]);
      } else if blobLen <= 0x3fff {
        blob.Append([blobLen / 256 + 0x80, blobLen % 256]);
      } else {
        blobLen := blobLen % LIMIT;
        CutFirst(n);
        blob.Append([blobLen / 0x100_0000 + 0xc0, blobLen / TWO_16 % 256, blobLen / 256 % 256, blobLen % 256]);
      }
    }
  }

  lemma LongForm(n: nat)
    requires n > 0x3fff
    ensures Compressed(n) == [n / 0x100_0000 % 32 + 0xc0, n / TWO_16 % 256, n / 256 % 256, n % 256]
  {
  }

  lemma HighPart(kept: nat, d: nat, w: nat, c: nat)
    requires d > 0 && w > 0
    ensures (kept + d * (w * c)) / d % w == kept / d % w
  {
    DivAdd(kept, d, w * c);
    ModAddTimes(kept / d, w, c);
  }

  // Cutting the length before it is split into bytes or after is the same.
  lemma CutFirst(n: nat)
    requires n > 0x3fff
    ensures var kept := n % LIMIT;
            [kept / 0x100_0000 + 0xc0, kept / TWO_16 % 256, kept / 256 % 256, kept % 256] == Compressed(n)
  {
    var q, kept := n / LIMIT, n % LIMIT;
    hide Compressed;
    assert n == kept + LIMIT * q;
    assert n % 256 == kept % 256 by { HighPart(kept, 1, 256, 0x20_0000 * q); }
    assert n / 256 % 256 == kept / 256 % 256 by { HighPart(kept, 256, 256, 0x2000 * q); }
    assert n / TWO_16 % 256 == kept / TWO_16 % 256 by { HighPart(kept, TWO_16, 256, 0x20 * q); }
    assert n / 0x100_0000 % 32 == kept / 0x100_0000 by { HighPart(kept, 0x100_0000, 32, q); }
    LongForm(n);
  }

  // ---- Reading blobs ----

  // Bytes behind the heap are taken for zero; they never matter.
  function ByteAt(data: seq<byte>, i: nat): byte { if i < |data| then data[i] else 0 }

  // The length a prefix stands for, and its own length.
  function ReadLength(data: seq<byte>, at: nat): (r: (nat, nat)) {
    var window := [ByteAt(data, at), ByteAt(data, at + 1), ByteAt(data, at + 2), ByteAt(data, at + 3)];
    var (size, rest) := LoadIndex(window).value;
    (size, 4 - |rest|)
  }

  // What ReadFromBlob copies to a buffer of len bytes, and its result.
  function ReadBlob(data: seq<byte>, len: nat, at: nat): (Option<seq<byte>>, nat) {
    var (size, offs) := ReadLength(data, at);
    (if len >= size && at + offs + size <= |data| then Some(data[at + offs..at + offs + size]) else None,
     if size > len then len else size)
  }

  lemma PrefixReads(n: nat, data: seq<byte>, at: nat)
    requires at + |Compressed(n)| <= |data| && data[at..at + |Compressed(n)|] == Compressed(n)
    ensures ReadLength(data, at) == (KeptLength(n), |Compressed(n)|)
  {
    hide LoadIndex, Compressed;
    var p := Compressed(n);
    var window := [ByteAt(data, at), ByteAt(data, at + 1), ByteAt(data, at + 2), ByteAt(data, at + 3)];
    assert forall i :: 0 <= i < |p| ==> window[i] == data[at..at + |p|][i];
    assert window == p + window[|p|..];
    IndexLoads(n, window[|p|..]);
  }

  lemma {:induction false} BlobsGrow(run: seq<seq<byte>>, i: nat, k: nat)
    requires i <= k <= |run|
    ensures |BlobsAfter(run, i)| <= |BlobsAfter(run, k)|
    ensures BlobsAfter(run, i) != [] ==> BlobsAfter(run, k)[..|BlobsAfter(run, i)|] == BlobsAfter(run, i)
    decreases k
  {
    if i < k {
      BlobsGrow(run, i, k - 1);
      var last := BlobsAfter(run, k - 1);
      assert last != [] ==> BlobsAfter(run, k)[..|last|] == last;
    }
  }

  // Where a blob stands once the run is over.
  lemma BlobAt(run: seq<seq<byte>>, i: nat, padding: seq<byte>)
    requires i < |run|
    ensures var at, prefix, kept := BlobIndex(run, i), Compressed(|run[i]|), KeptLength(|run[i]|);
            var data := BlobsAfter(run, |run|) + padding;
            && at + |prefix| + kept <= |data|
            && data[at..at + |prefix|] == prefix && data[at + |prefix|..at + |prefix| + kept] == run[i][..kept]
  {
    hide Compressed, KeptLength;
    var front := Started(BlobsAfter(run, i));
    var prefix, body := Compressed(|run[i]|), run[i][..KeptLength(|run[i]|)];
    var grown := BlobsAfter(run, i + 1);
    assert grown == front + prefix + body && BlobIndex(run, i) == |front|;
    BlobsGrow(run, i + 1, |run|);
    var final := BlobsAfter(run, |run|);
    hide BlobsAfter, BlobIndex, Started;
    assert (final + padding)[..|grown|] == final[..|grown|] == grown;
    BlobStands(final + padding, front, prefix, body);
  }

  // After any run every index still reads back its own blob, cut to the
  // length kept: the whole blob exactly when it is shorter than 2^29 bytes.
  lemma BlobsReadBack(run: seq<seq<byte>>, i: nat, padding: seq<byte>, len: nat)
    requires i < |run| && len >= |run[i]|
    ensures var kept := KeptLength(|run[i]|);
            ReadBlob(BlobsAfter(run, |run|) + padding, len, BlobIndex(run, i)) == (Some(run[i][..kept]), kept)
    ensures run[i][..KeptLength(|run[i]|)] == run[i] <==> |run[i]| < LIMIT
  {
    hide Compressed, ReadLength, KeptLength, BlobsAfter, BlobIndex;
    KeptIsLess(|run[i]|);
    BlobAt(run, i, padding);
    PrefixReads(|run[i]|, BlobsAfter(run, |run|) + padding, BlobIndex(run, i));
  }

  lemma KeptIsLess(n: nat)
    ensures KeptLength(n) <= n && (KeptLength(n) == n <==> n < LIMIT)
  {
  }

  lemma BlobStands(data: seq<byte>, front: seq<byte>, prefix: seq<byte>, body: seq<byte>)
    requires |data| >= |front| + |prefix| + |body| && data[..|front| + |prefix| + |body|] == front + prefix + body
    ensures data[|front|..|front| + |prefix|] == prefix
    ensures data[|front| + |prefix|..|front| + |prefix| + |body|] == body
  {
    var grown := data[..|front| + |prefix| + |body|];
    assert grown[|front|..|front| + |prefix|] == prefix;
    assert grown[|front| + |prefix|..] == body;
  }

  // ---- GUIDs ----

  // The heap of 16-byte values; the index counts from one.
  function AddGuid(heap: seq<byte>, guid: seq<byte>): (seq<byte>, nat) { (heap + guid, |heap| / 16 + 1) }

  // Where ReadFromGUID looks, given an index.
  function GuidPosition(index: nat): int { index - 1 }

  // Only the first GUID is looked for where it is.
  lemma OnlyFirstGuidIsFound(heap: seq<byte>, guid: seq<byte>)
    requires |heap| % 16 == 0
    ensures GuidPosition(AddGuid(heap, guid).1) == |heap| <==> heap == []
  {
  }
}
