// Type and method signatures in the blob heap (section II.23.2 of ECMA-335):
// EmbedType and CoreMethod against GetType and TypeFromMethod.
module Signatures {
  import opened Bytes
  import opened Compression

  // ---- Blobs of compressed integers ----

  function Blob(ints: seq<nat>): seq<byte> {
    if ints == [] then [] else Compressed(ints[0]) + Blob(ints[1..])
  }

  lemma {:induction false} BlobConcat(a: seq<nat>, b: seq<nat>)
    ensures Blob(a + b) == Blob(a) + Blob(b)
  {
    hide Compressed;
    if a == [] {
      assert a + b == b;
    } else {
      assert (a + b)[1..] == a[1..] + b;
      BlobConcat(a[1..], b);
    }
  }

  // Compresses the first `size` integers of the work area.
  method ConvertToBlob(buf: array<nat>, size: nat) returns (rv: array<byte>)
    requires size <= buf.Length
    ensures fresh(rv) && rv[..] == Blob(buf[..size])
  {
    var sz := 0;
    var i := 0;
    while i < size
      invariant i <= size && sz == |Blob(buf[..i])|
    {
      BlobStep(buf[..size], i);
      assert buf[..size][..i] == buf[..i] && buf[..size][..i + 1] == buf[..i + 1];
      if buf[i] > 0x3fff { sz := sz + 4; } else if buf[i] > 0x7f { sz := sz + 2; } else { sz := sz + 1; }
      i := i + 1;
    }
    rv := new byte[sz];
    var pos := 0;
    i := 0;
    while i < size
      invariant i <= size && pos == |Blob(buf[..i])| <= sz == |Blob(buf[..size])|
      invariant rv[..pos] == Blob(buf[..i])
    {
      BlobStep(buf[..size], i);
      assert buf[..size][..i] == buf[..i] && buf[..size][..i + 1] == buf[..i + 1];
      BlobGrows(buf[..size], i + 1);
      pos := PutCompressed(rv, pos, buf[i]);
      i := i + 1;
    }
    assert rv[..] == rv[..pos];
  }

  method PutCompressed(rv: array<byte>, pos: nat, v: nat) returns (next: nat)
    requires pos + |Compressed(v)| <= rv.Length
    modifies rv
    ensures next == pos + |Compressed(v)| && rv[..next] == old(rv[..pos]) + Compressed(v)
  {
    if v > 0x3fff {
      rv[pos], rv[pos + 1], rv[pos + 2], rv[pos + 3] := v / 0x100_0000 % 32 + 0xc0, v / TWO_16 % 256, v / 256 % 256, v % 256;
      next := pos + 4;
    } else if v > 0x7f {
      rv[pos], rv[pos + 1] := v / 256 + 0x80, v % 256;
      next := pos + 2;
    } else {
      rv[pos] := v;
      next := pos + 1;
    }
  }

  lemma BlobStep(ints: seq<nat>, i: nat)
    requires i < |ints|
    ensures Blob(ints[..i + 1]) == Blob(ints[..i]) + Compressed(ints[i])
  {
    hide Compressed;
    assert ints[..i + 1] == ints[..i] + [ints[i]];
    BlobConcat(ints[..i], [ints[i]]);
    assert Blob([ints[i]]) == Compressed(ints[i]) + Blob([]);
  }

  lemma BlobGrows(ints: seq<nat>, i: nat)
    requires i <= |ints|
    ensures |Blob(ints[..i])| <= |Blob(ints)|
  {
    assert ints == ints[..i] + ints[i..];
    BlobConcat(ints[..i], ints[i..]);
  }

  // ---- Types ----

  // A class is known by its coded token; whether it is a value type is a
  // property of the class.
  datatype BasicType =
    | Void | Bool | Char | I8 | U8 | I16 | U16 | I32 | U32 | I64 | U64 | INative | UNative | R32 | R64 | Object | Str

  datatype Basic = Prim(kind: BasicType) | Cls(token: nat) | Var(n: nat) | MVar(n: nat) | FnPtr(sig: Sig)

  datatype Type = Type(pinned: bool, byRef: bool, pointers: nat, arrayLevel: nat, basic: Basic)

  datatype Sig = Sig(instanceCall: bool, generics: nat, result: Type, params: seq<Type>)

  const PTR := 0x0f
  const BYREF := 0x10
  const VALUETYPE := 0x11
  const CLASS := 0x12
  const VAR := 0x13
  const ARRAY := 0x14
  const GENERICINST := 0x15
  const TYPEDBYREF := 0x16
  const FNPTR := 0x1b
  const SZARRAY := 0x1d
  const MVAR := 0x1e
  const PINNED := 0x45

  // The element code of a type without operands.
  function BasicCode(kind: BasicType): (code: byte)
    ensures 0 < code < 0x80 && code !in {PTR, BYREF, VALUETYPE, CLASS, VAR, ARRAY, GENERICINST, TYPEDBYREF, FNPTR, SZARRAY, MVAR, PINNED}
  {
    match kind
    case Void => 0x01
    case Bool => 0x02
    case Char => 0x03
    case I8 => 0x04
    case U8 => 0x05
    case I16 => 0x06
    case U16 => 0x07
    case I32 => 0x08
    case U32 => 0x09
    case I64 => 0x0a
    case U64 => 0x0b
    case R32 => 0x0c
    case R64 => 0x0d
    case Str => 0x0e
    case INative => 0x18
    case UNative => 0x19
    case Object => 0x1c
  }

  // What the reader takes a code for; one it does not know is void.
  function BasicKind(code: byte): BasicType {
    match code
    case 0x02 => Bool
    case 0x03 => Char
    case 0x04 => I8
    case 0x05 => U8
    case 0x06 => I16
    case 0x07 => U16
    case 0x08 => I32
    case 0x09 => U32
    case 0x0a => I64
    case 0x0b => U64
    case 0x0c => R32
    case 0x0d => R64
    case 0x0e => Str
    case 0x18 => INative
    case 0x19 => UNative
    case 0x1c => Object
    case _ => Void
  }

  lemma KindOfCode(kind: BasicType)
    ensures BasicKind(BasicCode(kind)) == kind
  {
  }

  function Repeat(n: nat, v: nat): (s: seq<nat>)
    ensures |s| == n
  {
    if n == 0 then [] else [v] + Repeat(n - 1, v)
  }

  // ---- The writer ----

  type ValueTypes = set<nat>

  // One array dimension at most.
  function Prefixes(t: Type): seq<nat> {
    (if t.pinned then [PINNED] else []) + (if t.byRef then [BYREF] else []) + Repeat(t.pointers, PTR)
    + (if t.arrayLevel > 0 then [SZARRAY] else [])
  }

  function Embedded(t: Type, values: ValueTypes): (s: seq<nat>)
    decreases t, 1
  {
    Prefixes(t) + EmbeddedBasic(t.basic, values)
  }

  function EmbeddedBasic(b: Basic, values: ValueTypes): (s: seq<nat>)
    decreases b, 0
  {
    match b
    case Prim(kind) => [BasicCode(kind)]
    case Cls(token) => [if token in values then VALUETYPE else CLASS, token]
    case Var(n) => [VAR, n]
    case MVar(n) => [MVAR, n]
    case FnPtr(sig) => [FNPTR] + CoreMethod(sig, values)
  }

  function MethodHead(sig: Sig): seq<nat> {
    [(if sig.instanceCall then 0x20 else 0) + (if sig.generics > 0 then 0x10 else 0)]
    + (if sig.generics > 0 then [sig.generics] else []) + [|sig.params|]
  }

  function CoreMethod(sig: Sig, values: ValueTypes): seq<nat>
    decreases sig, |sig.params| + 1
  {
    MethodHead(sig) + Embedded(sig.result, values) + ParamsFrom(sig, values, 0)
  }

  function ParamsFrom(sig: Sig, values: ValueTypes, k: nat): seq<nat>
    requires k <= |sig.params|
    decreases sig, |sig.params| - k
  {
    if k == |sig.params| then [] else Embedded(sig.params[k], values) + ParamsFrom(sig, values, k + 1)
  }

  // Single-dimension arrays throughout.
  predicate OneDimension(t: Type)
    decreases t
  {
    t.arrayLevel <= 1
    && (t.basic.FnPtr? ==>
          OneDimension(t.basic.sig.result) && forall k :: 0 <= k < |t.basic.sig.params| ==> OneDimension(t.basic.sig.params[k]))
  }

  // ---- The writer in the shared work area ----

  // The area got the item at the offset and changed nowhere else.
  ghost predicate Wrote(before: seq<nat>, after: seq<nat>, offset: nat, item: seq<nat>) {
    && |after| == |before| && offset + |item| <= |before|
    && after[..offset] == before[..offset]
    && after[offset..offset + |item|] == item
    && after[offset + |item|..] == before[offset + |item|..]
  }

  lemma WroteNothing(a: seq<nat>, offset: nat)
    requires offset <= |a|
    ensures Wrote(a, a, offset, [])
  {
  }

  lemma WroteBoth(a: seq<nat>, b: seq<nat>, c: seq<nat>, offset: nat, x: seq<nat>, y: seq<nat>)
    requires Wrote(a, b, offset, x) && Wrote(b, c, offset + |x|, y)
    ensures Wrote(a, c, offset, x + y)
  {
    assert c[..offset] == c[..offset + |x|][..offset] == b[..offset];
    assert c[offset..offset + |x|] == c[..offset + |x|][offset..] == b[..offset + |x|][offset..] == x;
    assert c[offset..offset + |x| + |y|] == c[offset..offset + |x|] + c[offset + |x|..offset + |x| + |y|];
    assert b[offset + |x| + |y|..] == b[offset + |x|..][|y|..] == a[offset + |x|..][|y|..];
  }

  class SignatureGenerator {
    const workArea: array<nat>

    constructor ()
      ensures workArea.Length == 400 * 1024 && fresh(workArea)
    {
      workArea := new nat[400 * 1024];
    }

    method Put(offset: nat, v: nat)
      requires offset < workArea.Length
      modifies workArea
      ensures Wrote(old(workArea[..]), workArea[..], offset, [v])
    {
      workArea[offset] := v;
    }

    method Put2(offset: nat, v: nat, w: nat)
      requires offset + 1 < workArea.Length
      modifies workArea
      ensures Wrote(old(workArea[..]), workArea[..], offset, [v, w])
    {
      workArea[offset], workArea[offset + 1] := v, w;
    }

    // Fills the area from the offset on and touches nothing else.
    method EmbedType(offset: nat, t: Type, values: ValueTypes) returns (rv: nat)
      requires OneDimension(t) && offset + |Embedded(t, values)| <= workArea.Length
      modifies workArea
      ensures rv == |Embedded(t, values)|
      ensures Wrote(old(workArea[..]), workArea[..], offset, Embedded(t, values))
      decreases t, 1
    {
      hide Wrote, EmbeddedBasic, Prefixes;
      Inner(t);
      hide OneDimension;
      ghost var start := workArea[..];
      rv := EmbedPrefixes(offset, t);
      ghost var middle := workArea[..];
      var n := EmbedBasic(offset + rv, t.basic, values);
      WroteBoth(start, middle, workArea[..], offset, Prefixes(t), EmbeddedBasic(t.basic, values));
      rv := rv + n;
    }

    method EmbedBasic(offset: nat, basic: Basic, values: ValueTypes) returns (rv: nat)
      requires basic.FnPtr? ==> OneDimension(basic.sig.result)
      requires basic.FnPtr? ==> forall k :: 0 <= k < |basic.sig.params| ==> OneDimension(basic.sig.params[k])
      requires offset + |EmbeddedBasic(basic, values)| <= workArea.Length
      modifies workArea
      ensures rv == |EmbeddedBasic(basic, values)|
      ensures Wrote(old(workArea[..]), workArea[..], offset, EmbeddedBasic(basic, values))
      decreases basic, 0
    {
      hide Wrote, CoreMethod, OneDimension;
      match basic {
        case Prim(kind) =>
          Put(offset, BasicCode(kind));
          rv := 1;
        case Cls(token) =>
          Put2(offset, if token in values then VALUETYPE else CLASS, token);
          rv := 2;
        case Var(n) =>
          Put2(offset, VAR, n);
          rv := 2;
        case MVar(n) =>
          Put2(offset, MVAR, n);
          rv := 2;
        case FnPtr(sig) =>
          ghost var start := workArea[..];
          Put(offset, FNPTR);
          ghost var head := workArea[..];
          var n := CoreMethodAt(offset + 1, sig, values);
          WroteBoth(start, head, workArea[..], offset, [FNPTR], CoreMethod(sig, values));
          rv := 1 + n;
      }
    }

    method EmbedPrefixes(offset: nat, t: Type) returns (rv: nat)
      requires t.arrayLevel <= 1 && offset + |Prefixes(t)| <= workArea.Length
      modifies workArea
      ensures rv == |Prefixes(t)|
      ensures Wrote(old(workArea[..]), workArea[..], offset, Prefixes(t))
    {
      hide Wrote, Repeat;
      ghost var start := workArea[..];
      rv := EmbedFlags(offset, t);
      ghost var flags := (if t.pinned then [PINNED] else []) + if t.byRef then [BYREF] else [];
      ghost var flagged := workArea[..];
      var n := EmbedPointers(offset + rv, t.pointers);
      ghost var pointed := workArea[..];
      WroteBoth(start, flagged, pointed, offset, flags, Repeat(t.pointers, PTR));
      rv := rv + n;
      if t.arrayLevel > 0 {
        Put(offset + rv, SZARRAY);
        WroteBoth(start, pointed, workArea[..], offset, flags + Repeat(t.pointers, PTR), [SZARRAY]);
        rv := rv + 1;
      } else {
        assert Prefixes(t) == flags + Repeat(t.pointers, PTR);
      }
    }

    method EmbedFlags(offset: nat, t: Type) returns (rv: nat)
      requires offset + |Prefixes(t)| <= workArea.Length
      modifies workArea
      ensures var flags := (if t.pinned then [PINNED] else []) + if t.byRef then [BYREF] else [];
              rv == |flags| && Wrote(old(workArea[..]), workArea[..], offset, flags)
    {
      hide Wrote;
      rv := 0;
      WroteNothing(workArea[..], offset);
      if t.pinned && t.byRef {
        Put2(offset, PINNED, BYREF);
        rv := 2;
      } else if t.pinned {
        Put(offset, PINNED);
        rv := 1;
      } else if t.byRef {
        Put(offset, BYREF);
        rv := 1;
      }
      ghost var flags := (if t.pinned then [PINNED] else []) + if t.byRef then [BYREF] else [];
      assert flags == if t.pinned && t.byRef then [PINNED, BYREF] else if t.pinned then [PINNED] else if t.byRef then [BYREF] else [];
    }

    method EmbedPointers(offset: nat, pointers: nat) returns (rv: nat)
      requires offset + pointers <= workArea.Length
      modifies workArea
      ensures rv == pointers && Wrote(old(workArea[..]), workArea[..], offset, Repeat(pointers, PTR))
    {
      hide Wrote;
      ghost var start := workArea[..];
      WroteNothing(start, offset);
      rv := 0;
      while rv < pointers
        invariant rv <= pointers && Wrote(start, workArea[..], offset, Repeat(rv, PTR))
      {
        RepeatGrows(rv, PTR);
        ghost var before := workArea[..];
        Put(offset + rv, PTR);
        WroteBoth(start, before, workArea[..], offset, Repeat(rv, PTR), [PTR]);
        rv := rv + 1;
      }
    }

    method CoreMethodAt(offset: nat, sig: Sig, values: ValueTypes) returns (rv: nat)
      requires OneDimension(sig.result) && forall k :: 0 <= k < |sig.params| ==> OneDimension(sig.params[k])
      requires offset + |CoreMethod(sig, values)| <= workArea.Length
      modifies workArea
      ensures rv == |CoreMethod(sig, values)|
      ensures Wrote(old(workArea[..]), workArea[..], offset, CoreMethod(sig, values))
      decreases sig
    {
      hide OneDimension, Embedded, Wrote;
      ghost var start := workArea[..];
      rv := PutHead(offset, sig);
      ghost var before := workArea[..];
      var n := EmbedType(offset + rv, sig.result, values);
      WroteBoth(start, before, workArea[..], offset, MethodHead(sig), Embedded(sig.result, values));
      rv := rv + n;
      ghost var done := MethodHead(sig) + Embedded(sig.result, values);
      var k := 0;
      while k < |sig.params|
        invariant k <= |sig.params| && rv == |done|
        invariant done + ParamsFrom(sig, values, k) == CoreMethod(sig, values)
        invariant Wrote(start, workArea[..], offset, done)
      {
        before := workArea[..];
        n := EmbedType(offset + rv, sig.params[k], values);
        WroteBoth(start, before, workArea[..], offset, done, Embedded(sig.params[k], values));
        rv := rv + n;
        done := done + Embedded(sig.params[k], values);
        k := k + 1;
      }
      assert done + [] == done;
    }

    method PutHead(offset: nat, sig: Sig) returns (rv: nat)
      requires offset + |MethodHead(sig)| <= workArea.Length
      modifies workArea
      ensures rv == |MethodHead(sig)| && Wrote(old(workArea[..]), workArea[..], offset, MethodHead(sig))
    {
      hide Wrote;
      var flag := (if sig.instanceCall then 0x20 else 0) + (if sig.generics > 0 then 0x10 else 0);
      ghost var start := workArea[..];
      if sig.generics > 0 {
        Put2(offset, flag, sig.generics);
        rv := 2;
      } else {
        Put(offset, flag);
        rv := 1;
      }
      ghost var before := workArea[..];
      Put(offset + rv, |sig.params|);
      WroteBoth(start, before, workArea[..], offset, if sig.generics > 0 then [flag, sig.generics] else [flag], [|sig.params|]);
      rv := rv + 1;
      assert (if sig.generics > 0 then [flag, sig.generics] else [flag]) + [|sig.params|] == MethodHead(sig);
    }
  }

  lemma RepeatGrows(n: nat, v: nat)
    ensures Repeat(n + 1, v) == Repeat(n, v) + [v]
  {
    if n > 0 {
      RepeatGrows(n - 1, v);
    }
  }

  lemma Inner(t: Type)
    requires OneDimension(t)
    ensures t.arrayLevel <= 1
    ensures t.basic.FnPtr? ==> OneDimension(t.basic.sig.result)
    ensures t.basic.FnPtr? ==> forall k :: 0 <= k < |t.basic.sig.params| ==> OneDimension(t.basic.sig.params[k])
  {
  }

  // ---- The reader ----

  // How many bytes of value b come first, and the rest.
  function Leading(s: seq<byte>, b: byte): (r: (nat, seq<byte>))
    ensures |r.1| <= |s|
  {
    if s == [] || s[0] != b then (0, s)
    else
      var (n, rest) := Leading(s[1..], b);
      (n + 1, rest)
  }

  function ReadType(s: seq<byte>): (r: Option<(Type, seq<byte>)>)
    ensures r.Some? ==> |r.value.1| < |s|
    decreases |s|, 2
  {
    if s == [] then None
    else
      var pinned := s[0] == PINNED;
      var (pointers, s1) := Leading(if pinned then s[1..] else s, PTR);
      var (arrays, s2) := Leading(s1, SZARRAY);
      match ReadBasic(s2, pointers)
      case None => None
      case Some((t, rest)) => Some((t.(arrayLevel := arrays, pinned := pinned), rest))
  }

  // Arrays of more dimensions and generic instances are not rebuilt.
  function ReadBasic(s: seq<byte>, pointers: nat): (r: Option<(Type, seq<byte>)>)
    ensures r.Some? ==> |r.value.1| < |s|
    decreases |s|, 1
  {
    if s == [] || s[0] in {0, ARRAY, GENERICINST, TYPEDBYREF} then None
    else if s[0] == BYREF then
      match ReadType(s[1..])
      case None => None
      case Some((t, rest)) => Some((t.(byRef := true), rest))
    else if s[0] in {VALUETYPE, CLASS, VAR, MVAR} then
      match LoadIndex(s[1..])
      case None => None
      case Some((n, rest)) =>
        if s[0] == VAR then Some((Type(false, false, 0, 0, Var(n)), rest))
        else if s[0] == MVAR then Some((Type(false, false, 0, 0, MVar(n)), rest))
        else Some((Type(false, false, pointers, 0, Cls(n)), rest))
    else if s[0] == FNPTR then
      match ReadMethod(s[1..])
      case None => None
      case Some((sig, rest)) => Some((Type(false, false, pointers, 0, FnPtr(sig)), rest))
    else Some((Type(false, false, pointers, 0, Prim(BasicKind(s[0]))), s[1..]))
  }

  function ReadMethod(s: seq<byte>): (r: Option<(Sig, seq<byte>)>)
    ensures r.Some? ==> |r.value.1| < |s|
    decreases |s|, 1
  {
    if s == [] then None
    else
      var generic := s[0] / 0x10 % 2 == 1;
      var head := if generic then 3 else 2;
      if |s| < head then None
      else match ReadType(s[head..])
        case None => None
        case Some((result, s1)) =>
          match ReadParams(s1, s[head - 1])
          case None => None
          case Some((params, rest)) =>
            Some((Sig(s[0] / 0x20 % 2 == 1, if generic then s[1] else 0, result, params), rest))
  }

  function ReadParams(s: seq<byte>, n: nat): (r: Option<(seq<Type>, seq<byte>)>)
    ensures r.Some? ==> |r.value.1| <= |s|
    decreases |s|, 3
  {
    if n == 0 then Some(([], s))
    else match ReadType(s)
      case None => None
      case Some((t, s1)) =>
        match ReadParams(s1, n - 1)
        case None => None
        case Some((ts, rest)) => Some(([t] + ts, rest))
  }

  // ---- The reader moving through the data ----

  ghost predicate ReadAt<T>(expected: Option<(T, seq<byte>)>, data: seq<byte>, found: Option<T>, next: nat) {
    && next <= |data|
    && (found.None? <==> expected.None?)
    && (found.Some? ==> expected == Some((found.value, data[next..])))
  }

  method CountBytes(data: seq<byte>, startIn: nat, b: byte) returns (n: nat, start: nat)
    requires startIn <= |data|
    ensures startIn <= start <= |data| && Leading(data[startIn..], b) == (n, data[start..])
  {
    n, start := 0, startIn;
    while start < |data| && data[start] == b
      invariant startIn <= start <= |data|
      invariant Leading(data[startIn..], b) == (n + Leading(data[start..], b).0, Leading(data[start..], b).1)
    {
      assert data[start..][1..] == data[start + 1..];
      n := n + 1;
      start := start + 1;
    }
  }

  method LoadIndexAt(data: seq<byte>, start: nat) returns (index: Option<nat>, next: nat)
    requires start <= |data|
    ensures ReadAt(LoadIndex(data[start..]), data, index, next) && start <= next
  {
    if start >= |data| { return None, start; }
    var b0: int := data[start];
    if b0 < 0x80 {
      return Some(b0), start + 1;
    } else if b0 < 0xc0 {
      if start + 2 > |data| { return None, start; }
      var b1: int := data[start + 1];
      return Some((b0 - 0x80) * 256 + b1), start + 2;
    } else {
      if start + 4 > |data| { return None, start; }
      var b1: int, b2: int, b3: int := data[start + 1], data[start + 2], data[start + 3];
      return Some((b0 - 0xc0) * 0x100_0000 + b1 * TWO_16 + b2 * 256 + b3), start + 4;
    }
  }

  method GetType(data: seq<byte>, startIn: nat) returns (rv: Option<Type>, start: nat)
    requires startIn <= |data|
    ensures ReadAt(ReadType(data[startIn..]), data, rv, start) && startIn <= start
    ensures rv.Some? ==> startIn < start
    decreases |data| - startIn, 2
  {
    hide Leading, ReadBasic;
    start := startIn;
    if start >= |data| { return None, start; }
    var pinned := data[start] == PINNED;
    if pinned {
      start := start + 1;
    }
    var pointerLevel, arrayLevel;
    pointerLevel, start := CountBytes(data, start, PTR);
    arrayLevel, start := CountBytes(data, start, SZARRAY);
    rv, start := GetBasic(data, start, pointerLevel);
    if rv.Some? {
      rv := Some(rv.value.(arrayLevel := arrayLevel, pinned := pinned));
    }
  }

  method GetBasic(data: seq<byte>, startIn: nat, pointerLevel: nat) returns (rv: Option<Type>, start: nat)
    requires startIn <= |data|
    ensures ReadAt(ReadBasic(data[startIn..], pointerLevel), data, rv, start) && startIn <= start
    ensures rv.Some? ==> startIn < start
    decreases |data| - startIn, 1
  {
    hide ReadType, LoadIndex, ReadMethod;
    start := startIn;
    if start >= |data| || data[start] in {0, ARRAY, GENERICINST, TYPEDBYREF} { return None, start; }
    var code := data[start];
    start := start + 1;
    assert data[startIn..][1..] == data[start..];
    if code == BYREF {
      rv, start := GetType(data, start);
      if rv.Some? {
        rv := Some(rv.value.(byRef := true));
      }
    } else if code in {VALUETYPE, CLASS, VAR, MVAR} {
      var index;
      index, start := LoadIndexAt(data, start);
      if index.None? { return None, start; }
      if code == VAR {
        rv := Some(Type(false, false, 0, 0, Var(index.value)));
      } else if code == MVAR {
        rv := Some(Type(false, false, 0, 0, MVar(index.value)));
      } else {
        rv := Some(Type(false, false, pointerLevel, 0, Cls(index.value)));
      }
    } else if code == FNPTR {
      var sig;
      sig, start := TypeFromMethod(data, start);
      if sig.None? { return None, start; }
      rv := Some(Type(false, false, pointerLevel, 0, FnPtr(sig.value)));
    } else {
      rv := Some(Type(false, false, pointerLevel, 0, Prim(BasicKind(code))));
    }
  }

  method TypeFromMethod(data: seq<byte>, startIn: nat) returns (sig: Option<Sig>, start: nat)
    requires startIn <= |data|
    ensures ReadAt(ReadMethod(data[startIn..]), data, sig, start) && startIn <= start
    decreases |data| - startIn, 1
  {
    hide ReadType, ReadParams;
    start := startIn;
    if start >= |data| { return None, start; }
    var flag := data[start];
    var generic := flag / 0x10 % 2 == 1;
    var head := if generic then 3 else 2;
    if start + head > |data| { return None, start; }
    var generics := if generic then data[start + 1] else 0;
    var paramCount := data[start + head - 1];
    start := start + head;
    assert data[startIn..][head..] == data[start..];
    var result;
    result, start := GetType(data, start);
    if result.None? { return None, start; }
    var params;
    params, start := GetParams(data, start, paramCount);
    if params.None? { return None, start; }
    sig := Some(Sig(flag / 0x20 % 2 == 1, generics, result.value, params.value));
  }

  method GetParams(data: seq<byte>, startIn: nat, n: nat) returns (params: Option<seq<Type>>, start: nat)
    requires startIn <= |data|
    ensures ReadAt(ReadParams(data[startIn..], n), data, params, start) && startIn <= start
    decreases |data| - startIn, 3
  {
    hide ReadType;
    start := startIn;
    var done: seq<Type> := [];
    var i := 0;
    ghost var all := ReadParams(data[start..], n);
    assert all.Some? ==> [] + all.value.0 == all.value.0;
    while i < n
      invariant i <= n && startIn <= start <= |data|
      invariant match ReadParams(data[start..], n - i)
                case None => ReadParams(data[startIn..], n).None?
                case Some((ts, rest)) => ReadParams(data[startIn..], n) == Some((done + ts, rest))
    {
      var t;
      t, start := GetType(data, start);
      if t.None? { return None, start; }
      ghost var ts := ReadParams(data[start..], n - i - 1);
      assert ts.Some? ==> done + ([t.value] + ts.value.0) == done + [t.value] + ts.value.0;
      done := done + [t.value];
      i := i + 1;
    }
    assert done + [] == done;
    params := Some(done);
  }

  // ---- Reading back ----

  // The type is one the reader knows, and its numbers fit their fields.
  predicate Embeddable(t: Type)
    decreases t
  {
    t.arrayLevel <= 1
    && match t.basic
       case Prim(_) => true
       case Cls(token) => token < LIMIT
       case Var(n) => n < LIMIT
       case MVar(n) => n < LIMIT
       case FnPtr(sig) =>
         sig.generics < 128 && |sig.params| < 128 && Embeddable(sig.result)
         && forall k :: 0 <= k < |sig.params| ==> Embeddable(sig.params[k])
  }

  predicate EmbeddableAs(b: Basic) { Embeddable(Type(false, false, 0, 0, b)) }

  // What comes back: the array under a reference and the pointers to a type
  // variable are lost.
  function Seen(t: Type): Type
    decreases t, 1
  {
    Type(t.pinned, t.byRef, if t.basic.Var? || t.basic.MVar? then 0 else t.pointers, if t.byRef then 0 else t.arrayLevel,
         SeenBasic(t.basic))
  }

  function SeenBasic(b: Basic): Basic
    decreases b, 0
  {
    match b
    case FnPtr(sig) =>
      FnPtr(Sig(sig.instanceCall, sig.generics, Seen(sig.result),
                seq(|sig.params|, k requires 0 <= k < |sig.params| => Seen(sig.params[k]))))
    case _ => b
  }

  predicate Faithful(t: Type)
    decreases t
  {
    && (t.byRef ==> t.arrayLevel == 0)
    && (t.basic.Var? || t.basic.MVar? ==> t.pointers == 0)
    && (t.basic.FnPtr? ==>
          Faithful(t.basic.sig.result) && forall k :: 0 <= k < |t.basic.sig.params| ==> Faithful(t.basic.sig.params[k]))
  }

  // Exactly the faithful types are seen as they are.
  lemma {:induction false} SeenIffFaithful(t: Type)
    ensures Seen(t) == t <==> Faithful(t)
    decreases t
  {
    if t.basic.FnPtr? {
      var sig := t.basic.sig;
      SeenIffFaithful(sig.result);
      forall k | 0 <= k < |sig.params| ensures Seen(sig.params[k]) == sig.params[k] <==> Faithful(sig.params[k]) {
        SeenIffFaithful(sig.params[k]);
      }
      var seen := seq(|sig.params|, k requires 0 <= k < |sig.params| => Seen(sig.params[k]));
      if seen == sig.params {
        assert forall k :: 0 <= k < |sig.params| ==> seen[k] == sig.params[k];
      }
    }
  }

  lemma OneByte(c: nat)
    requires c < 0x80
    ensures Blob([c]) == [c]
  {
    assert Blob([c]) == Compressed(c) + Blob([]);
  }

  function RepeatByte(n: nat, b: byte): (s: seq<byte>)
    ensures |s| == n
  {
    if n == 0 then [] else [b] + RepeatByte(n - 1, b)
  }

  lemma {:induction false} BlobRepeat(n: nat, c: nat)
    requires c < 0x80
    ensures Blob(Repeat(n, c)) == RepeatByte(n, c)
  {
    if n > 0 {
      BlobRepeat(n - 1, c);
      OneByte(c);
      BlobConcat([c], Repeat(n - 1, c));
    }
  }

  lemma {:induction false} LeadingReads(n: nat, b: byte, rest: seq<byte>)
    requires rest == [] || rest[0] != b
    ensures Leading(RepeatByte(n, b) + rest, b) == (n, rest)
  {
    if n == 0 {
      assert [] + rest == rest;
    } else {
      assert (RepeatByte(n, b) + rest)[1..] == RepeatByte(n - 1, b) + rest;
      LeadingReads(n - 1, b, rest);
    }
  }

  // The bytes of a type, piece by piece.
  lemma TypeBytes(t: Type, values: ValueTypes)
    ensures Blob(Embedded(t, values))
         == (if t.pinned then [PINNED] else []) + ((if t.byRef then [BYREF] else [])
            + (RepeatByte(t.pointers, PTR) + ((if t.arrayLevel > 0 then [SZARRAY] else [])
            + Blob(EmbeddedBasic(t.basic, values)))))
  {
    hide EmbeddedBasic, Compressed, Repeat, RepeatByte, Blob;
    var a, b := if t.pinned then [PINNED] else [], if t.byRef then [BYREF] else [];
    var c, d := Repeat(t.pointers, PTR), if t.arrayLevel > 0 then [SZARRAY] else [];
    var e := EmbeddedBasic(t.basic, values);
    BlobConcat(a + b + c + d, e);
    BlobConcat(a + b + c, d);
    BlobConcat(a + b, c);
    BlobConcat(a, b);
    OptionalByte(t.pinned, PINNED);
    OptionalByte(t.byRef, BYREF);
    OptionalByte(t.arrayLevel > 0, SZARRAY);
    BlobRepeat(t.pointers, PTR);
    ToTheRight(Blob(a), Blob(b), Blob(c), Blob(d), Blob(e));
  }

  lemma OptionalByte(present: bool, c: nat)
    requires c < 0x80
    ensures Blob(if present then [c] else []) == if present then [c] else []
  {
    OneByte(c);
  }

  lemma ToTheRight(a: seq<byte>, b: seq<byte>, c: seq<byte>, d: seq<byte>, e: seq<byte>)
    ensures a + b + c + d + e == a + (b + (c + (d + e)))
  {
  }

  // No basic type starts like a prefix.
  lemma FirstOfBasic(b: Basic, values: ValueTypes)
    ensures Blob(EmbeddedBasic(b, values)) != []
    ensures Blob(EmbeddedBasic(b, values))[0] !in {PTR, SZARRAY, PINNED, BYREF, ARRAY, GENERICINST, TYPEDBYREF, 0}
  {
    var ints := EmbeddedBasic(b, values);
    assert Blob(ints) == Compressed(ints[0]) + Blob(ints[1..]);
  }

  // Behind the flags: pointers, array and basic type.
  lemma PlainReads(t: Type, b: seq<byte>, rest: seq<byte>)
    requires t.arrayLevel <= 1 && b != [] && b[0] !in {PTR, SZARRAY, PINNED, BYREF}
    ensures var s := RepeatByte(t.pointers, PTR) + ((if t.arrayLevel > 0 then [SZARRAY] else []) + b) + rest;
            && s != [] && s[0] != PINNED && s[0] != BYREF
            && Leading(s, PTR).0 == t.pointers
            && Leading(Leading(s, PTR).1, SZARRAY) == (t.arrayLevel, b + rest)
  {
    var arrays: seq<byte> := if t.arrayLevel > 0 then [SZARRAY] else [];
    var tail := arrays + (b + rest);
    var s := RepeatByte(t.pointers, PTR) + (arrays + b) + rest;
    assert s == RepeatByte(t.pointers, PTR) + tail;
    assert tail[0] != PTR;
    LeadingReads(t.pointers, PTR, tail);
    assert arrays == RepeatByte(t.arrayLevel, SZARRAY) by {
      assert RepeatByte(0, SZARRAY) == [];
      assert RepeatByte(1, SZARRAY) == [SZARRAY] + RepeatByte(0, SZARRAY);
    }
    LeadingReads(t.arrayLevel, SZARRAY, b + rest);
  }

  // The blob of a type is read back as the type is seen, and no further.
  lemma {:induction false} TypeReadsBack(t: Type, values: ValueTypes, rest: seq<byte>)
    requires Embeddable(t)
    ensures ReadType(Blob(Embedded(t, values)) + rest) == Some((Seen(t), rest))
    decreases t, 1
  {
    hide Embedded, EmbeddedBasic, ReadType, ReadBasic, Leading, SeenBasic, RepeatByte, Blob;
    EmbeddableBasic(t);
    BasicReadsBack(t.basic, values, t.pointers, rest);
    hide Embeddable;
    FirstOfBasic(t.basic, values);
    TypeBytes(t, values);
    var b := Blob(EmbeddedBasic(t.basic, values));
    var arrays: seq<byte> := if t.arrayLevel > 0 then [SZARRAY] else [];
    var plain := RepeatByte(t.pointers, PTR) + (arrays + b) + rest;
    PlainReads(t, b, rest);
    PlainType(plain, t.pointers, t.arrayLevel, b + rest);
    var pinned: seq<byte> := if t.pinned then [PINNED] else [];
    var byRef: seq<byte> := if t.byRef then [BYREF] else [];
    assert Blob(Embedded(t, values)) + rest == pinned + (byRef + plain);
    var unpinned := byRef + plain;
    if t.byRef {
      ByRefType(plain);
    } else {
      assert unpinned == plain;
    }
    PinnedType(t.pinned, unpinned);
  }

  lemma PlainType(plain: seq<byte>, pointers: nat, arrayLevel: nat, tail: seq<byte>)
    requires plain != [] && plain[0] != PINNED
    requires Leading(plain, PTR).0 == pointers && Leading(Leading(plain, PTR).1, SZARRAY) == (arrayLevel, tail)
    ensures ReadType(plain) == match ReadBasic(tail, pointers)
                               case None => None
                               case Some((t, rest)) => Some((t.(arrayLevel := arrayLevel, pinned := false), rest))
  {
    hide ReadBasic, Leading;
  }

  lemma ByRefType(plain: seq<byte>)
    ensures ReadType([BYREF] + plain) == match ReadType(plain)
                                         case None => None
                                         case Some((t, rest)) => Some((t.(byRef := true, arrayLevel := 0, pinned := false), rest))
  {
    var s := [BYREF] + plain;
    assert s[1..] == plain;
    NoneLeading(s);
    ByRefReads(s);
    hide ReadBasic, Leading;
    PlainType(s, 0, 0, s);
  }

  lemma PinnedType(pinned: bool, s: seq<byte>)
    requires s != [] && s[0] != PINNED
    ensures ReadType((if pinned then [PINNED] else []) + s)
         == match ReadType(s)
            case None => None
            case Some((t, rest)) => Some((t.(pinned := pinned), rest))
  {
    hide ReadBasic, Leading;
    if pinned {
      assert ([PINNED] + s)[1..] == s;
      assert ([PINNED] + s)[0] == PINNED;
    } else {
      assert [] + s == s;
    }
  }

  lemma EmbeddableBasic(t: Type)
    requires Embeddable(t)
    ensures t.arrayLevel <= 1 && EmbeddableAs(t.basic)
  {
  }

  lemma NoneLeading(s: seq<byte>)
    requires s != [] && s[0] == BYREF
    ensures Leading(s, PTR) == (0, s) && Leading(s, SZARRAY) == (0, s)
  {
  }

  lemma ByRefReads(s: seq<byte>)
    requires s != [] && s[0] == BYREF
    ensures ReadBasic(s, 0) == match ReadType(s[1..])
                               case None => None
                               case Some((t, rest)) => Some((t.(byRef := true), rest))
  {
    hide ReadType;
  }

  lemma {:induction false} BasicReadsBack(b: Basic, values: ValueTypes, pointers: nat, rest: seq<byte>)
    requires EmbeddableAs(b)
    ensures ReadBasic(Blob(EmbeddedBasic(b, values)) + rest, pointers)
         == Some((Type(false, false, if b.Var? || b.MVar? then 0 else pointers, 0, SeenBasic(b)), rest))
    decreases b, 0
  {
    hide Blob, Compressed, LoadIndex, ReadType, ReadMethod, CoreMethod;
    match b {
      case Prim(kind) =>
        var code := BasicCode(kind);
        OneByte(code);
        KindOfCode(kind);
        assert ([code] + rest)[1..] == rest;
      case Cls(token) => TokenBytes(if token in values then VALUETYPE else CLASS, token, rest);
      case Var(n) => TokenBytes(VAR, n, rest);
      case MVar(n) => TokenBytes(MVAR, n, rest);
      case FnPtr(sig) =>
        FnPtrBytes(sig, values, rest);
        MethodReadsBack(sig, values, rest);
    }
  }

  lemma FnPtrBytes(sig: Sig, values: ValueTypes, rest: seq<byte>)
    ensures Blob([FNPTR] + CoreMethod(sig, values)) + rest == [FNPTR] + (Blob(CoreMethod(sig, values)) + rest)
    ensures ([FNPTR] + (Blob(CoreMethod(sig, values)) + rest))[1..] == Blob(CoreMethod(sig, values)) + rest
  {
    hide Blob, CoreMethod;
    BlobConcat([FNPTR], CoreMethod(sig, values));
    OneByte(FNPTR);
  }

  lemma TokenBytes(code: byte, n: nat, rest: seq<byte>)
    requires code < 0x80 && n < LIMIT
    ensures var s := Blob([code, n]) + rest;
            s != [] && s[0] == code && LoadIndex(s[1..]) == Some((n, rest))
  {
    hide LoadIndex, Blob, Compressed;
    BlobConcat([code], [n]);
    OneByte(code);
    assert [code, n] == [code] + [n];
    OneInt(n);
    var s := Blob([code, n]) + rest;
    assert s[1..] == Compressed(n) + rest;
    IndexLoads(n, rest);
  }

  lemma OneInt(n: nat)
    ensures Blob([n]) == Compressed(n)
  {
    assert Blob([n]) == Compressed(n) + Blob([]);
  }

  // The bytes of a method signature.
  lemma HeadBytes(sig: Sig)
    requires sig.generics < 128 && |sig.params| < 128
    ensures Blob(MethodHead(sig))
         == [(if sig.instanceCall then 0x20 else 0) + (if sig.generics > 0 then 0x10 else 0)]
            + (if sig.generics > 0 then [sig.generics] else []) + [|sig.params|]
  {
    hide Blob;
    var flag := (if sig.instanceCall then 0x20 else 0) + (if sig.generics > 0 then 0x10 else 0);
    var generics := if sig.generics > 0 then [sig.generics] else [];
    BlobConcat([flag] + generics, [|sig.params|]);
    BlobConcat([flag], generics);
    OneByte(flag);
    OptionalByte(sig.generics > 0, sig.generics);
    OneByte(|sig.params|);
  }

  lemma {:induction false} MethodReadsBack(sig: Sig, values: ValueTypes, rest: seq<byte>)
    requires EmbeddableAs(FnPtr(sig))
    ensures ReadMethod(Blob(CoreMethod(sig, values)) + rest)
         == Some((SeenBasic(FnPtr(sig)).sig, rest))
    decreases sig, |sig.params| + 1
  {
    hide Blob, ReadType, ReadParams, Seen, MethodHead, Embedded, ParamsFrom;
    var head, params := Blob(MethodHead(sig)), Blob(ParamsFrom(sig, values, 0)) + rest;
    var result := Blob(Embedded(sig.result, values));
    BlobConcat(MethodHead(sig) + Embedded(sig.result, values), ParamsFrom(sig, values, 0));
    BlobConcat(MethodHead(sig), Embedded(sig.result, values));
    HeadBytes(sig);
    TypeReadsBack(sig.result, values, params);
    ParamsReadBack(sig, values, 0, rest);
    var s := Blob(CoreMethod(sig, values)) + rest;
    assert s == head + (result + params);
    assert s[|head|..] == result + params;
    MethodRead(sig, s, head, result + params, params, rest);
  }

  lemma MethodRead(sig: Sig, s: seq<byte>, head: seq<byte>, body: seq<byte>, params: seq<byte>, rest: seq<byte>)
    requires sig.generics < 128 && |sig.params| < 128
    requires head == [(if sig.instanceCall then 0x20 else 0) + (if sig.generics > 0 then 0x10 else 0)]
                     + (if sig.generics > 0 then [sig.generics] else []) + [|sig.params|]
    requires s == head + body && s[|head|..] == body
    requires ReadType(body) == Some((Seen(sig.result), params))
    requires ReadParams(params, |sig.params|) == Some((SeenBasic(FnPtr(sig)).sig.params, rest))
    ensures ReadMethod(s) == Some((SeenBasic(FnPtr(sig)).sig, rest))
  {
    hide ReadType, ReadParams, Seen;
    assert s[0] == head[0] && s[1] == head[1] && s[|head| - 1] == head[|head| - 1];
  }

  lemma {:induction false} ParamsReadBack(sig: Sig, values: ValueTypes, k: nat, rest: seq<byte>)
    requires EmbeddableAs(FnPtr(sig)) && k <= |sig.params|
    ensures ReadParams(Blob(ParamsFrom(sig, values, k)) + rest, |sig.params| - k)
         == Some((SeenBasic(FnPtr(sig)).sig.params[k..], rest))
    decreases sig, |sig.params| - k
  {
    hide Blob, ReadType, Embedded;
    var seen := SeenBasic(FnPtr(sig)).sig.params;
    assert |seen| == |sig.params| && forall j :: 0 <= j < |seen| ==> seen[j] == Seen(sig.params[j]);
    hide Seen, SeenBasic;
    if k == |sig.params| {
      NothingLeft(rest);
      assert seen[k..] == [];
    } else {
      var tail := Blob(ParamsFrom(sig, values, k + 1)) + rest;
      BlobConcat(Embedded(sig.params[k], values), ParamsFrom(sig, values, k + 1));
      assert Blob(ParamsFrom(sig, values, k)) + rest == Blob(Embedded(sig.params[k], values)) + tail;
      TypeReadsBack(sig.params[k], values, tail);
      ParamsReadBack(sig, values, k + 1, rest);
      assert seen[k..] == [seen[k]] + seen[k + 1..];
    }
  }

  lemma NothingLeft(rest: seq<byte>)
    ensures Blob([]) + rest == rest
  {
  }
}
