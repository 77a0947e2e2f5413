// The signatures the library writes against the grammar of sections II.23.2.1
// to II.23.2.12 of ECMA-335, with the standard's codes spelled out.
module SignatureGrammar {
  import opened Bytes
  import opened Compression
  import opened Signatures

  // ---- The grammar ----

  datatype EType =
    | Simple(kind: BasicType)
    | Ptr(to: EType)
    | SzArray(of: EType)
    | ValueType(token: nat)
    | Class(token: nat)
    | TypeVar(n: nat)
    | MethodVar(n: nat)
    | Function(sig: ESig)

  // A parameter, result or local variable.
  datatype EParam = EParam(pinned: bool, byRef: bool, ty: EType)

  datatype ESig = ESig(hasThis: bool, generics: nat, result: EParam, params: seq<EParam>)

  function SimpleType(code: byte): Option<BasicType> {
    match code
    case 0x01 => Some(Void)
    case 0x02 => Some(Bool)     // BOOLEAN
    case 0x03 => Some(Char)     // CHAR
    case 0x04 => Some(I8)       // I1
    case 0x05 => Some(U8)       // U1
    case 0x06 => Some(I16)      // I2
    case 0x07 => Some(U16)      // U2
    case 0x08 => Some(I32)      // I4
    case 0x09 => Some(U32)      // U4
    case 0x0a => Some(I64)      // I8
    case 0x0b => Some(U64)      // U8
    case 0x0c => Some(R32)      // R4
    case 0x0d => Some(R64)      // R8
    case 0x0e => Some(Str)      // STRING
    case 0x18 => Some(INative)  // I
    case 0x19 => Some(UNative)  // U
    case 0x1c => Some(Object)   // OBJECT
    case _ => None
  }

  // A compressed unsigned integer: 0, 10 or 110 in the high bits says whether
  // one, two or four bytes hold it.
  function Number(s: seq<byte>): (r: Option<(nat, seq<byte>)>)
    ensures r.Some? ==> |r.value.1| < |s|
  {
    if s == [] then None
    else
      var b: int := s[0];
      if b / 0x80 == 0 then Some((b, s[1..]))
      else if b / 0x40 == 2 then
        if |s| < 2 then None else Some((b % 0x40 * 0x100 + s[1], s[2..]))
      else if b / 0x20 == 6 then
        if |s| < 4 then None else Some((((b % 0x20 * 0x100 + s[1]) * 0x100 + s[2]) * 0x100 + s[3], s[4..]))
      else None
  }

  function DecodeType(s: seq<byte>): (r: Option<(EType, seq<byte>)>)
    ensures r.Some? ==> |r.value.1| < |s|
    decreases |s|, 0
  {
    if s == [] then None
    else if SimpleType(s[0]).Some? then Some((Simple(SimpleType(s[0]).value), s[1..]))
    else match s[0]
      case 0x0f => (match DecodeType(s[1..]) case None => None case Some((t, rest)) => Some((Ptr(t), rest)))
      case 0x1d => (match DecodeType(s[1..]) case None => None case Some((t, rest)) => Some((SzArray(t), rest)))
      case 0x11 => (match Number(s[1..]) case None => None case Some((n, rest)) => Some((ValueType(n), rest)))
      case 0x12 => (match Number(s[1..]) case None => None case Some((n, rest)) => Some((Class(n), rest)))
      case 0x13 => (match Number(s[1..]) case None => None case Some((n, rest)) => Some((TypeVar(n), rest)))
      case 0x1e => (match Number(s[1..]) case None => None case Some((n, rest)) => Some((MethodVar(n), rest)))
      case 0x1b => (match DecodeSig(s[1..]) case None => None case Some((sig, rest)) => Some((Function(sig), rest)))
      case _ => None
  }

  function DecodeParam(s: seq<byte>): (r: Option<(EParam, seq<byte>)>)
    ensures r.Some? ==> |r.value.1| < |s|
    decreases |s|, 1
  {
    var pinned := s != [] && s[0] == 0x45;
    var s1 := if pinned then s[1..] else s;
    var byRef := s1 != [] && s1[0] == 0x10;
    match DecodeType(if byRef then s1[1..] else s1)
    case None => None
    case Some((t, rest)) => Some((EParam(pinned, byRef, t), rest))
  }

  // HASTHIS and GENERIC are bits 0x20 and 0x10 of the first byte.
  function DecodeSig(s: seq<byte>): (r: Option<(ESig, seq<byte>)>)
    ensures r.Some? ==> |r.value.1| < |s|
    decreases |s|, 2
  {
    if s == [] || s[0] % 0x10 != 0 || s[0] / 0x40 != 0 then None
    else
      var generic := s[0] / 0x10 % 2 == 1;
      match if generic then Number(s[1..]) else Some((0, s[1..]))
      case None => None
      case Some((generics, s1)) =>
        match Number(s1)
        case None => None
        case Some((count, s2)) =>
          match DecodeParam(s2)
          case None => None
          case Some((result, s3)) =>
            match DecodeParams(s3, count)
            case None => None
            case Some((params, rest)) => Some((ESig(s[0] / 0x20 == 1, generics, result, params), rest))
  }

  function DecodeParams(s: seq<byte>, n: nat): (r: Option<(seq<EParam>, seq<byte>)>)
    ensures r.Some? ==> |r.value.1| <= |s|
    decreases |s|, 3
  {
    if n == 0 then Some(([], s))
    else match DecodeParam(s)
      case None => None
      case Some((p, s1)) =>
        match DecodeParams(s1, n - 1)
        case None => None
        case Some((ps, rest)) => Some(([p] + ps, rest))
  }

  // ---- What a type of the library means ----

  function PtrTo(n: nat, t: EType): EType { if n == 0 then t else Ptr(PtrTo(n - 1, t)) }

  function Meant(t: Type, values: ValueTypes): EParam
    decreases t, 1
  {
    var basic := MeantBasic(t.basic, values);
    EParam(t.pinned, t.byRef, PtrTo(t.pointers, if t.arrayLevel > 0 then SzArray(basic) else basic))
  }

  // A class is a value type or a reference type.
  function MeantBasic(b: Basic, values: ValueTypes): EType
    decreases b, 0
  {
    match b
    case Prim(kind) => Simple(kind)
    case Cls(token) => if token in values then ValueType(token) else Class(token)
    case Var(n) => TypeVar(n)
    case MVar(n) => MethodVar(n)
    case FnPtr(sig) => Function(MeantSig(sig, values))
  }

  function MeantSig(sig: Sig, values: ValueTypes): ESig
    decreases sig
  {
    ESig(sig.instanceCall, sig.generics, Meant(sig.result, values),
         seq(|sig.params|, k requires 0 <= k < |sig.params| => Meant(sig.params[k], values)))
  }

  // Numbers of 29 bits, and no arrays of more dimensions.
  predicate Fits(t: Type)
    decreases t
  {
    t.arrayLevel <= 1
    && match t.basic
       case Prim(_) => true
       case Cls(token) => token < LIMIT
       case Var(n) => n < LIMIT
       case MVar(n) => n < LIMIT
       case FnPtr(sig) =>
         sig.generics < LIMIT && |sig.params| < LIMIT && Fits(sig.result)
         && forall k :: 0 <= k < |sig.params| ==> Fits(sig.params[k])
  }

  predicate FitsSig(sig: Sig) { Fits(Type(false, false, 0, 0, FnPtr(sig))) }

  predicate FitsBasic(b: Basic) { Fits(Type(false, false, 0, 0, b)) }

  // ---- What is written is what is meant ----

  lemma NumberReads(v: nat, rest: seq<byte>)
    requires v < LIMIT
    ensures Number(Compressed(v) + rest) == Some((v, rest))
  {
    IndexLoads(v, rest);
    var s := Compressed(v) + rest;
    assert s[0] == Compressed(v)[0];
    if v <= 0x7f {
      assert s[1..] == rest;
    } else if v <= 0x3fff {
      assert s[1] == Compressed(v)[1] && s[2..] == rest;
    } else {
      assert s[1] == Compressed(v)[1] && s[2] == Compressed(v)[2] && s[3] == Compressed(v)[3] && s[4..] == rest;
    }
  }

  lemma CodeFirst(code: nat, ints: seq<nat>, rest: seq<byte>)
    requires code < 0x80
    ensures Blob([code] + ints) + rest == [code] + (Blob(ints) + rest)
    ensures var s := Blob([code] + ints) + rest; s != [] && s[0] == code && s[1..] == Blob(ints) + rest
  {
    hide Blob;
    BlobConcat([code], ints);
    OneByte(code);
    var s := [code] + (Blob(ints) + rest);
    assert s[1..] == Blob(ints) + rest;
  }

  lemma NumberNext(v: nat, ints: seq<nat>, rest: seq<byte>)
    requires v < LIMIT
    ensures Number(Blob([v] + ints) + rest) == Some((v, Blob(ints) + rest))
  {
    hide Blob, Compressed, Number;
    BlobConcat([v], ints);
    OneInt(v);
    assert Blob([v] + ints) + rest == Compressed(v) + (Blob(ints) + rest);
    NumberReads(v, Blob(ints) + rest);
  }

  lemma BasicCodeIsSimple(kind: BasicType)
    ensures SimpleType(BasicCode(kind)) == Some(kind)
  {
  }

  lemma {:induction false} BasicDecodes(b: Basic, values: ValueTypes, rest: seq<byte>)
    requires FitsBasic(b)
    ensures DecodeType(Blob(EmbeddedBasic(b, values)) + rest) == Some((MeantBasic(b, values), rest))
    ensures var s := Blob(EmbeddedBasic(b, values)) + rest; s != [] && s[0] != 0x45 && s[0] != 0x10
    decreases b, 0
  {
    hide Blob, Number, CoreMethod, MeantSig, DecodeSig;
    NoInts(rest);
    match b {
      case Prim(kind) =>
        BasicCodeIsSimple(kind);
        CodeFirst(BasicCode(kind), [], rest);
      case Cls(token) =>
        CodeAndNumber(if token in values then VALUETYPE else CLASS, token, rest);
      case Var(n) => CodeAndNumber(VAR, n, rest);
      case MVar(n) => CodeAndNumber(MVAR, n, rest);
      case FnPtr(sig) =>
        CodeFirst(FNPTR, CoreMethod(sig, values), rest);
        SigDecodes(sig, values, rest);
    }
  }

  lemma CodeAndNumber(code: nat, n: nat, rest: seq<byte>)
    requires code < 0x80 && n < LIMIT
    ensures var s := Blob([code, n]) + rest; s != [] && s[0] == code && Number(s[1..]) == Some((n, rest))
  {
    hide Blob, Number;
    NoInts(rest);
    assert [code, n] == [code] + [n] && [n] == [n] + [];
    CodeFirst(code, [n], rest);
    NumberNext(n, [], rest);
  }

  lemma NoInts(rest: seq<byte>)
    ensures Blob([]) + rest == rest
    ensures forall v: nat :: [v] + [] == [v]
  {
  }

  // Pointers, then an array, then the element.
  lemma {:induction false} PointersDecode(n: nat, ints: seq<nat>, t: EType, rest: seq<byte>)
    requires DecodeType(Blob(ints) + rest) == Some((t, rest))
    requires var s := Blob(ints) + rest; s != [] && s[0] != 0x45 && s[0] != 0x10
    ensures DecodeType(Blob(Repeat(n, PTR) + ints) + rest) == Some((PtrTo(n, t), rest))
    ensures var s := Blob(Repeat(n, PTR) + ints) + rest; s != [] && s[0] != 0x45 && s[0] != 0x10
  {
    hide Blob;
    if n == 0 {
      assert [] + ints == ints;
    } else {
      PointersDecode(n - 1, ints, t, rest);
      assert Repeat(n, PTR) + ints == [PTR] + (Repeat(n - 1, PTR) + ints);
      CodeFirst(PTR, Repeat(n - 1, PTR) + ints, rest);
    }
  }

  lemma ArrayDecodes(level: bool, ints: seq<nat>, t: EType, rest: seq<byte>)
    requires DecodeType(Blob(ints) + rest) == Some((t, rest))
    requires var s := Blob(ints) + rest; s != [] && s[0] != 0x45 && s[0] != 0x10
    ensures var all := (if level then [SZARRAY] else []) + ints;
            && DecodeType(Blob(all) + rest) == Some((if level then SzArray(t) else t, rest))
            && var s := Blob(all) + rest; s != [] && s[0] != 0x45 && s[0] != 0x10
  {
    hide Blob;
    if level {
      CodeFirst(SZARRAY, ints, rest);
    } else {
      assert [] + ints == ints;
    }
  }

  lemma FlagsDecode(pinned: bool, byRef: bool, ints: seq<nat>, t: EType, rest: seq<byte>)
    requires DecodeType(Blob(ints) + rest) == Some((t, rest))
    requires var s := Blob(ints) + rest; s != [] && s[0] != 0x45 && s[0] != 0x10
    ensures var all := (if pinned then [PINNED] else []) + ((if byRef then [BYREF] else []) + ints);
            DecodeParam(Blob(all) + rest) == Some((EParam(pinned, byRef, t), rest))
  {
    hide Blob, DecodeType;
    var inner := (if byRef then [BYREF] else []) + ints;
    if byRef {
      CodeFirst(BYREF, ints, rest);
    } else {
      assert inner == ints;
    }
    if pinned {
      CodeFirst(PINNED, inner, rest);
    } else {
      assert [] + inner == inner;
    }
  }

  // The blob of a type is what the grammar has for the type meant, whatever
  // follows: among others, the code of a class is 0x11 for a value type and
  // 0x12 for any other.
  lemma {:induction false} TypeIsWritten(t: Type, values: ValueTypes, rest: seq<byte>)
    requires Fits(t)
    ensures DecodeParam(Blob(Embedded(t, values)) + rest) == Some((Meant(t, values), rest))
    decreases t, 1
  {
    hide Blob, EmbeddedBasic, MeantBasic, DecodeType, DecodeParam, Repeat;
    assert FitsBasic(t.basic) && t.arrayLevel <= 1 by { BasicFits(t); }
    hide Fits, FitsBasic;
    BasicDecodes(t.basic, values, rest);
    var basic := EmbeddedBasic(t.basic, values);
    var arrays := if t.arrayLevel > 0 then [SZARRAY] else [];
    ArrayDecodes(t.arrayLevel > 0, basic, MeantBasic(t.basic, values), rest);
    var element := if t.arrayLevel > 0 then SzArray(MeantBasic(t.basic, values)) else MeantBasic(t.basic, values);
    PointersDecode(t.pointers, arrays + basic, element, rest);
    var pointed := Repeat(t.pointers, PTR) + (arrays + basic);
    FlagsDecode(t.pinned, t.byRef, pointed, PtrTo(t.pointers, element), rest);
    assert Embedded(t, values) == (if t.pinned then [PINNED] else []) + ((if t.byRef then [BYREF] else []) + pointed);
  }

  lemma BasicFits(t: Type)
    requires Fits(t)
    ensures FitsBasic(t.basic) && t.arrayLevel <= 1
  {
  }

  lemma SigParts(sig: Sig)
    requires FitsSig(sig)
    ensures sig.generics < LIMIT && |sig.params| < LIMIT && Fits(sig.result)
    ensures forall k :: 0 <= k < |sig.params| ==> Fits(sig.params[k])
  {
  }

  // The same for a method signature.
  lemma {:induction false} SigDecodes(sig: Sig, values: ValueTypes, rest: seq<byte>)
    requires FitsSig(sig)
    ensures DecodeSig(Blob(CoreMethod(sig, values)) + rest) == Some((MeantSig(sig, values), rest))
    decreases sig, |sig.params| + 1
  {
    hide Blob, Meant, Embedded, ParamsFrom, DecodeParam, DecodeParams, Number, Fits, FitsSig;
    SigParts(sig);
    var result, params := Embedded(sig.result, values), ParamsFrom(sig, values, 0);
    TypeIsWritten(sig.result, values, Blob(params) + rest);
    ParamsDecode(sig, values, 0, rest);
    var meant := MeantSig(sig, values).params;
    assert meant[0..] == meant;
    BlobConcat(result, params);
    assert Blob(result + params) + rest == Blob(result) + (Blob(params) + rest);
    assert CoreMethod(sig, values) == MethodHead(sig) + (result + params);
    HeadDecodes(sig, result + params, rest, Meant(sig.result, values), Blob(params) + rest, meant, rest);
  }

  // Flags, generic parameters and parameter count, before result and parameters.
  lemma HeadDecodes(sig: Sig, body: seq<nat>, rest: seq<byte>, result: EParam, tail: seq<byte>, params: seq<EParam>, end: seq<byte>)
    requires sig.generics < LIMIT && |sig.params| < LIMIT
    requires DecodeParam(Blob(body) + rest) == Some((result, tail))
    requires DecodeParams(tail, |sig.params|) == Some((params, end))
    ensures DecodeSig(Blob(MethodHead(sig) + body) + rest)
         == Some((ESig(sig.instanceCall, sig.generics, result, params), end))
  {
    hide Blob, DecodeParam, DecodeParams, Number;
    var flag := (if sig.instanceCall then 0x20 else 0) + (if sig.generics > 0 then 0x10 else 0);
    var counted := [|sig.params|] + body;
    var generics := if sig.generics > 0 then [sig.generics] else [];
    assert MethodHead(sig) + body == [flag] + (generics + counted);
    CodeFirst(flag, generics + counted, rest);
    if sig.generics > 0 {
      NumberNext(sig.generics, counted, rest);
    } else {
      assert [] + counted == counted;
    }
    NumberNext(|sig.params|, body, rest);
  }

  lemma {:induction false} ParamsDecode(sig: Sig, values: ValueTypes, k: nat, rest: seq<byte>)
    requires FitsSig(sig) && k <= |sig.params|
    ensures DecodeParams(Blob(ParamsFrom(sig, values, k)) + rest, |sig.params| - k)
         == Some((MeantSig(sig, values).params[k..], rest))
    decreases sig, |sig.params| - k
  {
    hide Blob, Meant, Embedded, DecodeParam, Fits, FitsSig;
    SigParts(sig);
    var meant := MeantSig(sig, values).params;
    if k == |sig.params| {
      NoInts(rest);
      assert meant[k..] == [];
    } else {
      var here, later := Embedded(sig.params[k], values), ParamsFrom(sig, values, k + 1);
      BlobConcat(here, later);
      assert Blob(ParamsFrom(sig, values, k)) + rest == Blob(here) + (Blob(later) + rest);
      TypeIsWritten(sig.params[k], values, Blob(later) + rest);
      ParamsDecode(sig, values, k + 1, rest);
      assert meant[k..] == [meant[k]] + meant[k + 1..];
    }
  }
}
