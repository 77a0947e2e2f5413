// Address arithmetic: alignOffset and printGepInstruction.
module Gep {
  import opened Bytes

  // Sizes and offsets are unsigned ints.
  function Wrap(x: int): (w: nat)
    ensures w < TWO_32
  {
    x % TWO_32
  }

  // ---- alignOffset ----

  function AlignOffset(offset: nat, align: nat): (r: nat)
    requires align > 0
  {
    Wrap(offset + (align - offset % align) % align)
  }

  ghost predicate IsMultiple(x: nat, align: nat)
    requires align > 0
  {
    x % align == 0
  }

  function NextMultiple(offset: nat, align: nat): nat
    requires align > 0
  {
    offset + (align - offset % align) % align
  }

  lemma MultipleAbove(offset: nat, align: nat)
    requires align > 0
    ensures IsMultiple(NextMultiple(offset, align), align) && offset <= NextMultiple(offset, align) < offset + align
    ensures offset % align == 0 ==> NextMultiple(offset, align) == offset
    ensures offset % align != 0 ==> NextMultiple(offset, align) == align * (offset / align + 1)
  {
    var q, r := offset / align, offset % align;
    assert offset == align * q + r;
    if r == 0 {
      SelfMod(align);
    } else {
      SmallMod(align - r, align);
      assert NextMultiple(offset, align) == align * q + align == align * (q + 1);
      MulMod(align, q + 1);
    }
  }

  lemma SelfMod(n: nat)
    requires n > 0
    ensures n % n == 0
  {
  }

  lemma SmallMod(x: nat, n: nat)
    requires x < n
    ensures x % n == x
  {
  }

  lemma MulMod(n: nat, k: nat)
    requires n > 0
    ensures (n * k) % n == 0
  {
    assert n * k == n * k + 0;
    var d := (n * k) / n;
    assert n * k == n * d + (n * k) % n;
    var rest := (n * k) % n;
    assert n * (k - d) == rest;
    Between(n, k - d);
  }

  lemma Between(n: nat, d: int)
    requires 0 <= n * d < n
    ensures d == 0
  {
    TimesBound(n, d);
  }

  lemma NoneBetween(offset: nat, align: nat, x: nat)
    requires align > 0 && offset <= x && IsMultiple(x, align)
    ensures NextMultiple(offset, align) <= x
  {
    MultipleAbove(offset, align);
    var q, r := offset / align, offset % align;
    var k := x / align;
    assert x == align * k;
    if r != 0 {
      assert offset == align * q + r;
      if k <= q { Monotone(align, k, q); }
      Monotone(align, q + 1, k);
    }
  }

  lemma Monotone(n: nat, a: int, b: int)
    ensures a <= b ==> n * a <= n * b
  {
  }

  // The least multiple at or above the offset, exactly when it is below 2^32.
  lemma AlignIsLeastIff(offset: nat, align: nat)
    requires align > 0
    ensures var r := AlignOffset(offset, align);
            (r >= offset && IsMultiple(r, align) && forall x :: x >= offset && IsMultiple(x, align) ==> r <= x)
            <==> NextMultiple(offset, align) < TWO_32
  {
    MultipleAbove(offset, align);
    var next := NextMultiple(offset, align);
    forall x | x >= offset && IsMultiple(x, align) ensures next <= x {
      NoneBetween(offset, align, x);
    }
  }

  // ---- Structures ----

  // Size and alignment of a field.
  datatype Field = Field(size: nat, align: nat)

  // The offset the loop computes for field k.
  function FieldOffset(fields: seq<Field>, k: nat): nat
    requires k < |fields| && forall f :: f in fields ==> f.align > 0
  {
    if k == 0 then 0
    else
      assert fields[k] in fields;
      AlignOffset(Wrap(FieldOffset(fields, k - 1) + fields[k - 1].size), fields[k].align)
  }

  // The same without the limits of an unsigned int: each field right behind
  // the one before it, at the next multiple of its alignment.
  function LaidOutAt(fields: seq<Field>, k: nat): nat
    requires k < |fields| && forall f :: f in fields ==> f.align > 0
  {
    if k == 0 then 0
    else
      assert fields[k] in fields;
      NextMultiple(LaidOutAt(fields, k - 1) + fields[k - 1].size, fields[k].align)
  }

  method StructOffset(fields: seq<Field>, fieldIndex: nat) returns (size: nat)
    requires fieldIndex < |fields| && forall f :: f in fields ==> f.align > 0
    ensures size == FieldOffset(fields, fieldIndex)
  {
    size := 0;
    var f := 0;
    while f < fieldIndex
      invariant f <= fieldIndex && size == FieldOffset(fields, f)
    {
      assert fields[f + 1] in fields;
      size := AlignOffset(Wrap(size + fields[f].size), fields[f + 1].align);
      f := f + 1;
    }
  }

  // The first field is at the start; the others are aligned, in order, do not
  // overlap, and lie as far to the front as that allows.
  lemma {:induction false} LayoutIsSound(fields: seq<Field>, j: nat, k: nat)
    requires j < k < |fields| && forall f :: f in fields ==> f.align > 0
    ensures LaidOutAt(fields, 0) == 0 && LaidOutAt(fields, j) + fields[j].size <= LaidOutAt(fields, k)
    ensures fields[k].align > 0 && IsMultiple(LaidOutAt(fields, k), fields[k].align)
    ensures forall x: nat :: x >= LaidOutAt(fields, k - 1) + fields[k - 1].size && IsMultiple(x, fields[k].align) ==>
              LaidOutAt(fields, k) <= x
    decreases k
  {
    assert fields[k] in fields;
    var end := LaidOutAt(fields, k - 1) + fields[k - 1].size;
    MultipleAbove(end, fields[k].align);
    forall x: nat | x >= end && IsMultiple(x, fields[k].align) ensures LaidOutAt(fields, k) <= x {
      NoneBetween(end, fields[k].align, x);
    }
    if j < k - 1 {
      LayoutIsSound(fields, j, k - 1);
    }
  }

  // The loop computes this layout as long as it stays below 2^32.
  lemma {:induction false} LoopComputesLayout(fields: seq<Field>, k: nat)
    requires k < |fields| && forall f :: f in fields ==> f.align > 0
    requires LaidOutAt(fields, k) < TWO_32
    ensures FieldOffset(fields, k) == LaidOutAt(fields, k)
  {
    if k > 0 {
      assert fields[k] in fields;
      hide NextMultiple, Wrap;
      MultipleAbove(LaidOutAt(fields, k - 1) + fields[k - 1].size, fields[k].align);
      LoopComputesLayout(fields, k - 1);
      NoWrap(LaidOutAt(fields, k - 1) + fields[k - 1].size, fields[k].align);
    }
  }

  lemma NoWrap(offset: nat, align: nat)
    requires align > 0 && NextMultiple(offset, align) < TWO_32
    ensures AlignOffset(Wrap(offset), align) == NextMultiple(offset, align)
  {
    MultipleAbove(offset, align);
    var next := NextMultiple(offset, align);
    assert Wrap(offset) == offset;
    hide NextMultiple;
    assert AlignOffset(offset, align) == Wrap(next) == next by { Unfolded(offset, align); }
  }

  lemma Unfolded(offset: nat, align: nat)
    requires align > 0
    ensures AlignOffset(offset, align) == Wrap(NextMultiple(offset, align))
  {
  }

  // ---- The emitted code ----

  // One step into an aggregate: a field, or an element number, known or not.
  datatype Index =
    | Member(fields: seq<Field>, k: nat)
    | Known(n: int, size: nat)
    | Unknown(v: nat, size: nat)

  datatype Instr = PtrLoad(n: nat) | ValueLoad(v: nat) | Iadd | Isub | Imul

  predicate GoodIndex(i: Index) {
    i.Member? ==> i.k < |i.fields| && forall f :: f in i.fields ==> f.align > 0
  }

  function IndexCode(i: Index): seq<Instr>
    requires GoodIndex(i)
  {
    match i
    case Member(fields, k) => [PtrLoad(FieldOffset(fields, k)), Iadd]
    case Known(n, size) =>
      if n == 0 then []
      else if n < 0 then [PtrLoad(-n * Wrap(size)), Isub]
      else [PtrLoad(n * Wrap(size)), Iadd]
    case Unknown(v, size) => [PtrLoad(Wrap(size)), ValueLoad(v), Imul, Iadd]
  }

  ghost predicate AllGood(indexes: seq<Index>) { forall i :: 0 <= i < |indexes| ==> GoodIndex(indexes[i]) }

  // The code of the first k indexes.
  function CodeTo(base: nat, indexes: seq<Index>, k: nat): seq<Instr>
    requires AllGood(indexes) && k <= |indexes|
  {
    if k == 0 then [ValueLoad(base)] else CodeTo(base, indexes, k - 1) + IndexCode(indexes[k - 1])
  }

  class GepPrinter {
    var outstream: seq<Instr>

    constructor ()
      ensures outstream == []
    {
      outstream := [];
    }

    method PrintGepInstruction(base: nat, indexes: seq<Index>)
      requires AllGood(indexes)
      modifies this
      ensures outstream == old(outstream) + CodeTo(base, indexes, |indexes|)
    {
      outstream := outstream + [ValueLoad(base)];
      var i := 0;
      while i < |indexes|
        invariant i <= |indexes| && outstream == old(outstream) + CodeTo(base, indexes, i)
      {
        PrintIndex(indexes[i]);
        i := i + 1;
      }
    }

    method PrintIndex(index: Index)
      requires GoodIndex(index)
      modifies this
      ensures outstream == old(outstream) + IndexCode(index)
    {
      hide Wrap;
      match index {
        case Member(fields, k) =>
          var size := StructOffset(fields, k);
          outstream := outstream + [PtrLoad(size), Iadd];
        case Known(n, size) =>
          if n == 0 {
          } else if n < 0 {
            outstream := outstream + [PtrLoad(-n * Wrap(size)), Isub];
          } else {
            outstream := outstream + [PtrLoad(n * Wrap(size)), Iadd];
          }
        case Unknown(v, size) =>
          outstream := outstream + [PtrLoad(Wrap(size)), ValueLoad(v), Imul, Iadd];
      }
    }
  }

  // ---- Running it on 32-bit integers ----

  type Values = map<nat, int>

  function Get(values: Values, v: nat): int { if v in values then values[v] else 0 }

  function Binary(i: Instr, a: int, b: int): nat
    requires i.Iadd? || i.Isub? || i.Imul?
  {
    Wrap(if i.Iadd? then a + b else if i.Isub? then a - b else a * b)
  }

  function Exec(i: Instr, stack: seq<nat>, values: Values): Option<seq<nat>> {
    match i
    case PtrLoad(n) => Some([Wrap(n)] + stack)
    case ValueLoad(v) => Some([Wrap(Get(values, v))] + stack)
    case _ => if |stack| < 2 then None else Some([Binary(i, stack[1], stack[0])] + stack[2..])
  }

  function Run(code: seq<Instr>, stack: seq<nat>, values: Values): Option<seq<nat>> {
    if code == [] then Some(stack)
    else match Exec(code[0], stack, values)
      case None => None
      case Some(next) => Run(code[1..], next, values)
  }

  // The distance an index moves the address, over the integers.
  function Distance(i: Index, values: Values): int
    requires GoodIndex(i)
  {
    match i
    case Member(fields, k) => FieldOffset(fields, k)
    case Known(n, size) => n * size
    case Unknown(v, size) => Get(values, v) * size
  }

  function DistanceTo(indexes: seq<Index>, values: Values, k: nat): int
    requires AllGood(indexes) && k <= |indexes|
  {
    if k == 0 then 0 else DistanceTo(indexes, values, k - 1) + Distance(indexes[k - 1], values)
  }

  lemma {:induction false} RunAdd(a: seq<Instr>, b: seq<Instr>, stack: seq<nat>, values: Values)
    ensures Run(a + b, stack, values) == match Run(a, stack, values)
                                         case None => None
                                         case Some(next) => Run(b, next, values)
  {
    hide Exec;
    if a == [] {
      assert a + b == b;
    } else {
      assert (a + b)[1..] == a[1..] + b;
      match Exec(a[0], stack, values) {
        case None =>
        case Some(next) => RunAdd(a[1..], b, next, values);
      }
    }
  }

  // ---- Residues ----

  lemma WrapUnique(x: int, y: int, k: int)
    requires x == y + TWO_32 * k
    ensures Wrap(x) == Wrap(y)
  {
    var q := y / TWO_32;
    assert y == TWO_32 * q + Wrap(y);
    assert x == TWO_32 * (q + k) + Wrap(y);
  }

  lemma WrapSplit(x: int) returns (k: int)
    ensures x == Wrap(x) + TWO_32 * k
  {
    k := x / TWO_32;
  }

  lemma WrapAdd(a: int, b: int)
    ensures Wrap(Wrap(a) + Wrap(b)) == Wrap(a + b) && Wrap(Wrap(a) - Wrap(b)) == Wrap(a - b)
    ensures Wrap(Wrap(a)) == Wrap(a)
  {
    var i := WrapSplit(a);
    var j := WrapSplit(b);
    WrapUnique(a + b, Wrap(a) + Wrap(b), i + j);
    WrapUnique(a - b, Wrap(a) - Wrap(b), i - j);
    WrapUnique(a, Wrap(a), i);
  }

  lemma WrapMul(a: int, b: int)
    ensures Wrap(Wrap(a) * Wrap(b)) == Wrap(a * b) && Wrap(a * Wrap(b)) == Wrap(a * b)
  {
    var i := WrapSplit(a);
    var j := WrapSplit(b);
    Expand(a, Wrap(a), i, b, Wrap(b), j);
    WrapUnique(a * b, Wrap(a) * Wrap(b), Wrap(a) * j + i * b);
    Expand(a, a, 0, b, Wrap(b), j);
    WrapUnique(a * b, a * Wrap(b), a * j);
  }

  lemma Expand(a: int, a': int, i: int, b: int, b': int, j: int)
    requires a == a' + TWO_32 * i && b == b' + TWO_32 * j
    ensures a * b == a' * b' + TWO_32 * (a' * j + i * b)
  {
    assert a * b == (a' + TWO_32 * i) * b == a' * b + TWO_32 * i * b;
    assert a' * b == a' * (b' + TWO_32 * j) == a' * b' + a' * (TWO_32 * j);
    assert a' * (TWO_32 * j) == TWO_32 * (a' * j);
    assert TWO_32 * i * b == TWO_32 * (i * b);
  }

  // ---- The address ----

  // Whatever path an index takes, known or not, zero, negative or positive,
  // its code adds its distance to the address below it.
  lemma IndexAdds(i: Index, address: int, values: Values)
    requires GoodIndex(i)
    ensures Run(IndexCode(i), [Wrap(address)], values) == Some([Wrap(address + Distance(i, values))])
  {
    match i {
      case Member(fields, k) => AddRuns(FieldOffset(fields, k), address, values);
      case Known(n, size) =>
        if n < 0 {
          SubRuns(-n * Wrap(size), address, values);
          WrapMul(-n, size);
          WrapAdd(address, -n * Wrap(size));
          WrapAdd(address, -n * size);
          assert address - -n * size == address + n * size by { Negate(n, size); }
        } else if n > 0 {
          AddRuns(n * Wrap(size), address, values);
          WrapMul(n, size);
          WrapAdd(address, n * Wrap(size));
          WrapAdd(address, n * size);
        } else {
          NothingRuns(address, values);
        }
      case Unknown(v, size) => ScaledRuns(v, size, address, values);
    }
  }

  lemma Negate(n: int, size: int)
    ensures -(-n * size) == n * size
  {
  }

  lemma NothingRuns(address: int, values: Values)
    ensures Run([], [Wrap(address)], values) == Some([Wrap(address)])
  {
  }

  // A number on top of another, and an operation.
  lemma BinaryRuns(i: Instr, a: nat, b: nat, values: Values)
    requires i.Iadd? || i.Isub? || i.Imul?
    ensures Run([i], [b, a], values) == Some([Binary(i, a, b)])
  {
    hide Binary;
    assert [i][1..] == [] && [b, a][2..] == [];
    assert [Binary(i, a, b)] + [] == [Binary(i, a, b)];
    assert Run([], [Binary(i, a, b)], values) == Some([Binary(i, a, b)]);
  }

  lemma LoadedRuns(n: nat, i: Instr, address: int, values: Values)
    requires i.Iadd? || i.Isub?
    ensures Run([PtrLoad(n), i], [Wrap(address)], values) == Some([Binary(i, Wrap(address), Wrap(n))])
  {
    hide Binary, Wrap;
    assert [PtrLoad(n), i][1..] == [i];
    assert [Wrap(n)] + [Wrap(address)] == [Wrap(n), Wrap(address)];
    BinaryRuns(i, Wrap(address), Wrap(n), values);
  }

  lemma AddRuns(n: nat, address: int, values: Values)
    ensures Run([PtrLoad(n), Iadd], [Wrap(address)], values) == Some([Wrap(address + n)])
  {
    hide Run, Wrap;
    LoadedRuns(n, Iadd, address, values);
    WrapAdd(address, n);
  }

  lemma SubRuns(n: nat, address: int, values: Values)
    ensures Run([PtrLoad(n), Isub], [Wrap(address)], values) == Some([Wrap(address - n)])
  {
    hide Run, Wrap;
    LoadedRuns(n, Isub, address, values);
    WrapAdd(address, n);
  }

  lemma ScaledRuns(v: nat, size: nat, address: int, values: Values)
    ensures Run([PtrLoad(Wrap(size)), ValueLoad(v), Imul, Iadd], [Wrap(address)], values)
         == Some([Wrap(address + Get(values, v) * size)])
  {
    var x := Get(values, v);
    var code := [PtrLoad(Wrap(size)), ValueLoad(v)] + [Imul, Iadd];
    assert code == [PtrLoad(Wrap(size)), ValueLoad(v), Imul, Iadd];
    var product := Wrap(x * size);
    LoadBoth(v, size, address, values);
    RunAdd([PtrLoad(Wrap(size)), ValueLoad(v)], [Imul, Iadd], [Wrap(address)], values);
    hide Wrap, Get, Run;
    ImulIadd(Wrap(x), Wrap(size), Wrap(address), values);
    WrapMul(x, size);
    assert Wrap(size) * Wrap(x) == Wrap(x) * Wrap(size);
    WrapAdd(address, x * size);
  }

  lemma LoadBoth(v: nat, size: nat, address: int, values: Values)
    ensures Run([PtrLoad(Wrap(size)), ValueLoad(v)], [Wrap(address)], values)
         == Some([Wrap(Get(values, v)), Wrap(size), Wrap(address)])
  {
    var code := [PtrLoad(Wrap(size)), ValueLoad(v)];
    assert code[1..] == [ValueLoad(v)] && code[1..][1..] == [];
    WrapAdd(size, 0);
    hide Wrap, Get;
    assert [Wrap(size)] + [Wrap(address)] == [Wrap(size), Wrap(address)];
    assert [Wrap(Get(values, v))] + [Wrap(size), Wrap(address)] == [Wrap(Get(values, v)), Wrap(size), Wrap(address)];
    assert Run([ValueLoad(v)], [Wrap(size), Wrap(address)], values) == Run([], [Wrap(Get(values, v)), Wrap(size), Wrap(address)], values);
  }

  lemma ImulIadd(x: nat, size: nat, address: nat, values: Values)
    ensures Run([Imul, Iadd], [x, size, address], values) == Some([Wrap(address + Wrap(size * x))])
  {
    hide Wrap;
    assert [Imul, Iadd][1..] == [Iadd] && [x, size, address][2..] == [address];
    assert [Wrap(size * x)] + [address] == [Wrap(size * x), address];
    BinaryRuns(Iadd, address, Wrap(size * x), values);
  }

  // The emitted code computes the base plus the sum of the scaled indexes.
  lemma {:induction false} AddressIsSum(base: nat, indexes: seq<Index>, values: Values, k: nat)
    requires AllGood(indexes) && k <= |indexes|
    ensures Run(CodeTo(base, indexes, k), [], values)
         == Some([Wrap(Get(values, base) + DistanceTo(indexes, values, k))])
  {
    hide IndexCode, Distance, Wrap, Get;
    if k == 0 {
      var code := [ValueLoad(base)];
      assert code[1..] == [];
      assert [Wrap(Get(values, base))] + [] == [Wrap(Get(values, base))];
    } else {
      AddressIsSum(base, indexes, values, k - 1);
      RunAdd(CodeTo(base, indexes, k - 1), IndexCode(indexes[k - 1]), [], values);
      IndexAdds(indexes[k - 1], Get(values, base) + DistanceTo(indexes, values, k - 1), values);
    }
  }

  // A constant index and a variable that holds the same number agree.
  lemma PathsAgree(n: int, v: nat, size: nat, address: int, values: Values)
    requires Get(values, v) == n
    ensures Run(IndexCode(Known(n, size)), [Wrap(address)], values) == Run(IndexCode(Unknown(v, size)), [Wrap(address)], values)
  {
    hide IndexCode, Run, Wrap;
    IndexAdds(Known(n, size), address, values);
    IndexAdds(Unknown(v, size), address, values);
  }
}
