// Branch relaxation: the meaning of repeating CalculateOffsets and
// ModifyBranches until no branch shrinks.
module Relaxation {
  import opened Bytes
  import opened Opcodes
  import opened Instructions

  // Where each label instruction stands in the list.
  type Labels = map<string, nat>

  ghost predicate LabelsIn(code: seq<Instr>, labels: Labels) {
    forall name :: name in labels ==> labels[name] < |code|
  }

  predicate InShortRange(d: int) { -128 <= d < 128 }

  // From the end of an instruction of `len` bytes at position i to position t.
  function Displacement(code: seq<Instr>, t: nat, i: nat, len: nat): int
    requires t <= |code| && i < |code|
  {
    SizeTo(code, t) - (SizeTo(code, i) + len)
  }

  function LaidOut(code: seq<Instr>): (laid: seq<Instr>)
    ensures |laid| == |code|
  {
    seq(|code|, i requires 0 <= i < |code| => code[i].(offset := SizeTo(code, i)))
  }

  // The test of ModifyBranches, on the offsets stored in the instructions.
  predicate Shrinks(code: seq<Instr>, labels: Labels, i: nat)
    requires i < |code| && LabelsIn(code, labels)
  {
    && IsRel4(code[i].op)
    && Name(code[i]) in labels
    && InShortRange(code[labels[Name(code[i])]].offset - (code[i].offset + 5))
  }

  function ShrunkAt(code: seq<Instr>, labels: Labels, i: nat): Instr
    requires i < |code| && LabelsIn(code, labels)
  {
    if Shrinks(code, labels, i) then code[i].(op := Rel4To1(code[i].op)) else code[i]
  }

  function Shrunk(code: seq<Instr>, labels: Labels): (shrunk: seq<Instr>)
    requires LabelsIn(code, labels)
    ensures |shrunk| == |code|
  {
    seq(|code|, i requires 0 <= i < |code| => ShrunkAt(code, labels, i))
  }

  function Rel4Set(code: seq<Instr>): set<nat> {
    set i: nat | i < |code| && IsRel4(code[i].op)
  }

  lemma RoundShrinksRel4Set(code: seq<Instr>, labels: Labels)
    requires LabelsIn(code, labels)
    ensures Rel4Set(LaidOut(code)) == Rel4Set(code)
    ensures Shrunk(LaidOut(code), labels) != LaidOut(code) ==>
              Rel4Set(Shrunk(LaidOut(code), labels)) < Rel4Set(code)
  {
    hide TableRow;
    var laid := LaidOut(code);
    var next := Shrunk(laid, labels);
    forall i: nat | i < |code| && next[i] != laid[i]
      ensures i in Rel4Set(code) && i !in Rel4Set(next)
    {
      RelPair(code[i].op);
    }
    assert Rel4Set(next) <= Rel4Set(code);
    if next != laid {
      var i: nat :| i < |code| && next[i] != laid[i];
    }
  }

  // What OptimizeBranch leaves in the list.
  function Relax(code: seq<Instr>, labels: Labels): (relaxed: seq<Instr>)
    requires LabelsIn(code, labels)
    ensures |relaxed| == |code|
    ensures forall i :: 0 <= i < |code| ==> relaxed[i].operand == code[i].operand
    decreases Rel4Set(code)
  {
    var laid := LaidOut(code);
    var next := Shrunk(laid, labels);
    if next == laid then laid
    else
      RoundShrinksRel4Set(code, labels);
      Relax(next, labels)
  }

  lemma {:induction false} LayoutKeepsSizes(code: seq<Instr>, k: nat)
    requires k <= |code|
    ensures SizeTo(LaidOut(code), k) == SizeTo(code, k)
  {
    hide TableRow;
    if k > 0 {
      LayoutKeepsSizes(code, k - 1);
    }
  }

  // Every stored offset is the position of its instruction.
  ghost predicate OffsetsCurrent(code: seq<Instr>) {
    forall i :: 0 <= i < |code| ==> code[i].offset == SizeTo(code, i)
  }

  lemma LaidOutIsCurrent(code: seq<Instr>)
    ensures OffsetsCurrent(LaidOut(code))
  {
    hide TableRow;
    forall i | 0 <= i < |code| ensures LaidOut(code)[i].offset == SizeTo(LaidOut(code), i) {
      LayoutKeepsSizes(code, i);
    }
  }

  lemma CurrentIsLaidOut(code: seq<Instr>)
    requires OffsetsCurrent(code)
    ensures LaidOut(code) == code
  {
    hide TableRow, Size;
  }

  // The offsets stored at the end are those of the final list.
  lemma {:induction false} RelaxIsCurrent(code: seq<Instr>, labels: Labels)
    requires LabelsIn(code, labels)
    ensures OffsetsCurrent(Relax(code, labels))
    decreases Rel4Set(code)
  {
    hide TableRow;
    LaidOutIsCurrent(code);
    if Shrunk(LaidOut(code), labels) != LaidOut(code) {
      RoundShrinksRel4Set(code, labels);
      RelaxIsCurrent(Shrunk(LaidOut(code), labels), labels);
    }
  }

  // ---- Shortening some branches ----

  predicate KeptAs(a: Instr, b: Instr) { b == a.(offset := b.offset) }

  predicate ShortOf(a: Instr, b: Instr) {
    IsRel4(a.op) && b == a.(op := Rel4To1(a.op), offset := b.offset)
  }

  // b is a with some long branches shortened and other offsets stored.
  ghost predicate Shortens(a: seq<Instr>, b: seq<Instr>) {
    && |a| == |b|
    && forall i :: 0 <= i < |a| ==> KeptAs(a[i], b[i]) || ShortOf(a[i], b[i])
  }

  lemma ShortensTransitive(a: seq<Instr>, b: seq<Instr>, c: seq<Instr>)
    requires Shortens(a, b) && Shortens(b, c)
    ensures Shortens(a, c)
  {
    hide TableRow;
    forall i | 0 <= i < |a|
      ensures KeptAs(a[i], c[i]) || ShortOf(a[i], c[i])
    {
      if ShortOf(a[i], b[i]) {
        RelPair(a[i].op);
      }
    }
  }

  lemma RoundShortens(code: seq<Instr>, labels: Labels)
    requires LabelsIn(code, labels)
    ensures Shortens(code, LaidOut(code))
    ensures Shortens(code, Shrunk(LaidOut(code), labels))
  {
    hide TableRow;
  }

  lemma {:induction false} RelaxShortens(code: seq<Instr>, labels: Labels)
    requires LabelsIn(code, labels)
    ensures Shortens(code, Relax(code, labels))
    decreases Rel4Set(code)
  {
    hide TableRow;
    RoundShortens(code, labels);
    var next := Shrunk(LaidOut(code), labels);
    if next != LaidOut(code) {
      RoundShrinksRel4Set(code, labels);
      RelaxShortens(next, labels);
      ShortensTransitive(code, next, Relax(next, labels));
    }
  }

  lemma LongSize(a: Instr)
    requires IsRel4(a.op)
    ensures Size(a) == 5
  {
    hide TableRow;
    RelPair(a.op);
  }

  lemma ShortSize(a: Instr, b: Instr)
    requires KeptAs(a, b) || ShortOf(a, b)
    ensures Size(b) == if KeptAs(a, b) then Size(a) else Size(a) - 3
    ensures ShortOf(a, b) ==> !KeptAs(a, b) && Size(a) == 5 && Size(b) == 2
    ensures Name(a) == Name(b)
  {
    hide TableRow;
    if ShortOf(a, b) {
      RelPair(a.op);
    }
  }

  // Distances never grow.
  lemma {:induction false} GapsShrink(a: seq<Instr>, b: seq<Instr>, p: nat, q: nat)
    requires Shortens(a, b) && p <= q <= |a|
    ensures SizeTo(b, q) - SizeTo(b, p) <= SizeTo(a, q) - SizeTo(a, p)
    decreases q
  {
    hide TableRow;
    if p < q {
      GapsShrink(a, b, p, q - 1);
      ShortSize(a[q - 1], b[q - 1]);
    }
  }

  // The offsets a pass tests go stale as it shortens branches, but a branch
  // that was near enough stays near enough, in either form.
  lemma RangeIsKept(a: seq<Instr>, b: seq<Instr>, t: nat, i: nat)
    requires Shortens(a, b) && t <= |a| && i < |a| && IsRel4(a[i].op)
    requires -128 <= Displacement(a, t, i, 5) <= 127
    ensures -128 <= Displacement(b, t, i, Size(b[i])) <= 127
  {
    hide TableRow;
    LongSize(a[i]);
    ShortSize(a[i], b[i]);
    if t <= i {
      GapsShrink(a, b, t, i);
      SizeToMonotone(b, t, i);
    } else {
      GapsShrink(a, b, i + 1, t);
      SizeToMonotone(b, i + 1, t);
    }
  }

  // ---- The theorems about Relax ----

  ghost predicate Reaches(code: seq<Instr>, labels: Labels, i: nat, len: nat)
    requires i < |code| && LabelsIn(code, labels)
  {
    && Name(code[i]) in labels
    && InShortRange(Displacement(code, labels[Name(code[i])], i, len))
  }

  // No long branch could be short where it stands.
  ghost predicate Closed(code: seq<Instr>, labels: Labels)
    requires LabelsIn(code, labels)
  {
    forall i: nat :: i < |code| && IsRel4(code[i].op) ==> !Reaches(code, labels, i, 5)
  }

  // After CalculateOffsets the test of ModifyBranches is about real distances.
  lemma ShrinksIsReaches(code: seq<Instr>, labels: Labels, i: nat)
    requires LabelsIn(code, labels) && i < |code|
    ensures Shrinks(LaidOut(code), labels, i) <==>
              IsRel4(code[i].op) && Reaches(LaidOut(code), labels, i, 5)
  {
    hide TableRow;
    LayoutKeepsSizes(code, i);
    if Name(code[i]) in labels {
      LayoutKeepsSizes(code, labels[Name(code[i])]);
    }
  }

  // A branch shortened in the first round is short, and near enough, at the end.
  lemma ShrunkStaysShort(code: seq<Instr>, labels: Labels, i: nat)
    requires LabelsIn(code, labels) && i < |code| && Shrinks(LaidOut(code), labels, i)
    ensures var r := Relax(code, labels);
            ShortOf(code[i], r[i]) && Reaches(r, labels, i, 2)
  {
    hide TableRow;
    var laid := LaidOut(code);
    var next := Shrunk(laid, labels);
    var r := Relax(code, labels);
    RelPair(code[i].op);
    ShrinksIsReaches(code, labels, i);
    assert next[i] != laid[i];
    RelaxShortens(next, labels);
    assert Shortens(laid, next);
    ShortensTransitive(laid, next, r);
    assert KeptAs(next[i], r[i]) || ShortOf(next[i], r[i]);
    ShortSize(laid[i], r[i]);
    RangeIsKept(laid, r, labels[Name(laid[i])], i);
  }

  // Every branch that was shortened fits its one-byte displacement in the
  // final layout, and no branch left long could have been short.
  lemma {:induction false} RelaxIsExact(code: seq<Instr>, labels: Labels, i: nat)
    requires LabelsIn(code, labels) && i < |code| && IsRel4(code[i].op)
    ensures var r := Relax(code, labels);
            if IsRel4(r[i].op) then !Reaches(r, labels, i, 5)
            else ShortOf(code[i], r[i]) && Reaches(r, labels, i, 2)
    ensures var r := Relax(code, labels);
            Name(r[i]) == Name(code[i]) && (Name(code[i]) in labels ==>
              var d := Displacement(r, labels[Name(code[i])], i, if IsRel4(r[i].op) then 5 else 2);
              !IsRel4(r[i].op) <==> -128 <= d <= 127)
    decreases Rel4Set(code)
  {
    hide TableRow;
    var laid := LaidOut(code);
    var next := Shrunk(laid, labels);
    var r := Relax(code, labels);
    RelPair(code[i].op);
    RelaxShortens(code, labels);
    ShrinksIsReaches(code, labels, i);
    if next == laid {
      assert next[i] == laid[i];
    } else {
      RoundShrinksRel4Set(code, labels);
      if Shrinks(laid, labels, i) {
        ShrunkStaysShort(code, labels, i);
      } else {
        RelaxIsExact(next, labels, i);
      }
    }
  }

  lemma RelaxIsClosed(code: seq<Instr>, labels: Labels)
    requires LabelsIn(code, labels)
    ensures LabelsIn(Relax(code, labels), labels)
    ensures Closed(Relax(code, labels), labels)
  {
    hide TableRow;
    var r := Relax(code, labels);
    RelaxShortens(code, labels);
    forall i: nat | i < |r| && IsRel4(r[i].op)
      ensures !Reaches(r, labels, i, 5)
    {
      if ShortOf(code[i], r[i]) { RelPair(code[i].op); }
      RelaxIsExact(code, labels, i);
    }
  }

  // Relax shortens nothing it need not: any shortening of the list in which
  // no further branch could shrink has shortened at least the same branches.
  lemma {:induction false} RelaxIsLeast(code: seq<Instr>, labels: Labels, other: seq<Instr>)
    requires LabelsIn(code, labels) && Shortens(code, other) && Closed(other, labels)
    ensures Shortens(Relax(code, labels), other)
    decreases Rel4Set(code)
  {
    hide TableRow;
    var laid := LaidOut(code);
    var next := Shrunk(laid, labels);
    assert Shortens(laid, other);
    forall i: nat | i < |code|
      ensures KeptAs(next[i], other[i]) || ShortOf(next[i], other[i])
    {
      if Shrinks(laid, labels, i) && KeptAs(laid[i], other[i]) {
        ShrinksIsReaches(code, labels, i);
        LongSize(other[i]);
        RangeIsKept(laid, other, labels[Name(code[i])], i);
        assert false;
      }
    }
    if next != laid {
      RoundShrinksRel4Set(code, labels);
      RelaxIsLeast(next, labels, other);
    }
  }

  ghost function ShortenedTo(a: seq<Instr>, b: seq<Instr>, k: nat): set<nat>
    requires k <= |a| == |b|
  {
    set i: nat | i < k && ShortOf(a[i], b[i])
  }

  lemma ShortenedStep(a: seq<Instr>, b: seq<Instr>, k: nat)
    requires 0 < k <= |a| == |b|
    ensures |ShortenedTo(a, b, k)| == |ShortenedTo(a, b, k - 1)| + if ShortOf(a[k - 1], b[k - 1]) then 1 else 0
  {
    hide TableRow, ShortOf;
    var before, upTo := ShortenedTo(a, b, k - 1), ShortenedTo(a, b, k);
    assert upTo == if ShortOf(a[k - 1], b[k - 1]) then before + {k - 1} else before;
  }

  // Each shortened branch makes the body three bytes smaller.
  lemma {:induction false} SizeFallsByThree(a: seq<Instr>, b: seq<Instr>, k: nat)
    requires Shortens(a, b) && k <= |a|
    ensures SizeTo(a, k) - SizeTo(b, k) == 3 * |ShortenedTo(a, b, k)|
  {
    hide TableRow, Size, ShortenedTo;
    if k > 0 {
      SizeFallsByThree(a, b, k - 1);
      ShortSize(a[k - 1], b[k - 1]);
      ShortenedStep(a, b, k);
    } else {
      assert ShortenedTo(a, b, 0) == {} by { NothingShortened(a, b); }
    }
  }

  lemma NothingShortened(a: seq<Instr>, b: seq<Instr>)
    requires |a| == |b|
    ensures ShortenedTo(a, b, 0) == {}
  {
  }
}
