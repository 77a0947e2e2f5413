// Exactly which bodies ValidateInstructions accepts after the passes.
module Acceptance {
  import opened Bytes
  import opened Opcodes
  import opened Instructions
  import opened Relaxation
  import opened Passes
  import opened Meaning
  import opened Simulation
  import opened CodeContainers

  // The slot can be written in the operand: one byte, or two that may hold
  // anything up to 65534 (section III.3.38 of ECMA-335, for one).
  predicate OperandHolds(op: Opcode, slot: nat) {
    (TableRow(op).form == Index1 ==> slot < 0x100) && (TableRow(op).form == Index2 ==> slot < 0xffff)
  }

  lemma SlotFitsIff(op: Opcode, slot: nat)
    ensures SlotFits(op, slot) <==> OperandHolds(op, slot)
  {
    SlotForms(op);
    hide TableRow;
  }

  lemma SlotForms(op: Opcode)
    ensures TableRow(op).form == Index1 <==> op in {LDARG_S, LDARGA_S, STARG_S, LDLOC_S, LDLOCA_S, STLOC_S}
    ensures TableRow(op).form == Index2 <==> op in {LDARG, LDARGA, STARG, LDLOC, LDLOCA, STLOC}
  {
  }

  // What the author answers for: names of labels that exist, short branches
  // of his own that are near enough in the final layout, and slots that fit.
  ghost predicate WellMade(code: seq<Instr>, slots: Slots, final: seq<Instr>, i: nat)
    requires i < |code| == |final| && LocalsHaveSlots(code, slots) && LabelsIn(final, LabelsOf(code))
  {
    var instr := code[i];
    if IsBranch(instr.op) then
      Name(instr) in LabelsOf(code) && (IsRel1(instr.op) ==> Reaches(final, LabelsOf(code), i, 2))
    else
      && (instr.operand.ParamOperand? ==> OperandHolds(instr.op, instr.operand.index))
      && (instr.operand.LocalOperand? ==> OperandHolds(instr.op, slots[instr.operand.v]))
  }

  lemma BranchKinds(op: Opcode)
    ensures IsBranch(op) <==> IsRel1(op) || IsRel4(op)
    ensures !(IsRel1(op) && IsRel4(op))
  {
  }

  lemma PeepholeKeepsBranch(i: Instr, slots: Slots)
    requires i.operand.LocalOperand? ==> i.operand.v in slots
    requires IsBranch(i.op)
    ensures Peephole(i, slots) == i
  {
    hide TableRow;
    if Peephole(i, slots) != i {
      NoBranchAmong(i.op);
    }
  }

  // Shortening an access never makes its slot too large.
  lemma PeepholeKeepsFit(i: Instr, slots: Slots)
    requires i.operand.LocalOperand? ==> i.operand.v in slots
    ensures var j := Peephole(i, slots);
            && (j.operand.LocalOperand? ==> j.operand == i.operand)
            && (j.operand.ParamOperand? ==> j.operand == i.operand)
            && (i.operand.LocalOperand? ==>
                  (SlotFits(i.op, slots[i.operand.v]) <==>
                     (j.operand.LocalOperand? ==> SlotFits(j.op, slots[i.operand.v]))))
            && (i.operand.ParamOperand? ==>
                  (SlotFits(i.op, i.operand.index) <==>
                     (j.operand.ParamOperand? ==> SlotFits(j.op, i.operand.index))))
  {
    hide TableRow;
  }

  lemma FinalInstr(code: seq<Instr>, slots: Slots, i: nat)
    requires LocalsHaveSlots(code, slots) && i < |code|
    ensures var short := PeepholeAll(code, slots);
            var final := Optimized(code, slots);
            KeptAs(short[i], final[i]) || ShortOf(short[i], final[i])
  {
    hide TableRow;
    LabelsOfIsIn(code);
    RelaxShortens(PeepholeAll(code, slots), LabelsOf(code));
  }

  lemma CheckIsAboutAuthor(code: seq<Instr>, slots: Slots, i: nat)
    requires LocalsHaveSlots(code, slots) && i < |code|
    requires var final := Optimized(code, slots);
             LabelsIn(final, LabelsOf(code)) && LocalsHaveSlots(final, slots)
    ensures CheckAt(Optimized(code, slots), LabelsOf(code), slots, i).Ok?
            <==> WellMade(code, slots, Optimized(code, slots), i)
  {
    hide TableRow, Peephole, Optimized, LabelsOf, SlotFits, OperandHolds, SizeTo, IsBranch, IsRel1, IsRel4;
    var final, labels := Optimized(code, slots), LabelsOf(code);
    FinalInstr(code, slots, i);
    OptimizedIsCurrent(code, slots);
    BranchKinds(code[i].op);
    BranchKinds(final[i].op);
    PeepholeKeepsRole(code[i], slots);
    if IsBranch(code[i].op) {
      PeepholeKeepsBranch(code[i], slots);
      BranchCheck(code, slots, i);
    } else {
      var j := PeepholeAll(code, slots)[i];
      BranchKinds(j.op);
      assert KeptAs(j, final[i]);
      PeepholeKeepsFit(code[i], slots);
      if code[i].operand.ParamOperand? { SlotFitsIff(code[i].op, code[i].operand.index); }
      if code[i].operand.LocalOperand? { SlotFitsIff(code[i].op, slots[code[i].operand.v]); }
    }
  }

  // A branch the library shortened is never the reason for a rejection.
  lemma BranchCheck(code: seq<Instr>, slots: Slots, i: nat)
    requires LocalsHaveSlots(code, slots) && i < |code| && IsBranch(code[i].op)
    requires Peephole(code[i], slots) == code[i]
    requires var final := Optimized(code, slots);
             LabelsIn(final, LabelsOf(code)) && LocalsHaveSlots(final, slots) && OffsetsCurrent(final)
    ensures CheckAt(Optimized(code, slots), LabelsOf(code), slots, i).Ok?
            <==> WellMade(code, slots, Optimized(code, slots), i)
  {
    hide TableRow, Peephole, LabelsOf, Relax, SizeTo, IsBranch, IsRel1, IsRel4;
    var short, final, labels := PeepholeAll(code, slots), Optimized(code, slots), LabelsOf(code);
    assert short[i] == code[i];
    LabelsOfIsIn(code);
    RelaxShortens(short, labels);
    BranchKinds(code[i].op);
    BranchKinds(final[i].op);
    if IsRel4(code[i].op) {
      RelPair(code[i].op);
      RelaxIsExact(short, labels, i);
    }
  }

  // The first instruction its author got wrong, and what the error calls it.
  ghost predicate FirstFault(code: seq<Instr>, slots: Slots, final: seq<Instr>, i: nat, e: PELibError)
    requires |code| == |final| && LocalsHaveSlots(code, slots) && LabelsIn(final, LabelsOf(code))
  {
    && i < |code| && !WellMade(code, slots, final, i)
    && (forall k: nat :: k < i ==> WellMade(code, slots, final, k))
    && match e
       case MissingLabel => IsBranch(code[i].op) && Name(code[i]) !in LabelsOf(code)
       case ShortBranchOutOfRange => IsBranch(code[i].op) && Name(code[i]) in LabelsOf(code)
       case IndexOutOfRange => !IsBranch(code[i].op)
       case _ => false
  }

  lemma ErrorIsNamed(code: seq<Instr>, slots: Slots, i: nat)
    requires LocalsHaveSlots(code, slots) && i < |code|
    requires var final := Optimized(code, slots);
             LabelsIn(final, LabelsOf(code)) && LocalsHaveSlots(final, slots)
    requires CheckAt(Optimized(code, slots), LabelsOf(code), slots, i).Err?
    ensures CheckAt(Optimized(code, slots), LabelsOf(code), slots, i).error
         == if !IsBranch(code[i].op) then IndexOutOfRange
            else if Name(code[i]) in LabelsOf(code) then ShortBranchOutOfRange else MissingLabel
  {
    hide TableRow, Peephole, Optimized, LabelsOf, SlotFits, SizeTo, IsBranch, IsRel1, IsRel4, InShortRange;
    FinalInstr(code, slots, i);
    BranchKinds(code[i].op);
    BranchKinds(Optimized(code, slots)[i].op);
    BranchKinds(PeepholeAll(code, slots)[i].op);
    PeepholeKeepsRole(code[i], slots);
    if IsBranch(code[i].op) {
      PeepholeKeepsBranch(code[i], slots);
      if IsRel4(code[i].op) { RelPair(code[i].op); }
    }
  }

  // The first check that fails is where the status comes from.
  lemma {:induction false} FirstError(code: seq<Instr>, labels: Labels, slots: Slots, k: nat) returns (i: nat)
    requires k <= |code| && LabelsIn(code, labels) && LocalsHaveSlots(code, slots)
    requires CheckFrom(code, labels, slots, k).Err?
    ensures k <= i < |code| && CheckAt(code, labels, slots, i) == CheckFrom(code, labels, slots, k)
    ensures forall j :: k <= j < i ==> CheckAt(code, labels, slots, j).Ok?
    decreases |code| - k
  {
    hide CheckAt, TableRow;
    if CheckAt(code, labels, slots, k).Err? {
      i := k;
    } else {
      i := FirstError(code, labels, slots, k + 1);
    }
  }

  // Optimize accepts a body exactly when its author got the three things
  // right that are his; nothing the passes do can make the check fail. What it
  // reports is the first thing he got wrong.
  lemma AcceptedIffWellMade(code: seq<Instr>, slots: Slots)
    requires LocalsHaveSlots(code, slots)
    ensures var final := Optimized(code, slots);
            && LabelsIn(final, LabelsOf(code)) && LocalsHaveSlots(final, slots)
            && var status := Check(final, LabelsOf(code), slots);
               && (status.Ok? <==> forall i :: 0 <= i < |code| ==> WellMade(code, slots, final, i))
               && (status.Err? ==> exists i :: FirstFault(code, slots, final, i, status.error))
  {
    hide TableRow, Peephole, Optimized, LabelsOf, WellMade, CheckAt;
    var final, labels := Optimized(code, slots), LabelsOf(code);
    OptimizedIsInLabels(code, slots);
    OptimizedIsCurrent(code, slots);
    CurrentIsLaidOut(final);
    forall i: nat | i < |code|
      ensures CheckAt(final, labels, slots, i).Ok? <==> WellMade(code, slots, final, i)
    {
      CheckIsAboutAuthor(code, slots, i);
    }
    if Check(final, labels, slots).Err? {
      var i := FirstError(final, labels, slots, 0);
      ErrorIsNamed(code, slots, i);
      assert FirstFault(code, slots, final, i, Check(final, labels, slots).error);
    }
  }
}
