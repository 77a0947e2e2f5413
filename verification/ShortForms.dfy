// The first passes of Optimize choose a form of an instruction; here is when
// it is the shortest that does the same.
module ShortForms {
  import opened Bytes
  import opened Opcodes
  import opened Instructions
  import opened Passes
  import opened Encoding
  import opened Decoding
  import opened Meaning

  // The operand has room for the slot: one byte in a short form, two in a long.
  predicate HasRoom(i: Instr, slots: Slots) {
    var form := TableRow(i.op).form;
    && (i.operand.LocalOperand? ==> i.operand.v in slots)
    && (form == Index1 || form == Index2 ==>
          var slot := if i.operand.LocalOperand? then slots[i.operand.v] else if i.operand.ParamOperand? then i.operand.index else 0;
          slot < if form == Index1 then 256 else TWO_16)
  }

  // Another way of writing instruction i.
  ghost predicate SameAs(i: Instr, j: Instr, slots: Slots, frame: Frame) {
    OperandFits(j) && HasRoom(j, slots) && SourceAction(j, frame) == SourceAction(i, frame)
  }

  ghost predicate IsShortest(i: Instr, short: Instr, slots: Slots, frame: Frame) {
    forall j :: SameAs(i, j, slots, frame) ==> Size(short) <= Size(j)
  }

  // Each local has its slot in the frame, and each slot its local.
  ghost predicate Inverse(slots: Slots, frame: Frame) {
    && FrameMatches(slots, frame)
    && forall k :: 0 <= k < |frame| ==> frame[k] in slots && slots[frame[k]] == k
  }

  // ---- The forms there are ----

  lemma ConstantForms(op: Opcode)
    ensures 107 <= op < 120 ==> TableRow(op).bytes == if op == 107 then 5 else if op == 119 then 2 else 1
    ensures TableRow(107).form == Immed4 && TableRow(119).form == Immed1
    ensures forall k :: 108 <= k < 119 ==> TableRow(k).form == Single
  {
  }

  lemma AccessForms()
    ensures TableRow(LDARG).bytes == TableRow(LDARGA).bytes == TableRow(STARG).bytes == 4
    ensures TableRow(LDLOC).bytes == TableRow(LDLOCA).bytes == TableRow(STLOC).bytes == 4
    ensures TableRow(LDARG_S).bytes == TableRow(LDARGA_S).bytes == TableRow(STARG_S).bytes == 2
    ensures TableRow(LDLOC_S).bytes == TableRow(LDLOCA_S).bytes == TableRow(STLOC_S).bytes == 2
    ensures TableRow(LDARG).form == TableRow(LDARGA).form == TableRow(STARG).form == Index2
    ensures TableRow(LDLOC).form == TableRow(LDLOCA).form == TableRow(STLOC).form == Index2
    ensures TableRow(LDARG_S).form == TableRow(LDARGA_S).form == TableRow(STARG_S).form == Index1
    ensures TableRow(LDLOC_S).form == TableRow(LDLOCA_S).form == TableRow(STLOC_S).form == Index1
  {
  }

  lemma MacroForms(k: nat)
    requires k < 4
    ensures TableRow(LDARG_0 + k).bytes == TableRow(LDLOC_0 + k).bytes == TableRow(STLOC_0 + k).bytes == 1
    ensures TableRow(LDARG_0 + k).form == TableRow(LDLOC_0 + k).form == TableRow(STLOC_0 + k).form == Single
  {
  }

  // Which opcodes mean a constant, or an access.
  lemma MeansConstant<T>(op: Opcode, arg: Arg<T>, frame: Frame)
    requires General(Canonical(op), arg, frame).Some? && General(Canonical(op), arg, frame).value.op == LDC_I4
    ensures 107 <= op < 120
  {
  }

  lemma MeansAccess<T>(op: Opcode, arg: Arg<T>, frame: Frame)
    requires General(Canonical(op), arg, frame).Some?
    ensures var long := General(Canonical(op), arg, frame).value.op;
            && (long == LDARG ==> LDARG <= op <= LDARG_S) && (long == LDARGA ==> op == LDARGA || op == LDARGA_S)
            && (long == STARG ==> op == STARG || op == STARG_S)
            && (long == LDLOC ==> LDLOC <= op <= LDLOC_S) && (long == LDLOCA ==> op == LDLOCA || op == LDLOCA_S)
            && (long == STLOC ==> STLOC <= op <= STLOC_S)
  {
  }

  // ---- Constants ----

  // A constant of 32 bits is loaded by the shortest instruction there is.
  lemma ConstantIsShortest(i: Instr, slots: Slots, frame: Frame)
    requires i.op == LDC_I4 && i.operand.IntOperand? && -0x8000_0000 <= i.operand.n < 0x8000_0000
    ensures IsShortest(i, LdcShort(i), slots, frame)
  {
    var n := i.operand.n;
    ConstantForms(LDC_I4);
    ConstantForms(LdcShort(i).op);
    ConstantAction(i, frame);
    forall j | SameAs(i, j, slots, frame) ensures Size(LdcShort(i)) <= Size(j) {
      MeansConstant(j.op, SourceArg(j), frame);
      ConstantForms(j.op);
      ConstantAction(j, frame);
      hide TableRow, General, Canonical, SourceArg, HasRoom;
    }
  }

  // What an instruction that loads a constant loads.
  lemma ConstantAction(j: Instr, frame: Frame)
    requires 107 <= j.op < 120 && OperandFits(j)
    ensures SourceAction(j, frame) == Some(Action(LDC_I4, IntArg(
              if j.op == 107 then ToInt32(j.operand.n) else if j.op == 119 then ToInt8(j.operand.n)
              else if j.op >= 117 then -1 else j.op - 108)))
    ensures j.op == 107 || j.op == 119 ==> j.operand.IntOperand?
  {
    ConstantForms(j.op);
    hide TableRow;
  }

  // ---- Arguments and locals ----

  // An access to an argument is as short as can be but for the slots 128 to
  // 255, which would fit the short form.
  lemma ArgumentIsShortestIff(i: Instr, slots: Slots, frame: Frame)
    requires i.op in {LDARG, LDARGA, STARG} && i.operand.ParamOperand? && i.operand.index < TWO_16
    ensures IsShortest(i, ParamShort(i), slots, frame) <==> i.operand.index < 128 || i.operand.index >= 256
  {
    AccessForms();
    var slot := i.operand.index;
    if slot < 4 {
      MacroForms(slot);
    }
    var short := ParamShort(i);
    assert Size(short) == if slot < 4 && i.op == LDARG then 1 else if slot < 128 then 2 else 4 by { hide TableRow, HasRoom; }
    if 128 <= slot < 256 {
      var j := i.(op := if i.op == LDARG then LDARG_S else if i.op == LDARGA then LDARGA_S else STARG_S);
      ArgumentAction(i, frame);
      ArgumentAction(j, frame);
      hide TableRow, SourceAction;
      assert SameAs(i, j, slots, frame) && Size(j) == 2;
    } else {
      forall j | SameAs(i, j, slots, frame) ensures Size(short) <= Size(j) {
        ArgumentAction(i, frame);
        MeansAccess(j.op, SourceArg(j), frame);
        ArgumentAction(j, frame);
        if LDARG_0 <= j.op < LDARG_0 + 4 {
          MacroForms(j.op - LDARG_0);
        }
        hide TableRow, General, Canonical, SourceArg;
      }
    }
  }

  lemma ArgumentAction(j: Instr, frame: Frame)
    requires j.op in {LDARG, LDARG_S, LDARGA, LDARGA_S, STARG, STARG_S} || LDARG_0 <= j.op < LDARG_0 + 4
    requires OperandFits(j)
    ensures SourceAction(j, frame) == Some(Action(
              if LDARG <= j.op <= LDARG_S then LDARG else if j.op <= LDARGA_S then LDARGA else STARG,
              ParamArg(if LDARG_0 <= j.op < LDARG_0 + 4 then j.op - LDARG_0 else j.operand.index)))
  {
    AccessForms();
    if LDARG_0 <= j.op < LDARG_0 + 4 {
      MacroForms(j.op - LDARG_0);
    }
    assert !IsShortBranch(j.op);
    hide TableRow, IsShortBranch;
  }

  // The same for a local and the slot it has been given.
  lemma LocalIsShortestIff(i: Instr, slots: Slots, frame: Frame)
    requires i.op in {LDLOC, LDLOCA, STLOC} && i.operand.LocalOperand? && i.operand.v in slots && slots[i.operand.v] < TWO_16
    requires Inverse(slots, frame)
    ensures IsShortest(i, LocalShort(i, slots), slots, frame) <==> slots[i.operand.v] < 128 || slots[i.operand.v] >= 256
  {
    AccessForms();
    var slot := slots[i.operand.v];
    if slot < 4 {
      MacroForms(slot);
    }
    var short := LocalShort(i, slots);
    assert Size(short) == if slot < 4 && i.op != LDLOCA then 1 else if slot < 128 then 2 else 4 by { hide TableRow, HasRoom; }
    if 128 <= slot < 256 {
      var j := i.(op := if i.op == LDLOC then LDLOC_S else if i.op == LDLOCA then LDLOCA_S else STLOC_S);
      LocalAction(i, slots, frame);
      LocalAction(j, slots, frame);
      hide TableRow, SourceAction;
      assert SameAs(i, j, slots, frame) && Size(j) == 2;
    } else {
      forall j | SameAs(i, j, slots, frame) ensures Size(short) <= Size(j) {
        LocalAction(i, slots, frame);
        MeansAccess(j.op, SourceArg(j), frame);
        LocalAction(j, slots, frame);
        if NamesSlot(j.op) {
          MacroForms(SlotNamed(j.op));
        }
        hide TableRow, General, Canonical, SourceArg;
      }
    }
  }

  function SlotNamed(op: Opcode): nat
    requires NamesSlot(op)
  {
    if op < STLOC_0 then op - LDLOC_0 else op - STLOC_0
  }

  lemma LocalAction(j: Instr, slots: Slots, frame: Frame)
    requires j.op in {LDLOC, LDLOC_S, LDLOCA, LDLOCA_S, STLOC, STLOC_S} || NamesSlot(j.op)
    requires OperandFits(j)
    ensures !NamesSlot(j.op) ==> j.operand.LocalOperand?
    ensures var op := if LDLOC <= j.op <= LDLOC_S then LDLOC else if j.op <= LDLOCA_S then LDLOCA else STLOC;
            SourceAction(j, frame)
            == if !NamesSlot(j.op) then Some(Action(op, LocalArg(j.operand.v)))
               else if SlotNamed(j.op) < |frame| then Some(Action(op, LocalArg(frame[SlotNamed(j.op)])))
               else None
  {
    AccessForms();
    if NamesSlot(j.op) {
      MacroForms(SlotNamed(j.op));
    }
    assert !IsShortBranch(j.op);
    hide TableRow, IsShortBranch;
  }
}
