// What an instruction does, and the bytes Instruction.Render and
// CodeContainer.Compile write for it.
module Encoding {
  import opened Bytes
  import opened Opcodes
  import opened Instructions
  import opened Relaxation
  import opened Passes

  // ---- What an instruction does, apart from how it is encoded ----

  datatype Arg<T> =
    | NoArg
    | IntArg(n: int)
    | LocalArg(v: LocalId)
    | ParamArg(index: nat)
    | TokenArg(token: int)
    | Jump(target: T)
    | Table(targets: seq<T>)

  // The opcode is in its long, general form: ldloc for ldloc.0, beq for beq.s.
  datatype Action<T> = Action(op: Opcode, arg: Arg<T>)

  // Slot n of the frame holds the n-th local of the emitted local signature.
  type Frame = seq<LocalId>

  function SlotAction<T>(op: Opcode, slot: nat, frame: Frame): Option<Action<T>> {
    if slot < |frame| then Some(Action(op, LocalArg(frame[slot]))) else None
  }

  // The branches with a one-byte displacement; each follows its long form.
  predicate IsShortBranch(op: Opcode) {
    op in {10, 12, 14, 16, 18, 20, 22, 24, 26, 28, 31, 34, 36, 38, 40, 42, 169}
  }

  lemma ShortBranchRow(op: Opcode)
    ensures IsShortBranch(op) <==> IsRel1(op)
  {
  }

  // The general form of an instruction with canonical opcode op.
  function General<T>(op: Opcode, arg: Arg<T>, frame: Frame): Option<Action<T>> {
    if LDC_I4_0 <= op <= LDC_I4_8 then Some(Action(LDC_I4, IntArg(op - LDC_I4_0)))
    else if op == LDC_I4_m1 then Some(Action(LDC_I4, IntArg(-1)))
    else if op == LDC_I4_S then Some(Action(LDC_I4, arg))
    else if LDLOC_0 <= op < LDLOC_0 + 4 then SlotAction(LDLOC, op - LDLOC_0, frame)
    else if STLOC_0 <= op < STLOC_0 + 4 then SlotAction(STLOC, op - STLOC_0, frame)
    else if LDARG_0 <= op < LDARG_0 + 4 then Some(Action(LDARG, ParamArg(op - LDARG_0)))
    else if op == LDLOC_S then Some(Action(LDLOC, arg))
    else if op == LDLOCA_S then Some(Action(LDLOCA, arg))
    else if op == STLOC_S then Some(Action(STLOC, arg))
    else if op == LDARG_S then Some(Action(LDARG, arg))
    else if op == LDARGA_S then Some(Action(LDARGA, arg))
    else if op == STARG_S then Some(Action(STARG, arg))
    else if IsShortBranch(op) then Some(Action(op - 1, arg))
    else Some(Action(op, arg))
  }

  // The operand as the author of the list means it.
  function SourceArg(i: Instr): Arg<string> {
    match TableRow(i.op).form
    case NoForm | Single | Float4 | Float8 => NoArg
    case Rel1 | Rel4 => Jump(Name(i))
    case SwitchTable => Table(i.switches)
    case Index1 | Index2 =>
      if i.operand.LocalOperand? then LocalArg(i.operand.v)
      else if i.operand.ParamOperand? then ParamArg(i.operand.index)
      else NoArg
    case Index4 =>
      if i.operand.TokenOperand? || i.operand.CallOperand? then TokenArg(i.operand.token % TWO_32)
      else NoArg
    case Immed1 => if i.operand.IntOperand? then IntArg(ToInt8(i.operand.n)) else NoArg
    case Immed4 => if i.operand.IntOperand? then IntArg(ToInt32(i.operand.n)) else NoArg
    case Immed8 => if i.operand.IntOperand? then IntArg(ToInt64(i.operand.n)) else NoArg
  }

  function SourceAction(i: Instr, frame: Frame): Option<Action<string>> {
    General(Canonical(i.op), SourceArg(i), frame)
  }

  // ---- The writer ----

  // Everything Render reads through is there.
  ghost predicate Encodable(code: seq<Instr>, labels: Labels, slots: Slots) {
    && LabelsIn(code, labels)
    && LocalsHaveSlots(code, slots)
    && forall i :: 0 <= i < |code| ==> EncodableInstr(code[i], labels)
  }

  ghost predicate EncodableInstr(i: Instr, labels: Labels) {
    && OperandFits(i)
    && (IsBranch(i.op) ==> Name(i) in labels)
    && (i.op == SWITCH ==> forall name :: name in i.switches ==> name in labels)
  }

  function LabelOffset(code: seq<Instr>, labels: Labels, name: string): int
    requires LabelsIn(code, labels)
  {
    if name in labels then code[labels[name]].offset else 0
  }

  function OpcodeBytes(op: Opcode): seq<byte> {
    [TableRow(op).op1] + (if TableRow(op).op2 != 0xff then [TableRow(op).op2] else [])
  }

  function SwitchBytes(code: seq<Instr>, labels: Labels, base: int, names: seq<string>, n: nat): (s: seq<byte>)
    requires LabelsIn(code, labels) && n <= |names|
    ensures |s| == 4 * n
  {
    if n == 0 then []
    else SwitchBytes(code, labels, base, names, n - 1) + Le4(LabelOffset(code, labels, names[n - 1]) - base)
  }

  function SlotBytes(slot: int, form: Form): seq<byte> {
    if form == Index1 then [slot % 256] else if form == Index2 then Le2(slot) else []
  }

  function OperandBytes(code: seq<Instr>, labels: Labels, slots: Slots, i: Instr): seq<byte>
    requires LabelsIn(code, labels) && (i.operand.LocalOperand? ==> i.operand.v in slots)
  {
    var form := TableRow(i.op).form;
    if i.op == SWITCH then
      Le4(|i.switches|)
      + SwitchBytes(code, labels, 5 + i.offset + 4 * |i.switches|, i.switches, |i.switches|)
    else if form == Rel4 then Le4(LabelOffset(code, labels, Name(i)) - (i.offset + 1 + 4))
    else if form == Rel1 then [(LabelOffset(code, labels, Name(i)) - (i.offset + 1 + 1)) % 256]
    else match i.operand
      case LocalOperand(v) => SlotBytes(slots[v], form)
      case ParamOperand(index) => SlotBytes(index, form)
      case TokenOperand(token) => if form == Index4 then Le4(token) else []
      case CallOperand(token, _, _, _) => if form == Index4 then Le4(token) else []
      case IntOperand(n) =>
        if form == Immed1 then [n % 256] else if form == Immed4 then Le4(n)
        else if form == Immed8 then Le8(n) else []
      case _ => []
  }

  function Rendered(code: seq<Instr>, labels: Labels, slots: Slots, i: Instr): seq<byte>
    requires LabelsIn(code, labels) && (i.operand.LocalOperand? ==> i.operand.v in slots)
  {
    if IsPseudo(i.op) then [] else OpcodeBytes(i.op) + OperandBytes(code, labels, slots, i)
  }

  function RenderedTo(code: seq<Instr>, labels: Labels, slots: Slots, k: nat): seq<byte>
    requires LabelsIn(code, labels) && LocalsHaveSlots(code, slots) && k <= |code|
  {
    if k == 0 then []
    else RenderedTo(code, labels, slots, k - 1) + Rendered(code, labels, slots, code[k - 1])
  }

  function RenderedAll(code: seq<Instr>, labels: Labels, slots: Slots): seq<byte>
    requires LabelsIn(code, labels) && LocalsHaveSlots(code, slots)
  {
    RenderedTo(code, labels, slots, |code|)
  }

  // Render writes exactly the bytes InstructionSize announced.
  lemma RenderedSize(code: seq<Instr>, labels: Labels, slots: Slots, i: Instr)
    requires LabelsIn(code, labels) && (i.operand.LocalOperand? ==> i.operand.v in slots)
    requires OperandFits(i) && i.op != UNALIGNED
    ensures |Rendered(code, labels, slots, i)| == Size(i)
  {
    hide TableRow, EcmaOpcode, EcmaForm, Canonical;
    if IsPseudo(i.op) {
      PseudoRow(i.op);
    } else if Misencoded(i.op) {
      MisencodedRow(i.op);
    } else {
      NoFormIsPseudo(i.op);
      TableIsEcma(i.op);
      SwitchRow(i.op);
    }
  }

  lemma {:induction false} RenderedToSize(code: seq<Instr>, labels: Labels, slots: Slots, k: nat)
    requires Encodable(code, labels, slots) && k <= |code|
    requires forall i :: 0 <= i < |code| ==> code[i].op != UNALIGNED
    ensures |RenderedTo(code, labels, slots, k)| == SizeTo(code, k)
  {
    hide TableRow, Rendered, Size, OperandFits;
    if k > 0 {
      RenderedToSize(code, labels, slots, k - 1);
      RenderedSize(code, labels, slots, code[k - 1]);
    }
  }

  lemma PseudoRow(op: Opcode)
    ensures IsPseudo(op) ==> TableRow(op).bytes == 0 && TableRow(op).form == NoForm && op != SWITCH
  {
  }

  lemma MisencodedRow(op: Opcode)
    requires Misencoded(op)
    ensures TableRow(op).form == Single && op != SWITCH
    ensures op != UNALIGNED ==> TableRow(op).bytes == 2
    ensures TableRow(op).op2 != 0xff
  {
  }

  lemma NoFormIsPseudo(op: Opcode)
    ensures TableRow(op).form == NoForm <==> op < 4
    ensures op >= 4 ==> !IsPseudo(op)
  {
  }

  lemma SwitchRow(op: Opcode)
    ensures TableRow(op).form == SwitchTable <==> op == SWITCH
    ensures op == SWITCH ==> TableRow(op).op2 == 0xff && TableRow(op).op1 == 0x45
  {
  }
}
