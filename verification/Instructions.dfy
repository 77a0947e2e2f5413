// One CIL instruction of a method body and the layout of a list of them.
module Instructions {
  import opened Bytes
  import opened Opcodes

  // A local variable is known by its identity; its slot is chosen later.
  type LocalId = nat

  datatype Operand =
    | NoOperand
    | IntOperand(n: int)
    | LocalOperand(v: LocalId)
    | ParamOperand(index: nat)
    | TokenOperand(token: int)
    | CallOperand(token: int, arguments: nat, hasResult: bool, instanceCall: bool)
    | LabelOperand(name: string)

  datatype SehKind = SehTry | SehCatch | SehFinally | SehFault | SehFilter | SehFilterHandler

  datatype Instr = Instr(
    op: Opcode,
    operand: Operand,
    switches: seq<string>,
    sehKind: SehKind,
    sehBegin: bool,
    sehToken: int,
    offset: int,
    live: bool)

  // The label an instruction defines or branches to.
  function Name(i: Instr): string {
    if i.operand.LabelOperand? then i.operand.name else ""
  }

  function Size(i: Instr): nat {
    if i.op == SWITCH then 5 + 4 * |i.switches| else TableRow(i.op).bytes
  }

  // Bytes taken by the first k instructions.
  function SizeTo(code: seq<Instr>, k: nat): nat
    requires k <= |code|
  {
    if k == 0 then 0 else SizeTo(code, k - 1) + Size(code[k - 1])
  }

  lemma {:induction false} SizeToMonotone(code: seq<Instr>, a: nat, b: nat)
    requires a <= b <= |code|
    ensures SizeTo(code, a) <= SizeTo(code, b)
    decreases b
  {
    hide TableRow, Size;
    if a < b {
      SizeToMonotone(code, a, b - 1);
    }
  }

  lemma SizeToEnd(code: seq<Instr>, k: nat)
    requires k < |code|
    ensures SizeTo(code, k) + Size(code[k]) <= SizeTo(code, |code|)
  {
    hide TableRow, Size;
    SizeToMonotone(code, k + 1, |code|);
  }

  predicate IsLocalOp(op: Opcode) {
    op in {LDLOC, LDLOCA, STLOC, LDLOC_S, LDLOCA_S, STLOC_S}
  }

  predicate IsParamOp(op: Opcode) {
    op in {LDARG, LDARGA, STARG, LDARG_S, LDARGA_S, STARG_S}
  }

  // The operand is of the kind its opcode asks for. Emitting or optimizing
  // any other combination reads through a null or foreign pointer.
  predicate OperandFits(i: Instr) {
    match TableRow(i.op).form
    case NoForm => IsPseudo(i.op) && (i.op == LABEL ==> i.operand.LabelOperand?)
    case Single => !(i.op in {CALL, CALLI, CALLVIRT, NEWOBJ})
    case Rel1 | Rel4 => i.operand.LabelOperand?
    case Index1 | Index2 =>
      if IsLocalOp(i.op) then i.operand.LocalOperand? else IsParamOp(i.op) && i.operand.ParamOperand?
    case Index4 =>
      if i.op in {CALL, CALLI, CALLVIRT, NEWOBJ} then i.operand.CallOperand?
      else i.operand.TokenOperand? || i.operand.CallOperand?
    case Immed1 | Immed4 | Immed8 => i.operand.IntOperand?
    case SwitchTable => true
    case Float4 | Float8 => false
  }
}
