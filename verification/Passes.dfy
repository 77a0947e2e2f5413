// What the passes of CodeContainer.Optimize compute, as functions of the list.
module Passes {
  import opened Bytes
  import opened Opcodes
  import opened Instructions
  import opened Relaxation
  import opened SehTags
  import opened SehClauses

  datatype PELibError =
    | DuplicateLabel | MissingLabel | ShortBranchOutOfRange | IndexOutOfRange
    | BadSeh(seh: SehError)

  datatype Status = Ok | Err(error: PELibError)

  // The slots given to the locals by Method.OptimizeLocals.
  type Slots = map<LocalId, nat>

  predicate LocalsHaveSlots(code: seq<Instr>, slots: Slots) {
    forall i :: 0 <= i < |code| && code[i].operand.LocalOperand? ==> code[i].operand.v in slots
  }

  function LdcShort(i: Instr): Instr {
    if i.op != LDC_I4 || !i.operand.IntOperand? then i
    else
      var n := i.operand.n;
      if n == -1 then i.(op := LDC_I4_M1, operand := NoOperand)
      else if 0 <= n <= 8 then i.(op := LDC_I4_0 + n, operand := NoOperand)
      else if -128 <= n < 128 then i.(op := LDC_I4_S)
      else i
  }

  function LocalShort(i: Instr, slots: Slots): Instr
    requires i.operand.LocalOperand? ==> i.operand.v in slots
  {
    if !i.operand.LocalOperand? then i
    else
      var slot := slots[i.operand.v];
      if i.op == LDLOC && slot < 4 then i.(op := LDLOC_0 + slot, operand := NoOperand)
      else if i.op == STLOC && slot < 4 then i.(op := STLOC_0 + slot, operand := NoOperand)
      else if slot >= 128 then i
      else if i.op == LDLOC then i.(op := LDLOC_S)
      else if i.op == LDLOCA then i.(op := LDLOCA_S)
      else if i.op == STLOC then i.(op := STLOC_S)
      else i
  }

  function ParamShort(i: Instr): Instr {
    if !i.operand.ParamOperand? then i
    else
      var slot := i.operand.index;
      if i.op == LDARG && slot < 4 then i.(op := LDARG_0 + slot, operand := NoOperand)
      else if slot >= 128 then i
      else if i.op == LDARG then i.(op := LDARG_S)
      else if i.op == LDARGA then i.(op := LDARGA_S)
      else if i.op == STARG then i.(op := STARG_S)
      else i
  }

  function Peephole(i: Instr, slots: Slots): Instr
    requires i.operand.LocalOperand? ==> i.operand.v in slots
  {
    ParamShort(LocalShort(LdcShort(i), slots))
  }

  function PeepholeAll(code: seq<Instr>, slots: Slots): (short: seq<Instr>)
    requires LocalsHaveSlots(code, slots)
    ensures |short| == |code|
  {
    seq(|code|, i requires 0 <= i < |code| => Peephole(code[i], slots))
  }

  // The labels defined by the first k instructions.
  function LabelsTo(code: seq<Instr>, k: nat): Labels
    requires k <= |code|
    ensures forall name :: name in LabelsTo(code, k) ==>
              LabelsTo(code, k)[name] < k && code[LabelsTo(code, k)[name]].op == LABEL
              && Name(code[LabelsTo(code, k)[name]]) == name
  {
    if k == 0 then map[]
    else if code[k - 1].op == LABEL then LabelsTo(code, k - 1)[Name(code[k - 1]) := k - 1]
    else LabelsTo(code, k - 1)
  }

  function LabelsOf(code: seq<Instr>): Labels { LabelsTo(code, |code|) }

  lemma LabelsOfIsIn(code: seq<Instr>)
    ensures LabelsIn(code, LabelsOf(code))
  {
    hide TableRow;
  }

  ghost predicate LabelsDistinctTo(code: seq<Instr>, k: nat)
    requires k <= |code|
  {
    forall i, j :: 0 <= i < j < k && code[i].op == LABEL && code[j].op == LABEL ==>
                     Name(code[i]) != Name(code[j])
  }

  ghost predicate LabelsDistinct(code: seq<Instr>) { LabelsDistinctTo(code, |code|) }

  // The operand is wide enough for the slot.
  predicate SlotFits(op: Opcode, slot: nat) {
    && (op in {LDARG, LDARGA, STARG, LDLOC, LDLOCA, STLOC} ==> slot <= 65534)
    && (op in {LDARG_S, LDARGA_S, STARG_S, LDLOC_S, LDLOCA_S, STLOC_S} ==> slot <= 255)
  }

  // The check ValidateInstructions makes of the instruction at position i.
  function CheckAt(code: seq<Instr>, labels: Labels, slots: Slots, i: nat): Status
    requires i < |code| && LabelsIn(code, labels) && LocalsHaveSlots(code, slots)
  {
    var instr := code[i];
    if IsBranch(instr.op) then
      if Name(instr) !in labels then Err(MissingLabel)
      else if IsRel1(instr.op)
              && !InShortRange(code[labels[Name(instr)]].offset - (instr.offset + 2))
      then Err(ShortBranchOutOfRange)
      else Ok
    else if instr.operand.ParamOperand? && !SlotFits(instr.op, instr.operand.index) then Err(IndexOutOfRange)
    else if instr.operand.LocalOperand? && !SlotFits(instr.op, slots[instr.operand.v]) then Err(IndexOutOfRange)
    else Ok
  }

  // The first failed check at or after position k.
  function CheckFrom(code: seq<Instr>, labels: Labels, slots: Slots, k: nat): (status: Status)
    requires k <= |code| && LabelsIn(code, labels) && LocalsHaveSlots(code, slots)
    ensures status.Ok? <==> forall i :: k <= i < |code| ==> CheckAt(code, labels, slots, i).Ok?
    decreases |code| - k
  {
    if k == |code| then Ok
    else if CheckAt(code, labels, slots, k).Err? then CheckAt(code, labels, slots, k)
    else CheckFrom(code, labels, slots, k + 1)
  }

  function Check(code: seq<Instr>, labels: Labels, slots: Slots): Status
    requires LabelsIn(code, labels) && LocalsHaveSlots(code, slots)
  {
    CheckFrom(LaidOut(code), labels, slots, 0)
  }

  // The list Optimize leaves when it succeeds.
  function Optimized(code: seq<Instr>, slots: Slots): (optimized: seq<Instr>)
    requires LocalsHaveSlots(code, slots)
    ensures |optimized| == |code|
  {
    Relax(PeepholeAll(code, slots), LabelsOf(code))
  }

  // ---- Exception tags in the list ----

  function TagsTo(code: seq<Instr>, k: nat): seq<Tag>
    requires k <= |code|
  {
    if k == 0 then []
    else if code[k - 1].op == SEH then
      var i := code[k - 1];
      TagsTo(code, k - 1) + [Tag(i.sehKind, i.sehBegin, i.offset, i.sehToken)]
    else TagsTo(code, k - 1)
  }

  function TagsOf(code: seq<Instr>): seq<Tag> { TagsTo(code, |code|) }

  // The opcode of the last of the first k instructions that emits code.
  function LastEmitted(code: seq<Instr>, k: nat): Option<Opcode>
    requires k <= |code|
  {
    if k == 0 then None
    else if IsPseudo(code[k - 1].op) then LastEmitted(code, k - 1)
    else Some(code[k - 1].op)
  }

  // A block ends with the instruction that leaves it.
  predicate EpilogueAt(code: seq<Instr>, i: nat)
    requires i < |code|
  {
    code[i].op == SEH && !code[i].sehBegin ==>
      var last := LastEmitted(code, i);
      match code[i].sehKind
      case SehTry | SehCatch | SehFilterHandler => last == Some(LEAVE) || last == Some(LEAVE_S)
      case SehFilter => last == Some(ENDFILTER)
      case SehFault => last == Some(ENDFAULT)
      case SehFinally => last == Some(ENDFINALLY)
  }

  // What ValidateSEH decides. Any end of a filter block is refused: the check
  // meant for the tag behind it is made of the end tag itself.
  function SehStatus(code: seq<Instr>): Status {
    var tags := TagsOf(code);
    if tags == [] then Ok
    else match Validated(tags, 0)
      case Bad(e) => Err(BadSeh(e))
      case Upto(_) =>
        if exists i :: 0 <= i < |tags| && EndsFilter(tags[i]) then Err(BadSeh(InvalidSEHFilter))
        else if exists i :: 0 <= i < |code| && !EpilogueAt(code, i) then Err(BadSeh(InvalidSEHEpilogue))
        else Ok
  }
}
