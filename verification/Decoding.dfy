// A reader of CIL byte code after ECMA-335 Partition III, and the theorem
// that it reads back, instruction by instruction, what Compile wrote.
module Decoding {
  import opened Bytes
  import opened Opcodes
  import opened Instructions
  import opened Relaxation
  import opened Passes
  import opened Encoding

  // An opcode, the form of its operand, and where the operand starts.
  datatype Head = Head(op: Opcode, form: Form, at: nat)

  function ReadHead(code: seq<byte>, pc: nat): Option<Head> {
    if pc >= |code| then None
    else if code[pc] == 0xfe then
      if pc + 1 >= |code| then None
      else match EcmaOpcode(0xfe, code[pc + 1])
        case None => None
        case Some(op) => Some(Head(op, EcmaForm(0xfe, code[pc + 1]), pc + 2))
    else match EcmaOpcode(code[pc], 0)
      case None => None
      case Some(op) => Some(Head(op, EcmaForm(code[pc], 0), pc + 1))
  }

  function ReadTargets(code: seq<byte>, at: nat, n: nat, base: int): (targets: seq<int>)
    requires at + 4 * n <= |code|
    ensures |targets| == n
  {
    if n == 0 then []
    else ReadTargets(code, at, n - 1, base) + [base + ToInt32(DWord(code[at + 4 * (n - 1)..]))]
  }

  function ReadSlot(op: Opcode, slot: nat, frame: Frame): Option<Arg<int>> {
    if !IsLocalOp(op) then Some(ParamArg(slot))
    else if slot < |frame| then Some(LocalArg(frame[slot]))
    else None
  }

  // The operand, with branch targets as byte positions.
  function ReadArg(code: seq<byte>, head: Head, frame: Frame): Option<Arg<int>>
    requires head.at + OperandLength(head.form) <= |code|
  {
    var at := head.at;
    match head.form
    case NoForm | Float4 | Float8 => None
    case Single => Some(NoArg)
    case Rel1 => Some(Jump(at + 1 + ToInt8(code[at])))
    case Rel4 => Some(Jump(at + 4 + ToInt32(DWord(code[at..]))))
    case Index1 => ReadSlot(head.op, code[at], frame)
    case Index2 => ReadSlot(head.op, Word(code[at..]), frame)
    case Index4 => Some(TokenArg(DWord(code[at..])))
    case Immed1 => Some(IntArg(ToInt8(code[at])))
    case Immed4 => Some(IntArg(ToInt32(DWord(code[at..]))))
    case Immed8 => Some(IntArg(ToInt64(QWord(code[at..]))))
    case SwitchTable =>
      if at + 4 > |code| then None
      else
        var n := DWord(code[at..]);
        if at + 4 + 4 * n > |code| then None
        else Some(Table(ReadTargets(code, at + 4, n, at + 4 + 4 * n)))
  }

  // The instruction at pc and the position after it.
  function Fetch(code: seq<byte>, frame: Frame, pc: nat): Option<(Action<int>, nat)> {
    match ReadHead(code, pc)
    case None => None
    case Some(head) =>
      if head.at + OperandLength(head.form) > |code| then None
      else match ReadArg(code, head, frame)
        case None => None
        case Some(arg) =>
          match General(head.op, arg, frame)
          case None => None
          case Some(action) =>
            var tail := if arg.Table? then 4 + 4 * |arg.targets| else OperandLength(head.form);
            Some((action, head.at + tail))
  }

  // ---- Label names become byte positions ----

  function Position(code: seq<Instr>, labels: Labels, name: string): int
    requires LabelsIn(code, labels)
  {
    if name in labels then SizeTo(code, labels[name]) else 0
  }

  function ResolveArg(arg: Arg<string>, code: seq<Instr>, labels: Labels): Arg<int>
    requires LabelsIn(code, labels)
  {
    match arg
    case NoArg => NoArg
    case IntArg(n) => IntArg(n)
    case LocalArg(v) => LocalArg(v)
    case ParamArg(index) => ParamArg(index)
    case TokenArg(token) => TokenArg(token)
    case Jump(name) => Jump(Position(code, labels, name))
    case Table(names) =>
      Table(seq(|names|, k requires 0 <= k < |names| => Position(code, labels, names[k])))
  }

  function Resolve(action: Action<string>, code: seq<Instr>, labels: Labels): Action<int>
    requires LabelsIn(code, labels)
  {
    Action(action.op, ResolveArg(action.arg, code, labels))
  }

  // ---- Reading back one instruction ----

  lemma ReadOpcode(op: Opcode, code: seq<byte>, pc: nat)
    requires Faithful(op) && pc + |OpcodeBytes(op)| <= |code|
    requires code[pc..pc + |OpcodeBytes(op)|] == OpcodeBytes(op)
    ensures ReadHead(code, pc) == Some(Head(Canonical(op), TableRow(op).form, pc + |OpcodeBytes(op)|))
  {
    hide TableRow, EcmaTwoByte, Canonical;
    var bytes := OpcodeBytes(op);
    assert code[pc] == code[pc..pc + |bytes|][0] == bytes[0];
    if TableRow(op).op2 != 0xff {
      assert code[pc + 1] == code[pc..pc + |bytes|][1] == bytes[1];
    } else {
      SecondByteUnused(TableRow(op).op1, TableRow(op).op2);
    }
  }

  lemma SecondByteUnused(b1: byte, b2: byte)
    requires b1 != 0xfe
    ensures EcmaOpcode(b1, b2) == EcmaOpcode(b1, 0) && EcmaForm(b1, b2) == EcmaForm(b1, 0)
  {
  }

  lemma SlotRow(op: Opcode)
    requires IsLocalOp(op) || IsParamOp(op)
    ensures TableRow(op).form == if op in {LDLOC, LDLOCA, STLOC, LDARG, LDARGA, STARG} then Index2 else Index1
    ensures Canonical(op) == op
  {
  }

  // What the checks of ValidateInstructions leave true of an instruction.
  ghost predicate Fitting(code: seq<Instr>, labels: Labels, slots: Slots, k: nat)
    requires k < |code| && LabelsIn(code, labels) && LocalsHaveSlots(code, slots)
  {
    && CheckAt(code, labels, slots, k).Ok?
    && EncodableInstr(code[k], labels)
    && SizeTo(code, |code|) < 0x8000_0000
    && OffsetsCurrent(code)
  }

  ghost predicate FrameMatches(slots: Slots, frame: Frame) {
    forall v :: v in slots ==> slots[v] < |frame| && frame[slots[v]] == v
  }

  lemma ShortBranchInRange(list: seq<Instr>, labels: Labels, slots: Slots, k: nat)
    requires k < |list| && LabelsIn(list, labels) && LocalsHaveSlots(list, slots)
    requires CheckAt(list, labels, slots, k).Ok? && IsRel1(list[k].op)
    ensures Name(list[k]) in labels
    ensures InShortRange(LabelOffset(list, labels, Name(list[k])) - (list[k].offset + 2))
  {
    hide TableRow;
  }

  lemma ReadShortBranch(list: seq<Instr>, labels: Labels, slots: Slots, k: nat, code: seq<byte>, at: nat)
    requires k < |list| && LabelsIn(list, labels) && LocalsHaveSlots(list, slots)
    requires Fitting(list, labels, slots, k) && IsRel1(list[k].op) && at == list[k].offset + 1
    requires at + 1 <= |code| && code[at..at + 1] == OperandBytes(list, labels, slots, list[k])
    ensures at + 1 + ToInt8(code[at]) == Position(list, labels, Name(list[k]))
  {
    hide TableRow, EncodableInstr, CheckAt, SizeTo, LabelOffset, Position;
    SwitchRow(list[k].op);
    ShortBranchInRange(list, labels, slots, k);
    TargetFits(list, labels, slots, k, Name(list[k]));
    assert code[at] == code[at..at + 1][0];
  }

  lemma ReadLongBranch(list: seq<Instr>, labels: Labels, slots: Slots, k: nat, code: seq<byte>, at: nat)
    requires k < |list| && LabelsIn(list, labels) && LocalsHaveSlots(list, slots)
    requires Fitting(list, labels, slots, k) && IsRel4(list[k].op) && at == list[k].offset + 1
    requires at + 4 <= |code| && code[at..at + 4] == OperandBytes(list, labels, slots, list[k])
    ensures at + 4 + ToInt32(DWord(code[at..])) == Position(list, labels, Name(list[k]))
  {
    hide TableRow, EncodableInstr, CheckAt, SizeTo, LabelOffset, Position, Le4, DWord, ToInt32;
    var name := Name(list[k]);
    SwitchRow(list[k].op);
    BranchHasLabel(list[k], labels);
    TargetFits(list, labels, slots, k, name);
    OffsetFits(list, labels, slots, k);
    LongSize(list[k]);
    ReadLe4(code, at, LabelOffset(list, labels, name) - (list[k].offset + 5));
  }

  lemma BranchHasLabel(i: Instr, labels: Labels)
    requires EncodableInstr(i, labels) && IsBranch(i.op)
    ensures Name(i) in labels
  {
    hide TableRow, OperandFits;
  }

  lemma {:induction false} ReadSwitchTargets(list: seq<Instr>, labels: Labels, slots: Slots, k: nat,
                                             code: seq<byte>, at: nat, names: seq<string>, n: nat, base: nat)
    requires k < |list| && LabelsIn(list, labels) && LocalsHaveSlots(list, slots)
    requires Fitting(list, labels, slots, k) && n <= |names| && base < 0x8000_0000
    requires forall name :: name in names ==> name in labels
    requires at + 4 * n <= |code|
    requires code[at..at + 4 * n] == SwitchBytes(list, labels, base, names, n)
    ensures ReadTargets(code, at, n, base) ==
              seq(n, j requires 0 <= j < n => Position(list, labels, names[j]))
  {
    hide TableRow, Fitting, Le4, DWord, ToInt32, Position, LabelOffset;
    if n > 0 {
      var s := SwitchBytes(list, labels, base, names, n - 1);
      var end := at + 4 * (n - 1);
      var last := LabelOffset(list, labels, names[n - 1]) - base;
      assert code[at..end] == code[at..end + 4][..4 * (n - 1)] == s;
      assert code[end..end + 4] == code[at..end + 4][4 * (n - 1)..] == Le4(last);
      ReadSwitchTargets(list, labels, slots, k, code, at, names, n - 1, base);
      ReadLe4(code, end, last);
      TargetFits(list, labels, slots, k, names[n - 1]);
    }
  }

  lemma TargetFits(list: seq<Instr>, labels: Labels, slots: Slots, k: nat, name: string)
    requires k < |list| && LabelsIn(list, labels) && LocalsHaveSlots(list, slots)
    requires Fitting(list, labels, slots, k) && name in labels
    ensures LabelOffset(list, labels, name) == Position(list, labels, name)
    ensures 0 <= Position(list, labels, name) < 0x8000_0000
  {
    hide TableRow, CheckAt, EncodableInstr;
    var t := labels[name];
    SizeToMonotone(list, t, |list|);
  }

  lemma OffsetFits(list: seq<Instr>, labels: Labels, slots: Slots, k: nat)
    requires k < |list| && LabelsIn(list, labels) && LocalsHaveSlots(list, slots)
    requires Fitting(list, labels, slots, k)
    ensures list[k].offset == SizeTo(list, k) && 0 <= list[k].offset
    ensures list[k].offset + Size(list[k]) < 0x8000_0000
  {
    hide TableRow, CheckAt, EncodableInstr, Size, SizeTo;
    SizeToEnd(list, k);
  }

  ghost predicate OperandAt(list: seq<Instr>, labels: Labels, slots: Slots, k: nat, code: seq<byte>, at: nat)
    requires k < |list| && LabelsIn(list, labels) && LocalsHaveSlots(list, slots)
  {
    var r := OperandBytes(list, labels, slots, list[k]);
    at + |r| <= |code| && code[at..at + |r|] == r
  }

  predicate SwitchReads(list: seq<Instr>, labels: Labels, names: seq<string>, code: seq<byte>, at: nat, frame: Frame)
    requires LabelsIn(list, labels) && at <= |code|
  {
    ReadArg(code, Head(SWITCH, SwitchTable, at), frame) == Some(ResolveArg(Table(names), list, labels))
  }

  lemma SliceParts(code: seq<byte>, at: nat, a: seq<byte>, b: seq<byte>)
    requires at + |a| + |b| <= |code| && code[at..at + |a + b|] == a + b
    ensures code[at..at + |a|] == a && code[at + |a|..at + |a| + |b|] == b
  {
    var r := code[at..at + |a + b|];
    assert code[at..at + |a|] == r[..|a|];
    assert code[at + |a|..at + |a| + |b|] == r[|a|..];
  }

  lemma ReadSwitch(list: seq<Instr>, labels: Labels, slots: Slots, frame: Frame, k: nat, code: seq<byte>, at: nat)
    requires k < |list| && LabelsIn(list, labels) && LocalsHaveSlots(list, slots)
    requires Fitting(list, labels, slots, k) && list[k].op == SWITCH && at == list[k].offset + 1 && at <= |code|
    requires OperandAt(list, labels, slots, k, code, at)
    ensures SwitchReads(list, labels, list[k].switches, code, at, frame)
  {
    hide TableRow, CheckAt, OperandFits, Le4, DWord, ToInt32, Position, LabelOffset, SizeTo, ReadTargets, SwitchBytes;
    var names := list[k].switches;
    var n := |names|;
    var base := 5 + list[k].offset + 4 * n;
    var targets := SwitchBytes(list, labels, base, names, n);
    var r := OperandBytes(list, labels, slots, list[k]);
    OffsetFits(list, labels, slots, k);
    assert r == Le4(n) + targets && |Le4(n)| == 4 && |targets| == 4 * n;
    SliceParts(code, at, Le4(n), targets);
    ReadLe4(code, at, n);
    ReadSwitchTargets(list, labels, slots, k, code, at + 4, names, n, base);
  }

  lemma SlotInRange(list: seq<Instr>, labels: Labels, slots: Slots, k: nat)
    requires k < |list| && LabelsIn(list, labels) && LocalsHaveSlots(list, slots)
    requires CheckAt(list, labels, slots, k).Ok? && OperandFits(list[k])
    requires TableRow(list[k].op).form == Index1 || TableRow(list[k].op).form == Index2
    ensures list[k].operand.LocalOperand? || list[k].operand.ParamOperand?
    ensures IsLocalOp(list[k].op) <==> list[k].operand.LocalOperand?
    ensures var slot := if list[k].operand.LocalOperand? then slots[list[k].operand.v] else list[k].operand.index;
            slot < if TableRow(list[k].op).form == Index1 then 256 else 65535
  {
    hide TableRow;
    SlotRow(list[k].op);
  }

  lemma ReadSlotOperand(list: seq<Instr>, labels: Labels, slots: Slots, frame: Frame, k: nat, code: seq<byte>, at: nat)
    requires k < |list| && LabelsIn(list, labels) && LocalsHaveSlots(list, slots)
    requires Fitting(list, labels, slots, k) && FrameMatches(slots, frame)
    requires TableRow(list[k].op).form == Index1 || TableRow(list[k].op).form == Index2
    requires OperandAt(list, labels, slots, k, code, at)
    ensures at + OperandLength(TableRow(list[k].op).form) <= |code|
    ensures ReadArg(code, Head(Canonical(list[k].op), TableRow(list[k].op).form, at), frame)
         == Some(ResolveArg(SourceArg(list[k]), list, labels))
  {
    hide TableRow, CheckAt, OperandFits, Le2, Word, Canonical, Position, SizeTo, OperandBytes, LabelsIn, OffsetsCurrent;
    var i := list[k];
    SlotInRange(list, labels, slots, k);
    SlotRow(i.op) by { FitsSlot(i); }
    var slot := if i.operand.LocalOperand? then slots[i.operand.v] else i.operand.index;
    SlotOperandBytes(list, labels, slots, i);
    if TableRow(i.op).form == Index1 {
      assert code[at] == code[at..at + 1][0];
    } else {
      ReadLe2(code, at, slot);
    }
  }

  lemma SlotOperandBytes(list: seq<Instr>, labels: Labels, slots: Slots, i: Instr)
    requires LabelsIn(list, labels) && (i.operand.LocalOperand? ==> i.operand.v in slots)
    requires i.operand.LocalOperand? || i.operand.ParamOperand?
    requires TableRow(i.op).form == Index1 || TableRow(i.op).form == Index2
    ensures OperandBytes(list, labels, slots, i)
         == SlotBytes(if i.operand.LocalOperand? then slots[i.operand.v] else i.operand.index, TableRow(i.op).form)
  {
    hide TableRow;
    SwitchRow(i.op);
  }

  lemma FitsSlot(i: Instr)
    requires OperandFits(i)
    requires TableRow(i.op).form == Index1 || TableRow(i.op).form == Index2
    ensures IsLocalOp(i.op) || IsParamOp(i.op)
  {
    hide TableRow;
  }

  lemma ReadImmediate(list: seq<Instr>, labels: Labels, slots: Slots, frame: Frame, k: nat, code: seq<byte>, at: nat)
    requires k < |list| && LabelsIn(list, labels) && LocalsHaveSlots(list, slots)
    requires OperandFits(list[k]) && list[k].op != SWITCH
    requires TableRow(list[k].op).form in {Index4, Immed1, Immed4, Immed8}
    requires OperandAt(list, labels, slots, k, code, at)
    ensures at + OperandLength(TableRow(list[k].op).form) <= |code|
    ensures ReadArg(code, Head(Canonical(list[k].op), TableRow(list[k].op).form, at), frame)
         == Some(ResolveArg(SourceArg(list[k]), list, labels))
  {
    hide TableRow, Canonical, Le4, DWord, Le8, QWord, ToInt32, ToInt64;
    var i := list[k];
    match TableRow(i.op).form
    case Immed1 => assert code[at] == code[at..at + 1][0];
    case Immed4 => ReadLe4(code, at, i.operand.n);
    case Immed8 => ReadLe8(code, at, i.operand.n);
    case Index4 => ReadLe4(code, at, i.operand.token);
    case _ => assert false;
  }

  // The reader finds at the operand's place what the author meant.
  lemma ReadOperand(list: seq<Instr>, labels: Labels, slots: Slots, frame: Frame, k: nat, code: seq<byte>, at: nat)
    requires k < |list| && LabelsIn(list, labels) && LocalsHaveSlots(list, slots)
    requires Fitting(list, labels, slots, k) && FrameMatches(slots, frame)
    requires list[k].op >= 4 && Faithful(list[k].op) && at == list[k].offset + |OpcodeBytes(list[k].op)|
    requires OperandAt(list, labels, slots, k, code, at)
    ensures at + OperandLength(TableRow(list[k].op).form) <= |code|
    ensures ReadArg(code, Head(Canonical(list[k].op), TableRow(list[k].op).form, at), frame)
         == Some(ResolveArg(SourceArg(list[k]), list, labels))
  {
    hide TableRow, CheckAt, OperandBytes, EcmaOpcode, EcmaForm, Canonical, Le4, DWord, ToInt32, ToInt8, OperandFits, Position,
         LabelsIn, OffsetsCurrent, FrameMatches, SizeTo;
    var i := list[k];
    NotFloat(i);
    SwitchRow(i.op);
    NoFormIsPseudo(i.op);
    match TableRow(i.op).form
    case Rel4 =>
      LongBranchBytes(list, labels, slots, i);
      ReadLongBranch(list, labels, slots, k, code, at);
    case Rel1 =>
      ShortBranchBytes(list, labels, slots, i);
      ReadShortBranch(list, labels, slots, k, code, at);
    case SwitchTable =>
      CanonicalSwitch();
      ReadSwitch(list, labels, slots, frame, k, code, at);
    case Index1 => ReadSlotOperand(list, labels, slots, frame, k, code, at);
    case Index2 => ReadSlotOperand(list, labels, slots, frame, k, code, at);
    case Index4 => ReadImmediate(list, labels, slots, frame, k, code, at);
    case Immed1 => ReadImmediate(list, labels, slots, frame, k, code, at);
    case Immed4 => ReadImmediate(list, labels, slots, frame, k, code, at);
    case Immed8 => ReadImmediate(list, labels, slots, frame, k, code, at);
    case Single =>
    case _ => assert false;
  }

  lemma NotFloat(i: Instr)
    requires OperandFits(i)
    ensures TableRow(i.op).form != Float4 && TableRow(i.op).form != Float8
  {
    hide TableRow;
  }

  lemma CanonicalSwitch()
    ensures Canonical(SWITCH) == SWITCH
  {
  }

  lemma LongBranchBytes(list: seq<Instr>, labels: Labels, slots: Slots, i: Instr)
    requires LabelsIn(list, labels) && (i.operand.LocalOperand? ==> i.operand.v in slots)
    requires IsRel4(i.op)
    ensures |OperandBytes(list, labels, slots, i)| == 4 && |OpcodeBytes(i.op)| == 1
  {
    hide TableRow;
    RelPair(i.op);
    BranchRow(i.op);
  }

  lemma ShortBranchBytes(list: seq<Instr>, labels: Labels, slots: Slots, i: Instr)
    requires LabelsIn(list, labels) && (i.operand.LocalOperand? ==> i.operand.v in slots)
    requires IsRel1(i.op)
    ensures |OperandBytes(list, labels, slots, i)| == 1 && |OpcodeBytes(i.op)| == 1
  {
    hide TableRow;
    BranchRow(i.op);
  }

  lemma BranchRow(op: Opcode)
    ensures IsBranch(op) ==> TableRow(op).op2 == 0xff && op != SWITCH
  {
  }

  // ---- Reading back a whole body ----

  // A list Optimize accepted, of instructions whose rows are those of ECMA-335.
  ghost predicate Assembled(list: seq<Instr>, labels: Labels, slots: Slots) {
    && Encodable(list, labels, slots)
    && OffsetsCurrent(list)
    && SizeTo(list, |list|) < 0x8000_0000
    && forall k :: 0 <= k < |list| ==> CheckAt(list, labels, slots, k).Ok? && !Misencoded(list[k].op)
  }

  lemma {:induction false} RenderedPrefix(list: seq<Instr>, labels: Labels, slots: Slots, k: nat, n: nat)
    requires LabelsIn(list, labels) && LocalsHaveSlots(list, slots) && k <= n <= |list|
    ensures |RenderedTo(list, labels, slots, k)| <= |RenderedTo(list, labels, slots, n)|
    ensures RenderedTo(list, labels, slots, n)[..|RenderedTo(list, labels, slots, k)|]
         == RenderedTo(list, labels, slots, k)
    decreases n
  {
    hide TableRow, Rendered;
    if k < n {
      RenderedPrefix(list, labels, slots, k, n - 1);
    }
  }

  // Instruction k of the list stands at its offset in the code.
  lemma RenderedAt(list: seq<Instr>, labels: Labels, slots: Slots, k: nat)
    requires Encodable(list, labels, slots) && k < |list|
    requires forall i :: 0 <= i < |list| ==> !Misencoded(list[i].op)
    ensures var code := RenderedAll(list, labels, slots);
            var r := Rendered(list, labels, slots, list[k]);
            && SizeTo(list, k) + |r| == SizeTo(list, k + 1) <= |code| == SizeTo(list, |list|)
            && code[SizeTo(list, k)..SizeTo(list, k + 1)] == r
  {
    hide TableRow, Rendered, OperandFits;
    RenderedToSize(list, labels, slots, k);
    RenderedToSize(list, labels, slots, k + 1);
    RenderedToSize(list, labels, slots, |list|);
    RenderedPrefix(list, labels, slots, k, |list|);
    RenderedPrefix(list, labels, slots, k + 1, |list|);
    var upTo := RenderedTo(list, labels, slots, k + 1);
    assert upTo[SizeTo(list, k)..] == Rendered(list, labels, slots, list[k]);
  }

  lemma GeneralResolves(op: Opcode, arg: Arg<string>, frame: Frame, list: seq<Instr>, labels: Labels)
    requires LabelsIn(list, labels) && General(op, arg, frame).Some?
    ensures General(op, ResolveArg(arg, list, labels), frame)
         == Some(Resolve(General(op, arg, frame).value, list, labels))
  {
    hide TableRow;
  }

  // Opcode and operand, one after the other, at the instruction's offset.
  lemma PartsAt(list: seq<Instr>, labels: Labels, slots: Slots, k: nat)
    requires Encodable(list, labels, slots) && k < |list| && !IsPseudo(list[k].op)
    requires forall i :: 0 <= i < |list| ==> !Misencoded(list[i].op)
    ensures var code := RenderedAll(list, labels, slots);
            var operand := OperandBytes(list, labels, slots, list[k]);
            var at := SizeTo(list, k) + |OpcodeBytes(list[k].op)|;
            && at + |operand| == SizeTo(list, k + 1) <= |code|
            && code[SizeTo(list, k)..at] == OpcodeBytes(list[k].op)
            && code[at..at + |operand|] == operand
  {
    hide TableRow, OperandFits, OperandBytes, OpcodeBytes, SizeTo, Size;
    RenderedAt(list, labels, slots, k);
    var r := Rendered(list, labels, slots, list[k]);
    var n := |OpcodeBytes(list[k].op)|;
    var code := RenderedAll(list, labels, slots);
    var pc := SizeTo(list, k);
    assert code[pc..pc + n] == code[pc..pc + |r|][..n] == r[..n];
    assert code[pc + n..pc + |r|] == code[pc..pc + |r|][n..] == r[n..];
  }

  lemma FetchInSteps(code: seq<byte>, frame: Frame, pc: nat, head: Head, arg: Arg<int>, action: Action<int>)
    requires ReadHead(code, pc) == Some(head)
    requires head.at + OperandLength(head.form) <= |code|
    requires ReadArg(code, head, frame) == Some(arg)
    requires General(head.op, arg, frame) == Some(action)
    ensures Fetch(code, frame, pc)
         == Some((action, head.at + if arg.Table? then 4 + 4 * |arg.targets| else OperandLength(head.form)))
  {
    hide TableRow, EcmaOpcode, EcmaForm, ReadHead, ReadArg, General;
  }

  // Fetching at the position of an instruction yields the action its author
  // wrote, with every label resolved, and the position of the next one.
  lemma FetchReads(list: seq<Instr>, labels: Labels, slots: Slots, frame: Frame, k: nat)
    requires Assembled(list, labels, slots) && FrameMatches(slots, frame)
    requires k < |list| && !IsPseudo(list[k].op) && SourceAction(list[k], frame).Some?
    ensures Fetch(RenderedAll(list, labels, slots), frame, SizeTo(list, k))
         == Some((Resolve(SourceAction(list[k], frame).value, list, labels), SizeTo(list, k + 1)))
  {
    hide TableRow, Canonical, General, CheckAt, SourceArg, ReadArg, ReadHead, OperandBytes, OpcodeBytes,
         ResolveArg, OperandFits, SizeTo, Size, Fetch, Faithful, OperandLength, RenderedAll;
    var i := list[k];
    var code := RenderedAll(list, labels, slots);
    var at := SizeTo(list, k) + |OpcodeBytes(i.op)|;
    var arg := ResolveArg(SourceArg(i), list, labels);
    PartsAt(list, labels, slots, k);
    RealIsFaithful(i);
    ReadOpcode(i.op, code, SizeTo(list, k));
    ReadOperand(list, labels, slots, frame, k, code, at);
    GeneralResolves(Canonical(i.op), SourceArg(i), frame, list, labels);
    FetchInSteps(code, frame, SizeTo(list, k), Head(Canonical(i.op), TableRow(i.op).form, at), arg,
                 Resolve(SourceAction(i, frame).value, list, labels));
    OperandTail(list, labels, slots, i);
  }

  lemma RealIsFaithful(i: Instr)
    requires OperandFits(i) && !IsPseudo(i.op) && !Misencoded(i.op)
    ensures i.op >= 4 && Faithful(i.op)
  {
    hide TableRow, Faithful;
    NoFormIsPseudo(i.op);
    TableIsEcma(i.op);
  }

  lemma OperandTail(list: seq<Instr>, labels: Labels, slots: Slots, i: Instr)
    requires LabelsIn(list, labels) && (i.operand.LocalOperand? ==> i.operand.v in slots)
    requires OperandFits(i) && !IsPseudo(i.op)
    ensures |OperandBytes(list, labels, slots, i)|
         == var arg := ResolveArg(SourceArg(i), list, labels);
            if arg.Table? then 4 + 4 * |arg.targets| else OperandLength(TableRow(i.op).form)
  {
    hide TableRow;
    SwitchRow(i.op);
    NoFormIsPseudo(i.op);
  }
}
