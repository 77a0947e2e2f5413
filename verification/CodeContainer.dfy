// The instruction list of a method and the passes that rewrite it in place.
module CodeContainers {
  import opened Bytes
  import opened Opcodes
  import opened Instructions
  import opened Relaxation
  import opened Passes
  import opened SehTags
  import opened SehClauses
  import opened SehAcceptance
  import opened Encoding

  class CodeContainer {
    var instructions: seq<Instr>
    var labels: Labels
    var hasSEH: bool

    constructor ()
      ensures instructions == [] && labels == map[] && !hasSEH
    {
      instructions := [];
      labels := map[];
      hasSEH := false;
    }

    method AddInstruction(instruction: Instr)
      modifies this`instructions
      ensures instructions == old(instructions) + [instruction]
    {
      instructions := instructions + [instruction];
    }

    method LoadLabels() returns (status: Status)
      requires labels == map[]
      modifies this`labels
      ensures status == if LabelsDistinct(instructions) then Ok else Err(DuplicateLabel)
      ensures status.Ok? ==> labels == LabelsOf(instructions)
    {
      hide TableRow, LabelsDistinctTo, LabelsTo;
      LoadStart(instructions);
      var i := 0;
      while i < |instructions|
        invariant i <= |instructions|
        invariant labels == LabelsTo(instructions, i)
        invariant LabelsDistinctTo(instructions, i)
      {
        LoadStep(instructions, i);
        if instructions[i].op == LABEL {
          if Name(instructions[i]) in labels {
            return Err(DuplicateLabel);
          }
          labels := labels[Name(instructions[i]) := i];
        }
        i := i + 1;
      }
      return Ok;
    }

    method OptimizeLDC()
      modifies this`instructions
      ensures |instructions| == |old(instructions)|
      ensures forall i :: 0 <= i < |instructions| ==> instructions[i] == LdcShort(old(instructions)[i])
    {
      hide TableRow;
      var i := 0;
      while i < |instructions|
        invariant i <= |instructions| == |old(instructions)|
        invariant forall j :: 0 <= j < i ==> instructions[j] == LdcShort(old(instructions)[j])
        invariant instructions[i..] == old(instructions)[i..]
      {
        var instr := instructions[i];
        assert instr == old(instructions)[i];
        if instr.op == LDC_I4 && instr.operand.IntOperand? {
          var n := instr.operand.n;
          if n == -1 {
            instr := instr.(op := LDC_I4_M1, operand := NoOperand);
          } else if 0 <= n <= 8 {
            instr := instr.(op := LDC_I4_0 + n, operand := NoOperand);
          } else if n < 128 && n >= -128 {
            instr := instr.(op := LDC_I4_S);
          }
        }
        instructions := instructions[i := instr];
        i := i + 1;
      }
    }

    method OptimizeLDLOC(slots: Slots)
      requires LocalsHaveSlots(instructions, slots)
      modifies this`instructions
      ensures |instructions| == |old(instructions)|
      ensures forall i :: 0 <= i < |instructions| ==> instructions[i] == LocalShort(old(instructions)[i], slots)
    {
      hide TableRow;
      var i := 0;
      while i < |instructions|
        invariant i <= |instructions| == |old(instructions)|
        invariant forall j :: 0 <= j < i ==> instructions[j] == LocalShort(old(instructions)[j], slots)
        invariant instructions[i..] == old(instructions)[i..]
      {
        var instr := instructions[i];
        assert instr == old(instructions)[i];
        if instr.op in {LDLOC, LDLOCA, STLOC} && instr.operand.LocalOperand? {
          var index := slots[instr.operand.v];
          if instr.op == LDLOC {
            if index < 4 {
              instr := instr.(op := LDLOC_0 + index, operand := NoOperand);
            } else if index < 128 {
              instr := instr.(op := LDLOC_S);
            }
          } else if instr.op == LDLOCA {
            if index < 128 {
              instr := instr.(op := LDLOCA_S);
            }
          } else {
            if index < 4 {
              instr := instr.(op := STLOC_0 + index, operand := NoOperand);
            } else if index < 128 {
              instr := instr.(op := STLOC_S);
            }
          }
        }
        instructions := instructions[i := instr];
        i := i + 1;
      }
    }

    method OptimizeLDARG()
      modifies this`instructions
      ensures |instructions| == |old(instructions)|
      ensures forall i :: 0 <= i < |instructions| ==> instructions[i] == ParamShort(old(instructions)[i])
    {
      hide TableRow;
      var i := 0;
      while i < |instructions|
        invariant i <= |instructions| == |old(instructions)|
        invariant forall j :: 0 <= j < i ==> instructions[j] == ParamShort(old(instructions)[j])
        invariant instructions[i..] == old(instructions)[i..]
      {
        var instr := instructions[i];
        assert instr == old(instructions)[i];
        if instr.op in {LDARG, LDARGA, STARG} && instr.operand.ParamOperand? {
          var index := instr.operand.index;
          if instr.op == LDARG {
            if index < 4 {
              instr := instr.(op := LDARG_0 + index, operand := NoOperand);
            } else if index < 128 {
              instr := instr.(op := LDARG_S);
            }
          } else if instr.op == LDARGA {
            if index < 128 {
              instr := instr.(op := LDARGA_S);
            }
          } else {
            if index < 128 {
              instr := instr.(op := STARG_S);
            }
          }
        }
        instructions := instructions[i := instr];
        i := i + 1;
      }
    }

    method CalculateOffsets()
      modifies this`instructions
      ensures instructions == LaidOut(old(instructions))
    {
      hide TableRow;
      var ofs := 0;
      var i := 0;
      while i < |instructions|
        invariant i <= |instructions| == |old(instructions)|
        invariant ofs == SizeTo(old(instructions), i)
        invariant instructions[..i] == LaidOut(old(instructions))[..i]
        invariant instructions[i..] == old(instructions)[i..]
      {
        assert instructions[i] == old(instructions)[i];
        instructions := instructions[i := instructions[i].(offset := ofs)];
        ofs := ofs + Size(instructions[i]);
        i := i + 1;
      }
      assert instructions == instructions[..i];
    }

    // Tests the offsets that were current before the pass.
    method ModifyBranches() returns (done: bool)
      requires LabelsIn(instructions, labels)
      modifies this`instructions
      ensures instructions == Shrunk(old(instructions), labels)
      ensures done <==> instructions == old(instructions)
    {
      hide TableRow;
      done := true;
      var i := 0;
      while i < |instructions|
        invariant i <= |instructions| == |old(instructions)|
        invariant instructions[..i] == Shrunk(old(instructions), labels)[..i]
        invariant instructions[i..] == old(instructions)[i..]
        invariant forall j :: 0 <= j < |instructions| ==> instructions[j].offset == old(instructions)[j].offset
        invariant done <==> instructions == old(instructions)
      {
        var instr := instructions[i];
        assert instr == old(instructions)[i];
        if IsRel4(instr.op) {
          if Name(instr) in labels {
            var diff := instructions[labels[Name(instr)]].offset - (instr.offset + 5);
            if diff < 128 && diff >= -128 {
              done := false;
              assert instr != instr.(op := Rel4To1(instr.op));
              instructions := instructions[i := instr.(op := Rel4To1(instr.op))];
              assert instructions[i] != old(instructions)[i];
            }
          }
        }
        i := i + 1;
      }
      assert instructions == instructions[..i];
    }

    method ValidateInstructions(slots: Slots) returns (status: Status)
      requires LabelsIn(instructions, labels) && LocalsHaveSlots(instructions, slots)
      modifies this`instructions
      ensures instructions == LaidOut(old(instructions))
      ensures status == Check(old(instructions), labels, slots)
    {
      hide TableRow, SlotFits, LaidOut, SizeTo;
      LayoutKeepsOperands(instructions, labels, slots);
      CalculateOffsets();
      var i := 0;
      while i < |instructions|
        invariant i <= |instructions| && instructions == LaidOut(old(instructions))
        invariant CheckFrom(instructions, labels, slots, 0) == CheckFrom(instructions, labels, slots, i)
      {
        var instr := instructions[i];
        if IsBranch(instr.op) {
          if Name(instr) !in labels {
            return Err(MissingLabel);
          } else if IsRel1(instr.op) {
            var diff := instructions[labels[Name(instr)]].offset - (instr.offset + 2);
            if diff > 127 || diff < -128 {
              return Err(ShortBranchOutOfRange);
            }
          }
        } else if instr.operand.ParamOperand? || instr.operand.LocalOperand? {
          var index := if instr.operand.ParamOperand? then instr.operand.index else slots[instr.operand.v];
          if !SlotFits(instr.op, index) {
            return Err(IndexOutOfRange);
          }
        }
        i := i + 1;
      }
      return Ok;
    }

    method SEHInstructions() returns (tags: seq<Tag>)
      ensures tags == TagsOf(instructions)
    {
      hide TableRow;
      tags := [];
      var i := 0;
      while i < |instructions|
        invariant i <= |instructions| && tags == TagsTo(instructions, i)
      {
        var instr := instructions[i];
        if instr.op == SEH {
          tags := tags + [Tag(instr.sehKind, instr.sehBegin, instr.offset, instr.sehToken)];
        }
        i := i + 1;
      }
    }

    method ValidateSEHFilters(tags: seq<Tag>) returns (status: Status)
      ensures status == if exists i :: 0 <= i < |tags| && EndsFilter(tags[i]) then Err(BadSeh(InvalidSEHFilter)) else Ok
    {
      var check := false;
      var i := 0;
      while i < |tags|
        invariant i <= |tags| && !check
        invariant forall j :: 0 <= j < i ==> !EndsFilter(tags[j])
      {
        var tag := tags[i];
        if !tag.begin && tag.kind == SehFilter {
          check := true;
        }
        if check {
          check := false;
          if !tag.begin || tag.kind != SehFilterHandler {
            assert EndsFilter(tags[i]);
            return Err(BadSeh(InvalidSEHFilter));
          }
        }
        i := i + 1;
      }
      return Ok;
    }

    method ValidateSEHEpilogues() returns (status: Status)
      ensures status == if exists i :: 0 <= i < |instructions| && !EpilogueAt(instructions, i)
                        then Err(BadSeh(InvalidSEHEpilogue)) else Ok
    {
      hide TableRow;
      var old1: Option<Opcode> := None;
      var i := 0;
      while i < |instructions|
        invariant i <= |instructions| && old1 == LastEmitted(instructions, i)
        invariant forall j :: 0 <= j < i ==> EpilogueAt(instructions, j)
      {
        var instr := instructions[i];
        if instr.op == SEH {
          if !instr.sehBegin {
            var fine;
            match instr.sehKind {
              case SehTry | SehCatch | SehFilterHandler => fine := old1 == Some(LEAVE) || old1 == Some(LEAVE_S);
              case SehFilter => fine := old1 == Some(ENDFILTER);
              case SehFault => fine := old1 == Some(ENDFAULT);
              case SehFinally => fine := old1 == Some(ENDFINALLY);
            }
            if !fine {
              assert !EpilogueAt(instructions, i);
              return Err(BadSeh(InvalidSEHEpilogue));
            }
          }
        } else if instr.op != LABEL && instr.op != COMMENT {
          old1 := Some(instr.op);
        }
        i := i + 1;
      }
      return Ok;
    }

    method ValidateSEH() returns (status: Status)
      modifies this`hasSEH
      ensures status == SehStatus(instructions)
      ensures hasSEH == (old(hasSEH) || TagsOf(instructions) != [])
    {
      hide TableRow, Validated, EpilogueAt;
      var tags := SEHInstructions();
      if |tags| != 0 {
        hasSEH := true;
        var nested := ValidateSEHTags(tags, 0);
        if nested.Bad? { return Err(BadSeh(nested.error)); }
        status := ValidateSEHFilters(tags);
        if status.Err? { return; }
        status := ValidateSEHEpilogues();
        if status.Err? { return; }
      }
      return Ok;
    }

    // The clause list of the body, once the offsets are known.
    method CompileClauses() returns (data: seq<SEHData>)
      requires exists bs :: StandsFor(TagsOf(instructions), bs)
      ensures forall bs :: StandsFor(TagsOf(instructions), bs) ==> data == ClausesFrom(bs, 0)
    {
      hide TableRow, Flat, ClausesFrom, Compilable, TagsTo;
      ghost var bs :| StandsFor(TagsOf(instructions), bs);
      forall other | StandsFor(TagsOf(instructions), other) ensures other == bs {
        StandsForIsUnique(TagsOf(instructions), other, bs);
      }
      var tags := SEHInstructions();
      data := [];
      assert bs[0..] == bs;
      if |tags| != 0 {
        CompilableAt(bs, 0);
        var _, clauses := CompileSEH(tags, 0, [], bs, 0);
        data := clauses;
      } else {
        EndClauses(bs, []);
      }
    }

    method OptimizeBranch(slots: Slots) returns (status: Status)
      requires LabelsIn(instructions, labels) && LocalsHaveSlots(instructions, slots)
      modifies this`instructions, this`hasSEH
      ensures if SehStatus(old(instructions)).Err? then status == SehStatus(old(instructions))
              else && instructions == Relax(old(instructions), labels)
                   && status == Check(instructions, labels, slots)
      ensures hasSEH == (old(hasSEH) || TagsOf(old(instructions)) != [])
    {
      hide TableRow, CheckAt, SehStatus, TagsTo;
      status := ValidateSEH();
      if status.Err? { return; }
      ghost var before := instructions;
      var done := false;
      while !done
        invariant LabelsIn(instructions, labels) && LocalsHaveSlots(instructions, slots)
        invariant hasSEH == (old(hasSEH) || TagsOf(old(instructions)) != [])
        invariant Relax(old(instructions), labels) ==
                    if done then instructions else Relax(instructions, labels)
        decreases Rel4Set(instructions), !done
      {
        RoundShrinksRel4Set(instructions, labels);
        CalculateOffsets();
        done := ModifyBranches();
      }
      RelaxIsCurrent(old(instructions), labels);
      CurrentIsLaidOut(instructions);
      status := ValidateInstructions(slots);
    }

    // A label defined twice stops the optimizer before any change.
    method Optimize(slots: Slots) returns (status: Status)
      requires labels == map[] && LocalsHaveSlots(instructions, slots)
      modifies this
      ensures LabelsIn(Optimized(old(instructions), slots), LabelsOf(old(instructions)))
      ensures LocalsHaveSlots(Optimized(old(instructions), slots), slots)
      ensures status == if !LabelsDistinct(old(instructions)) then Err(DuplicateLabel)
                        else if SehStatus(PeepholeAll(old(instructions), slots)).Err? then
                          SehStatus(PeepholeAll(old(instructions), slots))
                        else Check(Optimized(old(instructions), slots), LabelsOf(old(instructions)), slots)
      ensures status.Ok? ==> instructions == Optimized(old(instructions), slots) && labels == map[]
      ensures hasSEH == (old(hasSEH) || (LabelsDistinct(old(instructions)) && TagsOf(old(instructions)) != []))
    {
      hide TableRow, CheckAt, LdcShort, LocalShort, ParamShort, Relax, LabelsOf, Check, SehStatus, TagsTo;
      PeepholeKeepsShape(instructions, slots);
      OptimizedIsInLabels(instructions, slots);
      ghost var before := instructions;
      status := LoadLabels();
      if status.Err? { return; }
      OptimizeLDC();
      LdcKeepsSlots(before, instructions, slots);
      OptimizeLDLOC(slots);
      OptimizeLDARG();
      PassesCompose(before, instructions, slots);
      LabelsOfIsIn(before);
      status := OptimizeBranch(slots);
      labels := map[];
    }

    // Writes one instruction into the buffer at pos.
    method Render(instr: Instr, slots: Slots, result: array<byte>, pos: nat) returns (sz: nat)
      requires LabelsIn(instructions, labels) && (instr.operand.LocalOperand? ==> instr.operand.v in slots)
      requires EncodableInstr(instr, labels) && instr.op != UNALIGNED
      requires pos + Size(instr) <= result.Length
      modifies result
      ensures sz == |Rendered(instructions, labels, slots, instr)| == Size(instr)
      ensures result[..] == old(result[..pos]) + Rendered(instructions, labels, slots, instr) + old(result[pos + sz..])
    {
      hide TableRow, OperandFits, Size, LabelOffset, Le4, Le2, Le8, OperandBytes, OpcodeBytes;
      RenderedSize(instructions, labels, slots, instr);
      sz := 0;
      if !IsPseudo(instr.op) {
        Put(result, pos, OpcodeBytes(instr.op));
        sz := |OpcodeBytes(instr.op)|;
        var operand;
        if instr.op == SWITCH {
          operand := RenderSwitch(instr.switches, instr.offset);
          SwitchOperand(instructions, labels, slots, instr);
        } else {
          operand := OperandBytes(instructions, labels, slots, instr);
        }
        Put(result, pos + sz, operand);
        sz := sz + |operand|;
      }
    }

    method RenderSwitch(names: seq<string>, offset: int) returns (bytes: seq<byte>)
      requires LabelsIn(instructions, labels) && forall name :: name in names ==> name in labels
      ensures bytes == Le4(|names|) + SwitchBytes(instructions, labels, 5 + offset + 4 * |names|, names, |names|)
    {
      hide TableRow, Le4;
      bytes := Le4(|names|);
      var base := 1 + 4 + offset + |names| * 4;
      var k := 0;
      while k < |names|
        invariant k <= |names|
        invariant bytes == Le4(|names|) + SwitchBytes(instructions, labels, base, names, k)
      {
        var n := instructions[labels[names[k]]].offset;
        bytes := bytes + Le4(n - base);
        k := k + 1;
      }
    }

    method RenderAll(slots: Slots, code: array<byte>)
      requires Encodable(instructions, labels, slots)
      requires forall i :: 0 <= i < |instructions| ==> instructions[i].op != UNALIGNED
      requires code.Length == SizeTo(instructions, |instructions|)
      modifies code
      ensures code[..] == RenderedAll(instructions, labels, slots)
    {
      hide TableRow, OperandFits, Size, Rendered;
      var pos := 0;
      var i := 0;
      while i < |instructions|
        invariant i <= |instructions|
        invariant pos == SizeTo(instructions, i) <= code.Length
        invariant code[..pos] == RenderedTo(instructions, labels, slots, i)
      {
        SizeToEnd(instructions, i);
        var sz := Render(instructions[i], slots, code, pos);
        pos := pos + sz;
        i := i + 1;
      }
      assert code[..] == code[..pos];
    }

    // The buffer is sized from the last offset and filled front to back; the
    // instructions fill it exactly.
    method Compile(slots: Slots) returns (status: Status, code: array<byte>)
      requires labels == map[] && Encodable(instructions, LabelsOf(instructions), slots)
      requires forall i :: 0 <= i < |instructions| ==> instructions[i].op != UNALIGNED
      modifies this
      ensures fresh(code)
      ensures instructions == LaidOut(old(instructions))
      ensures status == if LabelsDistinct(old(instructions)) then Ok else Err(DuplicateLabel)
      ensures LabelsIn(instructions, LabelsOf(old(instructions))) && LocalsHaveSlots(instructions, slots)
      ensures status.Ok? ==> code[..] == RenderedAll(instructions, LabelsOf(old(instructions)), slots) && labels == map[]
    {
      hide TableRow, OperandFits, Size, SizeTo, RenderedTo, LaidOut, LabelsOf, EncodableInstr, IsPseudo, LabelsDistinct;
      LayoutKeepsList(instructions, slots);
      code := new byte[0];
      CalculateOffsets();
      status := LoadLabels();
      if status.Err? { return; }
      RenderedToSize(instructions, labels, slots, |instructions|);
      LaidOutIsCurrent(old(instructions));
      if |instructions| > 0 {
        var last := instructions[|instructions| - 1];
        code := new byte[last.offset + Size(last)];
        LastOffset(instructions);
        RenderAll(slots, code);
      } else {
        NothingRendered(instructions, labels, slots);
      }
      labels := map[];
    }
  }

  method Put(result: array<byte>, pos: nat, bytes: seq<byte>)
    requires pos + |bytes| <= result.Length
    modifies result
    ensures result[..] == old(result[..pos]) + bytes + old(result[pos + |bytes|..])
  {
    forall k | 0 <= k < |bytes| {
      result[pos + k] := bytes[k];
    }
  }

  lemma LastOffset(code: seq<Instr>)
    requires |code| > 0 && OffsetsCurrent(code)
    ensures var last := code[|code| - 1]; SizeTo(code, |code|) == last.offset + Size(last)
  {
    hide TableRow, Size;
  }

  lemma NothingRendered(code: seq<Instr>, labels: Labels, slots: Slots)
    requires LabelsIn(code, labels) && LocalsHaveSlots(code, slots) && code == []
    ensures RenderedAll(code, labels, slots) == []
  {
  }

  lemma LayoutKeepsOperands(code: seq<Instr>, labels: Labels, slots: Slots)
    requires LabelsIn(code, labels) && LocalsHaveSlots(code, slots)
    ensures LabelsIn(LaidOut(code), labels) && LocalsHaveSlots(LaidOut(code), slots)
  {
    hide TableRow, SizeTo;
  }

  lemma LoadStart(code: seq<Instr>)
    ensures LabelsTo(code, 0) == map[] && LabelsDistinctTo(code, 0)
  {
  }

  lemma {:induction false} LabelsAreIn(code: seq<Instr>, k: nat, j: nat)
    requires j < k <= |code| && code[j].op == LABEL
    ensures Name(code[j]) in LabelsTo(code, k)
  {
    hide TableRow;
    if j < k - 1 {
      LabelsAreIn(code, k - 1, j);
    }
  }

  // The label at i is new exactly when the names stay distinct.
  lemma LoadStep(code: seq<Instr>, i: nat)
    requires i < |code| && LabelsDistinctTo(code, i)
    ensures LabelsTo(code, i + 1) == if code[i].op == LABEL then LabelsTo(code, i)[Name(code[i]) := i] else LabelsTo(code, i)
    ensures LabelsDistinctTo(code, i + 1) <==> (code[i].op == LABEL ==> Name(code[i]) !in LabelsTo(code, i))
    ensures !LabelsDistinctTo(code, i + 1) ==> !LabelsDistinct(code)
  {
    hide TableRow;
    if code[i].op == LABEL {
      forall j | 0 <= j < i && code[j].op == LABEL ensures Name(code[j]) in LabelsTo(code, i) {
        LabelsAreIn(code, i, j);
      }
      if Name(code[i]) in LabelsTo(code, i) {
        assert Name(code[LabelsTo(code, i)[Name(code[i])]]) == Name(code[i]);
      }
    }
  }

  lemma SwitchOperand(code: seq<Instr>, labels: Labels, slots: Slots, i: Instr)
    requires LabelsIn(code, labels) && (i.operand.LocalOperand? ==> i.operand.v in slots)
    requires i.op == SWITCH
    ensures OperandBytes(code, labels, slots, i)
         == Le4(|i.switches|)
            + SwitchBytes(code, labels, 5 + i.offset + 4 * |i.switches|, i.switches, |i.switches|)
  {
    hide TableRow, Le4;
  }

  lemma PeepholeKeepsLocal(i: Instr, slots: Slots)
    requires i.operand.LocalOperand? ==> i.operand.v in slots
    ensures Peephole(i, slots).operand.LocalOperand? ==> Peephole(i, slots).operand == i.operand
  {
    hide TableRow;
  }

  lemma PeepholeKeepsSlots(code: seq<Instr>, slots: Slots)
    requires LocalsHaveSlots(code, slots)
    ensures LocalsHaveSlots(PeepholeAll(code, slots), slots)
  {
    hide TableRow, Peephole;
    forall i | 0 <= i < |code|
      ensures var j := PeepholeAll(code, slots)[i]; j.operand.LocalOperand? ==> j.operand.v in slots
    {
      PeepholeKeepsLocal(code[i], slots);
    }
  }

  lemma OptimizedIsInLabels(code: seq<Instr>, slots: Slots)
    requires LocalsHaveSlots(code, slots)
    ensures LabelsIn(Optimized(code, slots), LabelsOf(code))
    ensures LocalsHaveSlots(Optimized(code, slots), slots)
  {
    hide TableRow, Peephole;
    LabelsOfIsIn(code);
    PeepholeKeepsSlots(code, slots);
  }

  lemma LdcKeepsSlots(code: seq<Instr>, after: seq<Instr>, slots: Slots)
    requires LocalsHaveSlots(code, slots) && |after| == |code|
    requires forall i :: 0 <= i < |code| ==> after[i] == LdcShort(code[i])
    ensures LocalsHaveSlots(after, slots)
  {
    hide TableRow;
  }

  lemma PassesCompose(before: seq<Instr>, after: seq<Instr>, slots: Slots)
    requires LocalsHaveSlots(before, slots) && |after| == |before|
    requires forall i :: 0 <= i < |before| ==> after[i] == Peephole(before[i], slots)
    ensures after == PeepholeAll(before, slots) && LocalsHaveSlots(after, slots)
  {
    hide TableRow, Peephole;
    PeepholeKeepsSlots(before, slots);
  }

  lemma {:induction false} LayoutKeepsLabels(code: seq<Instr>, k: nat)
    requires k <= |code|
    ensures LabelsTo(LaidOut(code), k) == LabelsTo(code, k)
  {
    hide TableRow, Size;
    if k > 0 {
      LayoutKeepsLabels(code, k - 1);
    }
  }

  lemma LayoutKeepsDistinct(code: seq<Instr>)
    ensures LabelsDistinct(LaidOut(code)) <==> LabelsDistinct(code)
  {
    hide TableRow, Size;
    var laid := LaidOut(code);
    assert forall i :: 0 <= i < |code| ==> Name(laid[i]) == Name(code[i]) && laid[i].op == code[i].op;
  }

  // Recomputing offsets leaves everything else about the list as it was.
  lemma LayoutKeepsList(code: seq<Instr>, slots: Slots)
    requires Encodable(code, LabelsOf(code), slots)
    ensures LabelsOf(LaidOut(code)) == LabelsOf(code)
    ensures LabelsDistinct(LaidOut(code)) <==> LabelsDistinct(code)
    ensures Encodable(LaidOut(code), LabelsOf(code), slots)
    ensures forall i :: 0 <= i < |code| ==> LaidOut(code)[i].op == code[i].op
  {
    LabelsOfLaidOut(code);
    LayoutKeepsDistinct(code);
    hide TableRow, Size, SizeTo, OperandFits, LabelsOf, LabelsDistinct, IsBranch;
    forall i | 0 <= i < |code| ensures EncodableInstr(LaidOut(code)[i], LabelsOf(code)) {
      assert EncodableInstr(code[i], LabelsOf(code));
      OffsetIrrelevant(code[i], SizeTo(code, i));
    }
  }

  lemma LabelsOfLaidOut(code: seq<Instr>)
    ensures LabelsOf(LaidOut(code)) == LabelsOf(code)
  {
    hide TableRow, Size, LabelsTo;
    LayoutKeepsLabels(code, |code|);
  }

  lemma OffsetIrrelevant(i: Instr, offset: int)
    ensures OperandFits(i.(offset := offset)) <==> OperandFits(i)
  {
    hide TableRow;
  }
}
