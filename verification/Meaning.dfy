// The passes change how instructions are written, never what they do.
module Meaning {
  import opened Bytes
  import opened Opcodes
  import opened Instructions
  import opened Relaxation
  import opened Passes
  import opened Encoding
  import opened Decoding

  // ldloc.0 to ldloc.3 and stloc.0 to stloc.3 name a slot outright, so
  // renumbering the locals under them would change the variable they mean.
  predicate NamesSlot(op: Opcode) {
    LDLOC_0 <= op < LDLOC_0 + 4 || STLOC_0 <= op < STLOC_0 + 4
  }

  lemma LdcKeepsAction(i: Instr, frame: Frame)
    requires OperandFits(i)
    ensures OperandFits(LdcShort(i))
    ensures SourceAction(LdcShort(i), frame) == SourceAction(i, frame)
    ensures LdcShort(i).op != i.op ==> i.op == LDC_I4 && !IsBranch(LdcShort(i).op) && LdcShort(i).op != SWITCH
  {
    assert !IsShortBranch(LDC_I4);
    hide IsShortBranch;
    if LdcShort(i) != i {
      assert Canonical(LDC_I4) == LDC_I4;
    }
  }

  lemma LocalKeepsAction(i: Instr, slots: Slots, frame: Frame)
    requires OperandFits(i) && FrameMatches(slots, frame)
    requires i.operand.LocalOperand? ==> i.operand.v in slots
    ensures OperandFits(LocalShort(i, slots))
    ensures SourceAction(LocalShort(i, slots), frame) == SourceAction(i, frame)
  {
    assert !IsShortBranch(LDLOC) && !IsShortBranch(STLOC) && !IsShortBranch(LDLOCA);
    hide IsShortBranch;
    if LocalShort(i, slots) != i {
      assert Canonical(i.op) == i.op;
    }
  }

  lemma ParamKeepsAction(i: Instr, frame: Frame)
    requires OperandFits(i)
    ensures OperandFits(ParamShort(i))
    ensures SourceAction(ParamShort(i), frame) == SourceAction(i, frame)
  {
    assert !IsShortBranch(LDARG) && !IsShortBranch(STARG) && !IsShortBranch(LDARGA);
    hide IsShortBranch;
    if ParamShort(i) != i {
      assert Canonical(i.op) == i.op;
    }
  }

  // Labels, switch tables and pseudo instructions are left alone.
  predicate SameRole(a: Instr, b: Instr) {
    && (IsPseudo(a.op) <==> IsPseudo(b.op))
    && (a.op == LABEL <==> b.op == LABEL)
    && (a.op == SWITCH <==> b.op == SWITCH)
    && (IsBranch(a.op) <==> IsBranch(b.op))
    && a.switches == b.switches
    && (a.op == LABEL || IsBranch(a.op) ==> Name(a) == Name(b))
    && (Misencoded(b.op) ==> Misencoded(a.op))
  }

  lemma NoBranchAmong(op: Opcode)
    requires LDARG <= op <= LDC_I4_S || LDLOC <= op <= LDLOCA_S || STARG <= op <= STARG_S || STLOC <= op <= STLOC_S
    ensures !IsBranch(op)
  {
  }

  lemma PeepholeKeepsRole(i: Instr, slots: Slots)
    requires i.operand.LocalOperand? ==> i.operand.v in slots
    ensures SameRole(i, Peephole(i, slots))
  {
    hide TableRow;
    var j := Peephole(i, slots);
    if j.op != i.op {
      NoBranchAmong(i.op);
      NoBranchAmong(j.op);
    }
  }

  lemma PeepholeKeepsAction(i: Instr, slots: Slots, frame: Frame)
    requires OperandFits(i) && FrameMatches(slots, frame)
    requires i.operand.LocalOperand? ==> i.operand.v in slots
    ensures OperandFits(Peephole(i, slots))
    ensures SourceAction(Peephole(i, slots), frame) == SourceAction(i, frame)
  {
    hide TableRow, OperandFits, SourceAction;
    LdcKeepsAction(i, frame);
    LocalKeepsAction(LdcShort(i), slots, frame);
    ParamKeepsAction(LocalShort(LdcShort(i), slots), frame);
  }

  lemma ShortBranchMeansTheSame(a: Instr, b: Instr, frame: Frame)
    requires ShortOf(a, b)
    ensures SourceAction(b, frame) == SourceAction(a, frame)
    ensures OperandFits(a) ==> OperandFits(b)
    ensures SameRole(a, b)
  {
    hide TableRow, Canonical;
    RelPair(a.op);
    BranchIsItself(Canonical(a.op));
    NoFormIsPseudo(a.op);
    CanonicalBranch(a.op);
    ShortBranchRow(Canonical(a.op) + 1);
  }

  lemma CanonicalBranch(op: Opcode)
    requires IsRel4(op)
    ensures IsRel4(Canonical(op)) && IsRel1(Canonical(op) + 1)
  {
    hide TableRow, Canonical;
    AliasOfBranch(op);
    BooleanBranches();
    RelPair(Canonical(op));
  }

  lemma AliasOfBranch(op: Opcode)
    requires IsRel4(op)
    ensures Canonical(op) == op || Canonical(op) == BRFALSE || Canonical(op) == BRTRUE
  {
  }

  lemma BooleanBranches()
    ensures IsRel4(BRFALSE) && IsRel4(BRTRUE)
  {
  }

  // No general or macro form is a branch.
  lemma BranchIsItself(op: Opcode)
    ensures IsRel4(op) ==> General<string>(op, NoArg, []) == Some(Action(op, NoArg))
    ensures IsBranch(op) ==> !(LDARG <= op <= LDC_I8) && !(LDLOC <= op <= LDLOCA_S)
                             && !(STARG <= op <= STARG_S) && !(STLOC <= op <= STLOC_S)
  {
  }

  // ---- Whole lists ----

  ghost predicate AllFit(code: seq<Instr>) {
    forall i :: 0 <= i < |code| ==> OperandFits(code[i])
  }

  // b is another way of writing a.
  ghost predicate Rewrites(a: seq<Instr>, b: seq<Instr>, frame: Frame) {
    && |a| == |b|
    && AllFit(b)
    && forall i :: 0 <= i < |a| ==> SameRole(a[i], b[i]) && SourceAction(a[i], frame) == SourceAction(b[i], frame)
  }

  lemma ShortensRewrites(a: seq<Instr>, b: seq<Instr>, frame: Frame)
    requires Shortens(a, b) && AllFit(a)
    ensures Rewrites(a, b, frame)
  {
    hide TableRow;
    forall i | 0 <= i < |a|
      ensures OperandFits(b[i]) && SameRole(a[i], b[i]) && SourceAction(a[i], frame) == SourceAction(b[i], frame)
    {
      if ShortOf(a[i], b[i]) {
        ShortBranchMeansTheSame(a[i], b[i], frame);
      }
    }
  }

  lemma PeepholeRewrites(code: seq<Instr>, slots: Slots, frame: Frame)
    requires AllFit(code) && LocalsHaveSlots(code, slots) && FrameMatches(slots, frame)
    ensures Rewrites(code, PeepholeAll(code, slots), frame)
  {
    hide TableRow, Peephole, OperandFits, SourceAction, SameRole;
    forall i | 0 <= i < |code|
      ensures var j := PeepholeAll(code, slots)[i];
              OperandFits(j) && SameRole(code[i], j) && SourceAction(code[i], frame) == SourceAction(j, frame)
    {
      PeepholeKeepsRole(code[i], slots);
      PeepholeKeepsAction(code[i], slots, frame);
    }
  }

  lemma RewritesTransitive(a: seq<Instr>, b: seq<Instr>, c: seq<Instr>, frame: Frame)
    requires Rewrites(a, b, frame) && Rewrites(b, c, frame)
    ensures Rewrites(a, c, frame)
  {
    hide TableRow, OperandFits, SourceAction;
  }

  // Rewriting moves no label.
  lemma {:induction false} RewritesKeepLabels(a: seq<Instr>, b: seq<Instr>, frame: Frame, k: nat)
    requires Rewrites(a, b, frame) && k <= |a|
    ensures LabelsTo(b, k) == LabelsTo(a, k)
  {
    hide TableRow, OperandFits, SourceAction;
    if k > 0 {
      RewritesKeepLabels(a, b, frame, k - 1);
    }
  }

  // Optimize changes only how the list is written.
  lemma OptimizedRewrites(code: seq<Instr>, slots: Slots, frame: Frame)
    requires AllFit(code) && LocalsHaveSlots(code, slots) && FrameMatches(slots, frame)
    ensures Rewrites(code, Optimized(code, slots), frame)
    ensures LabelsOf(Optimized(code, slots)) == LabelsOf(code)
  {
    hide TableRow, OperandFits, SourceAction;
    var short := PeepholeAll(code, slots);
    var final := Optimized(code, slots);
    PeepholeRewrites(code, slots, frame);
    RewritesKeepLabels(code, short, frame, |code|);
    LabelsOfIsIn(code);
    RelaxShortens(short, LabelsOf(code));
    ShortensRewrites(short, final, frame);
    RewritesTransitive(code, short, final, frame);
    RewritesKeepLabels(code, final, frame, |code|);
  }
}
