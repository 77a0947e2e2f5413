// The check of ValidateSEHEpilogues against what ECMA-335 asks of the end of an
// exception block (sections III.3.46, III.3.34 and III.3.35).
module Epilogues {
  import opened Bytes
  import opened Opcodes
  import opened Instructions
  import opened SehTags
  import opened SehScan
  import opened SehClauses
  import opened Passes
  import opened Encoding

  predicate EndsBlock(i: Instr) { i.op == SEH && !i.sehBegin }

  // Instruction j is the last before i that emits code.
  ghost predicate LastBefore(code: seq<Instr>, i: nat, j: nat) {
    j < i < |code| && !IsPseudo(code[j].op) && forall m :: j < m < i ==> IsPseudo(code[m].op)
  }

  // The opcode that control leaves a block of the kind with: leave in either
  // form, endfinally, or endfilter.
  predicate LeavesBlock(kind: SehKind, opcode: seq<byte>) {
    match kind
    case SehTry | SehCatch | SehFilterHandler => opcode == [0xdd] || opcode == [0xde]
    case SehFinally | SehFault => opcode == [0xdc]
    case SehFilter => opcode == [0xfe, 0x11]
  }

  // The mnemonic the library wants, where two stand for one opcode.
  predicate Named(kind: SehKind, op: Opcode) {
    (kind == SehFinally ==> op != 92) && (kind == SehFault ==> op != 94)
  }

  // The table gives endfilter the bytes of cpblk.
  function OpcodeMeant(op: Opcode): seq<byte> { if op == ENDFILTER then [0xfe, 0x11] else OpcodeBytes(op) }

  ghost predicate ClosedBy(code: seq<Instr>, i: nat, j: nat)
    requires i < |code|
  {
    LastBefore(code, i, j) && LeavesBlock(code[i].sehKind, OpcodeMeant(code[j].op)) && Named(code[i].sehKind, code[j].op)
  }

  ghost predicate IsClosed(code: seq<Instr>, i: nat)
    requires i < |code|
  {
    exists j: nat :: ClosedBy(code, i, j)
  }

  lemma ClosingOpcodes(op: Opcode)
    requires !IsPseudo(op)
    ensures OpcodeMeant(op) == [0xdd] <==> op == LEAVE
    ensures OpcodeMeant(op) == [0xde] <==> op == LEAVE_S
    ensures OpcodeMeant(op) == [0xdc] <==> op == ENDFINALLY || op == ENDFAULT
    ensures OpcodeMeant(op) == [0xfe, 0x11] <==> op == ENDFILTER
  {
    if op >= 4 {
      TableIsEcma(op);
    }
    ClosingRows();
    ClosingCodes(TableRow(op).op2);
    hide TableRow, EcmaOpcode, EcmaForm;
    var bytes := OpcodeMeant(op);
    if op != ENDFILTER {
      assert bytes[0] == TableRow(op).op1 && (|bytes| == 2 ==> bytes[1] == TableRow(op).op2);
    }
  }

  // What these opcodes are in the standard's map.
  lemma ClosingCodes(b: byte)
    ensures EcmaOpcode(0xdd, b) == Some(LEAVE) && EcmaOpcode(0xde, b) == Some(LEAVE_S)
    ensures EcmaOpcode(0xdc, b) == Some(ENDFINALLY) && EcmaOpcode(0xfe, 0x11) == Some(ENDFILTER)
  {
  }

  lemma ClosingRows()
    ensures OpcodeBytes(LEAVE) == [0xdd] && OpcodeBytes(LEAVE_S) == [0xde]
    ensures OpcodeBytes(ENDFINALLY) == OpcodeBytes(ENDFAULT) == [0xdc] && OpcodeBytes(0) == [0]
    ensures TableRow(UNALIGNED).op1 == TableRow(VOLATILE).op1 == 0xfe
    ensures TableRow(UNALIGNED).op2 == 12 && TableRow(VOLATILE).op2 == 13
  {
  }

  lemma {:induction false} LastIsEmitted(code: seq<Instr>, i: nat, k: nat)
    requires k <= i < |code| && forall m :: k <= m < i ==> IsPseudo(code[m].op)
    ensures LastEmitted(code, k).None? ==> forall j: nat :: !LastBefore(code, i, j)
    ensures LastEmitted(code, k).Some? ==> exists j: nat :: LastBefore(code, i, j) && LastEmitted(code, k) == Some(code[j].op)
  {
    hide TableRow;
    if k > 0 {
      if IsPseudo(code[k - 1].op) {
        LastIsEmitted(code, i, k - 1);
      } else {
        assert LastBefore(code, i, k - 1);
      }
    }
  }

  lemma OneLast(code: seq<Instr>, i: nat, j: nat, k: nat)
    requires LastBefore(code, i, j) && LastBefore(code, i, k)
    ensures j == k
  {
    hide TableRow;
  }

  // The check passes the end of a block exactly when the last code before it
  // leaves a block of its kind, by the mnemonic made for that.
  lemma EpilogueIsStandardIff(code: seq<Instr>, i: nat)
    requires i < |code| && EndsBlock(code[i])
    ensures EpilogueAt(code, i) <==> IsClosed(code, i)
  {
    hide TableRow, OpcodeMeant;
    LastIsEmitted(code, i, i);
    if LastEmitted(code, i).Some? {
      var j: nat :| LastBefore(code, i, j) && LastEmitted(code, i) == Some(code[j].op);
      ClosingOpcodes(code[j].op);
      assert ClosedBy(code, i, j) <==> EpilogueAt(code, i);
      forall k: nat | ClosedBy(code, i, k) ensures k == j {
        OneLast(code, i, j, k);
      }
    }
  }

  ghost predicate AllClosed(code: seq<Instr>) {
    forall i: nat :: i < |code| && EndsBlock(code[i]) ==> IsClosed(code, i)
  }

  ghost predicate HasFilterEnd(code: seq<Instr>) {
    exists i: nat :: i < |code| && EndsBlock(code[i]) && code[i].sehKind == SehFilter
  }

  // What ValidateSEH reports: first what one pass over the tags finds, then
  // any end of a filter block, then a block that is not closed as the standard
  // asks; an accepted list has none of these.
  lemma StatusIsExplained(code: seq<Instr>)
    ensures var found := if TagsOf(code) == [] then Upto(0) else Scan(TagsOf(code), 0, [], Fresh);
            SehStatus(code)
              == match found
                 case Bad(e) => Err(BadSeh(e))
                 case Upto(_) => if HasFilterEnd(code) then Err(BadSeh(InvalidSEHFilter))
                                 else if !AllClosed(code) then Err(BadSeh(InvalidSEHEpilogue)) else Ok
  {
    hide TableRow, Validated, TagsTo, IsClosed, Scan, EpilogueAt;
    assert (forall i: nat :: i < |code| ==> EpilogueAt(code, i)) <==> AllClosed(code) by { EpiloguesAreStandard(code); }
    TaglessHasNoEnds(code, |code|);
    FilterEndsAreTags(code, |code|);
    if TagsOf(code) != [] {
      ValidatedIsScan(TagsOf(code), 0);
    }
  }

  lemma EpiloguesAreStandard(code: seq<Instr>)
    ensures (forall i: nat :: i < |code| ==> EpilogueAt(code, i)) <==> AllClosed(code)
  {
    hide TableRow, IsClosed;
    forall i: nat | i < |code|
      ensures EndsBlock(code[i]) ==> (EpilogueAt(code, i) <==> IsClosed(code, i))
      ensures !EndsBlock(code[i]) ==> EpilogueAt(code, i)
    {
      if EndsBlock(code[i]) {
        EpilogueIsStandardIff(code, i);
      }
    }
    hide EpilogueAt;
  }

  lemma {:induction false} FilterEndsAreTags(code: seq<Instr>, k: nat)
    requires k <= |code|
    ensures (exists j :: 0 <= j < |TagsTo(code, k)| && EndsFilter(TagsTo(code, k)[j]))
            <==> exists i :: 0 <= i < k && EndsBlock(code[i]) && code[i].sehKind == SehFilter
  {
    if k > 0 {
      FilterEndsAreTags(code, k - 1);
      var before, after, i := TagsTo(code, k - 1), TagsTo(code, k), code[k - 1];
      if i.op == SEH {
        var tag := Tag(i.sehKind, i.sehBegin, i.offset, i.sehToken);
        assert after == before + [tag];
        assert after[|before|] == tag;
        assert forall j :: 0 <= j < |before| ==> after[j] == before[j];
      }
    }
  }

  lemma {:induction false} TaglessHasNoEnds(code: seq<Instr>, k: nat)
    requires k <= |code|
    ensures TagsTo(code, k) == [] ==> forall i :: 0 <= i < k ==> code[i].op != SEH
  {
    if k > 0 {
      TaglessHasNoEnds(code, k - 1);
    }
  }

  // ---- try { leave L } finally { endfinally } L: ret ----

  function Plain(op: Opcode): Instr { Instr(op, if op == LEAVE || op == LABEL then LabelOperand("L") else NoOperand, [], SehTry, false, 0, 0, true) }

  function Tagged(kind: SehKind, begin: bool): Instr { Instr(SEH, NoOperand, [], kind, begin, 0, 0, true) }

  function TryFinally(closing: Opcode): seq<Instr> {
    [Tagged(SehTry, true), Plain(LEAVE), Tagged(SehTry, false), Tagged(SehFinally, true), Plain(closing),
     Tagged(SehFinally, false), Plain(LABEL), Plain(RET)]
  }

  // A finally block is accepted with endfinally and refused with endfault,
  // though both are the one opcode.
  lemma FinallyWantsItsName()
    ensures SehStatus(TryFinally(ENDFINALLY)) == Ok
    ensures SehStatus(TryFinally(ENDFAULT)) == Err(BadSeh(InvalidSEHEpilogue))
    ensures OpcodeBytes(ENDFAULT) == OpcodeBytes(ENDFINALLY)
  {
    ClosingRows();
    FinallyIsRead(ENDFINALLY);
    FinallyIsRead(ENDFAULT);
    FinallyIsGroup();
    hide TableRow, Validated, TagsTo, OpcodeBytes, EpilogueAt;
    assert !EpilogueAt(TryFinally(ENDFAULT), 5);
  }

  const FINALLY_TAGS: seq<Tag> := [Tag(SehTry, true, 0, 0), Tag(SehTry, false, 0, 0), Tag(SehFinally, true, 0, 0), Tag(SehFinally, false, 0, 0)]

  lemma FinallyIsRead(closing: Opcode)
    requires closing == ENDFINALLY || closing == ENDFAULT
    ensures var code := TryFinally(closing);
            && TagsOf(code) == FINALLY_TAGS
            && forall i :: 0 <= i < |code| ==> (EpilogueAt(code, i) <==> i != 5 || closing == ENDFINALLY)
  {
    hide TableRow;
    var code := TryFinally(closing);
    assert TagsTo(code, 0) == [];
    assert code[0] == Tagged(SehTry, true) && TagsTo(code, 1) == FINALLY_TAGS[..1];
    assert code[1] == Plain(LEAVE) && TagsTo(code, 2) == FINALLY_TAGS[..1] && LastEmitted(code, 2) == Some(LEAVE);
    assert code[2] == Tagged(SehTry, false) && TagsTo(code, 3) == FINALLY_TAGS[..2];
    assert code[3] == Tagged(SehFinally, true) && TagsTo(code, 4) == FINALLY_TAGS[..3];
    assert code[4] == Plain(closing) && TagsTo(code, 5) == FINALLY_TAGS[..3] && LastEmitted(code, 5) == Some(closing);
    assert code[5] == Tagged(SehFinally, false) && TagsTo(code, 6) == FINALLY_TAGS;
    assert code[6] == Plain(LABEL) && TagsTo(code, 7) == FINALLY_TAGS;
    assert code[7] == Plain(RET) && TagsTo(code, 8) == FINALLY_TAGS;
  }

  lemma FinallyIsGroup()
    ensures Validated(FINALLY_TAGS, 0) == Upto(4)
  {
    var block := kind => Block(kind, 0, 0, [], 0, 0);
    var bs := [block(SehTry), block(SehFinally)];
    assert bs[1..] == [block(SehFinally)] && bs[1..][1..] == [];
    assert FlatAll(bs[1..]) == FINALLY_TAGS[2..];
    assert FlatAll(bs) == FINALLY_TAGS;
    assert IsInner([]);
    assert AllInner(bs);
    GroupAccepted(FINALLY_TAGS, 0, bs);
  }
}
