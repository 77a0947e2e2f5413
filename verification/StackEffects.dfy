// What instructions take from the evaluation stack and put on it by Partition
// III of ECMA-335, and where the opcode table agrees.
module StackEffects {
  import opened Bytes
  import opened Opcodes
  import opened Instructions

  // A call's effect depends on the signature called, and ret takes what the
  // method returns.
  datatype Effect = Moves(pops: nat, pushes: nat) | BySignature

  // Of the instruction whose opcode is b.
  function EcmaEffectOne(b: byte): Effect {
    if b < 0x02 then Moves(0, 0)           // nop, break
    else if b < 0x0a then Moves(0, 1)      // ldarg, ldloc
    else if b < 0x0e then Moves(1, 0)      // stloc
    else if b == 0x10 || b == 0x13 then Moves(1, 0) // starg.s, stloc.s
    else if b < 0x24 then Moves(0, 1)      // ldarg.s, ldarga.s, ldloc.s, ldloca.s, ldnull, ldc
    else if b == 0x25 then Moves(1, 2)     // dup
    else if b == 0x26 then Moves(1, 0)     // pop
    else if b == 0x27 then Moves(0, 0)     // jmp
    else if b < 0x2b then BySignature      // call, calli, ret
    else if b == 0x2b then Moves(0, 0)     // br.s
    else if b < 0x2e then Moves(1, 0)      // brfalse.s, brtrue.s
    else if b < 0x38 then Moves(2, 0)      // beq.s to blt.un.s
    else if b == 0x38 then Moves(0, 0)     // br
    else if b < 0x3b then Moves(1, 0)      // brfalse, brtrue
    else if b < 0x45 then Moves(2, 0)      // beq to blt.un
    else if b == 0x45 then Moves(1, 0)     // switch
    else if b < 0x51 then Moves(1, 1)      // ldind
    else if b < 0x58 then Moves(2, 0)      // stind
    else if b < 0x65 then Moves(2, 1)      // add to shr.un
    else if b < 0x6f then Moves(1, 1)      // neg, not, conv
    else if b == 0x6f then BySignature     // callvirt
    else if b == 0x70 then Moves(2, 0)     // cpobj
    else if b == 0x71 then Moves(1, 1)     // ldobj
    else if b == 0x72 then Moves(0, 1)     // ldstr
    else if b == 0x73 then BySignature     // newobj
    else if b < 0x7a then Moves(1, 1)      // castclass, isinst, conv.r.un, unbox
    else if b == 0x7a then Moves(1, 0)     // throw
    else if b < 0x7d then Moves(1, 1)      // ldfld, ldflda
    else if b == 0x7d then Moves(2, 0)     // stfld
    else if b < 0x80 then Moves(0, 1)      // ldsfld, ldsflda
    else if b == 0x80 then Moves(1, 0)     // stsfld
    else if b == 0x81 then Moves(2, 0)     // stobj
    else if b < 0x8f then Moves(1, 1)      // conv.ovf.un, box, newarr, ldlen
    else if b < 0x9b then Moves(2, 1)      // ldelema, ldelem
    else if b < 0xa3 then Moves(3, 0)      // stelem
    else if b == 0xa3 then Moves(2, 1)     // ldelem
    else if b == 0xa4 then Moves(3, 0)     // stelem
    else if b < 0xd0 then Moves(1, 1)      // unbox.any, conv.ovf, refanyval, ckfinite, mkrefany
    else if b == 0xd0 then Moves(0, 1)     // ldtoken
    else if b < 0xd6 then Moves(1, 1)      // conv
    else if b < 0xdc then Moves(2, 1)      // add.ovf, mul.ovf, sub.ovf
    else if b < 0xdf then Moves(0, 0)      // endfinally, leave
    else if b == 0xdf then Moves(2, 0)     // stind.i
    else Moves(1, 1)                       // conv.u
  }

  // Of the instruction whose opcode is 0xfe b.
  function EcmaEffectTwo(b: byte): Effect {
    if b == 0x00 then Moves(0, 1)          // arglist
    else if b < 0x06 then Moves(2, 1)      // ceq, cgt, clt
    else if b == 0x06 then Moves(0, 1)     // ldftn
    else if b == 0x07 then Moves(1, 1)     // ldvirtftn
    else if b < 0x0b then Moves(0, 1)      // ldarg, ldarga
    else if b == 0x0b then Moves(1, 0)     // starg
    else if b < 0x0e then Moves(0, 1)      // ldloc, ldloca
    else if b == 0x0e then Moves(1, 0)     // stloc
    else if b == 0x0f then Moves(1, 1)     // localloc
    else if b == 0x11 then Moves(1, 0)     // endfilter
    else if b < 0x15 then Moves(0, 0)      // unaligned., volatile., tail.
    else if b == 0x15 then Moves(1, 0)     // initobj
    else if b == 0x16 then Moves(0, 0)     // constrained.
    else if b < 0x19 then Moves(3, 0)      // cpblk, initblk
    else if b < 0x1b then Moves(0, 0)      // no., rethrow
    else if b == 0x1c then Moves(0, 1)     // sizeof
    else if b == 0x1d then Moves(1, 1)     // refanytype
    else Moves(0, 0)                       // readonly.
  }

  // The second byte of the standard's opcode where the table has another one.
  function StandardByte(op: Opcode): byte {
    if op == ENDFILTER then 0x11 else if op == UNALIGNED then 0x12 else if op == VOLATILE then 0x13
    else TableRow(op).op2
  }

  function EcmaEffect(op: Opcode): Effect {
    if TableRow(op).op1 == 0xfe then EcmaEffectTwo(StandardByte(op)) else EcmaEffectOne(TableRow(op).op1)
  }

  const CPOBJ: Opcode := 88
  const LDVIRTFTN: Opcode := 167
  const JMP: Opcode := 98
  const RETHROW: Opcode := 189

  // What the table counts too much: cpobj for one that takes one value, a
  // virtual function for one that takes no object, throw for one that pushes.
  function Surplus(op: Opcode): int {
    if op == CPOBJ || op == LDVIRTFTN then 1 else if op == THROW then 2 else 0
  }

  predicate StackIsEcma(op: Opcode) {
    match EcmaEffect(op)
    case Moves(pops, pushes) =>
      op !in {CALL, CALLI, CALLVIRT, NEWOBJ, RET} && TableRow(op).stack == pushes - pops + Surplus(op)
    case BySignature =>
      op in {CALL, CALLI, CALLVIRT, NEWOBJ, RET}
      && TableRow(op).stack == (if op == CALLI then -1 else if op == NEWOBJ then 1 else 0)
  }

  lemma StackFrom0(op: Opcode)
    requires 0 <= op < 15
    ensures StackIsEcma(op)
  {
  }

  lemma StackFrom15(op: Opcode)
    requires 15 <= op < 30
    ensures StackIsEcma(op)
  {
  }

  lemma StackFrom30(op: Opcode)
    requires 30 <= op < 45
    ensures StackIsEcma(op)
  {
  }

  lemma StackFrom45(op: Opcode)
    requires 45 <= op < 60
    ensures StackIsEcma(op)
  {
  }

  lemma StackFrom60(op: Opcode)
    requires 60 <= op < 75
    ensures StackIsEcma(op)
  {
  }

  lemma StackFrom75(op: Opcode)
    requires 75 <= op < 90
    ensures StackIsEcma(op)
  {
  }

  lemma StackFrom90(op: Opcode)
    requires 90 <= op < 105
    ensures StackIsEcma(op)
  {
  }

  lemma StackFrom105(op: Opcode)
    requires 105 <= op < 120
    ensures StackIsEcma(op)
  {
  }

  lemma StackFrom120(op: Opcode)
    requires 120 <= op < 135
    ensures StackIsEcma(op)
  {
  }

  lemma StackFrom135(op: Opcode)
    requires 135 <= op < 150
    ensures StackIsEcma(op)
  {
  }

  lemma StackFrom150(op: Opcode)
    requires 150 <= op < 165
    ensures StackIsEcma(op)
  {
  }

  lemma StackFrom165(op: Opcode)
    requires 165 <= op < 180
    ensures StackIsEcma(op)
  {
  }

  lemma StackFrom180(op: Opcode)
    requires 180 <= op < 195
    ensures StackIsEcma(op)
  {
  }

  lemma StackFrom195(op: Opcode)
    requires 195 <= op < 210
    ensures StackIsEcma(op)
  {
  }

  lemma StackFrom210(op: Opcode)
    requires 210 <= op < 225
    ensures StackIsEcma(op)
  {
  }

  lemma StackFrom225(op: Opcode)
    requires 225 <= op < 233
    ensures StackIsEcma(op)
  {
  }

  // The stack column of every row is pushes minus pops of the instruction in
  // ECMA-335, but for cpobj, ldvirtftn and throw; the rows of the calls leave
  // room for what the signature says.
  lemma TableStackIsEcma(op: Opcode)
    ensures StackIsEcma(op)
    ensures EcmaEffect(op).Moves? && Surplus(op) == 0 ==>
              TableRow(op).stack == EcmaEffect(op).pushes - EcmaEffect(op).pops
  {
    hide TableRow, EcmaEffect;
    if op < 15 { StackFrom0(op); }
    else if op < 30 { StackFrom15(op); }
    else if op < 45 { StackFrom30(op); }
    else if op < 60 { StackFrom45(op); }
    else if op < 75 { StackFrom60(op); }
    else if op < 90 { StackFrom75(op); }
    else if op < 105 { StackFrom90(op); }
    else if op < 120 { StackFrom105(op); }
    else if op < 135 { StackFrom120(op); }
    else if op < 150 { StackFrom135(op); }
    else if op < 165 { StackFrom150(op); }
    else if op < 180 { StackFrom165(op); }
    else if op < 195 { StackFrom180(op); }
    else if op < 210 { StackFrom195(op); }
    else if op < 225 { StackFrom210(op); }
    else { StackFrom225(op); }
  }
}
