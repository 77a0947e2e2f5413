// The opcode table of Instruction.cpp, beside the opcode map of ECMA-335
// Partition III, and the theorem that says where the two agree.
module Opcodes {
  import opened Bytes

  // An opcode is its position in the enumeration, which is also its row.
  type Opcode = x: int | 0 <= x < 233

  const LABEL: Opcode := 1
  const COMMENT: Opcode := 2
  const SEH: Opcode := 3
  const BR: Opcode := 30
  const BR_S: Opcode := 31
  const BEQ: Opcode := 9
  const BRTRUE: Opcode := 39
  const BRFALSE: Opcode := 33
  const CALL: Opcode := 43
  const CALLI: Opcode := 44
  const CALLVIRT: Opcode := 45
  const NEWOBJ: Opcode := 177
  const ENDFAULT: Opcode := 92
  const ENDFILTER: Opcode := 93
  const ENDFINALLY: Opcode := 94
  const LDARG: Opcode := 99
  const LDARG_0: Opcode := 100
  const LDARG_S: Opcode := 104
  const LDARGA: Opcode := 105
  const LDARGA_S: Opcode := 106
  const LDC_I4: Opcode := 107
  const LDC_I4_0: Opcode := 108
  const LDC_I4_8: Opcode := 116
  const LDC_I4_m1: Opcode := 117
  const LDC_I4_M1: Opcode := 118
  const LDC_I4_S: Opcode := 119
  const LDC_I8: Opcode := 120
  const LDLOC: Opcode := 153
  const LDLOC_0: Opcode := 154
  const LDLOC_S: Opcode := 158
  const LDLOCA: Opcode := 159
  const LDLOCA_S: Opcode := 160
  const LEAVE: Opcode := 168
  const LEAVE_S: Opcode := 169
  const NO_PREFIX: Opcode := 178
  const POP: Opcode := 182
  const NOP: Opcode := 179
  const RET: Opcode := 188
  const STARG: Opcode := 194
  const STARG_S: Opcode := 195
  const STLOC: Opcode := 214
  const STLOC_0: Opcode := 215
  const STLOC_S: Opcode := 219
  const SWITCH: Opcode := 225
  const THROW: Opcode := 227
  const UNALIGNED: Opcode := 228
  const VOLATILE: Opcode := 231

  datatype Form =
    | NoForm | Single | Rel1 | Rel4 | Index1 | Index2 | Index4
    | Immed1 | Immed4 | Immed8 | Float4 | Float8 | SwitchTable

  // op2 is 0xff when the opcode is one byte long.
  datatype Row = Row(op1: byte, op2: byte, bytes: nat, form: Form, stack: int)

  const NO_ROW := Row(0, 0xff, 0, NoForm, 0)

  function Rows0(op: Opcode): Row {
    match op
    case 0 => Row(0, 0xff, 0, NoForm, 0) // <unknown>
    case 1 => Row(0, 0xff, 0, NoForm, 0) // .label
    case 2 => Row(0, 0xff, 0, NoForm, 0) // .comment
    case 3 => Row(0, 0xff, 0, NoForm, 0) // .SEH
    case 4 => Row(0x58, 0xff, 1, Single, -1) // add
    case 5 => Row(0xd6, 0xff, 1, Single, -1) // add.ovf
    case 6 => Row(0xd7, 0xff, 1, Single, -1) // add.ovf.un
    case 7 => Row(0x5f, 0xff, 1, Single, -1) // and
    case 8 => Row(0xfe, 0, 2, Single, 1) // arglist
    case 9 => Row(0x3b, 0xff, 5, Rel4, -2) // beq
    case 10 => Row(0x2e, 0xff, 2, Rel1, -2) // beq.s
    case 11 => Row(0x3c, 0xff, 5, Rel4, -2) // bge
    case 12 => Row(0x2f, 0xff, 2, Rel1, -2) // bge.s
    case 13 => Row(0x41, 0xff, 5, Rel4, -2) // bge.un
    case 14 => Row(0x34, 0xff, 2, Rel1, -2) // bge.un.s
    case _ => NO_ROW
  }

  function Rows15(op: Opcode): Row {
    match op
    case 15 => Row(0x3d, 0xff, 5, Rel4, -2) // bgt
    case 16 => Row(0x30, 0xff, 2, Rel1, -2) // bgt.s
    case 17 => Row(0x42, 0xff, 5, Rel4, -2) // bgt.un
    case 18 => Row(0x35, 0xff, 2, Rel1, -2) // bgt.un.s
    case 19 => Row(0x3e, 0xff, 5, Rel4, -2) // ble
    case 20 => Row(0x31, 0xff, 2, Rel1, -2) // ble.s
    case 21 => Row(0x43, 0xff, 5, Rel4, -2) // ble.un
    case 22 => Row(0x36, 0xff, 2, Rel1, -2) // ble.un.s
    case 23 => Row(0x3f, 0xff, 5, Rel4, -2) // blt
    case 24 => Row(0x32, 0xff, 2, Rel1, -2) // blt.s
    case 25 => Row(0x44, 0xff, 5, Rel4, -2) // blt.un
    case 26 => Row(0x37, 0xff, 2, Rel1, -2) // blt.un.s
    case 27 => Row(0x40, 0xff, 5, Rel4, -2) // bne.un
    case 28 => Row(0x33, 0xff, 2, Rel1, -2) // bne.un.s
    case 29 => Row(0x8c, 0xff, 5, Index4, 0) // box
    case _ => NO_ROW
  }

  function Rows30(op: Opcode): Row {
    match op
    case 30 => Row(0x38, 0xff, 5, Rel4, 0) // br
    case 31 => Row(0x2b, 0xff, 2, Rel1, 0) // br.s
    case 32 => Row(0x01, 0xff, 1, Single, 0) // break
    case 33 => Row(0x39, 0xff, 5, Rel4, -1) // brfalse
    case 34 => Row(0x2c, 0xff, 2, Rel1, -1) // brfalse.s
    case 35 => Row(0x3a, 0xff, 5, Rel4, -1) // brinst
    case 36 => Row(0x2d, 0xff, 2, Rel1, -1) // brinst.s
    case 37 => Row(0x39, 0xff, 5, Rel4, -1) // brnull
    case 38 => Row(0x2c, 0xff, 2, Rel1, -1) // brnull.s
    case 39 => Row(0x3a, 0xff, 5, Rel4, -1) // brtrue
    case 40 => Row(0x2d, 0xff, 2, Rel1, -1) // brtrue.s
    case 41 => Row(0x39, 0xff, 5, Rel4, -1) // brzero
    case 42 => Row(0x2c, 0xff, 2, Rel1, -1) // brzero.s
    case 43 => Row(0x28, 0xff, 5, Index4, 0) // call
    case 44 => Row(0x29, 0xff, 5, Index4, -1) // calli
    case _ => NO_ROW
  }

  function Rows45(op: Opcode): Row {
    match op
    case 45 => Row(0x6f, 0xff, 5, Index4, 0) // callvirt
    case 46 => Row(0x74, 0xff, 5, Index4, 0) // castclass
    case 47 => Row(0xfe, 1, 2, Single, -1) // ceq
    case 48 => Row(0xfe, 2, 2, Single, -1) // cgt
    case 49 => Row(0xfe, 3, 2, Single, -1) // cgt.un
    case 50 => Row(0xc3, 0xff, 1, Single, 0) // ckfinite
    case 51 => Row(0xfe, 4, 2, Single, -1) // clt
    case 52 => Row(0xfe, 5, 2, Single, -1) // clt.un
    case 53 => Row(0xfe, 0x16, 6, Index4, 0) // constrained.
    case 54 => Row(0xd3, 0xff, 1, Single, 0) // conv.i
    case 55 => Row(0x67, 0xff, 1, Single, 0) // conv.i1
    case 56 => Row(0x68, 0xff, 1, Single, 0) // conv.i2
    case 57 => Row(0x69, 0xff, 1, Single, 0) // conv.i4
    case 58 => Row(0x6a, 0xff, 1, Single, 0) // conv.i8
    case 59 => Row(0xd4, 0xff, 1, Single, 0) // conv.ovf.i
    case _ => NO_ROW
  }

  function Rows60(op: Opcode): Row {
    match op
    case 60 => Row(0x8a, 0xff, 1, Single, 0) // conv.ovf.i.un
    case 61 => Row(0xb3, 0xff, 1, Single, 0) // conv.ovf.i1
    case 62 => Row(0x82, 0xff, 1, Single, 0) // conv.ovf.i1.un
    case 63 => Row(0xb5, 0xff, 1, Single, 0) // conv.ovf.i2
    case 64 => Row(0x83, 0xff, 1, Single, 0) // conv.ovf.i2.un
    case 65 => Row(0xb7, 0xff, 1, Single, 0) // conv.ovf.i4
    case 66 => Row(0x84, 0xff, 1, Single, 0) // conv.ovf.i4.un
    case 67 => Row(0xb9, 0xff, 1, Single, 0) // conv.ovf.i8
    case 68 => Row(0x85, 0xff, 1, Single, 0) // conv.ovf.i8.un
    case 69 => Row(0xd5, 0xff, 1, Single, 0) // conv.ovf.u
    case 70 => Row(0x8b, 0xff, 1, Single, 0) // conv.ovf.u.un
    case 71 => Row(0xb4, 0xff, 1, Single, 0) // conv.ovf.u1
    case 72 => Row(0x86, 0xff, 1, Single, 0) // conv.ovf.u1.un
    case 73 => Row(0xb6, 0xff, 1, Single, 0) // conv.ovf.u2
    case 74 => Row(0x87, 0xff, 1, Single, 0) // conv.ovf.u2.un
    case _ => NO_ROW
  }

  function Rows75(op: Opcode): Row {
    match op
    case 75 => Row(0xb8, 0xff, 1, Single, 0) // conv.ovf.u4
    case 76 => Row(0x88, 0xff, 1, Single, 0) // conv.ovf.u4.un
    case 77 => Row(0xba, 0xff, 1, Single, 0) // conv.ovf.u8
    case 78 => Row(0x89, 0xff, 1, Single, 0) // conv.ovf.u8.un
    case 79 => Row(0x76, 0xff, 1, Single, 0) // conv.r.un
    case 80 => Row(0x6b, 0xff, 1, Single, 0) // conv.r4
    case 81 => Row(0x6c, 0xff, 1, Single, 0) // conv.r8
    case 82 => Row(0xe0, 0xff, 1, Single, 0) // conv.u
    case 83 => Row(0xd2, 0xff, 1, Single, 0) // conv.u1
    case 84 => Row(0xd1, 0xff, 1, Single, 0) // conv.u2
    case 85 => Row(0x6d, 0xff, 1, Single, 0) // conv.u4
    case 86 => Row(0x6e, 0xff, 1, Single, 0) // conv.u8
    case 87 => Row(0xfe, 0x17, 2, Single, -3) // cpblk
    case 88 => Row(0x70, 0xff, 5, Index4, -1) // cpobj
    case 89 => Row(0x5b, 0xff, 1, Single, -1) // div
    case _ => NO_ROW
  }

  function Rows90(op: Opcode): Row {
    match op
    case 90 => Row(0x5c, 0xff, 1, Single, -1) // div.un
    case 91 => Row(0x25, 0xff, 1, Single, 1) // dup
    case 92 => Row(0xdc, 0xff, 1, Single, 0) // endfault
    case 93 => Row(0xfe, 0x17, 2, Single, -1) // endfilter
    case 94 => Row(0xdc, 0xff, 1, Single, 0) // endfinally
    case 95 => Row(0xfe, 0x18, 2, Single, -3) // initblk
    case 96 => Row(0xfe, 0x15, 6, Index4, -1) // initobj
    case 97 => Row(0x75, 0xff, 5, Index4, 0) // isinst
    case 98 => Row(0x27, 0xff, 5, Index4, 0) // jmp
    case 99 => Row(0xfe, 0x09, 4, Index2, 1) // ldarg
    case 100 => Row(0x02, 0xff, 1, Single, 1) // ldarg.0
    case 101 => Row(0x03, 0xff, 1, Single, 1) // ldarg.1
    case 102 => Row(0x04, 0xff, 1, Single, 1) // ldarg.2
    case 103 => Row(0x05, 0xff, 1, Single, 1) // ldarg.3
    case 104 => Row(0xe, 0xff, 2, Index1, 1) // ldarg.s
    case _ => NO_ROW
  }

  function Rows105(op: Opcode): Row {
    match op
    case 105 => Row(0xfe, 0x0a, 4, Index2, 1) // ldarga
    case 106 => Row(0x0f, 0xff, 2, Index1, 1) // ldarga.s
    case 107 => Row(0x20, 0xff, 5, Immed4, 1) // ldc.i4
    case 108 => Row(0x16, 0xff, 1, Single, 1) // ldc.i4.0
    case 109 => Row(0x17, 0xff, 1, Single, 1) // ldc.i4.1
    case 110 => Row(0x18, 0xff, 1, Single, 1) // ldc.i4.2
    case 111 => Row(0x19, 0xff, 1, Single, 1) // ldc.i4.3
    case 112 => Row(0x1a, 0xff, 1, Single, 1) // ldc.i4.4
    case 113 => Row(0x1b, 0xff, 1, Single, 1) // ldc.i4.5
    case 114 => Row(0x1c, 0xff, 1, Single, 1) // ldc.i4.6
    case 115 => Row(0x1d, 0xff, 1, Single, 1) // ldc.i4.7
    case 116 => Row(0x1e, 0xff, 1, Single, 1) // ldc.i4.8
    case 117 => Row(0x15, 0xff, 1, Single, 1) // ldc.i4.m1
    case 118 => Row(0x15, 0xff, 1, Single, 1) // ldc.i4.M1
    case 119 => Row(0x1f, 0xff, 2, Immed1, 1) // ldc.i4.s
    case _ => NO_ROW
  }

  function Rows120(op: Opcode): Row {
    match op
    case 120 => Row(0x21, 0xff, 9, Immed8, 1) // ldc.i8
    case 121 => Row(0x22, 0xff, 5, Float4, 1) // ldc.r4
    case 122 => Row(0x23, 0xff, 9, Float8, 1) // ldc.r8
    case 123 => Row(0xa3, 0xff, 5, Index4, -1) // ldelem
    case 124 => Row(0x97, 0xff, 1, Single, -1) // ldelem.i
    case 125 => Row(0x90, 0xff, 1, Single, -1) // ldelem.i1
    case 126 => Row(0x92, 0xff, 1, Single, -1) // ldelem.i2
    case 127 => Row(0x94, 0xff, 1, Single, -1) // ldelem.i4
    case 128 => Row(0x96, 0xff, 1, Single, -1) // ldelem.i8
    case 129 => Row(0x98, 0xff, 1, Single, -1) // ldelem.r4
    case 130 => Row(0x99, 0xff, 1, Single, -1) // ldelem.r8
    case 131 => Row(0x9a, 0xff, 1, Single, -1) // ldelem.ref
    case 132 => Row(0x91, 0xff, 1, Single, -1) // ldelem.u1
    case 133 => Row(0x93, 0xff, 1, Single, -1) // ldelem.u2
    case 134 => Row(0x95, 0xff, 1, Single, -1) // ldelem.u4
    case _ => NO_ROW
  }

  function Rows135(op: Opcode): Row {
    match op
    case 135 => Row(0x96, 0xff, 1, Single, -1) // ldelem.u8
    case 136 => Row(0x8f, 0xff, 5, Index4, -1) // ldelema
    case 137 => Row(0x7b, 0xff, 5, Index4, 0) // ldfld
    case 138 => Row(0x7c, 0xff, 5, Index4, 0) // ldflda
    case 139 => Row(0xfe, 0x06, 6, Index4, 1) // ldftn
    case 140 => Row(0x4d, 0xff, 1, Single, 0) // ldind.i
    case 141 => Row(0x46, 0xff, 1, Single, 0) // ldind.i1
    case 142 => Row(0x48, 0xff, 1, Single, 0) // ldind.i2
    case 143 => Row(0x4a, 0xff, 1, Single, 0) // ldind.i4
    case 144 => Row(0x4c, 0xff, 1, Single, 0) // ldind.i8
    case 145 => Row(0x4e, 0xff, 1, Single, 0) // ldind.r4
    case 146 => Row(0x4f, 0xff, 1, Single, 0) // ldind.r8
    case 147 => Row(0x50, 0xff, 1, Single, 0) // ldind.ref
    case 148 => Row(0x47, 0xff, 1, Single, 0) // ldind.u1
    case 149 => Row(0x49, 0xff, 1, Single, 0) // ldind.u2
    case _ => NO_ROW
  }

  function Rows150(op: Opcode): Row {
    match op
    case 150 => Row(0x4b, 0xff, 1, Single, 0) // ldind.u4
    case 151 => Row(0x4c, 0xff, 1, Single, 0) // ldind.u8
    case 152 => Row(0x8e, 0xff, 1, Single, 0) // ldlen
    case 153 => Row(0xfe, 0x0c, 4, Index2, 1) // ldloc
    case 154 => Row(0x06, 0xff, 1, Single, 1) // ldloc.0
    case 155 => Row(0x07, 0xff, 1, Single, 1) // ldloc.1
    case 156 => Row(0x08, 0xff, 1, Single, 1) // ldloc.2
    case 157 => Row(0x09, 0xff, 1, Single, 1) // ldloc.3
    case 158 => Row(0x11, 0xff, 2, Index1, 1) // ldloc.s
    case 159 => Row(0xfe, 0x0d, 4, Index2, 1) // ldloca
    case 160 => Row(0x12, 0xff, 2, Index1, 1) // ldloca.s
    case 161 => Row(0x14, 0xff, 1, Single, 1) // ldnull
    case 162 => Row(0x71, 0xff, 5, Index4, 0) // ldobj
    case 163 => Row(0x7e, 0xff, 5, Index4, 1) // ldsfld
    case 164 => Row(0x7f, 0xff, 5, Index4, 1) // ldsflda
    case _ => NO_ROW
  }

  function Rows165(op: Opcode): Row {
    match op
    case 165 => Row(0x72, 0xff, 5, Index4, 1) // ldstr
    case 166 => Row(0xd0, 0xff, 5, Index4, 1) // ldtoken
    case 167 => Row(0xfe, 0x07, 6, Index4, 1) // ldvirtftn
    case 168 => Row(0xdd, 0xff, 5, Rel4, 0) // leave
    case 169 => Row(0xde, 0xff, 2, Rel1, 0) // leave.s
    case 170 => Row(0xfe, 0x0f, 2, Single, 0) // localloc
    case 171 => Row(0xc6, 0xff, 5, Index4, 0) // mkrefany
    case 172 => Row(0x5a, 0xff, 1, Single, -1) // mul
    case 173 => Row(0xd8, 0xff, 1, Single, -1) // mul.ovf
    case 174 => Row(0xd9, 0xff, 1, Single, -1) // mul.ovf.un
    case 175 => Row(0x65, 0xff, 1, Single, 0) // neg
    case 176 => Row(0x8d, 0xff, 5, Index4, 0) // newarr
    case 177 => Row(0x73, 0xff, 5, Index4, 1) // newobj
    case 178 => Row(0xfe, 0x19, 3, Immed1, 0) // no.
    case 179 => Row(0x00, 0xff, 1, Single, 0) // nop
    case _ => NO_ROW
  }

  function Rows180(op: Opcode): Row {
    match op
    case 180 => Row(0x66, 0xff, 1, Single, 0) // not
    case 181 => Row(0x60, 0xff, 1, Single, -1) // or
    case 182 => Row(0x26, 0xff, 1, Single, -1) // pop
    case 183 => Row(0xfe, 0x1e, 2, Single, 0) // readonly.
    case 184 => Row(0xfe, 0x1d, 2, Single, 0) // refanytype
    case 185 => Row(0xc2, 0xff, 5, Index4, 0) // refanyval
    case 186 => Row(0x5d, 0xff, 1, Single, -1) // rem
    case 187 => Row(0x5e, 0xff, 1, Single, -1) // rem.un
    case 188 => Row(0x2a, 0xff, 1, Single, 0) // ret
    case 189 => Row(0xfe, 0x1a, 2, Single, 0) // rethrow
    case 190 => Row(0x62, 0xff, 1, Single, -1) // shl
    case 191 => Row(0x63, 0xff, 1, Single, -1) // shr
    case 192 => Row(0x64, 0xff, 1, Single, -1) // shr.un
    case 193 => Row(0xfe, 0x1c, 6, Index4, 1) // sizeof
    case 194 => Row(0xfe, 0x0b, 4, Index2, -1) // starg
    case _ => NO_ROW
  }

  function Rows195(op: Opcode): Row {
    match op
    case 195 => Row(0x10, 0xff, 2, Index1, -1) // starg.s
    case 196 => Row(0xa4, 0xff, 5, Index4, -3) // stelem
    case 197 => Row(0x9b, 0xff, 1, Single, -3) // stelem.i
    case 198 => Row(0x9c, 0xff, 1, Single, -3) // stelem.i1
    case 199 => Row(0x9d, 0xff, 1, Single, -3) // stelem.i2
    case 200 => Row(0x9e, 0xff, 1, Single, -3) // stelem.i4
    case 201 => Row(0x9f, 0xff, 1, Single, -3) // stelem.i8
    case 202 => Row(0xa0, 0xff, 1, Single, -3) // stelem.r4
    case 203 => Row(0xa1, 0xff, 1, Single, -3) // stelem.r8
    case 204 => Row(0xa2, 0xff, 1, Single, -3) // stelem.ref
    case 205 => Row(0x7d, 0xff, 5, Index4, -2) // stfld
    case 206 => Row(0xdf, 0xff, 1, Single, -2) // stind.i
    case 207 => Row(0x52, 0xff, 1, Single, -2) // stind.i1
    case 208 => Row(0x53, 0xff, 1, Single, -2) // stind.i2
    case 209 => Row(0x54, 0xff, 1, Single, -2) // stind.i4
    case _ => NO_ROW
  }

  function Rows210(op: Opcode): Row {
    match op
    case 210 => Row(0x55, 0xff, 1, Single, -2) // stind.i8
    case 211 => Row(0x56, 0xff, 1, Single, -2) // stind.r4
    case 212 => Row(0x57, 0xff, 1, Single, -2) // stind.r8
    case 213 => Row(0x51, 0xff, 1, Single, -2) // stind.ref
    case 214 => Row(0xfe, 0xe, 4, Index2, -1) // stloc
    case 215 => Row(0x0a, 0xff, 1, Single, -1) // stloc.0
    case 216 => Row(0x0b, 0xff, 1, Single, -1) // stloc.1
    case 217 => Row(0x0c, 0xff, 1, Single, -1) // stloc.2
    case 218 => Row(0x0d, 0xff, 1, Single, -1) // stloc.3
    case 219 => Row(0x13, 0xff, 2, Index1, -1) // stloc.s
    case 220 => Row(0x81, 0xff, 5, Index4, -2) // stobj
    case 221 => Row(0x80, 0xff, 5, Index4, -1) // stsfld
    case 222 => Row(0x59, 0xff, 1, Single, -1) // sub
    case 223 => Row(0xda, 0xff, 1, Single, -1) // sub.ovf
    case 224 => Row(0xdb, 0xff, 1, Single, -1) // sub.ovf.un
    case _ => NO_ROW
  }

  function Rows225(op: Opcode): Row {
    match op
    case 225 => Row(0x45, 0xff, 0, SwitchTable, -1) // switch
    case 226 => Row(0xfe, 0x14, 2, Single, 0) // tail.
    case 227 => Row(0x7a, 0xff, 1, Single, 1) // throw
    case 228 => Row(0xfe, 12, 3, Single, 0) // unaligned.
    case 229 => Row(0x79, 0xff, 5, Index4, 0) // unbox
    case 230 => Row(0xa5, 0xff, 5, Index4, 0) // unbox.any
    case 231 => Row(0xfe, 13, 2, Single, 0) // volatile.
    case 232 => Row(0x61, 0xff, 1, Single, -1) // xor
    case _ => NO_ROW
  }

  function TableRow(op: Opcode): Row {
    if op < 15 then Rows0(op)
    else if op < 30 then Rows15(op)
    else if op < 45 then Rows30(op)
    else if op < 60 then Rows45(op)
    else if op < 75 then Rows60(op)
    else if op < 90 then Rows75(op)
    else if op < 105 then Rows90(op)
    else if op < 120 then Rows105(op)
    else if op < 135 then Rows120(op)
    else if op < 150 then Rows135(op)
    else if op < 165 then Rows150(op)
    else if op < 180 then Rows165(op)
    else if op < 195 then Rows180(op)
    else if op < 210 then Rows195(op)
    else if op < 225 then Rows210(op)
    else Rows225(op)
  }

  // Labels, comments and exception tags emit no bytes.
  predicate IsPseudo(op: Opcode) { op == LABEL || op == COMMENT || op == SEH }

  predicate IsRel4(op: Opcode) { TableRow(op).form == Rel4 }

  predicate IsRel1(op: Opcode) { TableRow(op).form == Rel1 }

  predicate IsBranch(op: Opcode) { IsRel1(op) || IsRel4(op) }

  // ---- The instruction set of ECMA-335 Partition III ----

  function EcmaFrom00(b: byte): Option<Opcode> {
    match b
    case 0x00 => Some(179) // nop
    case 0x01 => Some(32) // break
    case 0x02 => Some(100) // ldarg.0
    case 0x03 => Some(101) // ldarg.1
    case 0x04 => Some(102) // ldarg.2
    case 0x05 => Some(103) // ldarg.3
    case 0x06 => Some(154) // ldloc.0
    case 0x07 => Some(155) // ldloc.1
    case 0x08 => Some(156) // ldloc.2
    case 0x09 => Some(157) // ldloc.3
    case 0x0a => Some(215) // stloc.0
    case 0x0b => Some(216) // stloc.1
    case 0x0c => Some(217) // stloc.2
    case 0x0d => Some(218) // stloc.3
    case 0x0e => Some(104) // ldarg.s
    case 0x0f => Some(106) // ldarga.s
    case 0x10 => Some(195) // starg.s
    case 0x11 => Some(158) // ldloc.s
    case 0x12 => Some(160) // ldloca.s
    case 0x13 => Some(219) // stloc.s
    case _ => None
  }

  function EcmaFrom14(b: byte): Option<Opcode> {
    match b
    case 0x14 => Some(161) // ldnull
    case 0x15 => Some(117) // ldc.i4.m1
    case 0x16 => Some(108) // ldc.i4.0
    case 0x17 => Some(109) // ldc.i4.1
    case 0x18 => Some(110) // ldc.i4.2
    case 0x19 => Some(111) // ldc.i4.3
    case 0x1a => Some(112) // ldc.i4.4
    case 0x1b => Some(113) // ldc.i4.5
    case 0x1c => Some(114) // ldc.i4.6
    case 0x1d => Some(115) // ldc.i4.7
    case 0x1e => Some(116) // ldc.i4.8
    case 0x1f => Some(119) // ldc.i4.s
    case 0x20 => Some(107) // ldc.i4
    case 0x21 => Some(120) // ldc.i8
    case 0x22 => Some(121) // ldc.r4
    case 0x23 => Some(122) // ldc.r8
    case _ => None
  }

  function EcmaFrom25(b: byte): Option<Opcode> {
    match b
    case 0x25 => Some(91) // dup
    case 0x26 => Some(182) // pop
    case 0x27 => Some(98) // jmp
    case 0x28 => Some(43) // call
    case 0x29 => Some(44) // calli
    case 0x2a => Some(188) // ret
    case 0x2b => Some(31) // br.s
    case 0x2c => Some(34) // brfalse.s
    case 0x2d => Some(40) // brtrue.s
    case 0x2e => Some(10) // beq.s
    case 0x2f => Some(12) // bge.s
    case 0x30 => Some(16) // bgt.s
    case 0x31 => Some(20) // ble.s
    case 0x32 => Some(24) // blt.s
    case 0x33 => Some(28) // bne.un.s
    case 0x34 => Some(14) // bge.un.s
    case 0x35 => Some(18) // bgt.un.s
    case 0x36 => Some(22) // ble.un.s
    case 0x37 => Some(26) // blt.un.s
    case _ => None
  }

  function EcmaFrom38(b: byte): Option<Opcode> {
    match b
    case 0x38 => Some(30) // br
    case 0x39 => Some(33) // brfalse
    case 0x3a => Some(39) // brtrue
    case 0x3b => Some(9) // beq
    case 0x3c => Some(11) // bge
    case 0x3d => Some(15) // bgt
    case 0x3e => Some(19) // ble
    case 0x3f => Some(23) // blt
    case 0x40 => Some(27) // bne.un
    case 0x41 => Some(13) // bge.un
    case 0x42 => Some(17) // bgt.un
    case 0x43 => Some(21) // ble.un
    case 0x44 => Some(25) // blt.un
    case 0x45 => Some(225) // switch
    case _ => None
  }

  function EcmaFrom46(b: byte): Option<Opcode> {
    match b
    case 0x46 => Some(141) // ldind.i1
    case 0x47 => Some(148) // ldind.u1
    case 0x48 => Some(142) // ldind.i2
    case 0x49 => Some(149) // ldind.u2
    case 0x4a => Some(143) // ldind.i4
    case 0x4b => Some(150) // ldind.u4
    case 0x4c => Some(144) // ldind.i8
    case 0x4d => Some(140) // ldind.i
    case 0x4e => Some(145) // ldind.r4
    case 0x4f => Some(146) // ldind.r8
    case 0x50 => Some(147) // ldind.ref
    case 0x51 => Some(213) // stind.ref
    case 0x52 => Some(207) // stind.i1
    case 0x53 => Some(208) // stind.i2
    case 0x54 => Some(209) // stind.i4
    case 0x55 => Some(210) // stind.i8
    case 0x56 => Some(211) // stind.r4
    case 0x57 => Some(212) // stind.r8
    case _ => None
  }

  function EcmaFrom58(b: byte): Option<Opcode> {
    match b
    case 0x58 => Some(4) // add
    case 0x59 => Some(222) // sub
    case 0x5a => Some(172) // mul
    case 0x5b => Some(89) // div
    case 0x5c => Some(90) // div.un
    case 0x5d => Some(186) // rem
    case 0x5e => Some(187) // rem.un
    case 0x5f => Some(7) // and
    case 0x60 => Some(181) // or
    case 0x61 => Some(232) // xor
    case 0x62 => Some(190) // shl
    case 0x63 => Some(191) // shr
    case 0x64 => Some(192) // shr.un
    case 0x65 => Some(175) // neg
    case 0x66 => Some(180) // not
    case _ => None
  }

  function EcmaFrom67(b: byte): Option<Opcode> {
    match b
    case 0x67 => Some(55) // conv.i1
    case 0x68 => Some(56) // conv.i2
    case 0x69 => Some(57) // conv.i4
    case 0x6a => Some(58) // conv.i8
    case 0x6b => Some(80) // conv.r4
    case 0x6c => Some(81) // conv.r8
    case 0x6d => Some(85) // conv.u4
    case 0x6e => Some(86) // conv.u8
    case 0x6f => Some(45) // callvirt
    case 0x70 => Some(88) // cpobj
    case 0x71 => Some(162) // ldobj
    case 0x72 => Some(165) // ldstr
    case 0x73 => Some(177) // newobj
    case 0x74 => Some(46) // castclass
    case 0x75 => Some(97) // isinst
    case 0x76 => Some(79) // conv.r.un
    case _ => None
  }

  function EcmaFrom79(b: byte): Option<Opcode> {
    match b
    case 0x79 => Some(229) // unbox
    case 0x7a => Some(227) // throw
    case 0x7b => Some(137) // ldfld
    case 0x7c => Some(138) // ldflda
    case 0x7d => Some(205) // stfld
    case 0x7e => Some(163) // ldsfld
    case 0x7f => Some(164) // ldsflda
    case 0x80 => Some(221) // stsfld
    case 0x81 => Some(220) // stobj
    case 0x82 => Some(62) // conv.ovf.i1.un
    case 0x83 => Some(64) // conv.ovf.i2.un
    case 0x84 => Some(66) // conv.ovf.i4.un
    case 0x85 => Some(68) // conv.ovf.i8.un
    case 0x86 => Some(72) // conv.ovf.u1.un
    case 0x87 => Some(74) // conv.ovf.u2.un
    case 0x88 => Some(76) // conv.ovf.u4.un
    case 0x89 => Some(78) // conv.ovf.u8.un
    case 0x8a => Some(60) // conv.ovf.i.un
    case 0x8b => Some(70) // conv.ovf.u.un
    case 0x8c => Some(29) // box
    case 0x8d => Some(176) // newarr
    case 0x8e => Some(152) // ldlen
    case 0x8f => Some(136) // ldelema
    case _ => None
  }

  function EcmaFrom90(b: byte): Option<Opcode> {
    match b
    case 0x90 => Some(125) // ldelem.i1
    case 0x91 => Some(132) // ldelem.u1
    case 0x92 => Some(126) // ldelem.i2
    case 0x93 => Some(133) // ldelem.u2
    case 0x94 => Some(127) // ldelem.i4
    case 0x95 => Some(134) // ldelem.u4
    case 0x96 => Some(128) // ldelem.i8
    case 0x97 => Some(124) // ldelem.i
    case 0x98 => Some(129) // ldelem.r4
    case 0x99 => Some(130) // ldelem.r8
    case 0x9a => Some(131) // ldelem.ref
    case 0x9b => Some(197) // stelem.i
    case 0x9c => Some(198) // stelem.i1
    case 0x9d => Some(199) // stelem.i2
    case 0x9e => Some(200) // stelem.i4
    case 0x9f => Some(201) // stelem.i8
    case 0xa0 => Some(202) // stelem.r4
    case 0xa1 => Some(203) // stelem.r8
    case 0xa2 => Some(204) // stelem.ref
    case 0xa3 => Some(123) // ldelem
    case 0xa4 => Some(196) // stelem
    case 0xa5 => Some(230) // unbox.any
    case _ => None
  }

  function EcmaFromB3(b: byte): Option<Opcode> {
    match b
    case 0xb3 => Some(61) // conv.ovf.i1
    case 0xb4 => Some(71) // conv.ovf.u1
    case 0xb5 => Some(63) // conv.ovf.i2
    case 0xb6 => Some(73) // conv.ovf.u2
    case 0xb7 => Some(65) // conv.ovf.i4
    case 0xb8 => Some(75) // conv.ovf.u4
    case 0xb9 => Some(67) // conv.ovf.i8
    case 0xba => Some(77) // conv.ovf.u8
    case 0xc2 => Some(185) // refanyval
    case 0xc3 => Some(50) // ckfinite
    case 0xc6 => Some(171) // mkrefany
    case _ => None
  }

  function EcmaFromD0(b: byte): Option<Opcode> {
    match b
    case 0xd0 => Some(166) // ldtoken
    case 0xd1 => Some(84) // conv.u2
    case 0xd2 => Some(83) // conv.u1
    case 0xd3 => Some(54) // conv.i
    case 0xd4 => Some(59) // conv.ovf.i
    case 0xd5 => Some(69) // conv.ovf.u
    case 0xd6 => Some(5) // add.ovf
    case 0xd7 => Some(6) // add.ovf.un
    case 0xd8 => Some(173) // mul.ovf
    case 0xd9 => Some(174) // mul.ovf.un
    case 0xda => Some(223) // sub.ovf
    case 0xdb => Some(224) // sub.ovf.un
    case 0xdc => Some(94) // endfinally
    case 0xdd => Some(168) // leave
    case 0xde => Some(169) // leave.s
    case 0xdf => Some(206) // stind.i
    case 0xe0 => Some(82) // conv.u
    case _ => None
  }

  function EcmaTwoByte(b: byte): Option<Opcode> {
    match b
    case 0x00 => Some(8) // arglist
    case 0x01 => Some(47) // ceq
    case 0x02 => Some(48) // cgt
    case 0x03 => Some(49) // cgt.un
    case 0x04 => Some(51) // clt
    case 0x05 => Some(52) // clt.un
    case 0x06 => Some(139) // ldftn
    case 0x07 => Some(167) // ldvirtftn
    case 0x09 => Some(99) // ldarg
    case 0x0a => Some(105) // ldarga
    case 0x0b => Some(194) // starg
    case 0x0c => Some(153) // ldloc
    case 0x0d => Some(159) // ldloca
    case 0x0e => Some(214) // stloc
    case 0x0f => Some(170) // localloc
    case 0x11 => Some(93) // endfilter
    case 0x12 => Some(228) // unaligned.
    case 0x13 => Some(231) // volatile.
    case 0x14 => Some(226) // tail.
    case 0x15 => Some(96) // initobj
    case 0x16 => Some(53) // constrained.
    case 0x17 => Some(87) // cpblk
    case 0x18 => Some(95) // initblk
    case 0x19 => Some(178) // no.
    case 0x1a => Some(189) // rethrow
    case 0x1c => Some(193) // sizeof
    case 0x1d => Some(184) // refanytype
    case 0x1e => Some(183) // readonly.
    case _ => None
  }

  function EcmaOpcode(b1: byte, b2: byte): Option<Opcode> {
    if b1 == 0xfe then EcmaTwoByte(b2)
    else if b1 < 0x14 then EcmaFrom00(b1)
    else if b1 < 0x25 then EcmaFrom14(b1)
    else if b1 < 0x38 then EcmaFrom25(b1)
    else if b1 < 0x46 then EcmaFrom38(b1)
    else if b1 < 0x58 then EcmaFrom46(b1)
    else if b1 < 0x67 then EcmaFrom58(b1)
    else if b1 < 0x79 then EcmaFrom67(b1)
    else if b1 < 0x90 then EcmaFrom79(b1)
    else if b1 < 0xb3 then EcmaFrom90(b1)
    else if b1 < 0xd0 then EcmaFromB3(b1)
    else EcmaFromD0(b1)
  }

  // The operand that follows opcode b1 (or 0xfe b2).
  function EcmaForm(b1: byte, b2: byte): Form {
    if b1 == 0xfe then
      if 0x06 <= b2 <= 0x07 || 0x15 <= b2 <= 0x16 || b2 == 0x1c then Index4
      else if 0x09 <= b2 <= 0x0e then Index2
      else if b2 == 0x12 || b2 == 0x19 then Immed1
      else Single
    else if 0x0e <= b1 <= 0x13 then Index1
    else if b1 == 0x1f then Immed1
    else if b1 == 0x20 then Immed4
    else if b1 == 0x21 then Immed8
    else if b1 == 0x22 then Float4
    else if b1 == 0x23 then Float8
    else if 0x2b <= b1 <= 0x37 || b1 == 0xde then Rel1
    else if 0x38 <= b1 <= 0x44 || b1 == 0xdd then Rel4
    else if b1 == 0x45 then SwitchTable
    else if 0x27 <= b1 <= 0x29 || 0x6f <= b1 <= 0x75 || b1 == 0x79 || 0x7b <= b1 <= 0x81
         || 0x8c <= b1 <= 0x8d || b1 == 0x8f || 0xa3 <= b1 <= 0xa5
         || b1 == 0xc2 || b1 == 0xc6 || b1 == 0xd0 then Index4
    else Single
  }

  // Mnemonics that name the same instruction.
  function Canonical(op: Opcode): Opcode {
    match op
    case 37 => 33 // brnull is brfalse
    case 41 => 33 // brzero is brfalse
    case 38 => 34 // brnull.s is brfalse.s
    case 42 => 34 // brzero.s is brfalse.s
    case 35 => 39 // brinst is brtrue
    case 36 => 40 // brinst.s is brtrue.s
    case 92 => 94 // endfault is endfinally
    case 135 => 128 // ldelem.u8 is ldelem.i8
    case 151 => 144 // ldind.u8 is ldind.i8
    case 118 => 117 // ldc.i4.M1 is ldc.i4.m1
    case _ => op
  }

  function OpcodeLength(r: Row): nat { if r.op2 != 0xff then 2 else 1 }

  function OperandLength(f: Form): nat {
    match f
    case NoForm => 0
    case Single => 0
    case SwitchTable => 0
    case Rel1 | Index1 | Immed1 => 1
    case Index2 => 2
    case Rel4 | Index4 | Immed4 | Float4 => 4
    case Immed8 | Float8 => 8
  }

  // The row encodes the instruction it is named after: same opcode bytes,
  // same operand, and a declared length that is the encoded length.
  predicate Faithful(op: Opcode) {
    var r := TableRow(op);
    && EcmaOpcode(r.op1, r.op2) == Some(Canonical(op))
    && EcmaForm(r.op1, r.op2) == r.form
    && (r.op1 == 0xfe <==> r.op2 != 0xff)
    && r.bytes == (if op == SWITCH then 0 else OpcodeLength(r) + OperandLength(r.form))
  }

  // The three rows whose opcode bytes belong to another instruction.
  predicate Misencoded(op: Opcode) { op == ENDFILTER || op == UNALIGNED || op == VOLATILE }

  predicate RowIsEcma(op: Opcode) { Faithful(op) <==> !Misencoded(op) }

  lemma RowsFrom0(op: Opcode)
    requires 4 <= op < 15
    ensures RowIsEcma(op)
  {
  }

  lemma RowsFrom15(op: Opcode)
    requires 15 <= op < 30
    ensures RowIsEcma(op)
  {
  }

  lemma RowsFrom30(op: Opcode)
    requires 30 <= op < 45
    ensures RowIsEcma(op)
  {
  }

  lemma RowsFrom45(op: Opcode)
    requires 45 <= op < 60
    ensures RowIsEcma(op)
  {
  }

  lemma RowsFrom60(op: Opcode)
    requires 60 <= op < 75
    ensures RowIsEcma(op)
  {
  }

  lemma RowsFrom75(op: Opcode)
    requires 75 <= op < 90
    ensures RowIsEcma(op)
  {
  }

  lemma RowsFrom90(op: Opcode)
    requires 90 <= op < 105
    ensures RowIsEcma(op)
  {
  }

  lemma RowsFrom105(op: Opcode)
    requires 105 <= op < 120
    ensures RowIsEcma(op)
  {
  }

  lemma RowsFrom120(op: Opcode)
    requires 120 <= op < 135
    ensures RowIsEcma(op)
  {
  }

  lemma RowsFrom135(op: Opcode)
    requires 135 <= op < 150
    ensures RowIsEcma(op)
  {
  }

  lemma RowsFrom150(op: Opcode)
    requires 150 <= op < 165
    ensures RowIsEcma(op)
  {
  }

  lemma RowsFrom165(op: Opcode)
    requires 165 <= op < 180
    ensures RowIsEcma(op)
  {
  }

  lemma RowsFrom180(op: Opcode)
    requires 180 <= op < 195
    ensures RowIsEcma(op)
  {
  }

  lemma RowsFrom195(op: Opcode)
    requires 195 <= op < 210
    ensures RowIsEcma(op)
  {
  }

  lemma RowsFrom210(op: Opcode)
    requires 210 <= op < 225
    ensures RowIsEcma(op)
  {
  }

  lemma RowsFrom225(op: Opcode)
    requires 225 <= op < 233
    ensures RowIsEcma(op)
  {
  }

  // Every instruction row except endfilter, unaligned. and volatile. is the
  // row of ECMA-335, and those three are not.
  lemma TableIsEcma(op: Opcode)
    requires op >= 4
    ensures Faithful(op) <==> !Misencoded(op)
  {
    hide TableRow, EcmaOpcode, EcmaForm, Canonical;
    if op < 15 { RowsFrom0(op); }
    else if op < 30 { RowsFrom15(op); }
    else if op < 45 { RowsFrom30(op); }
    else if op < 60 { RowsFrom45(op); }
    else if op < 75 { RowsFrom60(op); }
    else if op < 90 { RowsFrom75(op); }
    else if op < 105 { RowsFrom90(op); }
    else if op < 120 { RowsFrom105(op); }
    else if op < 135 { RowsFrom120(op); }
    else if op < 150 { RowsFrom135(op); }
    else if op < 165 { RowsFrom150(op); }
    else if op < 180 { RowsFrom165(op); }
    else if op < 195 { RowsFrom180(op); }
    else if op < 210 { RowsFrom195(op); }
    else if op < 225 { RowsFrom210(op); }
    else { RowsFrom225(op); }
  }

  // The short form follows its long form in the enumeration.
  function Rel4To1(op: Opcode): (short: Opcode)
    requires IsRel4(op)
  {
    op + 1
  }

  lemma RelPair(op: Opcode)
    requires IsRel4(op)
    ensures IsRel1(Rel4To1(op)) && !IsRel4(Rel4To1(op)) && op >= 4
    ensures TableRow(op).bytes == 5 && TableRow(Rel4To1(op)).bytes == 2
    ensures Canonical(Rel4To1(op)) == Canonical(op) + 1
    ensures op != SWITCH && Rel4To1(op) != SWITCH
    ensures !Misencoded(op) && !Misencoded(Rel4To1(op))
  {
  }
}
