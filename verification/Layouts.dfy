/** The bit layouts of the instruction words (crates/fors-asm/src/encode.rs; Arm Architecture
    Reference Manual DDI 0487, section C4.1): where each field sits, how a word's shape is told
    from its fixed bits, and that no two fields of a shape overlap. */
module Layouts {
  import opened Fields

  // ---- Fields, named by position where the manual has several names ----

  function Sf(w: bv32): bv32 { w >> 31 }

  function Op30(w: bv32): bv32 { (w >> 30) & 1 }

  function S29(w: bv32): bv32 { (w >> 29) & 1 }

  function Opc29(w: bv32): bv32 { (w >> 29) & 0x3 }

  function Size(w: bv32): bv32 { w >> 30 }

  function N22(w: bv32): bv32 { (w >> 22) & 1 }

  function N21(w: bv32): bv32 { (w >> 21) & 1 }

  function Shift22(w: bv32): bv32 { (w >> 22) & 0x3 }

  function Hw(w: bv32): bv32 { (w >> 21) & 0x3 }

  function Imm16(w: bv32): bv32 { (w >> 5) & 0xFFFF }

  function Imm12(w: bv32): bv32 { (w >> 10) & 0xFFF }

  function Imm6(w: bv32): bv32 { (w >> 10) & 0x3F }

  function Immr(w: bv32): bv32 { (w >> 16) & 0x3F }

  function Rd(w: bv32): bv32 { w & 0x1F }

  function Rn(w: bv32): bv32 { (w >> 5) & 0x1F }

  function Rm(w: bv32): bv32 { (w >> 16) & 0x1F }

  function Ra(w: bv32): bv32 { (w >> 10) & 0x1F }

  function Ext13(w: bv32): bv32 { (w >> 13) & 0x7 }

  function Imm3(w: bv32): bv32 { (w >> 10) & 0x7 }

  function Op31(w: bv32): bv32 { (w >> 21) & 0x7 }

  function O15(w: bv32): bv32 { (w >> 15) & 1 }

  function Cond12(w: bv32): bv32 { (w >> 12) & 0xF }

  function Op10(w: bv32): bv32 { (w >> 10) & 0x3 }

  function ImmLo(w: bv32): bv32 { (w >> 29) & 0x3 }

  function Off19(w: bv32): bv32 { (w >> 5) & 0x7_FFFF }

  function Off26(w: bv32): bv32 { w & 0x3FF_FFFF }

  function Cond0(w: bv32): bv32 { w & 0xF }

  function Nz(w: bv32): bv32 { (w >> 24) & 1 }

  function B40(w: bv32): bv32 { (w >> 19) & 0x1F }

  function Off14(w: bv32): bv32 { (w >> 5) & 0x3FFF }

  function V(w: bv32): bv32 { (w >> 26) & 1 }

  function Imm9(w: bv32): bv32 { (w >> 12) & 0x1FF }

  function Mode23(w: bv32): bv32 { (w >> 23) & 0x3 }

  function Imm7(w: bv32): bv32 { (w >> 15) & 0x7F }

  function Opcode15(w: bv32): bv32 { (w >> 15) & 0x3F }

  function Imm8(w: bv32): bv32 { (w >> 13) & 0xFF }

  function Rmode(w: bv32): bv32 { (w >> 19) & 0x3 }

  function Opcode16(w: bv32): bv32 { (w >> 16) & 0x7 }

  function S12(w: bv32): bv32 { (w >> 12) & 1 }

  function Low16(w: bv32): bv32 { w & 0xFFFF }

  // ---- Words from fields ----

  function MovWideWord(sf: bv32, opc: bv32, hw: bv32, imm16: bv32, rd: bv32): bv32 {
    (sf << 31) | (opc << 29) | (0x25 << 23) | (hw << 21) | (imm16 << 5) | rd
  }

  function AddSubImmWord(sf: bv32, op: bv32, s: bv32, sh: bv32, imm12: bv32, rn: bv32, rd: bv32): bv32 {
    (sf << 31) | (op << 30) | (s << 29) | (0x22 << 23) | (sh << 22) | (imm12 << 10) | (rn << 5) | rd
  }

  function LogicalImmWord(sf: bv32, opc: bv32, n: bv32, immr: bv32, imms: bv32, rn: bv32, rd: bv32): bv32 {
    (sf << 31) | (opc << 29) | (0x24 << 23) | (n << 22) | (immr << 16) | (imms << 10) | (rn << 5) | rd
  }

  function BitfieldWord(sf: bv32, opc: bv32, n: bv32, immr: bv32, imms: bv32, rn: bv32, rd: bv32): bv32 {
    (sf << 31) | (opc << 29) | (0x26 << 23) | (n << 22) | (immr << 16) | (imms << 10) | (rn << 5) | rd
  }

  function AddSubShiftedWord(sf: bv32, op: bv32, s: bv32, kind: bv32, rm: bv32, imm6: bv32, rn: bv32, rd: bv32): bv32 {
    (sf << 31) | (op << 30) | (s << 29) | (0xB << 24)
    | (kind << 22) | (rm << 16) | (imm6 << 10) | (rn << 5) | rd
  }

  function AddSubExtendedWord(sf: bv32, op: bv32, s: bv32, rm: bv32, kind: bv32, imm3: bv32, rn: bv32, rd: bv32): bv32 {
    (sf << 31) | (op << 30) | (s << 29) | (0xB << 24) | (1 << 21)
    | (rm << 16) | (kind << 13) | (imm3 << 10) | (rn << 5) | rd
  }

  function LogicalShiftedWord(sf: bv32, opc: bv32, kind: bv32, n: bv32, rm: bv32, imm6: bv32, rn: bv32, rd: bv32): bv32 {
    (sf << 31) | (opc << 29) | (0xA << 24) | (kind << 22)
    | (n << 21) | (rm << 16) | (imm6 << 10) | (rn << 5) | rd
  }

  function DataProc2Word(sf: bv32, rm: bv32, opcode: bv32, rn: bv32, rd: bv32): bv32 {
    (sf << 31) | (0xD6 << 21) | (rm << 16) | (opcode << 10) | (rn << 5) | rd
  }

  function DataProc1Word(sf: bv32, opcode: bv32, rn: bv32, rd: bv32): bv32 {
    (sf << 31) | (1 << 30) | (0xD6 << 21) | (opcode << 10) | (rn << 5) | rd
  }

  function DataProc3Word(sf: bv32, op31: bv32, rm: bv32, o0: bv32, ra: bv32, rn: bv32, rd: bv32): bv32 {
    (sf << 31) | (0x1B << 24) | (op31 << 21) | (rm << 16) | (o0 << 15) | (ra << 10) | (rn << 5) | rd
  }

  function CondSelectWord(sf: bv32, op: bv32, rm: bv32, cond: bv32, op2: bv32, rn: bv32, rd: bv32): bv32 {
    (sf << 31) | (op << 30) | (0xD4 << 21) | (rm << 16) | (cond << 12) | (op2 << 10) | (rn << 5) | rd
  }

  function AdrWord(immlo: bv32, immhi: bv32, rd: bv32): bv32 {
    (immlo << 29) | (0x10 << 24) | (immhi << 5) | rd
  }

  function AdrpWord(immlo: bv32, immhi: bv32, rd: bv32): bv32 {
    (1 << 31) | (immlo << 29) | (0x10 << 24) | (immhi << 5) | rd
  }

  function BranchWord(link: bv32, imm26: bv32): bv32 {
    (link << 31) | (5 << 26) | imm26
  }

  function BranchCondWord(imm19: bv32, cond: bv32): bv32 {
    (0x2A << 25) | (imm19 << 5) | cond
  }

  function CompareBranchWord(sf: bv32, nz: bv32, imm19: bv32, rt: bv32): bv32 {
    (sf << 31) | (0x1A << 25) | (nz << 24) | (imm19 << 5) | rt
  }

  function TestBranchWord(b5: bv32, nz: bv32, b40: bv32, imm14: bv32, rt: bv32): bv32 {
    (b5 << 31) | (0x1B << 25) | (nz << 24) | (b40 << 19) | (imm14 << 5) | rt
  }

  function BranchRegWord(rn: bv32): bv32 {
    (rn << 5) | 0xD61F_0000
  }

  function BranchLinkRegWord(rn: bv32): bv32 {
    (rn << 5) | 0xD63F_0000
  }

  function RetWord(rn: bv32): bv32 {
    (rn << 5) | 0xD65F_0000
  }

  function LoadStoreScaledWord(size: bv32, v: bv32, opc: bv32, imm12: bv32, rn: bv32, rt: bv32): bv32 {
    (size << 30) | (7 << 27) | (v << 26) | (1 << 24) | (opc << 22) | (imm12 << 10) | (rn << 5) | rt
  }

  function LoadStoreSimm9Word(size: bv32, v: bv32, opc: bv32, imm9: bv32, idx: bv32, rn: bv32, rt: bv32): bv32 {
    (size << 30) | (7 << 27) | (v << 26) | (opc << 22) | (imm9 << 12) | (idx << 10) | (rn << 5) | rt
  }

  function LoadStoreRegWord(size: bv32, v: bv32, opc: bv32, rm: bv32, option: bv32, s: bv32, rn: bv32, rt: bv32): bv32 {
    (size << 30) | (7 << 27) | (v << 26) | (opc << 22) | (1 << 21)
    | (rm << 16) | (option << 13) | (s << 12) | (2 << 10) | (rn << 5) | rt
  }

  function LoadStorePairWord(opc: bv32, mode: bv32, l: bv32, imm7: bv32, rt2: bv32, rn: bv32, rt1: bv32): bv32 {
    (opc << 30) | (5 << 27) | (mode << 23) | (l << 22) | (imm7 << 15) | (rt2 << 10) | (rn << 5) | rt1
  }

  function NopWord(): bv32 {
    0xD503_201F
  }

  function BrkWord(imm16: bv32): bv32 {
    (imm16 << 5) | 0xD420_0000
  }

  function SvcWord(imm16: bv32): bv32 {
    (imm16 << 5) | 0xD400_0001
  }

  function UdfWord(imm16: bv32): bv32 {
    imm16
  }

  function FpDataProc1Word(ty: bv32, opcode: bv32, rn: bv32, rd: bv32): bv32 {
    (0x1E << 24) | (ty << 22) | (1 << 21) | (opcode << 15) | (0x10 << 10) | (rn << 5) | rd
  }

  function FpDataProc2Word(ty: bv32, rm: bv32, opcode: bv32, rn: bv32, rd: bv32): bv32 {
    (0x1E << 24) | (ty << 22) | (1 << 21) | (rm << 16) | (opcode << 12) | (2 << 10) | (rn << 5) | rd
  }

  function FpCompareWord(ty: bv32, rm: bv32, rn: bv32): bv32 {
    (0x1E << 24) | (ty << 22) | (1 << 21) | (rm << 16) | (8 << 10) | (rn << 5)
  }

  function FpCondSelectWord(ty: bv32, rm: bv32, cond: bv32, rn: bv32, rd: bv32): bv32 {
    (0x1E << 24) | (ty << 22) | (1 << 21) | (rm << 16) | (cond << 12) | (3 << 10) | (rn << 5) | rd
  }

  function FpImmMoveWord(ty: bv32, imm8: bv32, rd: bv32): bv32 {
    (0x1E << 24) | (ty << 22) | (1 << 21) | (imm8 << 13) | (4 << 10) | rd
  }

  function FpIntWord(sf: bv32, ty: bv32, rmode: bv32, opcode: bv32, rn: bv32, rd: bv32): bv32 {
    (sf << 31) | (0x1E << 24) | (ty << 22) | (1 << 21) | (rmode << 19) | (opcode << 16) | (rn << 5) | rd
  }

  function FpMaddWord(ty: bv32, rm: bv32, ra: bv32, rn: bv32, rd: bv32): bv32 {
    (0x1F << 24) | (ty << 22) | (rm << 16) | (ra << 10) | (rn << 5) | rd
  }

  // ---- Shapes from words ----

  datatype Shape =
    | SMovWide
    | SAddSubImm
    | SLogicalImm
    | SBitfield
    | SAddSubShifted
    | SAddSubExtended
    | SLogicalShifted
    | SDataProc2
    | SDataProc1
    | SDataProc3
    | SCondSelect
    | SAdr
    | SAdrp
    | SBranch
    | SBranchCond
    | SCompareBranch
    | STestBranch
    | SBranchReg
    | SBranchLinkReg
    | SRet
    | SLoadStoreScaled
    | SLoadStoreSimm9
    | SLoadStoreReg
    | SLoadStorePair
    | SNop
    | SBrk
    | SSvc
    | SUdf
    | SFpDataProc1
    | SFpDataProc2
    | SFpCompare
    | SFpCondSelect
    | SFpImmMove
    | SFpInt
    | SFpMadd
    | Unknown

  /** The shape whose fixed bits the word carries; floating-point data processing is told by bits
      28 to 25. */
  function ShapeOf(w: bv32): Shape {
    if w & 0x1E00_0000 == 0x1E00_0000 then FpShapeOf(w) else IntegerShapeOf(w)
  }

  function FpShapeOf(w: bv32): Shape {
    if w & 0xFFA0_7C00 == 0x1E20_4000 then SFpDataProc1
    else if w & 0xFFA0_0C00 == 0x1E20_0800 then SFpDataProc2
    else if w & 0xFFA0_FC1F == 0x1E20_2000 then SFpCompare
    else if w & 0xFFA0_0C00 == 0x1E20_0C00 then SFpCondSelect
    else if w & 0xFFA0_1FE0 == 0x1E20_1000 then SFpImmMove
    else if w & 0x7FA0_FC00 == 0x1E20_0000 then SFpInt
    else if w & 0xFFA0_8000 == 0x1F00_0000 then SFpMadd
    else Unknown
  }

  function IntegerShapeOf(w: bv32): Shape {
    if w & 0x1F80_0000 == 0x1280_0000 then SMovWide
    else if w & 0x1F80_0000 == 0x1100_0000 then SAddSubImm
    else if w & 0x1F80_0000 == 0x1200_0000 then SLogicalImm
    else if w & 0x1F80_0000 == 0x1300_0000 then SBitfield
    else if w & 0x1F20_0000 == 0xB00_0000 then SAddSubShifted
    else if w & 0x1FE0_0000 == 0xB20_0000 then SAddSubExtended
    else if w & 0x1F00_0000 == 0xA00_0000 then SLogicalShifted
    else if w & 0x7FE0_0000 == 0x1AC0_0000 then SDataProc2
    else if w & 0x7FFF_0000 == 0x5AC0_0000 then SDataProc1
    else if w & 0x7F00_0000 == 0x1B00_0000 then SDataProc3
    else if w & 0x3FE0_0000 == 0x1A80_0000 then SCondSelect
    else if w & 0x9F00_0000 == 0x1000_0000 then SAdr
    else if w & 0x9F00_0000 == 0x9000_0000 then SAdrp
    else if w & 0x7C00_0000 == 0x1400_0000 then SBranch
    else if w & 0xFF00_0010 == 0x5400_0000 then SBranchCond
    else if w & 0x7E00_0000 == 0x3400_0000 then SCompareBranch
    else if w & 0x7E00_0000 == 0x3600_0000 then STestBranch
    else if w & 0xFFFF_FC1F == 0xD61F_0000 then SBranchReg
    else if w & 0xFFFF_FC1F == 0xD63F_0000 then SBranchLinkReg
    else if w & 0xFFFF_FC1F == 0xD65F_0000 then SRet
    else if w & 0x3B00_0000 == 0x3900_0000 then SLoadStoreScaled
    else if w & 0x3B20_0000 == 0x3800_0000 then SLoadStoreSimm9
    else if w & 0x3B20_0C00 == 0x3820_0800 then SLoadStoreReg
    else if w & 0x3E00_0000 == 0x2800_0000 then SLoadStorePair
    else if w & 0xFFFF_FFFF == 0xD503_201F then SNop
    else if w & 0xFFE0_001F == 0xD420_0000 then SBrk
    else if w & 0xFFE0_001F == 0xD400_0001 then SSvc
    else if w & 0xFFFF_0000 == 0x0 then SUdf
    else Unknown
  }

  // ---- A word built from fields has its shape and gives every field back ----

  lemma MovWideFields(sf: bv32, opc: bv32, hw: bv32, imm16: bv32, rd: bv32)
    requires Fits(sf, 1) && Fits(opc, 0x3) && Fits(hw, 0x3) && Fits(imm16, 0xFFFF) && Fits(rd, 0x1F)
    ensures var w := MovWideWord(sf, opc, hw, imm16, rd);
            && ShapeOf(w) == SMovWide
            && Sf(w) == sf && Opc29(w) == opc && Hw(w) == hw && Imm16(w) == imm16 && Rd(w) == rd
  {
  }

  lemma AddSubImmFields(sf: bv32, op: bv32, s: bv32, sh: bv32, imm12: bv32, rn: bv32, rd: bv32)
    requires Fits(sf, 1) && Fits(op, 1) && Fits(s, 1) && Fits(sh, 1) && Fits(imm12, 0xFFF) && Fits(rn, 0x1F) && Fits(rd, 0x1F)
    ensures var w := AddSubImmWord(sf, op, s, sh, imm12, rn, rd);
            && ShapeOf(w) == SAddSubImm
            && Sf(w) == sf && Op30(w) == op && S29(w) == s && N22(w) == sh && Imm12(w) == imm12 && Rn(w) == rn && Rd(w) == rd
  {
  }

  lemma LogicalImmFields(sf: bv32, opc: bv32, n: bv32, immr: bv32, imms: bv32, rn: bv32, rd: bv32)
    requires Fits(sf, 1) && Fits(opc, 0x3) && Fits(n, 1) && Fits(immr, 0x3F) && Fits(imms, 0x3F) && Fits(rn, 0x1F) && Fits(rd, 0x1F)
    ensures var w := LogicalImmWord(sf, opc, n, immr, imms, rn, rd);
            && ShapeOf(w) == SLogicalImm
            && Sf(w) == sf && Opc29(w) == opc && N22(w) == n && Immr(w) == immr && Imm6(w) == imms && Rn(w) == rn && Rd(w) == rd
  {
  }

  lemma BitfieldFields(sf: bv32, opc: bv32, n: bv32, immr: bv32, imms: bv32, rn: bv32, rd: bv32)
    requires Fits(sf, 1) && Fits(opc, 0x3) && Fits(n, 1) && Fits(immr, 0x3F) && Fits(imms, 0x3F) && Fits(rn, 0x1F) && Fits(rd, 0x1F)
    ensures var w := BitfieldWord(sf, opc, n, immr, imms, rn, rd);
            && ShapeOf(w) == SBitfield
            && Sf(w) == sf && Opc29(w) == opc && N22(w) == n && Immr(w) == immr && Imm6(w) == imms && Rn(w) == rn && Rd(w) == rd
  {
  }

  lemma AddSubShiftedFields(sf: bv32, op: bv32, s: bv32, kind: bv32, rm: bv32, imm6: bv32, rn: bv32, rd: bv32)
    requires Fits(sf, 1) && Fits(op, 1) && Fits(s, 1) && Fits(kind, 0x3) && Fits(rm, 0x1F) && Fits(imm6, 0x3F) && Fits(rn, 0x1F) && Fits(rd, 0x1F)
    ensures var w := AddSubShiftedWord(sf, op, s, kind, rm, imm6, rn, rd);
            && ShapeOf(w) == SAddSubShifted
            && Sf(w) == sf && Op30(w) == op && S29(w) == s && Shift22(w) == kind && Rm(w) == rm && Imm6(w) == imm6 && Rn(w) == rn && Rd(w) == rd
  {
  }

  lemma AddSubExtendedFields(sf: bv32, op: bv32, s: bv32, rm: bv32, kind: bv32, imm3: bv32, rn: bv32, rd: bv32)
    requires Fits(sf, 1) && Fits(op, 1) && Fits(s, 1) && Fits(rm, 0x1F) && Fits(kind, 0x7) && Fits(imm3, 0x7) && Fits(rn, 0x1F) && Fits(rd, 0x1F)
    ensures var w := AddSubExtendedWord(sf, op, s, rm, kind, imm3, rn, rd);
            && ShapeOf(w) == SAddSubExtended
            && Sf(w) == sf && Op30(w) == op && S29(w) == s && Rm(w) == rm && Ext13(w) == kind && Imm3(w) == imm3 && Rn(w) == rn && Rd(w) == rd
  {
  }

  lemma LogicalShiftedFields(sf: bv32, opc: bv32, kind: bv32, n: bv32, rm: bv32, imm6: bv32, rn: bv32, rd: bv32)
    requires Fits(sf, 1) && Fits(opc, 0x3) && Fits(kind, 0x3) && Fits(n, 1) && Fits(rm, 0x1F) && Fits(imm6, 0x3F) && Fits(rn, 0x1F) && Fits(rd, 0x1F)
    ensures var w := LogicalShiftedWord(sf, opc, kind, n, rm, imm6, rn, rd);
            && ShapeOf(w) == SLogicalShifted
            && Sf(w) == sf && Opc29(w) == opc && Shift22(w) == kind && N21(w) == n && Rm(w) == rm && Imm6(w) == imm6 && Rn(w) == rn && Rd(w) == rd
  {
  }

  lemma DataProc2Fields(sf: bv32, rm: bv32, opcode: bv32, rn: bv32, rd: bv32)
    requires Fits(sf, 1) && Fits(rm, 0x1F) && Fits(opcode, 0x3F) && Fits(rn, 0x1F) && Fits(rd, 0x1F)
    ensures var w := DataProc2Word(sf, rm, opcode, rn, rd);
            && ShapeOf(w) == SDataProc2
            && Sf(w) == sf && Rm(w) == rm && Imm6(w) == opcode && Rn(w) == rn && Rd(w) == rd
  {
  }

  lemma DataProc1Fields(sf: bv32, opcode: bv32, rn: bv32, rd: bv32)
    requires Fits(sf, 1) && Fits(opcode, 0x3F) && Fits(rn, 0x1F) && Fits(rd, 0x1F)
    ensures var w := DataProc1Word(sf, opcode, rn, rd);
            && ShapeOf(w) == SDataProc1
            && Sf(w) == sf && Imm6(w) == opcode && Rn(w) == rn && Rd(w) == rd
  {
  }

  lemma DataProc3Fields(sf: bv32, op31: bv32, rm: bv32, o0: bv32, ra: bv32, rn: bv32, rd: bv32)
    requires Fits(sf, 1) && Fits(op31, 0x7) && Fits(rm, 0x1F) && Fits(o0, 1) && Fits(ra, 0x1F) && Fits(rn, 0x1F) && Fits(rd, 0x1F)
    ensures var w := DataProc3Word(sf, op31, rm, o0, ra, rn, rd);
            && ShapeOf(w) == SDataProc3
            && Sf(w) == sf && Op31(w) == op31 && Rm(w) == rm && O15(w) == o0 && Ra(w) == ra && Rn(w) == rn && Rd(w) == rd
  {
  }

  lemma CondSelectFields(sf: bv32, op: bv32, rm: bv32, cond: bv32, op2: bv32, rn: bv32, rd: bv32)
    requires Fits(sf, 1) && Fits(op, 1) && Fits(rm, 0x1F) && Fits(cond, 0xF) && Fits(op2, 0x3) && Fits(rn, 0x1F) && Fits(rd, 0x1F)
    ensures var w := CondSelectWord(sf, op, rm, cond, op2, rn, rd);
            && ShapeOf(w) == SCondSelect
            && Sf(w) == sf && Op30(w) == op && Rm(w) == rm && Cond12(w) == cond && Op10(w) == op2 && Rn(w) == rn && Rd(w) == rd
  {
  }

  lemma AdrFields(immlo: bv32, immhi: bv32, rd: bv32)
    requires Fits(immlo, 0x3) && Fits(immhi, 0x7_FFFF) && Fits(rd, 0x1F)
    ensures var w := AdrWord(immlo, immhi, rd);
            && ShapeOf(w) == SAdr
            && ImmLo(w) == immlo && Off19(w) == immhi && Rd(w) == rd
  {
  }

  lemma AdrpFields(immlo: bv32, immhi: bv32, rd: bv32)
    requires Fits(immlo, 0x3) && Fits(immhi, 0x7_FFFF) && Fits(rd, 0x1F)
    ensures var w := AdrpWord(immlo, immhi, rd);
            && ShapeOf(w) == SAdrp
            && ImmLo(w) == immlo && Off19(w) == immhi && Rd(w) == rd
  {
  }

  lemma BranchFields(link: bv32, imm26: bv32)
    requires Fits(link, 1) && Fits(imm26, 0x3FF_FFFF)
    ensures var w := BranchWord(link, imm26);
            && ShapeOf(w) == SBranch
            && Sf(w) == link && Off26(w) == imm26
  {
  }

  lemma BranchCondFields(imm19: bv32, cond: bv32)
    requires Fits(imm19, 0x7_FFFF) && Fits(cond, 0xF)
    ensures var w := BranchCondWord(imm19, cond);
            && ShapeOf(w) == SBranchCond
            && Off19(w) == imm19 && Cond0(w) == cond
  {
  }

  lemma CompareBranchFields(sf: bv32, nz: bv32, imm19: bv32, rt: bv32)
    requires Fits(sf, 1) && Fits(nz, 1) && Fits(imm19, 0x7_FFFF) && Fits(rt, 0x1F)
    ensures var w := CompareBranchWord(sf, nz, imm19, rt);
            && ShapeOf(w) == SCompareBranch
            && Sf(w) == sf && Nz(w) == nz && Off19(w) == imm19 && Rd(w) == rt
  {
  }

  lemma TestBranchFields(b5: bv32, nz: bv32, b40: bv32, imm14: bv32, rt: bv32)
    requires Fits(b5, 1) && Fits(nz, 1) && Fits(b40, 0x1F) && Fits(imm14, 0x3FFF) && Fits(rt, 0x1F)
    ensures var w := TestBranchWord(b5, nz, b40, imm14, rt);
            && ShapeOf(w) == STestBranch
            && Sf(w) == b5 && Nz(w) == nz && B40(w) == b40 && Off14(w) == imm14 && Rd(w) == rt
  {
  }

  lemma BranchRegFields(rn: bv32)
    requires Fits(rn, 0x1F)
    ensures var w := BranchRegWord(rn);
            && ShapeOf(w) == SBranchReg
            && Rn(w) == rn
  {
  }

  lemma BranchLinkRegFields(rn: bv32)
    requires Fits(rn, 0x1F)
    ensures var w := BranchLinkRegWord(rn);
            && ShapeOf(w) == SBranchLinkReg
            && Rn(w) == rn
  {
  }

  lemma RetFields(rn: bv32)
    requires Fits(rn, 0x1F)
    ensures var w := RetWord(rn);
            && ShapeOf(w) == SRet
            && Rn(w) == rn
  {
  }

  lemma LoadStoreScaledFields(size: bv32, v: bv32, opc: bv32, imm12: bv32, rn: bv32, rt: bv32)
    requires Fits(size, 0x3) && Fits(v, 1) && Fits(opc, 0x3) && Fits(imm12, 0xFFF) && Fits(rn, 0x1F) && Fits(rt, 0x1F)
    ensures var w := LoadStoreScaledWord(size, v, opc, imm12, rn, rt);
            && ShapeOf(w) == SLoadStoreScaled
            && Size(w) == size && V(w) == v && Shift22(w) == opc && Imm12(w) == imm12 && Rn(w) == rn && Rd(w) == rt
  {
  }

  lemma LoadStoreSimm9Fields(size: bv32, v: bv32, opc: bv32, imm9: bv32, idx: bv32, rn: bv32, rt: bv32)
    requires Fits(size, 0x3) && Fits(v, 1) && Fits(opc, 0x3) && Fits(imm9, 0x1FF) && Fits(idx, 0x3) && Fits(rn, 0x1F) && Fits(rt, 0x1F)
    ensures var w := LoadStoreSimm9Word(size, v, opc, imm9, idx, rn, rt);
            && ShapeOf(w) == SLoadStoreSimm9
            && Size(w) == size && V(w) == v && Shift22(w) == opc && Imm9(w) == imm9 && Op10(w) == idx && Rn(w) == rn && Rd(w) == rt
  {
  }

  lemma LoadStoreRegFields(size: bv32, v: bv32, opc: bv32, rm: bv32, option: bv32, s: bv32, rn: bv32, rt: bv32)
    requires Fits(size, 0x3) && Fits(v, 1) && Fits(opc, 0x3) && Fits(rm, 0x1F) && Fits(option, 0x7) && Fits(s, 1) && Fits(rn, 0x1F) && Fits(rt, 0x1F)
    ensures var w := LoadStoreRegWord(size, v, opc, rm, option, s, rn, rt);
            && ShapeOf(w) == SLoadStoreReg
            && Size(w) == size && V(w) == v && Shift22(w) == opc && Rm(w) == rm && Ext13(w) == option && S12(w) == s && Rn(w) == rn && Rd(w) == rt
  {
  }

  lemma LoadStorePairFields(opc: bv32, mode: bv32, l: bv32, imm7: bv32, rt2: bv32, rn: bv32, rt1: bv32)
    requires Fits(opc, 0x3) && Fits(mode, 0x3) && Fits(l, 1) && Fits(imm7, 0x7F) && Fits(rt2, 0x1F) && Fits(rn, 0x1F) && Fits(rt1, 0x1F)
    ensures var w := LoadStorePairWord(opc, mode, l, imm7, rt2, rn, rt1);
            && ShapeOf(w) == SLoadStorePair
            && Size(w) == opc && Mode23(w) == mode && N22(w) == l && Imm7(w) == imm7 && Ra(w) == rt2 && Rn(w) == rn && Rd(w) == rt1
  {
  }

  lemma NopFields()
    ensures var w := NopWord();
            && ShapeOf(w) == SNop
  {
  }

  lemma BrkFields(imm16: bv32)
    requires Fits(imm16, 0xFFFF)
    ensures var w := BrkWord(imm16);
            && ShapeOf(w) == SBrk
            && Imm16(w) == imm16
  {
  }

  lemma SvcFields(imm16: bv32)
    requires Fits(imm16, 0xFFFF)
    ensures var w := SvcWord(imm16);
            && ShapeOf(w) == SSvc
            && Imm16(w) == imm16
  {
  }

  lemma UdfFields(imm16: bv32)
    requires Fits(imm16, 0xFFFF)
    ensures var w := UdfWord(imm16);
            && ShapeOf(w) == SUdf
            && Low16(w) == imm16
  {
  }

  lemma FpDataProc1Fields(ty: bv32, opcode: bv32, rn: bv32, rd: bv32)
    requires Fits(ty, 1) && Fits(opcode, 0x3F) && Fits(rn, 0x1F) && Fits(rd, 0x1F)
    ensures var w := FpDataProc1Word(ty, opcode, rn, rd);
            && ShapeOf(w) == SFpDataProc1
            && N22(w) == ty && Opcode15(w) == opcode && Rn(w) == rn && Rd(w) == rd
  {
  }

  lemma FpDataProc2Fields(ty: bv32, rm: bv32, opcode: bv32, rn: bv32, rd: bv32)
    requires Fits(ty, 1) && Fits(rm, 0x1F) && Fits(opcode, 0xF) && Fits(rn, 0x1F) && Fits(rd, 0x1F)
    ensures var w := FpDataProc2Word(ty, rm, opcode, rn, rd);
            && ShapeOf(w) == SFpDataProc2
            && N22(w) == ty && Rm(w) == rm && Cond12(w) == opcode && Rn(w) == rn && Rd(w) == rd
  {
  }

  lemma FpCompareFields(ty: bv32, rm: bv32, rn: bv32)
    requires Fits(ty, 1) && Fits(rm, 0x1F) && Fits(rn, 0x1F)
    ensures var w := FpCompareWord(ty, rm, rn);
            && ShapeOf(w) == SFpCompare
            && N22(w) == ty && Rm(w) == rm && Rn(w) == rn
  {
  }

  lemma FpCondSelectFields(ty: bv32, rm: bv32, cond: bv32, rn: bv32, rd: bv32)
    requires Fits(ty, 1) && Fits(rm, 0x1F) && Fits(cond, 0xF) && Fits(rn, 0x1F) && Fits(rd, 0x1F)
    ensures var w := FpCondSelectWord(ty, rm, cond, rn, rd);
            && ShapeOf(w) == SFpCondSelect
            && N22(w) == ty && Rm(w) == rm && Cond12(w) == cond && Rn(w) == rn && Rd(w) == rd
  {
  }

  lemma FpImmMoveFields(ty: bv32, imm8: bv32, rd: bv32)
    requires Fits(ty, 1) && Fits(imm8, 0xFF) && Fits(rd, 0x1F)
    ensures var w := FpImmMoveWord(ty, imm8, rd);
            && ShapeOf(w) == SFpImmMove
            && N22(w) == ty && Imm8(w) == imm8 && Rd(w) == rd
  {
  }

  lemma FpIntFields(sf: bv32, ty: bv32, rmode: bv32, opcode: bv32, rn: bv32, rd: bv32)
    requires Fits(sf, 1) && Fits(ty, 1) && Fits(rmode, 0x3) && Fits(opcode, 0x7) && Fits(rn, 0x1F) && Fits(rd, 0x1F)
    ensures var w := FpIntWord(sf, ty, rmode, opcode, rn, rd);
            && ShapeOf(w) == SFpInt
            && Sf(w) == sf && N22(w) == ty && Rmode(w) == rmode && Opcode16(w) == opcode && Rn(w) == rn && Rd(w) == rd
  {
  }

  lemma FpMaddFields(ty: bv32, rm: bv32, ra: bv32, rn: bv32, rd: bv32)
    requires Fits(ty, 1) && Fits(rm, 0x1F) && Fits(ra, 0x1F) && Fits(rn, 0x1F) && Fits(rd, 0x1F)
    ensures var w := FpMaddWord(ty, rm, ra, rn, rd);
            && ShapeOf(w) == SFpMadd
            && N22(w) == ty && Rm(w) == rm && Ra(w) == ra && Rn(w) == rn && Rd(w) == rd
  {
  }
}
