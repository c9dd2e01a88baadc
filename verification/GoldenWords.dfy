/** The fixed bits of every layout, against one word each of the checked-in assembler output
    (crates/fors-asm/tests/golden/cases.txt): the encoder and the decoder share the layouts, so
    neither vouches for them. */
module GoldenWords {
  import opened Layouts

  lemma DataProcessing()
    ensures MovWideWord(1, 2, 0, 1, 0) == 0xD280_0020  // movz x0, #1
    ensures AddSubImmWord(1, 0, 0, 0, 0, 5, 31) == 0x9100_00BF  // mov sp, x5
    ensures AddSubShiftedWord(1, 0, 0, 0, 2, 0, 1, 0) == 0x8B02_0020  // add x0, x1, x2
    ensures AddSubExtendedWord(1, 1, 0, 5, 2, 2, 31, 31) == 0xCB25_4BFF  // sub sp, sp, w5, uxtw #2
    ensures LogicalImmWord(1, 0, 0, 0, 0, 1, 0) == 0x9200_0020  // and x0, x1, #0x100000001
    ensures LogicalShiftedWord(1, 2, 0, 0, 9, 63, 29, 1) == 0xCA09_FFA1  // eor x1, x29, x9, lsl #63
    ensures BitfieldWord(1, 2, 1, 63, 62, 1, 0) == 0xD37F_F820  // lsl x0, x1, #1
    ensures DataProc2Word(1, 2, 3, 1, 0) == 0x9AC2_0C20  // sdiv x0, x1, x2
    ensures DataProc1Word(1, 3, 1, 0) == 0xDAC0_0C20  // rev x0, x1
    ensures DataProc3Word(1, 0, 2, 1, 3, 1, 0) == 0x9B02_8C20  // msub x0, x1, x2, x3
    ensures CondSelectWord(1, 0, 2, 0, 0, 1, 0) == 0x9A82_0020  // csel x0, x1, x2, eq
  {
  }

  lemma Branches()
    ensures AdrWord(3, 524287, 0) == 0x70FF_FFE0  // adr x0, -1
    ensures AdrpWord(1, 0, 0) == 0xB000_0000  // adrp x0, #4096
    ensures BranchWord(0, 67108863) == 0x17FF_FFFF  // b #-4
    ensures BranchCondWord(0, 13) == 0x5400_000D  // b.le #0
    ensures CompareBranchWord(1, 0, 1, 3) == 0xB400_0023  // cbz x3, #4
    ensures TestBranchWord(0, 0, 5, 0, 4) == 0x3628_0004  // tbz w4, #5, #0
    ensures BranchRegWord(0) == 0xD61F_0000  // br x0
    ensures BranchLinkRegWord(0) == 0xD63F_0000  // blr x0
    ensures RetWord(0) == 0xD65F_0000  // ret x0
  {
  }

  lemma Transfers()
    ensures LoadStoreScaledWord(0, 0, 1, 0, 31, 0) == 0x3940_03E0  // ldrb w0, [sp]
    ensures LoadStoreSimm9Word(0, 0, 2, 1, 0, 31, 10) == 0x3880_13EA  // ldursb x10, [sp, #1]
    ensures LoadStoreRegWord(2, 0, 1, 2, 2, 1, 31, 0) == 0xB862_5BE0  // ldr w0, [sp, w2, uxtw #2]
    ensures LoadStorePairWord(2, 2, 0, 64, 3, 31, 2) == 0xA920_0FE2  // stp x2, x3, [sp, #-512]
  {
  }

  lemma Systems()
    ensures NopWord() == 0xD503_201F  // nop
    ensures BrkWord(0) == 0xD420_0000  // brk #0
    ensures SvcWord(0) == 0xD400_0001  // svc #0
    ensures UdfWord(0) == 0x0000_0000  // udf #0
  {
  }

  lemma Floats()
    ensures FpDataProc1Word(1, 0, 9, 0) == 0x1E60_4120  // fmov d0, d9
    ensures FpDataProc2Word(1, 2, 2, 1, 0) == 0x1E62_2820  // fadd d0, d1, d2
    ensures FpMaddWord(1, 2, 4, 1, 0) == 0x1F42_1020  // fmadd d0, d1, d2, d4
    ensures FpCompareWord(1, 1, 0) == 0x1E61_2000  // fcmp d0, d1
    ensures FpCondSelectWord(1, 2, 0, 1, 0) == 0x1E62_0C20  // fcsel d0, d1, d2, eq
    ensures FpImmMoveWord(1, 112, 5) == 0x1E6E_1005  // fmov d5, #1.0
    ensures FpIntWord(1, 1, 0, 7, 0, 6) == 0x9E67_0006  // fmov d6, x0
  {
  }
}
