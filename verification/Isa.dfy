/**
 The instruction predicates of perf-model/isa.py that the cycle model consults.

 An instruction is the record of what decoding yields: the name of its base encoding, the register
 fields its format has (a format without a field leaves it `None`), and its offset as the unsigned
 32-bit value the decoder returns.  The base `C.J[AL]R/C.MV/C.ADD` is split into the five names its
 format distinguishes, and `C.LUI/C.ADDI16SP` is kept as one.
 */
module Isa {
  import opened Prelude

  datatype Base =
    // compressed encodings
    | CAddi4spn | CFld | CLw | CFlw | CFsd | CSw | CFsw
    | CAddi | CJal | CLi | CLuiAddi16sp | CMiscAlu | CJ | CBeqz | CBnez
    | CSlli | CFldsp | CLwsp | CFlwsp | CFsdsp | CSwsp | CFswsp
    | CJr | CJalr | CMv | CAdd | CEbreak
    // 32-bit encodings
    | Load | Store | Branch | Jalr | Jal | OpImm | Op | Op32 | Auipc | Lui | System

  datatype Instr = Instr(
    base: Base,
    address: nat,
    rd: Option<nat>,
    rs1: Option<nat>,
    rs2: Option<nat>,
    funct7: nat,
    offset: nat)
  {
    predicate IsCompressed() {
      !(base.Load? || base.Store? || base.Branch? || base.Jalr? || base.Jal? || base.OpImm?
        || base.Op? || base.Op32? || base.Auipc? || base.Lui? || base.System?)
    }

    function Size(): nat {
      if IsCompressed() then 2 else 4
    }

    function NextAddr(): nat {
      address + Size()
    }

    predicate IsLoad() {
      base.CLw? || base.CLwsp? || base.Load? || base.CFld? || base.CFlw? || base.CFldsp? || base.CFlwsp?
    }

    predicate IsStore() {
      base.CSw? || base.CSwsp? || base.Store? || base.CFsd? || base.CFsw? || base.CFsdsp? || base.CFswsp?
    }

    predicate IsBranch() {
      base.CBeqz? || base.CBnez? || base.Branch?
    }

    predicate IsRegJump() {
      base.Jalr? || base.CJalr? || base.CJr?
    }

    predicate IsJump() {
      base.Jal? || base.CJal? || base.CJ?
    }

    predicate IsMulDiv() {
      (base.Op? || base.Op32?) && funct7 == 1
    }

    /** Does CVA6 take this instruction for a return? */
    predicate IsRet() {
      && IsRegJump()
      && IsRetReg(rs1)
      && (IsCompressed() || rs1 != rd)
    }

    /** Does CVA6 take this instruction for a call? */
    predicate IsCall() {
      base.CJal? || base.CJalr? || ((base.Jal? || base.Jalr?) && IsRetReg(rd))
    }

    /** Do this instruction and an older one write the same register other than x0? */
    predicate HasWawFrom(other: Instr) {
      other.rd.Some? && rd.Some? && other.rd == rd && other.rd != Some(0)
    }

    /** Does this instruction read a register that an older one writes? */
    predicate HasRawFrom(other: Instr) {
      other.rd.Some? && other.rd != Some(0) && (rs1 == other.rd || rs2 == other.rd)
    }

    /** Cycles from issue to completion. */
    function Duration(): nat {
      if IsLoad() || IsStore() || IsMulDiv() then 2 else 1
    }
  }

  /** The link registers ra (x1) and t0 (x5). */
  predicate IsRetReg(r: Option<nat>) {
    r == Some(1) || r == Some(5)
  }

  /** A 32-bit unsigned value read as two's complement. */
  function ToSigned(value: nat): (r: int)
    ensures value < 0x1_0000_0000 ==> -0x8000_0000 <= r < 0x8000_0000 && (r == value || r + 0x1_0000_0000 == value)
  {
    if value / 0x8000_0000 != 0 then value - 0x1_0000_0000 else value
  }
}
