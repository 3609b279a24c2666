/**
 The functional-unit busy flags of perf-model/model.py, as a value.
 */
module FunctionalUnits {
  import opened Isa

  datatype Fu = Alu | Mul | BranchUnit | Ldu | Stu

  function ToFu(i: Instr): Fu {
    if i.IsBranch() || i.IsRegJump() then BranchUnit
    else if i.IsMulDiv() then Mul
    else if i.IsLoad() then Ldu
    else if i.IsStore() then Stu
    else Alu
  }

  datatype Fus = Fus(
    hasAlu2: bool,
    alu: bool, mul: bool, branch: bool, ldu: bool, stu: bool, alu2: bool,
    issuedMul: bool)
  {
    predicate Alu2Ready() {
      hasAlu2 && !alu2
    }

    predicate IsReady(fu: Fu) {
      match fu
      case Alu => Alu2Ready() || !alu
      case Mul => !mul
      case BranchUnit => !branch
      case Ldu => !ldu
      case Stu => !stu
    }

    predicate IsReadyFor(i: Instr) {
      IsReady(ToFu(i))
    }

    /** Does issuing `i` now put it on the second ALU? */
    predicate TakesAlu2(i: Instr) {
      ToFu(i) == Alu && Alu2Ready()
    }

    function Issue(i: Instr): Fus {
      match ToFu(i)
      case Alu => if Alu2Ready() then this.(alu2 := true) else this.(alu := true, branch := true)
      case Mul => this.(mul := true, issuedMul := true)
      case BranchUnit => this.(alu := true, branch := true, stu := true)
      case Ldu => this.(ldu := true, stu := true)
      case Stu => this.(stu := true, ldu := true)
    }

    function Cycle(): Fus {
      Fus(hasAlu2, issuedMul, false, issuedMul, false, false, false, false)
    }
  }

  function NewFus(hasAlu2: bool): Fus {
    Fus(hasAlu2, false, false, false, false, false, false, false)
  }
}
