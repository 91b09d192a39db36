/** Opcode numbers (src/instructions.h). */
module Instructions {

  const NOP := 0
  const INCA := 1
  const DECA := 2
  const INCB := 3
  const RAM_AL := 4
  const RAM_BL := 5
  const RAM_A := 6
  const RAM_B := 7
  const INCSP := 8
  const DECSP := 9
  const PUSHA := 10
  const POPA := 11
  const PEEKA := 12
  const PEEKAR := 13
  const PUSHAR := 14
  const PUSHB := 15
  const POPB := 16
  const PEEKB := 17
  const SUM := 18
  const SUB := 19
  const SHR := 20
  const SHL := 21
  const AND := 22
  const CMPA := 23
  const CMPB := 24
  const JMP := 25
  const JMPR := 26
  const JMPRZ := 27
  const JMPRN := 28
  const JMPRC := 29
  const JMPRNZ := 30
  const JMPRNN := 31
  const JMPRNC := 32
  const JMPA := 33
  const JMPAR := 34
  const A_B := 35
  const B_A := 36
  const B_AH := 37
  const AL_rB := 38
  const A_rB := 39
  const rB_AL := 40
  const rB_A := 41
  const A_SP := 42
  const SP_A := 43
  const A_SEC := 44
  const SEC_A := 45
  const RAM_NDX := 46
  const INCNDX := 47
  const NDX_A := 48
  const A_NDX := 49
  const MEM_A := 50
  const MEM_AH := 51
  const A_MEM := 52
  const CALL := 53
  const CALLR := 54
  const RET := 55
  const KEY_A := 56
  const DRW := 57
  const RAM_DRW := 58
  const HLT := 63
}
