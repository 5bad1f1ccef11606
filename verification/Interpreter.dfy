/** Fields of an ARM instruction word. */
module Opcodes {
  import opened Words

  function Cond(op: Word): (r: nat) ensures r < 16 { op / 0x1000_0000 }

  /** Bits 27:26. */
  function Class(op: Word): (r: nat) ensures r < 4 { (op / 0x400_0000) % 4 }

  predicate Immediate(op: Word) { (op / 0x200_0000) % 2 == 1 }

  /** Bits 24:21, the data-processing operation. */
  function Operation(op: Word): (r: nat) ensures r < 16 { (op / 0x20_0000) % 16 }

  predicate SetsFlags(op: Word) { (op / 0x10_0000) % 2 == 1 }

  function Rn(op: Word): (r: nat) ensures r < 16 { (op / 0x1_0000) % 16 }

  function Rd(op: Word): (r: nat) ensures r < 16 { (op / 0x1000) % 16 }

  function Rs(op: Word): (r: nat) ensures r < 16 { (op / 0x100) % 16 }

  function Rm(op: Word): (r: nat) ensures r < 16 { op % 16 }

  /** Bits 7:4; nine marks a multiply. */
  function Middle(op: Word): (r: nat) ensures r < 16 { (op / 0x10) % 16 }

  /** Bits 11:4 are clear: the operand is Rm, unshifted. */
  predicate Unshifted(op: Word) { (op / 0x10) % 256 == 0 }

  predicate ShiftByRegister(op: Word) { (op / 0x10) % 2 == 1 }

  function ShiftKind(op: Word): (r: nat) ensures r < 4 { (op / 0x20) % 4 }

  function ShiftAmount(op: Word): (r: nat) ensures r < 32 { (op / 0x80) % 32 }

  function Rotation(op: Word): (r: nat) ensures r < 32 { 2 * Rs(op) }

  function Imm8(op: Word): Word { op % 256 }

  /** ARMv4 halfword and signed-byte transfers, which alias into the data-processing space. */
  predicate ExtraTransfer(op: Word) {
    Class(op) == 0 && !Immediate(op) &&
    (Middle(op) == 11 || (SetsFlags(op) && (Middle(op) == 13 || Middle(op) == 15)))
  }
}

/**
 The interpreter's handlers for the data-processing and multiply opcodes
 (arm_dynarec_ops.h), on the visible register file: R0-R15 and, at index 16, the PSR
 of the 32-bit modes. In the 26-bit modes the PSR is held in R15 around the PC.
 */
module Interpreter {
  import opened Words
  import opened Flags
  import opened Opcodes

  datatype Config = Config(bits26: bool, archV4: bool) {
    function Psr(): (i: nat) ensures i == 15 || i == 16 { if bits26 then 15 else 16 }

    function R15Mask(): Word { if bits26 then 0x03ff_fffc else 0xffff_fffc }
  }

  type Regs = r: seq<Word> | |r| == 17 witness seq(17, _ => 0)

  // ---- the flag word ----

  predicate CarrySet(psr: Word) { (psr / 0x2000_0000) % 2 == 1 }

  function Nibble(f: Nzcv): (r: nat) ensures r < 16 {
    8 * Bit(f.n) + 4 * Bit(f.z) + 2 * Bit(f.c) + Bit(f.v)
  }

  function PutNzcv(psr: Word, f: Nzcv): Word { psr % 0x1000_0000 + Nibble(f) * 0x1000_0000 }

  /** N and Z of a logical result, C and V left alone. */
  function PutNz(psr: Word, result: Word): Word {
    psr % 0x4000_0000 + (2 * Bit(Neg(result)) + Bit(result == 0)) * 0x4000_0000
  }

  datatype Carry = Unchanged | Becomes(c: bool)

  function PutCarry(psr: Word, carry: Carry): Word {
    if carry.Unchanged? || carry.c == CarrySet(psr) then psr
    else if carry.c then Add(psr, 0x2000_0000) else Sub(psr, 0x2000_0000)
  }

  // ---- operands ----

  /** Rn as an operand: the PC without the PSR bits. */
  function Address(cfg: Config, r: Regs, i: nat): Word
    requires i < 16
  {
    if i == 15 then AndW(r[15], cfg.R15Mask()) else r[i]
  }

  function ImmediateOperand(op: Word): Word { Ror(Imm8(op), Rotation(op)) }

  function SignFill(w: Word): Word { if Neg(w) then MOD - 1 else 0 }

  function Rrx(w: Word, carry: bool): Word { w / 2 + (if carry then TOP else 0) }

  /** How far to shift: the bottom byte of Rs, or the field in the opcode. */
  function Amount(op: Word, r: Regs): nat {
    if ShiftByRegister(op) then r[Rs(op)] % 256 else ShiftAmount(op)
  }

  /** The shifted operand where the shifter's carry is not wanted (shift2). */
  function Shifted(cfg: Config, op: Word, r: Regs): Word {
    var w, amt := r[Rm(op)], Amount(op, r);
    if Unshifted(op) then w
    else match ShiftKind(op)
      case 0 => if amt < 32 then Lsl(w, amt) else 0
      case 1 => if amt == 0 && ShiftByRegister(op) then w else if 0 < amt < 32 then Lsr(w, amt) else 0
      case 2 =>
        if amt == 0 && ShiftByRegister(op) then w
        else if 0 < amt < 32 then Asr(w, amt) else SignFill(w)
      case _ =>
        if amt == 0 && !ShiftByRegister(op) then Rrx(w, CarrySet(r[cfg.Psr()])) else Ror(w, amt)
  }

  /** The shifted operand together with the shifter's carry (shift3). */
  function ShiftedWithCarry(cfg: Config, op: Word, r: Regs): (Word, Carry) {
    var w, amt := r[Rm(op)], Amount(op, r);
    if Unshifted(op) then (w, Unchanged)
    else match ShiftKind(op)
      case 0 =>
        if amt == 0 then (w, Unchanged)
        else if amt == 32 then (0, Becomes(w % 2 == 1))
        else if amt > 32 then (0, Becomes(false))
        else (Lsl(w, amt), Becomes(Neg(Lsl(w, amt - 1))))
      case 1 =>
        if amt == 0 && ShiftByRegister(op) then (w, Unchanged)
        else if amt == 0 || amt == 32 then (0, Becomes(Neg(w)))
        else if amt > 32 then (0, Becomes(false))
        else (Lsr(w, amt), Becomes(Lsr(w, amt - 1) % 2 == 1))
      case 2 =>
        if amt == 0 && ShiftByRegister(op) then (w, Unchanged)
        else if amt == 0 || amt >= 32 then (SignFill(w), Becomes(Neg(w)))
        else (Asr(w, amt), Becomes(Asr(w, amt - 1) % 2 == 1))
      case _ =>
        if amt == 0 && !ShiftByRegister(op) then (Rrx(w, CarrySet(r[cfg.Psr()])), Becomes(w % 2 == 1))
        else if amt == 0 then (w, Unchanged)
        else if amt % 32 == 0 then (w, Becomes(Neg(w)))
        else (Ror(w, amt), Becomes(Neg(Ror(w, amt))))
  }

  // ---- data processing ----

  predicate Logical(opn: nat) { opn in {0, 1, 8, 9, 12, 13, 14, 15} }

  predicate Compare(opn: nat) { 8 <= opn <= 11 }

  /** The second operand, and the carry a flag-setting logical operation takes from it. */
  function Operand(cfg: Config, op: Word, r: Regs): (Word, Carry) {
    if Immediate(op) then
      var imm := ImmediateOperand(op);
      (imm, if Rs(op) == 0 then Unchanged else Becomes(Neg(imm)))
    else if SetsFlags(op) && Logical(Operation(op)) then ShiftedWithCarry(cfg, op, r)
    else (Shifted(cfg, op, r), Unchanged)
  }

  function Result(opn: nat, lhs: Word, rhs: Word, carry: bool): Word {
    match opn
    case 0 => AndW(lhs, rhs)
    case 8 => AndW(lhs, rhs)
    case 1 => XorW(lhs, rhs)
    case 9 => XorW(lhs, rhs)
    case 2 => Sub(lhs, rhs)
    case 10 => Sub(lhs, rhs)
    case 3 => Sub(rhs, lhs)
    case 4 => Add(lhs, rhs)
    case 11 => Add(lhs, rhs)
    case 5 => Add(Add(lhs, rhs), Bit(carry))
    case 6 => Sub(Sub(lhs, rhs), Bit(!carry))
    case 7 => Sub(Sub(rhs, lhs), Bit(!carry))
    case 12 => OrW(lhs, rhs)
    case 13 => rhs
    case 14 => AndW(lhs, Not(rhs))
    case _ => Not(rhs)
  }

  function ArithmeticFlags(opn: nat, lhs: Word, rhs: Word, dest: Word): Nzcv {
    match opn
    case 2 => FlagsSub(lhs, rhs, dest)
    case 10 => FlagsSub(lhs, rhs, dest)
    case 3 => FlagsSub(rhs, lhs, dest)
    case 5 => FlagsAdc(lhs, rhs, dest)
    case 6 => FlagsSbc(lhs, rhs, dest)
    case 7 => FlagsSbc(rhs, lhs, dest)
    case _ => FlagsAdd(lhs, rhs, dest)
  }

  /** The flag word after a flag-setting operation. */
  function NewPsr(op: Word, psr: Word, lhs: Word, rhs: Word, carry: Carry, dest: Word): Word {
    if Logical(Operation(op)) then PutNz(PutCarry(psr, carry), dest)
    else PutNzcv(psr, ArithmeticFlags(Operation(op), lhs, rhs, dest))
  }

  /** Writing R15 without S moves the PC, four ahead for the pipeline, and keeps the PSR bits. */
  function BranchTo(cfg: Config, r15: Word, dest: Word): Word {
    OrW(AndW(Add(dest, 4), cfg.R15Mask()), AndW(r15, Not(cfg.R15Mask())))
  }

  function DataProcessing(cfg: Config, op: Word, r: Regs): Regs {
    var psr := r[cfg.Psr()];
    var (rhs, carry) := Operand(cfg, op, r);
    var lhs := Address(cfg, r, Rn(op));
    var dest := Result(Operation(op), lhs, rhs, CarrySet(psr));
    var flagged := if SetsFlags(op) then r[cfg.Psr() := NewPsr(op, psr, lhs, rhs, carry, dest)] else r;
    if Compare(Operation(op)) then flagged
    else if Rd(op) == 15 then flagged[15 := BranchTo(cfg, r[15], dest)]
    else flagged[Rd(op) := dest]
  }

  // ---- multiplies, whose Rd and Rn fields change places ----

  predicate ShortMultiply(op: Word) {
    Class(op) == 0 && !Immediate(op) && Operation(op) <= 1 && Middle(op) == 9
  }

  predicate LongMultiply(cfg: Config, op: Word) {
    cfg.archV4 && Class(op) == 0 && !Immediate(op) && 4 <= Operation(op) <= 7 && Middle(op) == 9
  }

  function Multiply(cfg: Config, op: Word, r: Regs): Regs {
    var product :=
      if Rn(op) == Rm(op) then 0
      else if Operation(op) == 0 then Mul(r[Rm(op)], r[Rs(op)])
      else Add(Mul(r[Rm(op)], r[Rs(op)]), r[Rd(op)]);
    var r1 := r[Rn(op) := product];
    if SetsFlags(op) then r1[cfg.Psr() := PutNz(r1[cfg.Psr()], product)] else r1
  }

  /** The 64-bit product of UMULL, UMLAL, SMULL or SMLAL. */
  function Product(op: Word, r: Regs): (p: int)
    ensures 0 <= p < MOD * MOD
  {
    var current := if Operation(op) % 2 == 1 then r[Rn(op)] * MOD + r[Rd(op)] else 0;
    var product := if Operation(op) < 6 then r[Rs(op)] * r[Rm(op)] else Signed(r[Rs(op)]) * Signed(r[Rm(op)]);
    (product + current) % (MOD * MOD)
  }

  /** Z of the whole 64-bit result, N its bit 63. */
  function PutLongNz(psr: Word, p: int): Word
    requires 0 <= p < MOD * MOD
  {
    psr % 0x4000_0000 + (2 * Bit(Neg(p / MOD)) + Bit(p == 0)) * 0x4000_0000
  }

  function MultiplyLong(cfg: Config, op: Word, r: Regs): Regs {
    var p := Product(op, r);
    var r1 := r[Rd(op) := p % MOD][Rn(op) := p / MOD];
    if SetsFlags(op) then r1[cfg.Psr() := PutLongNz(r1[cfg.Psr()], p)] else r1
  }

  // ---- branches ----

  predicate IsBranch(op: Word) { (op / 0x200_0000) % 8 == 5 }

  predicate Links(op: Word) { (op / 0x100_0000) % 2 == 1 }

  /** Twenty-four bits of signed word offset, in bytes. */
  function BranchOffset(op: Word): Word {
    var o := op % 0x100_0000;
    if o < 0x80_0000 then 4 * o else 4 * o + 0xfc00_0000
  }

  function Branch(cfg: Config, op: Word, r: Regs): Regs {
    var linked := if Links(op) then r[14 := Sub(r[15], 4)] else r;
    linked[15 := BranchTo(cfg, r[15], Add(r[15], BranchOffset(op)))]
  }

  // ---- one instruction ----

  /**
   The opcodes modelled: data processing, multiplies and branches. Left to `helper`
   are memory, coprocessor and SWI opcodes, the PSR transfers, and flag-setting writes
   of R15, which restore the PSR and can change mode.
   */
  predicate Modelled(cfg: Config, op: Word) {
    || IsBranch(op)
    || (&& Class(op) == 0
        && !(cfg.archV4 && ExtraTransfer(op))
        && (|| ShortMultiply(op)
            || LongMultiply(cfg, op)
            || (!(Compare(Operation(op)) && !SetsFlags(op)) && !(SetsFlags(op) && Rd(op) == 15))))
  }

  function Handler(cfg: Config, op: Word, r: Regs): Regs
    requires Modelled(cfg, op)
  {
    if IsBranch(op) then Branch(cfg, op, r)
    else if ShortMultiply(op) then Multiply(cfg, op, r)
    else if LongMultiply(cfg, op) then MultiplyLong(cfg, op, r)
    else DataProcessing(cfg, op, r)
  }
}
