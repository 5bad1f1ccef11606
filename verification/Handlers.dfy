/**
 What the interpreter's handlers leave (arm_dynarec_ops.h), in terms of the operands as numbers: sums, differences,
 single bits and products, with the flags that belong to them. Interpreter gives the handlers as the source computes
 them; here is what an instruction is for.
 */
module Handlers {
  import opened Words
  import opened Flags
  import opened Opcodes
  import opened Interpreter
  import Shifter
  import Block
  import HostA64
  import Conditions
  import Recompiler

  // ---- the flag word, bit by bit ----

  predicate NSet(psr: Word) { BitAt(psr, 31) }
  predicate ZSet(psr: Word) { BitAt(psr, 30) }
  predicate CSet(psr: Word) { BitAt(psr, 29) }
  predicate VSet(psr: Word) { BitAt(psr, 28) }

  /** A flag word with the flags given, and the other bits as they were. */
  predicate Flagged(psr: Word, was: Word, n: bool, z: bool, c: bool, v: bool) {
    NSet(psr) == n && ZSet(psr) == z && CSet(psr) == c && VSet(psr) == v && psr % 0x1000_0000 == was % 0x1000_0000
  }

  function Top(psr: Word): (f: nat) ensures f < 16 { psr / 0x1000_0000 }

  /** The four flags are the nibble above bit 28. */
  lemma FlagBits(psr: Word)
    ensures var f := Top(psr);
            && (NSet(psr) <==> f / 8 == 1) && (ZSet(psr) <==> f / 4 % 2 == 1) && (CSet(psr) <==> f / 2 % 2 == 1) && (VSet(psr) <==> f % 2 == 1)
    ensures CSet(psr) == CarrySet(psr)
  {
    hide Pow2;
    PowersOfInterest();
    PowUnfold(29); PowUnfold(30);
    var f, l: int := psr / 0x1000_0000, psr % 0x1000_0000;
    QuotientUnique(psr, 0x2000_0000, f / 2, l + 0x1000_0000 * (f % 2));
    QuotientUnique(psr, 0x4000_0000, f / 4, l + 0x1000_0000 * (f % 4));
    QuotientUnique(psr, 0x8000_0000, f / 8, l + 0x1000_0000 * (f % 8));
  }

  lemma PutNzcvFlags(psr: Word, f: Nzcv)
    ensures Flagged(PutNzcv(psr, f), psr, f.n, f.z, f.c, f.v)
  {
    hide BitAt;
    FlagBits(PutNzcv(psr, f));
    Block.NzcvMoves(psr, f);
  }

  lemma PutNzFlags(psr: Word, result: Word)
    ensures Flagged(PutNz(psr, result), psr, Neg(result), result == 0, CSet(psr), VSet(psr))
  {
    hide BitAt; hide Neg; hide PutNz; hide Top;
    FlagBits(PutNz(psr, result));
    FlagBits(psr);
    NzTop(psr, result);
    TopPair(Top(psr) % 4, 2 * Bit(Neg(result)) + Bit(result == 0));
    LowPair(Top(psr));
  }

  lemma NzTop(psr: Word, result: Word)
    ensures Top(PutNz(psr, result)) == Top(psr) % 4 + 4 * (2 * Bit(Neg(result)) + Bit(result == 0))
    ensures PutNz(psr, result) % 0x1000_0000 == psr % 0x1000_0000
  {
    hide PutNz; hide Neg;
    Block.NzMoves(psr, result);
  }

  lemma LowPair(f: nat)
    requires f < 16
    ensures f % 4 / 2 % 2 == f / 2 % 2 && f % 4 % 2 == f % 2
  {
  }

  /** Two bits above two bits. */
  lemma TopPair(low: int, k: int)
    requires 0 <= low < 4 && 0 <= k < 4
    ensures var f := low + 4 * k;
            f / 8 == k / 2 && f / 4 % 2 == k % 2 && f / 2 % 2 == low / 2 % 2 && f % 2 == low % 2
  {
  }

  lemma PutCarryFlags(psr: Word, carry: Carry)
    ensures Flagged(PutCarry(psr, carry), psr, NSet(psr), ZSet(psr), if carry.Unchanged? then CSet(psr) else carry.c, VSet(psr))
  {
    hide BitAt; hide CarrySet; hide PutCarry; hide Top;
    FlagBits(PutCarry(psr, carry));
    FlagBits(psr);
    CarryTop(psr, carry);
    TwoMore(Top(psr));
  }

  lemma CarryTop(psr: Word, carry: Carry)
    ensures Top(PutCarry(psr, carry)) == Top(psr) + if carry.Unchanged? || carry.c == CarrySet(psr) then 0 else if carry.c then 2 else -2
    ensures PutCarry(psr, carry) % 0x1000_0000 == psr % 0x1000_0000
  {
    hide PutCarry; hide CarrySet;
    Block.CarryMoves(psr, carry);
  }

  /** Bit 1 of a nibble, set or cleared. */
  lemma TwoMore(f: nat)
    requires f < 16
    ensures f / 2 % 2 == 0 ==> var g := f + 2; g / 8 == f / 8 && g / 4 % 2 == f / 4 % 2 && g / 2 % 2 == 1 && g % 2 == f % 2
    ensures f / 2 % 2 == 1 ==> var g := f - 2; g / 8 == f / 8 && g / 4 % 2 == f / 4 % 2 && g / 2 % 2 == 0 && g % 2 == f % 2
  {
    var a, t: int := f / 4, f % 4;
    Quarters(f, a, t);
    if t < 2 { Quarters(f + 2, a, t + 2); } else { Quarters(f - 2, a, t - 2); }
  }

  lemma Quarters(f: nat, a: nat, t: nat)
    requires f == 4 * a + t && t < 4
    ensures f / 8 == a / 2 && f / 4 == a && (f / 2 % 2 == 1 <==> t >= 2) && f % 2 == t % 2
  {
    QuotientUnique(f, 8, a / 2, 4 * (a % 2) + t);
    QuotientUnique(f, 4, a, t);
    QuotientUnique(f, 2, 2 * a + t / 2, t % 2);
    RemainderUnique(f, 2, 2 * a + t / 2, t % 2);
    RemainderUnique(2 * a + t / 2, 2, a, t / 2);
  }

  // ---- arithmetic ----

  predicate Arithmetic(opn: nat) { opn in {2, 3, 4, 5, 6, 7, 10, 11} }

  predicate Subtracts(opn: nat) { opn in {2, 3, 6, 7, 10} }

  /** The exact result of ADD and CMN, ADC, SUB and CMP, RSB, SBC, RSC; `c` is the carry, a borrow if it is clear. */
  function Exact(opn: nat, lhs: int, rhs: int, c: bool): int
    requires Arithmetic(opn)
  {
    match opn
    case 4 => lhs + rhs
    case 11 => lhs + rhs
    case 5 => lhs + rhs + (if c then 1 else 0)
    case 2 => lhs - rhs
    case 10 => lhs - rhs
    case 3 => rhs - lhs
    case 6 => lhs - rhs - (if c then 0 else 1)
    case _ => rhs - lhs - (if c then 0 else 1)
  }

  /** What the handler leaves in the register file: the result, unless it is a comparison, and the flags if S is set. */
  lemma Leaves(cfg: Config, op: Word, r: Regs)
    requires Modelled(cfg, op) && !IsBranch(op) && !ShortMultiply(op) && !LongMultiply(cfg, op)
    ensures var after, (rhs, carry), lhs := Handler(cfg, op, r), Operand(cfg, op, r), Address(cfg, r, Rn(op));
            var v, psr := Result(Operation(op), lhs, rhs, CarrySet(r[cfg.Psr()])), r[cfg.Psr()];
            && (!Compare(Operation(op)) && Rd(op) != 15 ==> after[Rd(op)] == v)
            && (!Compare(Operation(op)) && Rd(op) == 15 ==> after == r[15 := BranchTo(cfg, r[15], v)])
            && (SetsFlags(op) ==> after[cfg.Psr()] == NewPsr(op, psr, lhs, rhs, carry, v))
            && (!SetsFlags(op) && Rd(op) != 15 ==> after[cfg.Psr()] == psr)
            && (forall i :: 0 <= i < 17 && i != cfg.Psr() && (i != Rd(op) || Compare(Operation(op))) ==> after[i] == r[i])
  {
    hide Result; hide Operand; hide NewPsr; hide BranchTo; hide CarrySet; hide Address; hide Operation; hide Rd; hide Rn; hide SetsFlags;
    hide ShortMultiply; hide LongMultiply; hide IsBranch;
  }

  lemma ResultIs(opn: nat, lhs: Word, rhs: Word, c: bool)
    requires Arithmetic(opn)
    ensures var x, y, v := Exact(opn, lhs, rhs, c), Exact(opn, Signed(lhs), Signed(rhs), c), Result(opn, lhs, rhs, c);
            && v == x % MOD
            && ArithmeticFlags(opn, lhs, rhs, v) == Nzcv(Neg(v), v == 0, if Subtracts(opn) then x >= 0 else x >= MOD, y < -TOP || y >= TOP)
  {
    hide Add; hide Sub; hide FlagsAdd; hide FlagsSub; hide FlagsAdc; hide FlagsSbc; hide AddWithCarry; hide Signed; hide Neg; hide Not; hide AndW; hide OrW; hide XorW;
    if opn == 4 || opn == 11 { Flags.AddExact(lhs, rhs); Summed(lhs, rhs, false); }
    else if opn == 5 { AdcExact(lhs, rhs, c); Summed(lhs, rhs, c); }
    else if opn == 2 || opn == 10 { SubExact(lhs, rhs); Subtracted(lhs, rhs, true); }
    else if opn == 3 { SubExact(rhs, lhs); Subtracted(rhs, lhs, true); }
    else if opn == 6 { SbcExact(lhs, rhs, c); Subtracted(lhs, rhs, c); }
    else { SbcExact(rhs, lhs, c); Subtracted(rhs, lhs, c); }
  }

  lemma Summed(a: Word, b: Word, c: bool)
    ensures var (v, f) := AddWithCarry(a, b, c);
            var x, y := a + b + (if c then 1 else 0), Signed(a) + Signed(b) + (if c then 1 else 0);
            v == x % MOD && f == Nzcv(Neg(v), v == 0, x >= MOD, y < -TOP || y >= TOP)
  {
    var x := a + b + (if c then 1 else 0);
    RemainderUnique(x, MOD, if x >= MOD then 1 else 0, if x >= MOD then x - MOD else x);
  }

  lemma Subtracted(a: Word, b: Word, c: bool)
    ensures var (v, f) := AddWithCarry(a, Not(b), c);
            var x, y := a - b - (if c then 0 else 1), Signed(a) - Signed(b) - (if c then 0 else 1);
            v == x % MOD && f == Nzcv(Neg(v), v == 0, x >= 0, y < -TOP || y >= TOP)
  {
    var x := a - b - (if c then 0 else 1);
    RemainderUnique(x, MOD, if x >= 0 then 0 else -1, if x >= 0 then x else x + MOD);
  }

  /**
   ADD, ADC, SUB, SBC, RSB, RSC, CMP and CMN: the exact result modulo 2^32 goes to Rd, and with S the flags are its sign
   and whether it is zero, the carry out (not-borrow of a subtraction), and whether the signed result does not fit.
   */
  lemma ArithmeticMeans(cfg: Config, op: Word, r: Regs)
    requires Modelled(cfg, op) && !IsBranch(op) && !ShortMultiply(op) && !LongMultiply(cfg, op) && Arithmetic(Operation(op))
    ensures var after, lhs, rhs, psr := Handler(cfg, op, r), Address(cfg, r, Rn(op)), Operand(cfg, op, r).0, r[cfg.Psr()];
            var x, y := Exact(Operation(op), lhs, rhs, CSet(psr)), Exact(Operation(op), Signed(lhs), Signed(rhs), CSet(psr));
            && (!Compare(Operation(op)) && Rd(op) != 15 ==> after[Rd(op)] == x % MOD)
            && (!Compare(Operation(op)) && Rd(op) == 15 ==> after == r[15 := BranchTo(cfg, r[15], x % MOD)])
            && (SetsFlags(op) ==> Flagged(after[cfg.Psr()], psr, x % MOD >= TOP, x % MOD == 0,
                                          if Subtracts(Operation(op)) then x >= 0 else x >= MOD, y < -TOP || y >= TOP))
            && (!SetsFlags(op) && Rd(op) != 15 ==> after[cfg.Psr()] == psr)
            && (forall i :: 0 <= i < 17 && i != cfg.Psr() && (i != Rd(op) || Compare(Operation(op))) ==> after[i] == r[i])
  {
    hide Handler; hide Operand; hide Result; hide BranchTo; hide CarrySet; hide Address; hide Operation; hide Rd; hide Rn; hide SetsFlags;
    hide ShortMultiply; hide LongMultiply; hide IsBranch; hide Modelled; hide Flagged; hide Exact; hide Signed; hide ArithmeticFlags; hide PutNzcv; hide BitAt;
    Leaves(cfg, op, r);
    var lhs, rhs, psr := Address(cfg, r, Rn(op)), Operand(cfg, op, r).0, r[cfg.Psr()];
    FlagBits(psr);
    ResultIs(Operation(op), lhs, rhs, CarrySet(psr));
    PutNzcvFlags(psr, ArithmeticFlags(Operation(op), lhs, rhs, Result(Operation(op), lhs, rhs, CarrySet(psr))));
  }

  // ---- logical operations ----

  /** One bit of AND, EOR, ORR and BIC, of MOV and MVN, and of the tests TST and TEQ. */
  predicate LogicBit(opn: nat, a: bool, b: bool) {
    match opn
    case 0 => a && b
    case 8 => a && b
    case 1 => a != b
    case 9 => a != b
    case 12 => a || b
    case 13 => b
    case 14 => a && !b
    case _ => !b
  }

  /** The result of a logical operation, bit by bit; there is no carry into it. */
  lemma LogicResult(opn: nat, lhs: Word, rhs: Word, c: bool, i: nat)
    requires opn < 16 && Logical(opn) && i < 32
    ensures BitAt(Result(opn, lhs, rhs, c), i) <==> LogicBit(opn, BitAt(lhs, i), BitAt(rhs, i))
  {
    hide BitAt; hide And; hide Or; hide Xor; hide Not;
    BitwiseBits(lhs, rhs, i);
    BitwiseBits(lhs, Not(rhs), i);
    NotBits(rhs, i);
  }

  /** The carry of the second operand: bit 31 of an immediate that is rotated, the last bit out of the shifter. */
  function CarryOut(cfg: Config, op: Word, r: Regs): Carry {
    if Immediate(op) then if Rs(op) == 0 then Unchanged else Becomes(BitAt(Shifter.RotatedImmediate(op), 31))
    else ShiftedWithCarry(cfg, op, r).1
  }

  /**
   AND, EOR, ORR, BIC, MOV, MVN, TST and TEQ: the bits of the result go to Rd, and with S the flags are its sign and
   whether it is zero, C is the carry of the second operand, if it has one, and V is as it was.
   */
  lemma LogicalMeans(cfg: Config, op: Word, r: Regs) returns (v: Word)
    requires Modelled(cfg, op) && !IsBranch(op) && !ShortMultiply(op) && !LongMultiply(cfg, op) && Logical(Operation(op))
    ensures forall i :: 0 <= i < 32 ==>
      (BitAt(v, i) <==> LogicBit(Operation(op), BitAt(Address(cfg, r, Rn(op)), i), BitAt(Operand(cfg, op, r).0, i)))
    ensures var after, psr, carry := Handler(cfg, op, r), r[cfg.Psr()], CarryOut(cfg, op, r);
            && (!Compare(Operation(op)) && Rd(op) != 15 ==> after[Rd(op)] == v)
            && (!Compare(Operation(op)) && Rd(op) == 15 ==> after == r[15 := BranchTo(cfg, r[15], v)])
            && (SetsFlags(op) ==> Flagged(after[cfg.Psr()], psr, BitAt(v, 31), v == 0, if carry.Unchanged? then CSet(psr) else carry.c, VSet(psr)))
            && (!SetsFlags(op) && Rd(op) != 15 ==> after[cfg.Psr()] == psr)
            && (forall i :: 0 <= i < 17 && i != cfg.Psr() && (i != Rd(op) || Compare(Operation(op))) ==> after[i] == r[i])
  {
    hide Handler; hide Operand; hide Result; hide BranchTo; hide CarrySet; hide Address; hide Operation; hide Rd; hide Rn; hide SetsFlags;
    hide ShortMultiply; hide LongMultiply; hide IsBranch; hide Modelled; hide BitAt; hide PutNz; hide PutCarry; hide CarryOut; hide LogicBit; hide Neg;
    Leaves(cfg, op, r);
    var (rhs, carry) := Operand(cfg, op, r);
    var lhs, psr := Address(cfg, r, Rn(op)), r[cfg.Psr()];
    v := Result(Operation(op), lhs, rhs, CarrySet(psr));
    forall i | 0 <= i < 32 ensures BitAt(v, i) <==> LogicBit(Operation(op), BitAt(lhs, i), BitAt(rhs, i)) {
      LogicResult(Operation(op), lhs, rhs, CarrySet(psr), i);
    }
    if SetsFlags(op) {
      OperandCarry(cfg, op, r);
      PutCarryFlags(psr, carry);
      PutNzFlags(PutCarry(psr, carry), v);
      Shifter.EndBits(v);
    }
  }

  lemma OperandCarry(cfg: Config, op: Word, r: Regs)
    requires SetsFlags(op) && Logical(Operation(op))
    ensures Operand(cfg, op, r).1 == CarryOut(cfg, op, r)
  {
    hide ShiftedWithCarry; hide ImmediateOperand; hide Shifter.Rotated; hide Neg; hide BitAt; hide Operation; hide SetsFlags; hide Immediate; hide Rs;
    Shifter.ImmediateValue(op);
    Shifter.EndBits(ImmediateOperand(op));
  }

  // ---- multiplies ----

  function Times(a: Word, b: Word): int { a * b }

  function Accumulated(op: Word, r: Regs): int {
    if Rn(op) == Rm(op) then 0 else Times(r[Rm(op)], r[Rs(op)]) + (if Operation(op) == 1 then r[Rd(op)] else 0)
  }

  /** MUL and MLA: product, or product and sum, modulo 2^32; zero if Rd is Rm. With S, its sign and whether it is zero. */
  lemma MultiplyMeans(cfg: Config, op: Word, r: Regs)
    requires ShortMultiply(op)
    ensures Modelled(cfg, op) && Handler(cfg, op, r) == Multiply(cfg, op, r)
    ensures var after, psr := Multiply(cfg, op, r), r[cfg.Psr()];
            var sum := Accumulated(op, r);
            && (Rn(op) != cfg.Psr() ==> after[Rn(op)] == sum % MOD)
            && (Rn(op) != 15 && SetsFlags(op) ==> Flagged(after[cfg.Psr()], psr, sum % MOD >= TOP, sum % MOD == 0, CSet(psr), VSet(psr)))
            && (Rn(op) != 15 && !SetsFlags(op) ==> after[cfg.Psr()] == psr)
            && (forall i :: 0 <= i < 17 && i != cfg.Psr() && i != Rn(op) ==> after[i] == r[i])
  {
    hide BitAt; hide PutNz; hide Rn; hide Rm; hide Rs; hide Rd; hide Operation; hide SetsFlags; hide Flagged; hide Mul; hide Times; hide Add; hide ShortMultiply; hide Modelled; hide Handler;
    MultiplyModelled(cfg, op, r);
    ShortOperation(op);
    ProductSum(r[Rm(op)], r[Rs(op)], r[Rd(op)]);
    var v: Word := Accumulated(op, r) % MOD;
    PutNzFlags(r[cfg.Psr()], v);
  }

  lemma ShortOperation(op: Word)
    requires ShortMultiply(op)
    ensures Operation(op) == 0 || Operation(op) == 1
  {
  }

  lemma MultiplyModelled(cfg: Config, op: Word, r: Regs)
    requires ShortMultiply(op)
    ensures Modelled(cfg, op) && Handler(cfg, op, r) == Multiply(cfg, op, r)
  {
    hide Multiply; hide MultiplyLong; hide DataProcessing; hide Branch; hide IsBranch; hide Operation; hide SetsFlags; hide Middle; hide Class; hide Immediate;
    Block.NotBranch(op);
  }

  lemma ProductSum(a: Word, b: Word, c: Word)
    ensures Mul(a, b) == Times(a, b) % MOD && Add(Mul(a, b), c) == (Times(a, b) + c) % MOD
  {
    var p: int := a * b;
    var q, t := p / MOD, p % MOD;
    var s := t + c;
    RemainderUnique(p + c, MOD, if s < MOD then q else q + 1, if s < MOD then s else s - MOD);
  }

  /** The signed or unsigned product, and the 64 bits accumulated to. */
  function LongExact(op: Word, r: Regs): int {
    var hi: int, lo: int := r[Rn(op)], r[Rd(op)];
    (if Operation(op) < 6 then Times(r[Rm(op)], r[Rs(op)]) else Times2(Signed(r[Rm(op)]), Signed(r[Rs(op)]))) +
    (if Operation(op) % 2 == 1 then hi * MOD + lo else 0)
  }

  function Times2(a: int, b: int): int { a * b }

  /** UMULL, UMLAL, SMULL and SMLAL: 64 bits modulo 2^64 in two registers; with S, the sign of them and whether all are zero. */
  lemma LongMultiplyMeans(cfg: Config, op: Word, r: Regs)
    requires LongMultiply(cfg, op) && Rn(op) != 15 && Rd(op) != 15 && Rn(op) != Rd(op)
    ensures Modelled(cfg, op) && Handler(cfg, op, r) == MultiplyLong(cfg, op, r)
    ensures var after, psr, x := MultiplyLong(cfg, op, r), r[cfg.Psr()], LongExact(op, r) % (MOD * MOD);
            && after[Rn(op)] * MOD + after[Rd(op)] == x
            && (SetsFlags(op) ==> Flagged(after[cfg.Psr()], psr, x >= TOP * MOD, x == 0, CSet(psr), VSet(psr)))
            && (!SetsFlags(op) ==> after[cfg.Psr()] == psr)
            && (forall i :: 0 <= i < 17 && i != cfg.Psr() && i != Rn(op) && i != Rd(op) ==> after[i] == r[i])
  {
    hide BitAt; hide PutLongNz; hide Rn; hide Rm; hide Rs; hide Rd; hide Operation; hide SetsFlags; hide Flagged; hide LongMultiply; hide Modelled; hide Handler;
    hide Product; hide LongExact;
    LongModelled(cfg, op, r);
    ProductIs(op, r);
    var p := Product(op, r);
    PutLongFlags(r[cfg.Psr()], p);
    assert p / MOD * MOD + p % MOD == p;
  }

  lemma LongModelled(cfg: Config, op: Word, r: Regs)
    requires LongMultiply(cfg, op)
    ensures Modelled(cfg, op) && Handler(cfg, op, r) == MultiplyLong(cfg, op, r)
  {
    hide Multiply; hide MultiplyLong; hide DataProcessing; hide Branch; hide IsBranch; hide Operation; hide SetsFlags; hide Middle; hide Class; hide Immediate;
    Block.NotBranch(op);
  }

  lemma ProductIs(op: Word, r: Regs)
    ensures Product(op, r) == LongExact(op, r) % (MOD * MOD)
  {
    hide Rn; hide Rm; hide Rs; hide Rd; hide Operation; hide Signed;
    Commutes(r[Rm(op)], r[Rs(op)]);
    Commutes(Signed(r[Rm(op)]), Signed(r[Rs(op)]));
  }

  lemma Commutes(a: int, b: int)
    ensures Times2(a, b) == b * a
  {
  }

  lemma PutLongFlags(psr: Word, p: int)
    requires 0 <= p < MOD * MOD
    ensures Flagged(PutLongNz(psr, p), psr, p >= TOP * MOD, p == 0, CSet(psr), VSet(psr))
  {
    hide BitAt; hide PutLongNz; hide Top;
    FlagBits(PutLongNz(psr, p));
    FlagBits(psr);
    var k := 2 * Bit(Neg(p / MOD)) + Bit(p == 0);
    LongTop(psr, p, k);
    TopPair(Top(psr) % 4, k);
    LowPair(Top(psr));
    HighWord(p);
  }

  lemma HighWord(p: int)
    requires 0 <= p < MOD * MOD
    ensures Neg(p / MOD) <==> p >= TOP * MOD
  {
  }

  lemma LongTop(psr: Word, p: int, k: int)
    requires 0 <= p < MOD * MOD && k == 2 * Bit(Neg(p / MOD)) + Bit(p == 0)
    ensures Top(PutLongNz(psr, p)) == Top(psr) % 4 + 4 * k && PutLongNz(psr, p) % 0x1000_0000 == psr % 0x1000_0000
  {
    Block.Place(psr, k);
  }

  // ---- comparisons and conditions ----

  /** After CMP a condition is its relation between the two operands. */
  lemma ComparisonDecides(cfg: Config, op: Word, r: Regs, cond: nat)
    requires Modelled(cfg, op) && !IsBranch(op) && !ShortMultiply(op) && !LongMultiply(cfg, op) && Operation(op) == 10 && cond < 16
    ensures HostA64.Condition(cond, Block.Nib(cfg, Handler(cfg, op, r))) <==>
            Conditions.Holds(cond, Address(cfg, r, Rn(op)), Operand(cfg, op, r).0)
  {
    hide Handler; hide Operand; hide Address; hide Rd; hide Rn; hide ShortMultiply; hide LongMultiply; hide IsBranch; hide HostA64.Condition; hide Conditions.Holds;
    hide FlagsSub; hide Nibble; hide CarrySet; hide Sub;
    Leaves(cfg, op, r);
    var a, b, psr := Address(cfg, r, Rn(op)), Operand(cfg, op, r).0, r[cfg.Psr()];
    ComparesWithS(cfg, op);
    Block.NzcvMoves(psr, FlagsSub(a, b, Sub(a, b)));
    Conditions.ConditionMeans(cond, a, b);
  }

  lemma ComparesWithS(cfg: Config, op: Word)
    requires Modelled(cfg, op) && !IsBranch(op) && !ShortMultiply(op) && !LongMultiply(cfg, op) && Compare(Operation(op))
    ensures SetsFlags(op)
  {
    hide ShortMultiply; hide LongMultiply; hide IsBranch; hide Operation; hide SetsFlags; hide ExtraTransfer;
  }

  /** So the next instruction runs if and only if the operands of the comparison are in that relation. */
  lemma RunsIfRelated(env: HostA64.Env, cfg: Config, cmp: Word, op: Word, s: HostA64.Machine)
    requires Modelled(cfg, cmp) && !IsBranch(cmp) && !ShortMultiply(cmp) && !LongMultiply(cfg, cmp) && Operation(cmp) == 10
    ensures var compared := s.(reg := Handler(cfg, cmp, s.reg));
            Block.Execute(env, cfg, op, compared) ==
            if Conditions.Holds(Cond(op), Address(cfg, s.reg, Rn(cmp)), Operand(cfg, cmp, s.reg).0) then env.helper(op, compared) else compared
  {
    hide Handler; hide Operand; hide Address; hide Rn; hide ShortMultiply; hide LongMultiply; hide IsBranch; hide HostA64.Condition; hide Conditions.Holds; hide Block.Nib; hide Modelled;
    ComparisonDecides(cfg, cmp, s.reg, Cond(op));
  }

  // ---- arithmetic on numbers of many words ----

  /** A flag-setting instruction of the operation given, with its result in a register other than R15. */
  predicate Setting(cfg: Config, op: Word, opn: nat) {
    && Modelled(cfg, op) && !IsBranch(op) && !ShortMultiply(op) && !LongMultiply(cfg, op)
    && Operation(op) == opn && SetsFlags(op) && Rd(op) != 15
  }

  /**
   The register files before each instruction of a chain: between two of them other instructions may run, such as loads
   and stores, that leave the carry alone.
   */
  ghost predicate Chained(cfg: Config, ops: seq<Word>, rs: seq<Regs>, first: nat, next: nat) {
    && |ops| == |rs| > 0 && Setting(cfg, ops[0], first)
    && (forall i :: 0 < i < |ops| ==> Setting(cfg, ops[i], next))
    && (forall i :: 0 < i < |ops| ==> CSet(rs[i][cfg.Psr()]) == CSet(Handler(cfg, ops[i - 1], rs[i - 1])[cfg.Psr()]))
  }

  function Left(cfg: Config, op: Word, r: Regs): Word { Address(cfg, r, Rn(op)) }
  function Right(cfg: Config, op: Word, r: Regs): Word { Operand(cfg, op, r).0 }

  function After(cfg: Config, op: Word, r: Regs): Regs { if Modelled(cfg, op) then Handler(cfg, op, r) else r }

  function Lefts(cfg: Config, ops: seq<Word>, rs: seq<Regs>): (ws: seq<Word>)
    requires |ops| == |rs|
    ensures |ws| == |ops| && forall i :: 0 <= i < |ops| ==> ws[i] == Left(cfg, ops[i], rs[i])
  {
    seq<Word>(|ops|, i requires 0 <= i < |ops| => Left(cfg, ops[i], rs[i]))
  }

  function Rights(cfg: Config, ops: seq<Word>, rs: seq<Regs>): (ws: seq<Word>)
    requires |ops| == |rs|
    ensures |ws| == |ops| && forall i :: 0 <= i < |ops| ==> ws[i] == Right(cfg, ops[i], rs[i])
  {
    seq<Word>(|ops|, i requires 0 <= i < |ops| => Right(cfg, ops[i], rs[i]))
  }

  /** What the instructions leave in their destinations. */
  function Results(cfg: Config, ops: seq<Word>, rs: seq<Regs>): (ws: seq<Word>)
    requires |ops| == |rs|
    ensures |ws| == |ops| && forall i :: 0 <= i < |ops| ==> ws[i] == After(cfg, ops[i], rs[i])[Rd(ops[i])]
  {
    seq<Word>(|ops|, i requires 0 <= i < |ops| => After(cfg, ops[i], rs[i])[Rd(ops[i])])
  }

  /** The carry before word `i`, `first` before the lowest, and the last one after them all. */
  function CarryAt(cfg: Config, ops: seq<Word>, rs: seq<Regs>, first: bool, i: nat): bool
    requires |ops| == |rs| && i <= |ops|
  {
    if i == 0 then first else CSet(After(cfg, ops[i - 1], rs[i - 1])[cfg.Psr()])
  }

  function Carries(cfg: Config, ops: seq<Word>, rs: seq<Regs>, first: bool): (cs: seq<bool>)
    requires |ops| == |rs|
    ensures |cs| == |ops| + 1 && forall i :: 0 <= i <= |ops| ==> cs[i] == CarryAt(cfg, ops, rs, first, i)
  {
    seq(|ops| + 1, i requires 0 <= i <= |ops| => CarryAt(cfg, ops, rs, first, i))
  }

  /** Word `i` of the sum with the carry out of it. */
  predicate Carried(a: seq<Word>, b: seq<Word>, s: seq<Word>, cs: seq<bool>, i: nat)
    requires i < |a| == |b| == |s| && |cs| == |a| + 1
  {
    s[i] + MOD * Bit(cs[i + 1]) == a[i] + b[i] + Bit(cs[i])
  }

  /** Word `i` of the difference with the borrow out of it. */
  predicate Borrowed(a: seq<Word>, b: seq<Word>, d: seq<Word>, cs: seq<bool>, i: nat)
    requires i < |a| == |b| == |d| && |cs| == |a| + 1
  {
    d[i] == a[i] - b[i] - Bit(!cs[i]) + MOD * Bit(!cs[i + 1])
  }

  /** Words added with the carries between them add up. */
  lemma {:induction false} SumsUp(a: seq<Word>, b: seq<Word>, s: seq<Word>, cs: seq<bool>)
    requires |a| == |b| == |s| && |cs| == |a| + 1
    requires forall i :: 0 <= i < |a| ==> Carried(a, b, s, cs, i)
    ensures Value(s) + Weight(|a|) * Bit(cs[|a|]) == Value(a) + Value(b) + Bit(cs[0])
    decreases |a|
  {
    if a != [] {
      assert Carried(a, b, s, cs, 0);
      forall i | 0 <= i < |a| - 1 ensures Carried(a[1..], b[1..], s[1..], cs[1..], i) {
        assert Carried(a, b, s, cs, i + 1);
      }
      SumsUp(a[1..], b[1..], s[1..], cs[1..]);
      Scale(Value(s[1..]), Weight(|a| - 1), Value(a[1..]), Value(b[1..]), cs[|a|], cs[1]);
    }
  }

  lemma {:induction false} BorrowsDown(a: seq<Word>, b: seq<Word>, d: seq<Word>, cs: seq<bool>)
    requires |a| == |b| == |d| && |cs| == |a| + 1
    requires forall i :: 0 <= i < |a| ==> Borrowed(a, b, d, cs, i)
    ensures Value(d) == Value(a) - Value(b) - Bit(!cs[0]) + Weight(|a|) * Bit(!cs[|a|])
    decreases |a|
  {
    if a != [] {
      assert Borrowed(a, b, d, cs, 0);
      forall i | 0 <= i < |a| - 1 ensures Borrowed(a[1..], b[1..], d[1..], cs[1..], i) {
        assert Borrowed(a, b, d, cs, i + 1);
      }
      BorrowsDown(a[1..], b[1..], d[1..], cs[1..]);
      ScaleDown(Value(d[1..]), Weight(|a| - 1), Value(a[1..]), Value(b[1..]), cs[|a|], cs[1]);
    }
  }

  /** One ADDS (which takes no carry in) or ADCS. */
  lemma AddStep(cfg: Config, op: Word, r: Regs, c: bool)
    requires (Setting(cfg, op, 4) && !c) || (Setting(cfg, op, 5) && c == CSet(r[cfg.Psr()]))
    ensures var after := After(cfg, op, r);
            after[Rd(op)] + MOD * Bit(CSet(after[cfg.Psr()])) == Left(cfg, op, r) + Right(cfg, op, r) + Bit(c)
  {
    hide Handler; hide Operand; hide Address; hide Rd; hide Rn; hide ShortMultiply; hide LongMultiply; hide IsBranch; hide Modelled; hide BitAt; hide SetsFlags; hide Operation; hide Signed;
    ArithmeticMeans(cfg, op, r);
    var x := Left(cfg, op, r) + Right(cfg, op, r) + Bit(c);
    RemainderUnique(x, MOD, if x >= MOD then 1 else 0, if x >= MOD then x - MOD else x);
  }

  /** One SUBS (which takes no borrow in) or SBCS. */
  lemma SubStep(cfg: Config, op: Word, r: Regs, c: bool)
    requires (Setting(cfg, op, 2) && c) || (Setting(cfg, op, 6) && c == CSet(r[cfg.Psr()]))
    ensures var after := After(cfg, op, r);
            after[Rd(op)] == Left(cfg, op, r) - Right(cfg, op, r) - Bit(!c) + MOD * Bit(!CSet(after[cfg.Psr()]))
  {
    hide Handler; hide Operand; hide Address; hide Rd; hide Rn; hide ShortMultiply; hide LongMultiply; hide IsBranch; hide Modelled; hide BitAt; hide SetsFlags; hide Operation; hide Signed;
    ArithmeticMeans(cfg, op, r);
    var x := Left(cfg, op, r) - Right(cfg, op, r) - Bit(!c);
    RemainderUnique(x, MOD, if x >= 0 then 0 else -1, if x >= 0 then x else x + MOD);
  }

  /** ADDS and then ADCS add numbers of any number of words, and the last C is the carry out. */
  lemma MultiWordAdd(cfg: Config, ops: seq<Word>, rs: seq<Regs>)
    requires Chained(cfg, ops, rs, 4, 5)
    ensures var a, b, s, n := Lefts(cfg, ops, rs), Rights(cfg, ops, rs), Results(cfg, ops, rs), |ops|;
            var carry := CSet(After(cfg, ops[n - 1], rs[n - 1])[cfg.Psr()]);
            && (carry <==> Value(a) + Value(b) >= Weight(n))
            && Value(s) == Value(a) + Value(b) - (if carry then Weight(n) else 0)
  {
    hide After; hide Left; hide Right; hide Rd; hide CSet; hide Setting; hide Value; hide Weight; hide Handler;
    var a, b, s, cs, n := Lefts(cfg, ops, rs), Rights(cfg, ops, rs), Results(cfg, ops, rs), Carries(cfg, ops, rs, false), |ops|;
    forall i | 0 <= i < n ensures Carried(a, b, s, cs, i) {
      if i > 0 { Continues(cfg, ops, rs, 4, 5, i); }
      AddStep(cfg, ops[i], rs[i], cs[i]);
    }
    SumsUp(a, b, s, cs);
    ValueBound(s);
    Flags.Carries(Value(s), Weight(n), Value(a) + Value(b), cs[n]);
  }

  /** SUBS and then SBCS subtract them, and the last C means that nothing was borrowed. */
  lemma MultiWordSub(cfg: Config, ops: seq<Word>, rs: seq<Regs>)
    requires Chained(cfg, ops, rs, 2, 6)
    ensures var a, b, d, n := Lefts(cfg, ops, rs), Rights(cfg, ops, rs), Results(cfg, ops, rs), |ops|;
            var noBorrow := CSet(After(cfg, ops[n - 1], rs[n - 1])[cfg.Psr()]);
            && (noBorrow <==> Value(a) >= Value(b))
            && Value(d) == Value(a) - Value(b) + (if noBorrow then 0 else Weight(n))
  {
    hide After; hide Left; hide Right; hide Rd; hide CSet; hide Setting; hide Value; hide Weight; hide Handler;
    var a, b, d, cs, n := Lefts(cfg, ops, rs), Rights(cfg, ops, rs), Results(cfg, ops, rs), Carries(cfg, ops, rs, true), |ops|;
    forall i | 0 <= i < n ensures Borrowed(a, b, d, cs, i) {
      if i > 0 { Continues(cfg, ops, rs, 2, 6, i); }
      SubStep(cfg, ops[i], rs[i], cs[i]);
    }
    BorrowsDown(a, b, d, cs);
    ValueBound(d);
    Borrows(Value(d), Weight(n), Value(a) - Value(b), cs[n]);
  }

  lemma Continues(cfg: Config, ops: seq<Word>, rs: seq<Regs>, first: nat, next: nat, i: nat)
    requires Chained(cfg, ops, rs, first, next) && 0 < i < |ops|
    ensures Setting(cfg, ops[i], next) && CSet(rs[i][cfg.Psr()]) == CSet(After(cfg, ops[i - 1], rs[i - 1])[cfg.Psr()])
  {
    hide CSet; hide Handler; hide Modelled; hide IsBranch; hide ShortMultiply; hide LongMultiply; hide Operation; hide SetsFlags; hide Rd;
    assert Setting(cfg, ops[i - 1], if i == 1 then first else next);
  }

  // ---- the second operand ----

  /** Eight bits rotated to the right, or Rm shifted as the opcode says: LSL, LSR, ASR, ROR by the places, or RRX. */
  lemma OperandValue(cfg: Config, op: Word, r: Regs)
    ensures var v, w, n := Operand(cfg, op, r).0, r[Rm(op)], Shifter.Places(op, r);
            if Immediate(op) then v == Shifter.Rotated(op % 0x100, 2 * (op / 0x100 % 0x10))
            else if Shifter.ThroughCarry(op) then v == w / 2 + (if CSet(r[cfg.Psr()]) then TOP else 0)
            else if ShiftKind(op) == 0 then v == w * Pow2(n) % MOD
            else if ShiftKind(op) == 1 then v == w / Pow2(n)
            else if ShiftKind(op) == 2 then v == Signed(w) / Pow2(n) % MOD
            else v == Shifter.Rotated(w, n)
  {
    hide Shifted; hide ShiftedWithCarry; hide ImmediateOperand; hide Pow2; hide BitAt; hide Rm; hide Rs; hide CarrySet; hide Shifter.Rotated; hide Signed; hide Neg;
    hide Shifter.Places; hide Shifter.ThroughCarry; hide ShiftKind; hide Immediate; hide SetsFlags; hide Operation;
    Shifter.ShifterValue(cfg, op, r);
    Shifter.ImmediateValue(op);
    FlagBits(r[cfg.Psr()]);
  }

  // ---- the program counter ----

  /** R15 as an operand is the PC without the status bits around it. */
  lemma PcOperand(cfg: Config, r: Regs)
    ensures Address(cfg, r, 15) == if cfg.bits26 then r[15] % 0x400_0000 - r[15] % 4 else r[15] - r[15] % 4
  {
    hide And;
    Recompiler.Masked(cfg, r[15]);
  }

  /** A write of the PC without S: the field becomes the word address four on, the status bits stay. */
  lemma PcWritten(cfg: Config, r15: Word, dest: Word)
    ensures var y := (dest + 4) % MOD;
            BranchTo(cfg, r15, dest) ==
            if cfg.bits26 then r15 - r15 % 0x400_0000 + (y % 0x400_0000 - y % 4) + r15 % 4 else y - y % 4 + r15 % 4
  {
    hide AndW; hide OrW;
    var y := Add(dest, 4);
    RemainderUnique(dest + 4, MOD, if dest + 4 < MOD then 0 else 1, y);
    Recompiler.Masked(cfg, y);
    Recompiler.Masked(cfg, r15);
    Replace(y, r15, cfg.R15Mask());
  }

  /** B and BL: the PC moves by the signed offset and four, within its field; the link is the address of the next instruction. */
  lemma BranchMeans(cfg: Config, op: Word, r: Regs)
    requires IsBranch(op)
    ensures var after, step := Handler(cfg, op, r), Signed(BranchOffset(op)) + 4;
            && (cfg.bits26 ==> after[15] / 0x400_0000 == r[15] / 0x400_0000 && after[15] % 0x400_0000 == (r[15] % 0x400_0000 + step) % 0x400_0000)
            && (!cfg.bits26 ==> after[15] == (r[15] + step) % MOD)
            && after[14] == (if Links(op) then (r[15] - 4) % MOD else r[14])
            && (forall i :: 0 <= i < 17 && i != 14 && i != 15 ==> after[i] == r[i])
  {
    hide AndW; hide OrW; hide BranchTo; hide BranchOffset; hide Links; hide IsBranch; hide Add;
    var r15, o := r[15], BranchOffset(op);
    Recompiler.OffsetAligned(op);
    Recompiler.BranchToIs(cfg, r15, o);
    MovedBy(r15, o);
    var x: int := r[15];
    RemainderUnique(x - 4, MOD, if x < 4 then -1 else 0, Sub(r15, 4));
    InField(r15, Signed(o) + 4, Add(r15, Add(o, 4)));
  }

  lemma MovedBy(r15: Word, o: Word)
    ensures Add(r15, Add(o, 4)) == (r15 + Signed(o) + 4) % MOD
  {
    var y, x := Add(r15, Add(o, 4)), r15 + Signed(o) + 4;
    RemainderUnique(x, MOD, if x < 0 then -1 else if x < MOD then 0 else 1, y);
  }

  /** Above the field nothing moves; in it the sum is taken modulo its size. */
  lemma InField(r15: Word, step: int, y: Word)
    requires y == (r15 + step) % MOD
    ensures var x := y % 0x400_0000 + (r15 - r15 % 0x400_0000);
            x / 0x400_0000 == r15 / 0x400_0000 && x % 0x400_0000 == (r15 % 0x400_0000 + step) % 0x400_0000
  {
    var p, t, f := 0x400_0000, r15 / 0x400_0000, r15 % 0x400_0000;
    var l, k := (f + step) % p, (f + step) / p;
    var m := (r15 + step) / MOD;
    assert y == p * (t + k - 64 * m) + l;
    RemainderUnique(y, p, t + k - 64 * m, l);
    QuotientUnique(l + p * t, p, t, l);
    RemainderUnique(l + p * t, p, t, l);
  }
}
