/**
 Exactly when a compiled shift by R15 or multiply by R15 agrees with the interpreter. The compiler does
 not see that Rs is R15 (arm_opcode_needs_pc in arm_dynarec.c), so the instruction may find a cached R15
 that is behind, or four ahead.
 */
module StaleRs {
  import opened Words
  import opened Flags
  import opened Opcodes
  import opened Interpreter
  import opened HostA64
  import opened Recompiler
  import opened Block
  import BlockTransfer

  /** Compiling and interpreting one instruction: in step before, in step after. */
  ghost predicate Agrees(env: Env, cfg: Config, op: Word, pc: Word, pcinc: Word, h: Host, s: Machine)
    requires PcincOk(pcinc)
  {
    Ahead(cfg, Run(env, PreludeCode(cfg, op, pcinc) + GuardedCode(cfg, op, pc), h),
          Advance(Execute(env, cfg, op, s)), Pending(cfg, op, pcinc))
  }

  /** The 32-bit modes by the status register that names them. */
  predicate Names32(psr: Word) { psr % 0x20 in {0x10, 0x11, 0x12, 0x13, 0x17, 0x1b, 0x1f} }

  /**
   The states a block can be in before the instruction at `pc`. A block ends where a page does, so the instructions
   whose increments are pending come before this one in its page.
   */
  ghost predicate Reachable(env: Env, cfg: Config, op: Word, pc: Word, pcinc: Word, h: Host, s: Machine) {
    && Ahead(cfg, h, s, pcinc) && !s.abort
    && NoCarry(cfg, s.reg) && NoCarry(cfg, Execute(env, cfg, op, s).reg)
    && pc == Pc(cfg, s.reg[15]) && pc % 0x1000 >= pcinc
    && (!cfg.bits26 ==> s.reg[15] % 4 == 0 && Names32(s.reg[16]))
  }

  // ---- where it agrees ----

  lemma FreeAgrees(env: Env, cfg: Config, op: Word, pc: Word, pcinc: Word, h: Host, s: Machine)
    requires HelpersAgree(env, cfg) && PcincOk(pcinc) && Reachable(env, cfg, op, pc, pcinc, h, s)
    requires !NeedsPc(cfg, op) && RsFree(op, pcinc)
    ensures Agrees(env, cfg, op, pc, pcinc, h, s)
  {
    hide Run; hide PreludeCode; hide GuardedCode; hide NeedsPc; hide RsFree; hide Ahead; hide Execute; hide HelpersAgree; hide IsBranch; hide Pc; hide Outcome;
    BranchNeedsPc(cfg, op);
    assert h.abort == s.abort by { AheadAborts(cfg, h, s, pcinc); }
    var h2 := OneInstruction(env, cfg, op, pc, pcinc, h, s, []);
    RunNil(env, h2);
    assert GuardedCode(cfg, op, pc) + [] == GuardedCode(cfg, op, pc);
  }

  lemma AheadAborts(cfg: Config, h: Host, s: Machine, d: Word)
    requires Ahead(cfg, h, s, d)
    ensures h.abort == s.abort
  {
  }

  // ---- shifts of chosen values ----

  /** The shifter with its amount in a register. */
  function RegShift(kind: int, w: Word, amt: nat): Word {
    if kind == 0 then (if amt < 32 then Lsl(w, amt) else 0)
    else if amt == 0 then w
    else if kind == 1 then (if amt < 32 then Lsr(w, amt) else 0)
    else if kind == 2 then (if amt < 32 then Asr(w, amt) else SignFill(w))
    else Ror(w, amt)
  }

  lemma OperandIs(cfg: Config, op: Word, r: Regs)
    requires RsIsPc(op)
    ensures Operand(cfg, op, r).0 == RegShift(ShiftKind(op), r[Rm(op)], r[15] % 256)
  {
    hide Lsl; hide Lsr; hide Asr; hide OrW;
    var w := r[Rm(op)];
    if r[15] % 256 % 32 == 0 { WholeTurns(w, r[15] % 256); }
    LslNone(w);
    assert !Unshifted(op) by { NotUnshifted(op); }
  }

  lemma NotUnshifted(op: Word)
    requires ShiftByRegister(op)
    ensures !Unshifted(op)
  {
  }

  lemma LslNone(w: Word)
    ensures Lsl(w, 0) == w && Lsr(w, 0) == w
  {
  }

  lemma WholeTurns(w: Word, amt: nat)
    requires amt % 32 == 0
    ensures Ror(w, amt) == w
  {
    LslNone(w);
    RorZero(w);
  }

  lemma {:induction false} LslEven(a: Word, n: nat)
    requires n > 0
    ensures Lsl(a, n) % 2 == 0
    decreases n
  {
    assert Add(a, a) % 2 == 0;
    if n > 1 { LslEven(Add(a, a), n - 1); }
  }

  lemma {:induction false} LsrZero(n: nat)
    ensures Lsr(0, n) == 0 && Floor(0, n) == 0 && Lsl(0, n) == 0
    decreases n
  {
    if n > 0 { LsrZero(n - 1); }
  }

  lemma {:induction false} LsrBound(a: Word, n: nat)
    ensures Lsr(a, n) <= a
    decreases n
  {
    if n > 0 { LsrBound(a / 2, n - 1); }
  }

  lemma {:induction false} FloorBound(x: int, n: nat)
    requires x < 0
    ensures x <= Floor(x, n) < 0
    decreases n
  {
    if n > 0 { FloorBound(x / 2, n - 1); }
  }

  /** A turn that is not whole moves the bottom bit away. */
  lemma OneShifts(kind: int, amt: nat)
    requires 0 <= kind < 4 && 0 < amt < 256 && (kind == 3 ==> amt % 32 != 0)
    ensures RegShift(kind, 1, amt) % 2 == 0 && RegShift(kind, 1, 0) == 1
    ensures kind == 0 && amt < 32 ==> RegShift(kind, 1, amt) == Pow2(amt)
    ensures kind == 3 ==> RegShift(kind, 1, amt) == Pow2(32 - amt % 32)
  {
    hide OrW; hide Pow2; hide Ror; hide Lsl; hide Lsr; hide Asr;
    LslNone(1);
    if kind == 0 {
      if amt < 32 {
        LslPower(amt);
        PowEven(amt);
      }
    } else if kind == 3 {
      OneTurns(amt);
    } else {
      OneGone(amt);
    }
  }

  lemma OneGone(n: nat)
    requires n > 0
    ensures Lsr(1, n) == 0 && Asr(1, n) == 0
  {
    LsrZero(n - 1);
    assert Floor(1, n) == Floor(0, n - 1);
  }

  lemma OneTurns(amt: nat)
    requires amt % 32 != 0
    ensures Ror(1, amt) == Pow2(32 - amt % 32) && Pow2(32 - amt % 32) % 2 == 0
  {
    hide OrW; hide Pow2; hide Lsl; hide Lsr;
    var d := amt % 32;
    OneGone(d);
    LslPower(32 - d);
    PowEven(32 - d);
    OrZero(Lsl(1, 32 - d));
  }

  lemma LslPower(n: nat)
    requires n < 32
    ensures Lsl(1, n) == Pow2(n)
  {
    LslBit(1, n, 0);
    assert Pow2(0) == 1;
  }

  lemma PowEven(n: nat)
    requires n > 0
    ensures Pow2(n) % 2 == 0
  {
  }

  /** The top bit leaves its place under any shift that is not a whole turn. */
  lemma TopShifts(kind: int, amt: nat)
    requires 0 <= kind < 4 && 0 < amt < 256 && (kind == 3 ==> amt % 32 != 0)
    ensures RegShift(kind, TOP, amt) != TOP && RegShift(kind, TOP, 0) == TOP
  {
    hide OrW; hide Pow2;
    LslNone(TOP);
    WholeTurns(TOP, 0);
    var d := if kind == 3 then amt % 32 else amt;
    LsrBound(TOP / 2, d - 1);
    assert Lsr(TOP, d) <= TOP / 2;
    FloorBound(-0x4000_0000, d - 1);
    assert Floor(-0x8000_0000, d) == Floor(-0x4000_0000, d - 1);
    var l := if kind == 0 then amt else 32 - d;
    if 0 < l { TopGone(l); }
    if kind == 3 { OrNone(Lsr(TOP, d)); }
  }

  lemma TopGone(n: nat)
    requires n > 0
    ensures Lsl(TOP, n) == 0
  {
    LsrZero(n - 1);
    assert Add(TOP, TOP) == 0;
  }

  lemma OrNone(a: Word)
    ensures OrW(a, 0) == a
  {
  }

  /** A bit moved down to the bottom. */
  lemma BitShifts(kind: int, w: Word, n: nat)
    requires (kind == 1 || kind == 2) && 0 < n < 31 && w == Pow2(n)
    ensures RegShift(kind, w, n) == 1
    ensures forall amt :: amt >= 32 ==> RegShift(kind, w, amt) == 0
  {
    hide Pow2;
    PowMono(n, 30);
    PowersOfInterest();
    LsrDivides(w, n);
    assert w / Pow2(n) == 1;
    FloorIsLsr(w, n);
  }

  lemma {:induction false} FloorIsLsr(w: Word, n: nat)
    ensures Floor(w, n) == Lsr(w, n)
    decreases n
  {
    if n > 0 { FloorIsLsr(w / 2, n - 1); }
  }

  // ---- results that differ ----

  /** How far the smaller of the two amounts is moved away from zero. */
  function Offset(opn: nat, kind: int, d: nat): nat { if opn == 12 && kind < 3 && d >= 32 then 4 else 0 }

  /** What all registers hold. */
  function Filling(opn: nat, kind: int, d: nat): Word {
    if opn == 11 then TOP
    else if opn == 12 && (kind == 1 || kind == 2) then (if d < 31 then (PowBelow(d); Pow2(d)) else 16)
    else 1
  }

  lemma PowBelow(n: nat)
    requires n < 32
    ensures Pow2(n) < MOD
  {
    Pow32();
    PowMono(n, 31);
    assert Pow2(32) == 2 * Pow2(31);
  }

  /** The results of an operation on two amounts `d` apart: not the same, and for a compare not both zero or both nonzero. */
  predicate Distinct(opn: nat, a: Word, b: Word) { a != b && (Compare(opn) ==> (a == 0) != (b == 0)) }

  /** Operands of different parity give every operation but CMN and ORR different results. */
  lemma ParityTells(opn: nat, even: Word, carry: bool)
    requires opn < 16 && opn != 11 && opn != 12 && even % 2 == 0
    ensures Distinct(opn, Result(opn, 1, 1, carry), Result(opn, 1, even, carry))
  {
    hide And; hide Or; hide Xor;
    BottomBit(1);
    BottomBit(even);
    BottomBit(Not(1));
    BottomBit(Not(even));
    XorOne(1);
    XorOne(even);
  }

  lemma BottomBit(v: Word)
    ensures And(1, v) == v % 2
  {
    hide And;
    AndHalves(1, v);
    AndNothing(v / 2);
  }

  lemma AndNothing(a: nat)
    ensures And(0, a) == 0
  {
  }

  lemma XorOne(v: Word)
    ensures Xor(1, v) == if v % 2 == 1 then v - 1 else v + 1
  {
    if v > 0 {
      assert Xor(1, v) == (if v % 2 == 1 then 0 else 1) + 2 * Xor(0, v / 2);
    }
  }

  lemma OrOne(v: Word)
    ensures Or(1, v) == if v % 2 == 1 then v else v + 1
  {
    if v > 0 {
      assert Or(1, v) == 1 + 2 * Or(0, v / 2);
    }
  }

  lemma OrSame(w: Word)
    ensures Or(w, w) == w && Or(w, 0) == w
  {
    OrSelf(w);
  }

  lemma OrParity(a: Word, b: Word)
    requires b % 2 == 1
    ensures Or(a, b) % 2 == 1
  {
    hide Or;
    OrHalves(a, b);
  }

  /** With every register filled alike, amounts `d` apart give results that can be told apart. */
  lemma ResultsDiffer(opn: nat, kind: int, d: nat, carry: bool)
    requires opn < 16 && 0 <= kind < 4 && 0 < d < 124 && d % 4 == 0 && (kind == 3 ==> d % 32 != 0)
    ensures var w, o := Filling(opn, kind, d), Offset(opn, kind, d);
            Distinct(opn, Result(opn, w, RegShift(kind, w, o), carry), Result(opn, w, RegShift(kind, w, o + d), carry))
  {
    hide RegShift; hide And; hide Or; hide Xor; hide Pow2;
    if opn == 11 {
      TopShifts(kind, d);
    } else if opn == 12 {
      OrsDiffer(kind, d);
    } else {
      OneShifts(kind, d);
      ParityTells(opn, RegShift(kind, 1, d), carry);
    }
  }

  lemma OrsDiffer(kind: int, d: nat)
    requires 0 <= kind < 4 && 0 < d < 124 && d % 4 == 0 && (kind == 3 ==> d % 32 != 0)
    ensures var w, o := Filling(12, kind, d), Offset(12, kind, d);
            OrW(w, RegShift(kind, w, o)) != OrW(w, RegShift(kind, w, o + d))
  {
    hide Or; hide RegShift; hide Pow2;
    OneShifts(kind, if kind == 3 || d < 32 then d else 4);
    OneShifts(0, 4);
    FourthPower();
    if kind == 0 || kind == 3 {
      OrOne(1);
      OrOne(0);
      OrOne(16);
      OrOne(RegShift(kind, 1, d));
      if d >= 32 && kind == 0 { FarShift(d + 4); }
      if kind == 3 { PowEven(32 - d % 32); }
    } else {
      var n := if d < 32 then d else 4;
      var w := Pow2(n);
      PowBelow(n);
      BitShifts(kind, w, n);
      NoShift(kind, w);
      OrSame(w);
      OrParity(w, 1);
      PowEven(n);
    }
  }

  lemma FourthPower()
    ensures Pow2(4) == 16
  {
  }

  lemma FarShift(amt: nat)
    requires amt >= 32
    ensures RegShift(0, 1, amt) == 0
  {
  }

  lemma NoShift(kind: int, w: Word)
    ensures RegShift(kind, w, 0) == w
  {
    LslNone(w);
  }

  // ---- handlers that differ ----

  /** The zero flag of a flag word. */
  predicate ZeroSet(psr: Word) { psr / 0x1000_0000 / 4 % 2 == 1 }

  lemma ZeroOfNz(psr: Word, result: Word)
    ensures ZeroSet(PutNz(psr, result)) <==> result == 0
  {
    NzMoves(psr, result);
  }

  lemma ZeroOfNzcv(psr: Word, f: Nzcv)
    ensures ZeroSet(PutNzcv(psr, f)) <==> f.z
  {
    NzcvMoves(psr, f);
  }

  lemma ZeroOfPsr(op: Word, psr: Word, lhs: Word, rhs: Word, carry: Carry, dest: Word)
    ensures ZeroSet(NewPsr(op, psr, lhs, rhs, carry, dest)) <==> dest == 0
  {
    hide PutNz; hide PutNzcv; hide PutCarry; hide ZeroSet; hide Operation; hide Neg;
    ZeroOfNz(PutCarry(psr, carry), dest);
    ZeroOfNzcv(psr, ArithmeticFlags(Operation(op), lhs, rhs, dest));
  }

  /** Data processing that is given operands with distinct results leaves distinct registers or flags. */
  lemma DataProcessingDiffers(cfg: Config, op: Word, r: Regs, r': Regs)
    requires !NeedsPc(cfg, op) && RsIsPc(op) && SameButPc(cfg, r, r')
    requires Distinct(Operation(op), Result(Operation(op), r[Rn(op)], Operand(cfg, op, r).0, CarrySet(r[cfg.Psr()])),
                      Result(Operation(op), r[Rn(op)], Operand(cfg, op, r').0, CarrySet(r'[cfg.Psr()])))
    ensures !SameButPc(cfg, DataProcessing(cfg, op, r), DataProcessing(cfg, op, r'))
  {
    hide Operand; hide Result; hide NewPsr; hide CarrySet; hide Operation; hide Rd; hide Rn; hide ZeroSet; hide RsIsPc; hide SetsFlags;
    var (rhs, carry) := Operand(cfg, op, r);
    var (rhs', carry') := Operand(cfg, op, r');
    var opn := Operation(op);
    NeedsNot(cfg, op);
    var lhs := r[Rn(op)];
    var dest, dest' := Result(opn, lhs, rhs, CarrySet(r[cfg.Psr()])), Result(opn, lhs, rhs', CarrySet(r'[cfg.Psr()]));
    var a, b := DataProcessing(cfg, op, r), DataProcessing(cfg, op, r');
    if Compare(opn) {
      ZeroOfPsr(op, r[cfg.Psr()], lhs, rhs, carry, dest);
      ZeroOfPsr(op, r'[cfg.Psr()], lhs, rhs', carry', dest');
      SameZero(a[cfg.Psr()], b[cfg.Psr()]);
    } else {
      assert a[Rd(op)] == dest && b[Rd(op)] == dest';
    }
  }

  lemma SameZero(a: Word, b: Word)
    ensures a / 0x1000_0000 == b / 0x1000_0000 ==> (ZeroSet(a) <==> ZeroSet(b))
  {
  }

  lemma NeedsNot(cfg: Config, op: Word)
    requires !NeedsPc(cfg, op)
    ensures Rn(op) != 15 && Rd(op) != 15 && (Compare(Operation(op)) ==> SetsFlags(op))
    ensures !Immediate(op) ==> Rm(op) != 15
  {
  }

  /** A rotation by whole turns differs in the carry alone. */
  lemma CarryDiffers(cfg: Config, op: Word, r: Regs, r': Regs)
    requires !NeedsPc(cfg, op) && RsIsPc(op) && SameButPc(cfg, r, r')
    requires ShiftKind(op) == 3 && SetsFlags(op) && Logical(Operation(op))
    requires r[15] % 256 % 32 == 0 && r[15] % 256 != 0 && r'[15] % 256 == 0
    requires Neg(r[Rm(op)]) != CarrySet(r[cfg.Psr()])
    ensures !SameButPc(cfg, DataProcessing(cfg, op, r), DataProcessing(cfg, op, r'))
  {
    hide Result; hide CarrySet; hide Operation; hide Rd; hide Rn; hide Rm; hide SetsFlags; hide PutNz; hide PutCarry; hide Neg; hide PutNzcv;
    hide Logical; hide Operand; hide AndW; hide RsIsPc; hide ShiftKind;
    NeedsNot(cfg, op);
    TurnedOperand(cfg, op, r);
    TurnedOperand(cfg, op, r');
    var w, psr, psr' := r[Rm(op)], r[cfg.Psr()], r'[cfg.Psr()];
    assert r'[Rm(op)] == w by { RsNotImmediate(op); }
    CarryInNibble(psr);
    CarryInNibble(psr');
    var dest := Result(Operation(op), r[Rn(op)], w, CarrySet(psr));
    CarryNibbles(psr, psr', Neg(w), dest);
    var flags := if r[15] % 256 == 0 then Unchanged else Becomes(Neg(w));
    assert NewPsr(op, psr, r[Rn(op)], w, flags, dest) == PutNz(PutCarry(psr, flags), dest);
    assert DataProcessing(cfg, op, r)[cfg.Psr()] == PutNz(PutCarry(psr, Becomes(Neg(w))), dest);
    assert DataProcessing(cfg, op, r')[cfg.Psr()] == PutNz(PutCarry(psr', Unchanged), dest);
  }

  lemma RsNotImmediate(op: Word)
    requires RsIsPc(op)
    ensures !Immediate(op)
  {
  }

  lemma TurnedOperand(cfg: Config, op: Word, r: Regs)
    requires RsIsPc(op) && ShiftKind(op) == 3 && SetsFlags(op) && Logical(Operation(op)) && r[15] % 256 % 32 == 0
    ensures Operand(cfg, op, r) == (r[Rm(op)], if r[15] % 256 == 0 then Unchanged else Becomes(Neg(r[Rm(op)])))
  {
    hide Operation; hide SetsFlags; hide Ror; hide Logical; hide Rm; hide Lsl; hide Lsr; hide Asr; hide ShiftKind; hide Unshifted;
    NotUnshifted(op);
  }

  /** Setting the carry otherwise than it was, against leaving it, shows in the flags. */
  lemma CarryNibbles(psr: Word, psr': Word, c: bool, dest: Word)
    requires psr / 0x1000_0000 == psr' / 0x1000_0000 && c != CarrySet(psr)
    ensures PutNz(PutCarry(psr, Becomes(c)), dest) / 0x1000_0000 != PutNz(PutCarry(psr', Unchanged), dest) / 0x1000_0000
  {
    hide PutNz; hide PutCarry; hide CarrySet; hide Neg;
    CarryInNibble(psr);
    CarryInNibble(psr');
    CarryMoves(psr, Becomes(c));
    CarryMoves(psr', Unchanged);
    NzMoves(PutCarry(psr, Becomes(c)), dest);
    NzMoves(PutCarry(psr', Unchanged), dest);
  }

  lemma MultiplyDiffers(cfg: Config, op: Word, r: Regs, r': Regs)
    requires ShortMultiply(op) && !NeedsPc(cfg, op) && Rs(op) == 15 && Rn(op) != Rm(op) && SameButPc(cfg, r, r')
    requires r[Rm(op)] == 1 && r[15] != r'[15]
    ensures !SameButPc(cfg, Multiply(cfg, op, r), Multiply(cfg, op, r'))
  {
    hide PutNz; hide Rn; hide Rm; hide Rs; hide Rd; hide Operation; hide SetsFlags; hide Mul;
    NeedsNot(cfg, op);
    MiddleNine(op);
    ByOne(r[15]);
    ByOne(r'[15]);
    NotImmediate(op);
    AddDiffers(r[15], r'[15], r[Rd(op)]);
    assert r'[Rm(op)] == 1 && r'[Rd(op)] == r[Rd(op)];
    assert Multiply(cfg, op, r)[Rn(op)] != Multiply(cfg, op, r')[Rn(op)];
  }

  lemma NotImmediate(op: Word)
    requires ShortMultiply(op)
    ensures !Immediate(op)
  {
  }

  lemma AddDiffers(a: Word, b: Word, c: Word)
    ensures a != b ==> Add(a, c) != Add(b, c)
  {
  }

  /** The high halves of products with 2^31 differ when the other factors differ by a few words. */
  lemma HighDiffers(a: int, b: int, x: int, y: int)
    requires a - b == TOP * (x - y) || a - b == -TOP * (x - y)
    requires (x - y) % 4 == 0 && 0 < (if x > y then x - y else y - x) < 0x1000
    ensures a % (MOD * MOD) / MOD != b % (MOD * MOD) / MOD
  {
    var m := MOD * MOD;
    var p, q := a % m, b % m;
    var j := a / m - b / m;
    assert p - q == a - b - m * j;
    assert 2 * MOD <= a - b < 0x1000 * TOP || 2 * MOD <= b - a < 0x1000 * TOP;
    assert p - q >= MOD || q - p >= MOD;
  }

  /** R15 times 2^31, unsigned or signed. */
  function Factor(op: Word, x: Word): int { if Operation(op) < 6 then x * TOP else Signed(x) * -TOP }

  function Current(op: Word, r: Regs): int { if Operation(op) % 2 == 1 then r[Rn(op)] * MOD + r[Rd(op)] else 0 }

  lemma LongProduct(op: Word, r: Regs)
    requires Rs(op) == 15 && r[Rm(op)] == TOP
    ensures Product(op, r) == (Factor(op, r[15]) + Current(op, r)) % (MOD * MOD)
  {
    hide Rn; hide Rm; hide Rs; hide Rd; hide Operation;
    assert Signed(TOP) == -TOP;
  }

  lemma FactorsDiffer(op: Word, x: Word, y: Word)
    requires Near(x, y)
    ensures Factor(op, x) - Factor(op, y) == TOP * (x - y) || Factor(op, x) - Factor(op, y) == -TOP * (x - y)
  {
    hide Operation;
  }

  lemma LongDiffers(cfg: Config, op: Word, r: Regs, r': Regs)
    requires LongMultiply(cfg, op) && !NeedsPc(cfg, op) && Rs(op) == 15 && SameButPc(cfg, r, r')
    requires r[Rm(op)] == TOP && Near(r[15], r'[15])
    ensures !SameButPc(cfg, MultiplyLong(cfg, op, r), MultiplyLong(cfg, op, r'))
  {
    hide PutLongNz; hide Rn; hide Rm; hide Rs; hide Rd; hide Operation; hide SetsFlags; hide Product; hide Factor; hide Near; hide NeedsPc; hide LongMultiply;
    NeedsNot(cfg, op);
    LongNotImmediate(cfg, op);
    assert r'[Rm(op)] == TOP && r'[Rn(op)] == r[Rn(op)] && r'[Rd(op)] == r[Rd(op)];
    LongProduct(op, r);
    LongProduct(op, r');
    FactorsDiffer(op, r[15], r'[15]);
    NearIs(r[15], r'[15]);
    HighDiffers(Factor(op, r[15]) + Current(op, r), Factor(op, r'[15]) + Current(op, r'), r[15], r'[15]);
    assert MultiplyLong(cfg, op, r)[Rn(op)] == Product(op, r) / MOD;
    assert MultiplyLong(cfg, op, r')[Rn(op)] == Product(op, r') / MOD;
  }

  lemma NearIs(x: Word, y: Word)
    requires Near(x, y)
    ensures (x - y) % 4 == 0 && 0 < (if x > y then x - y else y - x) < 0x1000
  {
  }

  lemma LongNotImmediate(cfg: Config, op: Word)
    requires LongMultiply(cfg, op)
    ensures !Immediate(op) && !ShortMultiply(op) && ShiftKind(op) == 0
  {
    MiddleNine(op);
  }

  /** Two values of R15 with the same flags, a few words apart. */
  predicate Near(x: Word, y: Word) {
    Neg(x) == Neg(y) && (x - y) % 4 == 0 && 0 < (if x > y then x - y else y - x) < 0x1000
  }

  // ---- a state that tells compiled and interpreted apart ----

  /** Flags under which a condition holds. */
  function Flags0(cond: nat): (n: nat)
    ensures n < 16 && (cond < 15 ==> Condition(cond, n))
  {
    if cond == 0 || cond == 9 || cond == 13 then 4 else if cond == 2 || cond == 8 then 2
    else if cond == 4 || cond == 11 then 8 else if cond == 6 then 1 else 0
  }

  /** All registers hold `w`, the flags are `n`, the mode is User mode, and the cached R15 has `low` below its flags. */
  function State(cfg: Config, n: nat, low: Word, w: Word): Host
    requires n < 16 && low < 0x1000
  {
    Host(0, 0, 0, 0, 0, 0, if cfg.bits26 then n * 0x1000_0000 + low else low, Nzcv(false, false, false, false),
         seq(17, i requires 0 <= i < 17 => if i == 16 then n * 0x1000_0000 + (if cfg.bits26 then 0 else 0x10) else w),
         EMPTY, false)
  }

  const EMPTY: BlockTransfer.Memory :=
    BlockTransfer.Memory(map[], (_: nat) => 0, (_: nat) => 0, map[], (_: Word) => false, (_: Word) => false)

  function Interpreted(h: Host, pcinc: Word): Machine { Machine(View(h)[15 := Add(h.r15, pcinc)], h.mem, h.abort) }

  lemma StateIs(cfg: Config, pcinc: Word, n: nat, low: Word, w: Word)
    requires n < 16 && low < 0x1000 && low % 4 == 0 && low >= 8 && PcincOk(pcinc)
    ensures var h := State(cfg, n, low, w);
            var s := Interpreted(h, pcinc);
            && Ahead(cfg, h, s, pcinc) && !s.abort && NoCarry(cfg, s.reg) && Nib(cfg, s.reg) == n
            && (forall i :: 0 <= i < 15 ==> s.reg[i] == w)
            && s.reg[15] % 0x1000_0000 == low + pcinc && s.reg[15] % 256 == (low + pcinc) % 256
            && s.reg[15] / 0x1000_0000 == (if cfg.bits26 then n else 0)
            && Pc(cfg, s.reg[15]) == low + pcinc - 8
            && (!cfg.bits26 ==> s.reg[15] % 4 == 0 && Names32(s.reg[16]))
  {
    hide Pc; hide State; hide Names32; hide Interpreted; hide Add;
    var m := if cfg.bits26 then 0 else 0x10;
    var top := if cfg.bits26 then n else 0;
    var h := State(cfg, n, low, w);
    StateHolds(cfg, n, low, w);
    Below28(n, m);
    Below28(top, low);
    Below28(top, low + pcinc);
    InterpretedIs(h, pcinc, top * 0x1000_0000 + low + pcinc);
    PcOf(cfg, top, low + pcinc);
    ModeNamed(n);
    Fourfold(top, low + pcinc);
  }

  lemma InterpretedIs(h: Host, pcinc: Word, r15: int)
    requires r15 == h.r15 + pcinc < MOD
    ensures var s := Interpreted(h, pcinc);
            && s == Machine(View(h)[15 := Add(h.r15, pcinc)], h.mem, h.abort)
            && s.reg[15] == r15 && forall i :: 0 <= i < 17 && i != 15 ==> s.reg[i] == h.reg[i]
  {
  }

  lemma StateHolds(cfg: Config, n: nat, low: Word, w: Word)
    requires n < 16 && low < 0x1000
    ensures var h := State(cfg, n, low, w);
            && h.r15 == (if cfg.bits26 then n else 0) * 0x1000_0000 + low && !h.abort
            && h.reg[16] == n * 0x1000_0000 + (if cfg.bits26 then 0 else 0x10)
            && (forall i :: 0 <= i < 15 ==> h.reg[i] == w)
  {
  }

  lemma ModeNamed(n: nat)
    requires n < 16
    ensures Names32(n * 0x1000_0000 + 0x10)
  {
    RemainderUnique(n * 0x1000_0000 + 0x10, 0x20, n * 0x80_0000, 0x10);
  }

  lemma Fourfold(n: nat, low: nat)
    requires n < 16 && low % 4 == 0
    ensures (n * 0x1000_0000 + low) % 4 == 0
  {
  }

  lemma PcOf(cfg: Config, n: nat, low: nat)
    requires n < 16 && 8 <= low < 0x2000 && low % 4 == 0
    ensures Pc(cfg, n * 0x1000_0000 + low) == if cfg.bits26 then low - 8 else n * 0x1000_0000 + low - 8
  {
    hide AndW;
    var w := n * 0x1000_0000 + low;
    Masked(cfg, Sub(w, 8));
  }

  lemma Below28(n: nat, low: nat)
    requires n < 16 && low < 0x2000
    ensures var w := n * 0x1000_0000 + low; w % 0x1000_0000 == low && w / 0x1000_0000 == n && w % 256 == low % 256
  {
  }

  /** In step afterwards means: the handler did the same with the stale R15. */
  lemma AgreesMeans(env: Env, cfg: Config, op: Word, pc: Word, pcinc: Word, h: Host, s: Machine)
    requires HelpersAgree(env, cfg) && PcincOk(pcinc) && Reachable(env, cfg, op, pc, pcinc, h, s)
    requires !NeedsPc(cfg, op) && Modelled(cfg, op) && Condition(Cond(op), Nib(cfg, s.reg)) && Agrees(env, cfg, op, pc, pcinc, h, s)
    ensures SameButPc(cfg, s.reg, s.reg[15 := Stale(cfg, op, pcinc, s.reg[15])])
    ensures SameButPc(cfg, Handler(cfg, op, s.reg), Handler(cfg, op, s.reg[15 := Stale(cfg, op, pcinc, s.reg[15])]))
  {
    hide Run; hide PreludeCode; hide GuardedCode; hide NeedsPc; hide RsFree; hide IsBranch; hide Handler; hide Condition; hide Modelled; hide Stale; hide Pending;
    hide Pc; hide Inlined; hide Transfers; hide InlinedSingle; hide SingleTransfers; hide MayAbort;
    BranchNeedsPc(cfg, op);
    var r := s.reg;
    RunPrelude(env, cfg, op, pcinc, h, r);
    var prelude := PreludeCode(cfg, op, pcinc);
    var h1 := Run(env, prelude, h);
    RunAppend(env, prelude, GuardedCode(cfg, op, pc), h);
    var h2 := RunGuarded(env, cfg, op, pc, h1, []);
    RunNil(env, h2);
    assert GuardedCode(cfg, op, pc) + [] == GuardedCode(cfg, op, pc);
    assert View(h1) == r[15 := Stale(cfg, op, pcinc, r[15])];
    assert Nib(cfg, View(h1)) == Nib(cfg, r);
    NibbleKept(Handler(cfg, op, r)[15], 4);
    NibbleKept(h2.r15, Pending(cfg, op, pcinc));
    SamePlaces(cfg, Handler(cfg, op, r), View(h2), Pending(cfg, op, pcinc));
  }

  lemma SamePlaces(cfg: Config, a: Regs, b: Regs, q: Word)
    requires a[15 := Add(a[15], 4)] == b[15 := Add(b[15], q)]
    requires cfg.bits26 ==> Add(a[15], 4) / 0x1000_0000 == a[15] / 0x1000_0000 && Add(b[15], q) / 0x1000_0000 == b[15] / 0x1000_0000
    ensures SameButPc(cfg, a, b)
  {
    forall i | 0 <= i < 17 && i != 15 ensures a[i] == b[i] {
      assert a[15 := Add(a[15], 4)][i] == a[i] && b[15 := Add(b[15], q)][i] == b[i];
    }
    assert a[15 := Add(a[15], 4)][15] == Add(a[15], 4);
  }

  /** How far apart the exact and the stale R15 are. */
  function Distance(pcinc: Word): nat { if pcinc == 120 then 4 else pcinc }

  /** The contents of the registers that tell the two apart. */
  function Telling(cfg: Config, op: Word, pcinc: Word): Word {
    var c := Flags0(Cond(op)) / 2 % 2 == 1;
    if ShortMultiply(op) then 1
    else if LongMultiply(cfg, op) then TOP
    else if ShiftKind(op) == 3 && pcinc % 32 == 0 then (if c then 1 else TOP)
    else Filling(Operation(op), ShiftKind(op), Distance(pcinc))
  }

  /** And of the bits of R15 below the flags: far enough into the page for the pending increments. */
  function TellingLow(op: Word, pcinc: Word): (low: Word)
    ensures 8 <= low < 0x1000 && low % 4 == 0
  {
    if pcinc == 120 then 136 else 0x100 + Offset(Operation(op), ShiftKind(op), Distance(pcinc))
  }

  lemma StaleIs(op: Word, pcinc: Word, r: Regs, cfg: Config)
    requires PcincOk(pcinc) && pcinc != 0 && !NeedsPc(cfg, op)
    requires r[15] % 0x1000_0000 == TellingLow(op, pcinc) + pcinc
    ensures var y, o := Stale(cfg, op, pcinc, r[15]), Offset(Operation(op), ShiftKind(op), Distance(pcinc));
            && Near(r[15], y)
            && (if pcinc == 120 then o == 0 && r[15] % 256 == 0 && y % 256 == 4 else r[15] % 256 == o + pcinc && y % 256 == o)
  {
    hide NeedsPc; hide Operation; hide ShiftKind;
    assert Entering(cfg, op, pcinc) == pcinc;
    Below28(r[15] / 0x1000_0000, r[15] % 0x1000_0000);
    if pcinc == 120 {
      Below28(r[15] / 0x1000_0000, r[15] % 0x1000_0000 + 4);
    } else {
      Below28(r[15] / 0x1000_0000, r[15] % 0x1000_0000 - pcinc);
    }
  }

  /** In the telling state the handler does different things with the exact and the stale R15. */
  lemma HandlersDiffer(cfg: Config, op: Word, pcinc: Word, r: Regs)
    requires PcincOk(pcinc) && !NeedsPc(cfg, op) && !RsFree(op, pcinc) && Modelled(cfg, op) && !IsBranch(op) && Cond(op) != 15
    requires r[15] % 0x1000_0000 == TellingLow(op, pcinc) + pcinc && Nib(cfg, r) == Flags0(Cond(op))
    requires forall i :: 0 <= i < 15 ==> r[i] == Telling(cfg, op, pcinc)
    requires SameButPc(cfg, r, r[15 := Stale(cfg, op, pcinc, r[15])])
    ensures !SameButPc(cfg, Handler(cfg, op, r), Handler(cfg, op, r[15 := Stale(cfg, op, pcinc, r[15])]))
  {
    hide Multiply; hide MultiplyLong; hide DataProcessing; hide NeedsPc; hide SameButPc; hide Stale; hide Flags0; hide Filling; hide Offset;
    hide Operation; hide ShiftKind; hide Modelled; hide IsBranch; hide Opcodes.Rm; hide Opcodes.Rn; hide SetsFlags; hide Near; hide Nib;
    hide TellingLow; hide LongMultiply; hide ShortMultiply;
    StaleIs(op, pcinc, r, cfg);
    NeedsNot(cfg, op);
    RsNotImmediate(op);
    var r' := r[15 := Stale(cfg, op, pcinc, r[15])];
    NearApart(r[15], r'[15]);
    assert Rs(op) == 15;
    if ShortMultiply(op) {
      MultiplyDiffers(cfg, op, r, r');
    } else if LongMultiply(cfg, op) {
      LongDiffers(cfg, op, r, r');
    } else if ShiftKind(op) == 3 && pcinc % 32 == 0 {
      TurnsDiffer(cfg, op, pcinc, r, r');
    } else {
      ShiftsDiffer(cfg, op, pcinc, r, r');
    }
  }

  lemma NearApart(x: Word, y: Word)
    requires Near(x, y)
    ensures x != y
  {
  }

  lemma TurnsDiffer(cfg: Config, op: Word, pcinc: Word, r: Regs, r': Regs)
    requires PcincOk(pcinc) && pcinc % 32 == 0 && pcinc != 0 && !NeedsPc(cfg, op) && RsIsPc(op) && ShiftKind(op) == 3 && !Rotates(op)
    requires SameButPc(cfg, r, r') && Nib(cfg, r) == Flags0(Cond(op))
    requires r[15] % 256 == Offset(Operation(op), 3, pcinc) + pcinc && r'[15] % 256 == Offset(Operation(op), 3, pcinc)
    requires forall i :: 0 <= i < 15 ==> r[i] == if Flags0(Cond(op)) / 2 % 2 == 1 then 1 else TOP
    ensures !SameButPc(cfg, DataProcessing(cfg, op, r), DataProcessing(cfg, op, r'))
  {
    hide DataProcessing; hide NeedsPc; hide SameButPc; hide Flags0; hide Operation; hide ShiftKind; hide SetsFlags; hide CarrySet; hide Rm; hide Logical; hide Cond;
    NeedsNot(cfg, op);
    RsNotImmediate(op);
    CarryInNibble(r[cfg.Psr()]);
    CarryDiffers(cfg, op, r, r');
  }

  lemma ShiftsDiffer(cfg: Config, op: Word, pcinc: Word, r: Regs, r': Regs)
    requires PcincOk(pcinc) && pcinc != 0 && !NeedsPc(cfg, op) && RsIsPc(op) && (ShiftKind(op) == 3 ==> pcinc % 32 != 0)
    requires SameButPc(cfg, r, r')
    requires var o := Offset(Operation(op), ShiftKind(op), Distance(pcinc));
             if pcinc == 120 then o == 0 && r[15] % 256 == 0 && r'[15] % 256 == 4 else r[15] % 256 == o + pcinc && r'[15] % 256 == o
    requires forall i :: 0 <= i < 15 ==> r[i] == Filling(Operation(op), ShiftKind(op), Distance(pcinc))
    ensures !SameButPc(cfg, DataProcessing(cfg, op, r), DataProcessing(cfg, op, r'))
  {
    hide DataProcessing; hide NeedsPc; hide Operation; hide ShiftKind; hide Rm; hide Rn; hide Filling; hide Offset; hide RegShift; hide Result; hide Operand; hide CarrySet; hide RsIsPc; hide Compare;
    NeedsNot(cfg, op);
    RsNotImmediate(op);
    OperandIs(cfg, op, r);
    OperandIs(cfg, op, r');
    CarryInNibble(r[cfg.Psr()]);
    CarryInNibble(r'[cfg.Psr()]);
    assert r'[Rm(op)] == r[Rm(op)];
    ResultsDiffer(Operation(op), ShiftKind(op), Distance(pcinc), CarrySet(r[cfg.Psr()]));
    DataProcessingDiffers(cfg, op, r, r');
  }

  /** The counterexample for any such opcode and any pending increment. */
  lemma StaleDisagrees(env: Env, cfg: Config, op: Word, pcinc: Word)
    requires HelpersAgree(env, cfg) && PcincOk(pcinc) && !NeedsPc(cfg, op) && Cond(op) != 15 && !RsFree(op, pcinc)
    ensures var h := State(cfg, Flags0(Cond(op)), TellingLow(op, pcinc), Telling(cfg, op, pcinc));
            var s, pc := Interpreted(h, pcinc), TellingLow(op, pcinc) + pcinc - 8;
            Reachable(env, cfg, op, pc, pcinc, h, s) && !Agrees(env, cfg, op, pc, pcinc, h, s)
  {
    hide NeedsPc; hide RsFree; hide RsIsPc; hide Handler; hide State; hide Telling; hide TellingLow; hide Flags0; hide Condition; hide Agrees; hide Ahead; hide SameButPc; hide PcKept;
    hide Interpreted; hide Stale; hide Cond; hide HelpersAgree; hide Nib; hide Modelled; hide IsBranch; hide RsBlind; hide Pc;
    var n, low, w := Flags0(Cond(op)), TellingLow(op, pcinc), Telling(cfg, op, pcinc);
    var h := State(cfg, n, low, w);
    var s, pc := Interpreted(h, pcinc), low + pcinc - 8;
    StateIs(cfg, pcinc, n, low, w);
    InPage(op, pcinc);
    Unmoved(env, cfg, op, s);
    if Agrees(env, cfg, op, pc, pcinc, h, s) {
      AgreesMeans(env, cfg, op, pc, pcinc, h, s);
      HandlersDiffer(cfg, op, pcinc, s.reg);
    }
  }

  lemma InPage(op: Word, pcinc: Word)
    requires PcincOk(pcinc)
    ensures pcinc <= TellingLow(op, pcinc) + pcinc - 8 < 0x1000
  {
    hide Operation; hide ShiftKind;
  }

  /** A handler that does not need the PC does not carry it out of its field. */
  lemma Unmoved(env: Env, cfg: Config, op: Word, s: Machine)
    requires HelpersAgree(env, cfg) && !NeedsPc(cfg, op) && NoCarry(cfg, s.reg)
    ensures NoCarry(cfg, Execute(env, cfg, op, s).reg) && Modelled(cfg, op) && !IsBranch(op)
  {
    hide NeedsPc; hide Handler; hide Condition; hide Cond; hide SameButPc; hide Inlined; hide Transfers; hide InlinedSingle; hide SingleTransfers; hide MayAbort;
    Itself(op, cfg, s.reg);
    HandlerPcBlind(cfg, op, s.reg, s.reg);
  }

  lemma Itself(op: Word, cfg: Config, r: Regs)
    ensures RsBlind(op, r, r) && SameButPc(cfg, r, r)
  {
  }

  /**
   An instruction that arm_opcode_needs_pc lets through agrees with the interpreter in every state a block can
   be in, if and only if Rs = R15 does it no harm: Rs is not R15, nothing is pending, the multiply gives zero, or
   the shift is a rotation whose carry is not wanted and the pending increment is a multiple of 32.
   */
  lemma StaleExact(env: Env, cfg: Config, op: Word, pcinc: Word)
    requires HelpersAgree(env, cfg) && PcincOk(pcinc) && !NeedsPc(cfg, op) && Cond(op) != 15
    ensures (forall pc, h, s :: Reachable(env, cfg, op, pc, pcinc, h, s) ==> Agrees(env, cfg, op, pc, pcinc, h, s)) <==> RsFree(op, pcinc)
  {
    hide NeedsPc; hide RsFree; hide Reachable; hide Agrees; hide HelpersAgree; hide State; hide Telling; hide TellingLow; hide Flags0; hide Interpreted; hide Cond;
    if RsFree(op, pcinc) {
      forall pc, h, s | Reachable(env, cfg, op, pc, pcinc, h, s) ensures Agrees(env, cfg, op, pc, pcinc, h, s) {
        FreeAgrees(env, cfg, op, pc, pcinc, h, s);
      }
    } else {
      StaleDisagrees(env, cfg, op, pcinc);
    }
  }
}
