/**
 Whole blocks (arm_exec in arm_dynarec.c): the compiler does not move the cached R15 at
 every instruction but saves the increments up in `pcinc`, skips over instructions whose
 condition fails, and calls the interpreter's handler for what it cannot compile. The
 block it builds is proved equal to interpreting the instructions one by one.
 */
module Block {
  import opened Words
  import opened Flags
  import opened Opcodes
  import opened Interpreter
  import opened HostA64
  import opened Recompiler
  import BlockTransfer
  import InlineTransfer
  import InlineSingle

  // ---- interpreting ----

  function Nib(cfg: Config, r: Regs): (n: nat) ensures n < 16 { r[cfg.Psr()] / 0x1000_0000 }

  /** The handler, if the condition holds. */
  function Execute(env: Env, cfg: Config, op: Word, s: Machine): Machine {
    if Condition(Cond(op), Nib(cfg, s.reg)) then env.helper(op, s) else s
  }

  function Advance(s: Machine): Machine { s.(reg := s.reg[15 := Add(s.reg[15], 4)]) }

  /** One instruction after the other, until one of them aborts. */
  function Interpret(env: Env, cfg: Config, ops: seq<Word>, s: Machine): Machine
    decreases |ops|
  {
    if ops == [] || s.abort then s else Interpret(env, cfg, ops[1..], Advance(Execute(env, cfg, ops[0], s)))
  }

  /** LDM and STM that are compiled inline: without the S bit, and with a base other than R15. */
  predicate Inlined(op: Word) { Class(op) == 2 && !Immediate(op) && (op / 0x40_0000) % 2 == 0 && Rn(op) != 15 }

  /** What the interpreter's LDM or STM does. */
  function Transfers(cfg: Config, cpu: BlockTransfer.Model, op: Word, s: Machine): Machine {
    var out := InlineTransfer.Interpreted(cfg, cpu, op, Unbanked(s.reg), s.mem);
    Machine(out.reg, out.mem, s.abort || out.aborted)
  }

  /** LDR, STR, LDRB and STRB that are compiled inline: see InlineSingle, and with a shift that can be compiled. */
  predicate InlinedSingle(op: Word) { InlineSingle.Compiles(op) && (Immediate(op) ==> ShiftCode(op).Code?) }

  /** What the interpreter's single load or store does. */
  function SingleTransfers(cfg: Config, cpu: BlockTransfer.Model, op: Word, s: Machine): Machine {
    var out := InlineSingle.Interpreted(cfg, cpu, op, s.reg, s.mem);
    Machine(out.reg, out.mem, s.abort || out.aborted)
  }

  /** arm_opcode_may_abort: single and multiple transfers, swaps, and the halfword and signed-byte transfers. */
  predicate MayAbort(cfg: Config, op: Word) {
    || 4 <= (op / 0x100_0000) % 16 <= 9
    || (Class(op) == 0 && !Immediate(op) && Operation(op) in {8, 10} && !SetsFlags(op) && Middle(op) == 9)
    || (cfg.archV4 && ExtraTransfer(op))
  }

  /**
   The handlers the block calls are the interpreter's. Those of the other opcodes may do anything with registers and
   memory, but only the ones that arm_opcode_may_abort names abort.
   */
  ghost predicate HelpersAgree(env: Env, cfg: Config) {
    && (forall op, s | Modelled(cfg, op) :: env.helper(op, s) == s.(reg := Handler(cfg, op, s.reg)))
    && (forall op, s | Inlined(op) :: env.helper(op, s) == Transfers(cfg, env.cpu, op, s))
    && (forall op, s | InlinedSingle(op) :: env.helper(op, s) == SingleTransfers(cfg, env.cpu, op, s))
    && (forall op, s | !MayAbort(cfg, op) :: env.helper(op, s).abort == s.abort)
  }

  /** There are such handlers: the modelled ones, and nothing for the other opcodes. */
  function Reference(cfg: Config, cpu: BlockTransfer.Model): Env {
    Env((op: Word, s: Machine) =>
          if Modelled(cfg, op) then s.(reg := Handler(cfg, op, s.reg))
          else if Inlined(op) then Transfers(cfg, cpu, op, s)
          else if InlinedSingle(op) then SingleTransfers(cfg, cpu, op, s)
          else s,
        0, Nzcv(false, false, false, false), cpu)
  }

  lemma HandlersExist(cfg: Config, cpu: BlockTransfer.Model)
    ensures HelpersAgree(Reference(cfg, cpu), cfg)
  {
    hide Handler; hide Transfers; hide SingleTransfers; hide Modelled; hide Inlined; hide InlinedSingle; hide MayAbort;
    forall op: Word ensures !(Modelled(cfg, op) && Inlined(op)) && !(Modelled(cfg, op) && InlinedSingle(op)) && !(Inlined(op) && InlinedSingle(op))
      ensures Inlined(op) || InlinedSingle(op) ==> MayAbort(cfg, op)
    {
      Classes(cfg, op);
    }
  }

  lemma Classes(cfg: Config, op: Word)
    ensures !(Modelled(cfg, op) && Inlined(op)) && !(Modelled(cfg, op) && InlinedSingle(op)) && !(Inlined(op) && InlinedSingle(op))
    ensures Inlined(op) || InlinedSingle(op) ==> MayAbort(cfg, op)
  {
    hide ShiftCode; hide Rn; hide Rd; hide ShortMultiply; hide LongMultiply; hide ExtraTransfer; hide Operation; hide SetsFlags; hide Middle;
    ByBits(op);
  }

  /** Bits 27 to 24, from bits 27 and 26 and bit 25. */
  lemma ByBits(op: Word)
    ensures (op / 0x100_0000) % 16 / 4 == Class(op) && ((op / 0x100_0000) % 16 / 2 % 2 == 1 <==> Immediate(op))
    ensures IsBranch(op) <==> Class(op) == 2 && Immediate(op)
  {
    var a: int := op / 0x100_0000;
    var q, t := a / 16, a % 16;
    QuotientUnique(op, 0x400_0000, a / 4, op % 0x100_0000 + 0x100_0000 * (a % 4));
    QuotientUnique(op, 0x200_0000, a / 2, op % 0x100_0000 + 0x100_0000 * (a % 2));
    QuotientUnique(a, 4, 4 * q + t / 4, t % 4);
    QuotientUnique(a, 2, 8 * q + t / 2, t % 2);
    RemainderUnique(4 * q + t / 4, 4, q, t / 4);
    RemainderUnique(8 * q + t / 2, 8, q, t / 2);
    RemainderUnique(8 * q + t / 2, 2, 4 * q + t / 2 / 2, t / 2 % 2);
  }

  // ---- compiling ----

  /** arm_opcode_needs_pc: must the cached R15 be exact when this instruction runs? */
  predicate NeedsPc(cfg: Config, op: Word) {
    || Class(op) != 0
    || (Compare(Operation(op)) && !SetsFlags(op))
    || Rn(op) == 15 || Rd(op) == 15 || (!Immediate(op) && Rm(op) == 15)
    || (cfg.archV4 && ExtraTransfer(op))
  }

  function FlushCode(pcinc: Word): seq<Insn> {
    if pcinc != 0 then [AddImm(X20, X20, pcinc)] else []
  }

  function TestCodeFor(cfg: Config, cond: nat): seq<Insn> {
    [if cfg.bits26 then Mov(X9, X20) else Ldr(X9, 16), LsrImm(X9, X9, 28), FlagTable(X9, cond, X9)]
  }

  /** A call to the handler with R15 written back and reloaded around it, and out of the block if it aborts. */
  function CallCode(cfg: Config, op: Word): seq<Insn> {
    [Str(X20, 15), Call(op), Ldr(X20, 15)] + if MayAbort(cfg, op) then [CbnzLeave] else []
  }

  /** Native code, or a call. */
  function BodyCode(cfg: Config, op: Word, pc: Word): seq<Insn> {
    if Recompile(cfg, op, pc).Code? then Recompile(cfg, op, pc).code
    else if Inlined(op) then [Transfer(cfg, op)]
    else if InlinedSingle(op) then (if Immediate(op) then ShiftCode(op).code else []) + [Single(cfg, op)]
    else CallCode(cfg, op)
  }

  /** The body, skipped when the condition fails. */
  function GuardedCode(cfg: Config, op: Word, pc: Word): seq<Insn> {
    var body := BodyCode(cfg, op, pc);
    if Cond(op) == 15 then []
    else if Cond(op) == 14 then body
    else TestCodeFor(cfg, Cond(op)) + ([Cbz(X9, |body|)] + body)
  }

  /** `pcinc` before the increment for this instruction: cleared if R15 has to be exact. */
  function Entering(cfg: Config, op: Word, pcinc: Word): Word {
    if Cond(op) != 15 && NeedsPc(cfg, op) then 0 else pcinc
  }

  predicate PcincOk(pcinc: Word) { pcinc < 124 && pcinc % 4 == 0 }

  /** `pcinc` after it: emitted as soon as it reaches 124. */
  function Pending(cfg: Config, op: Word, pcinc: Word): (after: Word)
    requires PcincOk(pcinc)
    ensures PcincOk(after)
  {
    if Entering(cfg, op, pcinc) == 120 then 0 else Entering(cfg, op, pcinc) + 4
  }

  /** What moves the cached R15 ahead of the instruction. */
  function PreludeCode(cfg: Config, op: Word, pcinc: Word): seq<Insn>
    requires PcincOk(pcinc)
  {
    (if Entering(cfg, op, pcinc) != pcinc then FlushCode(pcinc) else []) +
    (if Entering(cfg, op, pcinc) == 120 then FlushCode(124) else [])
  }

  function Compile(cfg: Config, ops: seq<Word>, pc: Word, pcinc: Word): seq<Insn>
    requires PcincOk(pcinc)
    decreases |ops|
  {
    if ops == [] then FlushCode(pcinc)
    else PreludeCode(cfg, ops[0], pcinc) +
         (GuardedCode(cfg, ops[0], pc) + Compile(cfg, ops[1..], Add(pc, 4), Pending(cfg, ops[0], pcinc)))
  }

  // ---- what the code needs of the run ----

  /** Rs is R15 in a shift by register or a multiply, which arm_opcode_needs_pc does not look at. */
  predicate RsIsPc(op: Word) { Class(op) == 0 && !Immediate(op) && ShiftByRegister(op) && Rs(op) == 15 }

  /** A rotation by Rs whose carry is not wanted: only Rs modulo 32 matters. */
  predicate Rotates(op: Word) { ShiftKind(op) == 3 && !(SetsFlags(op) && Logical(Operation(op))) }

  /**
   When Rs = R15 does no harm although arm_opcode_needs_pc misses it: no increment is pending, or the
   multiply gives zero because Rd is Rm, or the pending increment is a multiple of 32 and the shift a rotation.
   */
  predicate RsFree(op: Word, pcinc: Word) {
    !RsIsPc(op) || pcinc == 0 || (ShortMultiply(op) && Rn(op) == Rm(op)) || (Rotates(op) && pcinc % 32 == 0)
  }

  /** Incrementing a 26-bit R15 does not carry out of bit 27 into the condition flags. */
  predicate NoCarry(cfg: Config, r: Regs) { cfg.bits26 ==> r[15] % 0x1000_0000 + 4 < 0x1000_0000 }

  predicate Tame(env: Env, cfg: Config, ops: seq<Word>, pc: Word, pcinc: Word, s: Machine)
    requires PcincOk(pcinc)
    decreases |ops|
  {
    ops == [] || s.abort ||
    (&& (Cond(ops[0]) == 15 || NeedsPc(cfg, ops[0]) || RsFree(ops[0], pcinc))
     && (IsBranch(ops[0]) ==> BranchSafe(cfg, ops[0], pc, s.reg[15]))
     && NoCarry(cfg, s.reg) && NoCarry(cfg, Execute(env, cfg, ops[0], s).reg)
     && Tame(env, cfg, ops[1..], Add(pc, 4), Pending(cfg, ops[0], pcinc), Advance(Execute(env, cfg, ops[0], s))))
  }

  // ---- an instruction that does not need the PC ----

  /** Equal but for the low 28 bits of R15 (all of R15 in the 32-bit modes, where it holds no flags). */
  predicate SameButPc(cfg: Config, r: Regs, r': Regs) {
    && (forall i :: 0 <= i < 17 && i != 15 ==> r[i] == r'[i])
    && (cfg.bits26 ==> r[15] / 0x1000_0000 == r'[15] / 0x1000_0000)
  }

  /** Two register files give an opcode the same Rs, as far as it looks at it. */
  predicate RsBlind(op: Word, r: Regs, r': Regs) {
    !RsIsPc(op) || r[15] == r'[15] || (ShortMultiply(op) && Rn(op) == Rm(op)) || (Rotates(op) && r[15] % 32 == r'[15] % 32)
  }

  /** How a handler may move R15: its flags, not the bits the PC and the increments live in. */
  predicate PcKept(cfg: Config, r: Regs, after: Regs) {
    if cfg.bits26 then after[15] % 0x1000_0000 == r[15] % 0x1000_0000 else after[15] == r[15]
  }

  lemma ImmediateOrShiftSame(cfg: Config, op: Word, r: Regs, r': Regs)
    requires !NeedsPc(cfg, op) && RsBlind(op, r, r') && !ShortMultiply(op) && SameButPc(cfg, r, r')
    ensures Operand(cfg, op, r) == Operand(cfg, op, r')
    ensures Address(cfg, r, Rn(op)) == Address(cfg, r', Rn(op))
    ensures CarrySet(r[cfg.Psr()]) == CarrySet(r'[cfg.Psr()])
  {
    hide Lsl; hide Lsr; hide Asr; hide Ror; hide Rrx; hide ImmediateOperand; hide AndW; hide Rm; hide Rn; hide Rd; hide Operation;
    CarryInNibble(r[15]); CarryInNibble(r'[15]);
    if !Immediate(op) {
      assert r[Rm(op)] == r'[Rm(op)];
      if RsIsPc(op) && r[15] != r'[15] {
        RotationsSame(r[Rm(op)], r[15], r'[15]);
      } else {
        assert ShiftByRegister(op) ==> r[Rs(op)] == r'[Rs(op)];
        assert Amount(op, r) == Amount(op, r');
      }
    }
  }

  /** Amounts that agree modulo 32 rotate alike. */
  lemma RotationsSame(w: Word, a: Word, b: Word)
    requires a % 32 == b % 32
    ensures Ror(w, a % 256) == Ror(w, b % 256)
  {
    hide Lsl; hide Lsr; hide OrW;
    LowFive(a);
    LowFive(b);
  }

  lemma LowFive(a: Word)
    ensures a % 256 % 32 == a % 32
  {
    var q, r: int := a / 256, a % 256;
    RemainderUnique(a, 32, 8 * q + r / 32, r % 32);
  }

  lemma CarryInNibble(w: Word)
    ensures CarrySet(w) == ((w / 0x1000_0000) / 2 % 2 == 1)
  {
  }

  /** A flag-word update depends on the flags and changes nothing below them. */
  lemma LogicalUpdate(psr: Word, psr': Word, carry: Carry, result: Word)
    requires psr / 0x1000_0000 == psr' / 0x1000_0000
    ensures var a, b := PutNz(PutCarry(psr, carry), result), PutNz(PutCarry(psr', carry), result);
            a / 0x1000_0000 == b / 0x1000_0000 && a % 0x1000_0000 == psr % 0x1000_0000
  {
    hide PutCarry; hide CarrySet; hide Neg; hide Bit;
    CarryInNibble(psr); CarryInNibble(psr');
    CarryMoves(psr, carry); CarryMoves(psr', carry);
    NzMoves(PutCarry(psr, carry), result); NzMoves(PutCarry(psr', carry), result);
  }

  lemma LongUpdate(psr: Word, psr': Word, p: int)
    requires psr / 0x1000_0000 == psr' / 0x1000_0000 && 0 <= p < MOD * MOD
    ensures PutLongNz(psr, p) / 0x1000_0000 == PutLongNz(psr', p) / 0x1000_0000
    ensures PutLongNz(psr, p) % 0x1000_0000 == psr % 0x1000_0000
  {
    var k := 2 * Bit(Neg(p / MOD)) + Bit(p == 0);
    Place(psr, k); Place(psr', k);
  }

  lemma NzcvMoves(psr: Word, f: Nzcv)
    ensures PutNzcv(psr, f) / 0x1000_0000 == Nibble(f) && PutNzcv(psr, f) % 0x1000_0000 == psr % 0x1000_0000
  {
  }

  lemma NzMoves(psr: Word, result: Word)
    ensures PutNz(psr, result) / 0x1000_0000 == (psr / 0x1000_0000) % 4 + 4 * (2 * Bit(Neg(result)) + Bit(result == 0))
    ensures PutNz(psr, result) % 0x1000_0000 == psr % 0x1000_0000
  {
    Place(psr, 2 * Bit(Neg(result)) + Bit(result == 0));
  }

  lemma Place(psr: Word, k: nat)
    requires k < 4
    ensures var w := psr % 0x4000_0000 + k * 0x4000_0000;
            w / 0x1000_0000 == (psr / 0x1000_0000) % 4 + 4 * k && w % 0x1000_0000 == psr % 0x1000_0000
  {
    var w := psr % 0x4000_0000 + k * 0x4000_0000;
    var n, l := psr / 0x1000_0000, psr % 0x1000_0000;
    assert psr % 0x4000_0000 == (n % 4) * 0x1000_0000 + l;
    assert w == (n % 4 + 4 * k) * 0x1000_0000 + l;
  }

  lemma CarryMoves(psr: Word, carry: Carry)
    ensures PutCarry(psr, carry) % 0x1000_0000 == psr % 0x1000_0000
    ensures PutCarry(psr, carry) / 0x1000_0000 ==
            psr / 0x1000_0000 + if carry.Unchanged? || carry.c == CarrySet(psr) then 0 else if carry.c then 2 else -2
  {
  }

  lemma DataProcessingPcBlind(cfg: Config, op: Word, r: Regs, r': Regs)
    requires !NeedsPc(cfg, op) && RsBlind(op, r, r') && !ShortMultiply(op) && SameButPc(cfg, r, r')
    ensures SameButPc(cfg, DataProcessing(cfg, op, r), DataProcessing(cfg, op, r'))
    ensures PcKept(cfg, r, DataProcessing(cfg, op, r))
  {
    hide Operand; hide Address; hide Result; hide ArithmeticFlags; hide PutNzcv; hide PutNz; hide PutCarry; hide CarrySet;
    ImmediateOrShiftSame(cfg, op, r, r');
    var (rhs, carry) := Operand(cfg, op, r);
    var lhs := Address(cfg, r, Rn(op));
    var dest := Result(Operation(op), lhs, rhs, CarrySet(r[cfg.Psr()]));
    if !cfg.bits26 {
    } else if Logical(Operation(op)) {
      LogicalUpdate(r[15], r'[15], carry, dest);
    } else {
      var f := ArithmeticFlags(Operation(op), lhs, rhs, dest);
      NzcvMoves(r[15], f); NzcvMoves(r'[15], f);
    }
  }

  lemma MultiplyPcBlind(cfg: Config, op: Word, r: Regs, r': Regs)
    requires ShortMultiply(op) && !NeedsPc(cfg, op) && RsBlind(op, r, r') && SameButPc(cfg, r, r')
    ensures SameButPc(cfg, Multiply(cfg, op, r), Multiply(cfg, op, r'))
    ensures PcKept(cfg, r, Multiply(cfg, op, r))
  {
    hide PutNz; hide Mul; hide Add;
    MiddleNine(op);
    assert Multiply(cfg, op, r)[Rn(op)] == Multiply(cfg, op, r')[Rn(op)];
    if cfg.bits26 { LogicalUpdate(r[15], r'[15], Unchanged, Multiply(cfg, op, r)[Rn(op)]); }
  }

  lemma MiddleNine(op: Word)
    requires Middle(op) == 9
    ensures ShiftByRegister(op) && ShiftKind(op) == 0
  {
    var q: int := op / 0x10;
    var k: int := q / 16;
    QuotientUnique(op, 0x20, 8 * k + 4, 0x10 + op % 0x10);
    RemainderUnique(q, 2, 8 * k + 4, 1);
    RemainderUnique(8 * k + 4, 4, 2 * k + 1, 0);
  }

  lemma MultiplyLongPcBlind(cfg: Config, op: Word, r: Regs, r': Regs)
    requires LongMultiply(cfg, op) && !NeedsPc(cfg, op) && RsBlind(op, r, r') && SameButPc(cfg, r, r')
    ensures SameButPc(cfg, MultiplyLong(cfg, op, r), MultiplyLong(cfg, op, r'))
    ensures PcKept(cfg, r, MultiplyLong(cfg, op, r))
  {
    hide PutLongNz;
    MiddleNine(op);
    assert Product(op, r) == Product(op, r');
    hide Product;
    if cfg.bits26 { LongUpdate(r[15], r'[15], Product(op, r)); }
  }

  /** Without arm_opcode_needs_pc, and with an Rs that is seen alike, a handler neither sees nor moves the PC. */
  lemma HandlerPcBlind(cfg: Config, op: Word, r: Regs, r': Regs)
    requires !NeedsPc(cfg, op) && RsBlind(op, r, r') && SameButPc(cfg, r, r')
    ensures Modelled(cfg, op) && !IsBranch(op)
    ensures SameButPc(cfg, Handler(cfg, op, r), Handler(cfg, op, r'))
    ensures PcKept(cfg, r, Handler(cfg, op, r))
  {
    hide Multiply; hide MultiplyLong; hide DataProcessing; hide SameButPc; hide PcKept; hide RsBlind;
    assert !IsBranch(op) by { NotBranch(op); }
    if ShortMultiply(op) {
      MultiplyPcBlind(cfg, op, r, r');
    } else if LongMultiply(cfg, op) {
      MultiplyLongPcBlind(cfg, op, r, r');
    } else {
      DataProcessingPcBlind(cfg, op, r, r');
    }
  }

  lemma NotBranch(op: Word)
    requires Class(op) == 0
    ensures !IsBranch(op)
  {
  }

  // ---- one instruction of a block ----

  /** The interpreter's state is the host's, with `d` still to be added to the cached R15. */
  ghost predicate Ahead(cfg: Config, h: Host, s: Machine, d: Word) {
    && s == Machine(View(h)[15 := Add(h.r15, d)], h.mem, h.abort)
    && (cfg.bits26 ==> h.r15 % 0x1000_0000 + d < 0x1000_0000)
  }

  /** What arm_exec makes of a block that has been left: an abort finds R15 four short. */
  function Outcome(h: Host): Machine { if h.abort then Advance(Seen(h)) else Seen(h) }

  lemma RunFlush(env: Env, d: Word, h: Host)
    ensures Straight(FlushCode(d))
    ensures Run(env, FlushCode(d), h) == h.(r15 := Add(h.r15, d))
  {
    hide Called; hide Transferred; hide Singled;
    if d != 0 { Run1(env, AddImm(X20, X20, d), h); }
  }

  /** The cached R15 an instruction finds, for the exact one and the increment pending before it. */
  function Stale(cfg: Config, op: Word, pcinc: Word, r15: Word): Word {
    var p := Entering(cfg, op, pcinc);
    if p == 120 then Add(r15, 4) else Sub(r15, p)
  }

  /**
   After the prelude the cached R15 and the pending increment make up the interpreter's R15
   plus four; R15 is exact if the instruction needs it, and its flags are right in any case.
   */
  lemma RunPrelude(env: Env, cfg: Config, op: Word, pcinc: Word, h: Host, r: Regs)
    requires PcincOk(pcinc) && r == View(h)[15 := Add(h.r15, pcinc)] && NoCarry(cfg, r)
    requires cfg.bits26 ==> h.r15 % 0x1000_0000 + pcinc < 0x1000_0000
    ensures Straight(PreludeCode(cfg, op, pcinc))
    ensures var h1 := Run(env, PreludeCode(cfg, op, pcinc), h);
            && h1 == h.(r15 := h1.r15)
            && Add(h1.r15, Pending(cfg, op, pcinc)) == Add(r[15], 4)
            && (cfg.bits26 ==> h1.r15 % 0x1000_0000 + Pending(cfg, op, pcinc) == r[15] % 0x1000_0000 + 4)
            && SameButPc(cfg, r, View(h1))
            && ((Cond(op) != 15 && NeedsPc(cfg, op)) || pcinc == 0 ==> View(h1) == r && Pending(cfg, op, pcinc) == 4)
            && h1.r15 == Stale(cfg, op, pcinc, r[15])
  {
    hide Run; hide NeedsPc; hide FlushCode; hide Step; hide Add; hide Sub;
    RunFlush(env, pcinc, h);
    RunFlush(env, 124, h);
    RunNil(env, h);
    var c1 := if Entering(cfg, op, pcinc) != pcinc then FlushCode(pcinc) else [];
    var c2 := if Entering(cfg, op, pcinc) == 120 then FlushCode(124) else [];
    RunAppend(env, c1, c2, h);
    RunNil(env, h.(r15 := Add(h.r15, pcinc)));
    NibbleKept(h.r15, pcinc);
    NibbleKept(h.r15, 124);
    NibbleKept(r[15], 4);
    Steady(h.r15, pcinc);
  }

  /** Adding in one go or in two. */
  lemma Steady(a: Word, d: Word)
    requires d < 124
    ensures Add(a, 124) == Add(Add(a, d), 124 - d) && Add(a, d + 4) == Add(Add(a, d), 4) && Sub(Add(a, d), d) == a
    ensures Sub(Add(a, d), 0) == Add(a, d) && Add(Add(a, 124), 0) == Add(a, 124) && Add(a, 0) == a
  {
  }

  lemma NibbleKept(w: Word, d: Word)
    ensures w % 0x1000_0000 + d < 0x1000_0000 ==>
            && Add(w, d) == w + d
            && Add(w, d) / 0x1000_0000 == w / 0x1000_0000
            && Add(w, d) % 0x1000_0000 == w % 0x1000_0000 + d
  {
  }

  lemma RunTestCode(env: Env, cfg: Config, cond: nat, h: Host)
    ensures Straight(TestCodeFor(cfg, cond))
    ensures Run(env, TestCodeFor(cfg, cond), h) ==
            h.(x9 := Bit(Condition(cond, Nib(cfg, View(h)))), x9hi := 0)
  {
    hide Run; hide Lsr; hide Condition; hide Pow2; hide Step;
    var psr := View(h)[cfg.Psr()];
    TopNibble(psr);
    var n: Word := Nib(cfg, View(h));
    assert n % 16 == n;
    var i, j, k := if cfg.bits26 then Mov(X9, X20) else Ldr(X9, 16), LsrImm(X9, X9, 28), FlagTable(X9, cond, X9);
    assert TestCodeFor(cfg, cond) == [i] + ([j] + [k]);
    RunCons(env, i, [j] + [k], h);
    RunCons(env, j, [k], h.(x9 := psr, x9hi := 0));
    Run1(env, k, h.(x9 := n, x9hi := 0));
    if cfg.bits26 { StepMov(env, X9, X20, h); } else { StepLdr(env, X9, 16, h); }
    StepFlagTable(env, X9, cond, X9, h.(x9 := psr, x9hi := 0));
    StepFlagTable(env, X9, cond, X9, h.(x9 := n, x9hi := 0));
  }

  lemma TopNibble(psr: Word)
    ensures Lsr(psr, 28) == psr / 0x1000_0000
  {
    hide Lsr; hide Pow2;
    LsrDivides(psr, 28);
    PowersOfInterest();
  }

  /** The body does what the handler does, and an abort leaves the block. */
  lemma RunBody(env: Env, cfg: Config, op: Word, pc: Word, h: Host, rest: seq<Insn>) returns (h2: Host)
    requires HelpersAgree(env, cfg) && !h.abort
    requires IsBranch(op) ==> BranchSafe(cfg, op, pc, h.r15)
    ensures Run(env, BodyCode(cfg, op, pc) + rest, h) == if h2.abort then h2 else Run(env, rest, h2)
    ensures Seen(h2) == env.helper(op, Seen(h))
  {
    hide Run; hide Recompile; hide BranchSafe; hide IsBranch; hide Handler; hide Modelled; hide Inlined; hide Transfers; hide InlinedSingle; hide SingleTransfers; hide CallCode;
    hide MayAbort; hide Step; hide Seen; hide InlinedSingle; hide SingleTransfers; hide ShiftCode; hide Immediate;
    SeenFields(h);
    if Recompile(cfg, op, pc).Code? {
      RecompileCorrect(env, cfg, op, pc, h);
      RunAppend(env, Recompile(cfg, op, pc).code, rest, h);
      h2 := Run(env, Recompile(cfg, op, pc).code, h);
      SeenFields(h2);
    } else if Inlined(op) {
      h2 := RunTransfer(env, cfg, op, h, rest);
    } else if InlinedSingle(op) {
      h2 := RunSingle(env, cfg, op, h, rest);
    } else {
      h2 := RunCall(env, cfg, op, h, rest);
    }
  }

  lemma SeenFields(h: Host)
    ensures Seen(h) == Machine(View(h), h.mem, h.abort)
  {
  }

  lemma RunCall(env: Env, cfg: Config, op: Word, h: Host, rest: seq<Insn>) returns (h2: Host)
    requires !MayAbort(cfg, op) ==> env.helper(op, Seen(h)).abort == h.abort
    requires !h.abort
    ensures Run(env, CallCode(cfg, op) + rest, h) == if h2.abort then h2 else Run(env, rest, h2)
    ensures Seen(h2) == env.helper(op, Seen(h))
  {
    hide Run; hide MayAbort; hide Step;
    var i, j, k := Str(X20, 15), Call(op), Ldr(X20, 15);
    var last := if MayAbort(cfg, op) then [CbnzLeave] else [];
    assert CallCode(cfg, op) + rest == [i] + ([j] + ([k] + (last + rest)));
    RunCons(env, i, [j] + ([k] + (last + rest)), h);
    var h1 := Step(env, i, h);
    RunCons(env, j, [k] + (last + rest), h1);
    RunCons(env, k, last + rest, Step(env, j, h1));
    h2 := Step(env, k, Step(env, j, h1));
    StepStr(env, X20, 15, h);
    StepCall(env, op, h1);
    StepLdr(env, X20, 15, Called(env, op, h1));
    assert Machine(h1.reg, h1.mem, h1.abort) == Seen(h);
    if MayAbort(cfg, op) { RunCbnz(env, rest, h2); } else { assert last + rest == rest; }
  }

  lemma StepCall(env: Env, op: Word, h: Host)
    ensures Step(env, Call(op), h) == Called(env, op, h)
  {
    hide Called;
  }

  lemma RunCbnz(env: Env, rest: seq<Insn>, h: Host)
    ensures Run(env, [CbnzLeave] + rest, h) == if h.w0 != 0 then h else Run(env, rest, h)
  {
    assert ([CbnzLeave] + rest)[1..] == rest;
  }

  lemma RunTransfer(env: Env, cfg: Config, op: Word, h: Host, rest: seq<Insn>) returns (h2: Host)
    requires !h.abort
    ensures Run(env, [Transfer(cfg, op)] + rest, h) == if h2.abort then h2 else Run(env, rest, h2)
    ensures Seen(h2) == Transfers(cfg, env.cpu, op, Seen(h))
  {
    hide InlineTransfer.Compiled; hide InlineTransfer.Interpreted; hide Unbanked;
    h2 := Transferred(env, cfg, op, h);
    assert ([Transfer(cfg, op)] + rest)[1..] == rest;
    InlineTransfer.BlockTransferCorrect(cfg, env.cpu, op, Unbanked(View(h)), h.mem, InlineTransfer.Pair(h.x10, h.x11), h.x9);
  }

  lemma RunSingle(env: Env, cfg: Config, op: Word, h: Host, rest: seq<Insn>) returns (h2: Host)
    requires !h.abort && InlinedSingle(op)
    ensures var shift := if Immediate(op) then ShiftCode(op).code else [];
            Run(env, shift + [Single(cfg, op)] + rest, h) == if h2.abort then h2 else Run(env, rest, h2)
    ensures Seen(h2) == SingleTransfers(cfg, env.cpu, op, Seen(h))
  {
    hide InlineSingle.Compiled; hide InlineSingle.Interpreted; hide ShiftCode; hide Immediate; hide InlineSingle.Compiles; hide Run; hide Shifted;
    var shift := if Immediate(op) then ShiftCode(op).code else [];
    if Immediate(op) { RunShift(env, cfg, op, h); }
    RunNil(env, h);
    var h1 := Run(env, shift, h);
    assert shift + [Single(cfg, op)] + rest == shift + ([Single(cfg, op)] + rest);
    RunAppend(env, shift, [Single(cfg, op)] + rest, h);
    RunSingleStep(env, cfg, op, h1, rest);
    h2 := Singled(env, cfg, op, h1);
    InlineSingle.SingleCorrect(cfg, env.cpu, op, View(h), h.mem, h1.x9, env.junk);
  }

  lemma RunSingleStep(env: Env, cfg: Config, op: Word, h: Host, rest: seq<Insn>)
    ensures var h1 := Singled(env, cfg, op, h); Run(env, [Single(cfg, op)] + rest, h) == if h1.abort then h1 else Run(env, rest, h1)
  {
    hide Singled;
    assert ([Single(cfg, op)] + rest)[1..] == rest;
  }

  /** The guarded body runs the handler if the condition holds and then falls into what follows. */
  lemma RunGuarded(env: Env, cfg: Config, op: Word, pc: Word, h: Host, rest: seq<Insn>) returns (h2: Host)
    requires HelpersAgree(env, cfg) && !h.abort
    requires IsBranch(op) && Cond(op) != 15 ==> BranchSafe(cfg, op, pc, h.r15)
    ensures Run(env, GuardedCode(cfg, op, pc) + rest, h) == if h2.abort then h2 else Run(env, rest, h2)
    ensures Seen(h2) == Execute(env, cfg, op, Seen(h))
  {
    hide Run; hide BodyCode; hide BranchSafe; hide IsBranch; hide TestCodeFor; hide Step; hide Cond; hide HelpersAgree;
    var body := BodyCode(cfg, op, pc);
    var taken := Condition(Cond(op), Nib(cfg, View(h)));
    if Cond(op) == 15 {
      assert GuardedCode(cfg, op, pc) + rest == rest;
      h2 := h;
    } else if Cond(op) == 14 {
      h2 := RunBody(env, cfg, op, pc, h, rest);
    } else {
      var test, skip := TestCodeFor(cfg, Cond(op)), Cbz(X9, |body|);
      var h1 := h.(x9 := Bit(taken), x9hi := 0);
      RunTestCode(env, cfg, Cond(op), h);
      assert GuardedCode(cfg, op, pc) + rest == test + ([skip] + (body + rest));
      RunAppend(env, test, [skip] + (body + rest), h);
      RunSkip(env, body, rest, h1);
      if taken {
        h2 := RunBody(env, cfg, op, pc, h1, rest);
      } else {
        h2 := h1;
      }
    }
  }

  lemma RunSkip(env: Env, body: seq<Insn>, rest: seq<Insn>, h: Host)
    ensures Run(env, [Cbz(X9, |body|)] + (body + rest), h) ==
            if h.x9 == 0 then Run(env, rest, h) else Run(env, body + rest, h)
  {
    hide Step;
    var code := [Cbz(X9, |body|)] + (body + rest);
    assert code[1..] == body + rest && code[1 + |body|..] == rest;
  }

  /** One instruction: from in step to in step again, or out of the block with what the interpreter has. */
  lemma OneInstruction(env: Env, cfg: Config, op: Word, pc: Word, pcinc: Word, h: Host, s: Machine, rest: seq<Insn>)
    returns (h2: Host)
    requires HelpersAgree(env, cfg) && PcincOk(pcinc) && Ahead(cfg, h, s, pcinc) && !h.abort
    requires Cond(op) == 15 || NeedsPc(cfg, op) || RsFree(op, pcinc)
    requires IsBranch(op) ==> BranchSafe(cfg, op, pc, s.reg[15])
    requires NoCarry(cfg, s.reg) && NoCarry(cfg, Execute(env, cfg, op, s).reg)
    ensures Run(env, PreludeCode(cfg, op, pcinc) + (GuardedCode(cfg, op, pc) + rest), h) == if h2.abort then h2 else Run(env, rest, h2)
    ensures Ahead(cfg, h2, Advance(Execute(env, cfg, op, s)), Pending(cfg, op, pcinc))
    ensures h2.abort ==> Outcome(h2) == Advance(Execute(env, cfg, op, s))
  {
    hide Run; hide GuardedCode; hide PreludeCode; hide BranchSafe; hide Condition; hide Handler; hide RsIsPc; hide RsFree; hide RsBlind; hide Stale; hide Step;
    hide HelpersAgree; hide NeedsPc; hide IsBranch;
    RunPrelude(env, cfg, op, pcinc, h, s.reg);
    var h1 := Run(env, PreludeCode(cfg, op, pcinc), h);
    RunAppend(env, PreludeCode(cfg, op, pcinc), GuardedCode(cfg, op, pc) + rest, h);
    BranchNeedsPc(cfg, op);
    h2 := RunGuarded(env, cfg, op, pc, h1, rest);
    assert Nib(cfg, View(h1)) == Nib(cfg, s.reg);
    if Cond(op) != 15 && !NeedsPc(cfg, op) { StaleBlind(cfg, op, pcinc, s.reg, View(h1)); }
    InStep(env, cfg, op, s, h1, h2, Pending(cfg, op, pcinc));
  }

  lemma BranchNeedsPc(cfg: Config, op: Word)
    ensures IsBranch(op) ==> NeedsPc(cfg, op)
  {
    if Class(op) == 0 { NotBranch(op); }
  }

  lemma InStep(env: Env, cfg: Config, op: Word, s: Machine, h1: Host, h2: Host, q: Word)
    requires HelpersAgree(env, cfg) && SameButPc(cfg, s.reg, View(h1)) && q < 124
    requires s.mem == h1.mem && !s.abort && !h1.abort
    requires Add(h1.r15, q) == Add(s.reg[15], 4)
    requires cfg.bits26 ==> h1.r15 % 0x1000_0000 + q == s.reg[15] % 0x1000_0000 + 4
    requires Seen(h2) == Execute(env, cfg, op, Seen(h1))
    requires Cond(op) == 15 || NeedsPc(cfg, op) || (RsBlind(op, s.reg, View(h1)) && RsBlind(op, View(h1), s.reg))
    requires Cond(op) != 15 && NeedsPc(cfg, op) ==> View(h1) == s.reg && q == 4
    requires NoCarry(cfg, s.reg) && NoCarry(cfg, Execute(env, cfg, op, s).reg)
    ensures Ahead(cfg, h2, Advance(Execute(env, cfg, op, s)), q)
    ensures h2.abort ==> Outcome(h2) == Advance(Execute(env, cfg, op, s))
  {
    hide Handler; hide RsBlind; hide NeedsPc; hide Condition; hide Inlined; hide Transfers; hide InlinedSingle; hide SingleTransfers; hide MayAbort; hide Modelled; hide IsBranch;
    var r := s.reg;
    assert Nib(cfg, View(h1)) == Nib(cfg, r);
    assert h2.r15 == View(h2)[15];
    NeverRuns(op, Nib(cfg, r));
    if Condition(Cond(op), Nib(cfg, r)) && !NeedsPc(cfg, op) {
      HandlerPcBlind(cfg, op, r, View(h1));
      HandlerPcBlind(cfg, op, View(h1), r);
      Realign(cfg, r[15], h1.r15, Handler(cfg, op, r)[15], h2.r15, q);
    }
    var r1 := Advance(Execute(env, cfg, op, s)).reg;
    assert r1 == View(h2)[15 := Add(h2.r15, q)];
  }

  /** Where Rs = R15 does no harm, the stale R15 is seen as the exact one. */
  lemma StaleBlind(cfg: Config, op: Word, pcinc: Word, r: Regs, r': Regs)
    requires PcincOk(pcinc) && !NeedsPc(cfg, op) && RsFree(op, pcinc) && r'[15] == Stale(cfg, op, pcinc, r[15])
    ensures RsBlind(op, r, r') && RsBlind(op, r', r)
  {
    hide RsIsPc; hide ShortMultiply; hide Rotates; hide Rn; hide Rm;
    assert Entering(cfg, op, pcinc) == pcinc;
    if pcinc % 32 == 0 { SubKeeps(r[15], pcinc); }
  }

  lemma SubKeeps(w: Word, d: Word)
    requires d % 32 == 0
    ensures Sub(w, d) % 32 == w % 32
  {
  }

  lemma NeverRuns(op: Word, n: nat)
    requires n < 16
    ensures Cond(op) == 15 ==> !Condition(Cond(op), n)
  {
  }

  /** Setting the flags of two R15s the same way keeps the distance between them. */
  lemma Realign(cfg: Config, a: Word, b: Word, a': Word, b': Word, q: Word)
    requires q < 124 && Add(b, q) == Add(a, 4)
    requires cfg.bits26 ==> b % 0x1000_0000 + q == a % 0x1000_0000 + 4 < 0x1000_0000
    requires if cfg.bits26 then a' / 0x1000_0000 == b' / 0x1000_0000 &&
                                a' % 0x1000_0000 == a % 0x1000_0000 && b' % 0x1000_0000 == b % 0x1000_0000
             else a' == a && b' == b
    ensures Add(b', q) == Add(a', 4)
    ensures cfg.bits26 ==> b' % 0x1000_0000 + q < 0x1000_0000
  {
    if cfg.bits26 {
      NibbleKept(b', q); NibbleKept(a', 4);
    }
  }

  // ---- the whole block ----

  lemma {:induction false} CompileCorrect(env: Env, cfg: Config, ops: seq<Word>, pc: Word, pcinc: Word, h: Host, s: Machine)
    requires HelpersAgree(env, cfg) && PcincOk(pcinc) && Ahead(cfg, h, s, pcinc) && !s.abort
    requires Tame(env, cfg, ops, pc, pcinc, s)
    ensures Outcome(Run(env, Compile(cfg, ops, pc, pcinc), h)) == Interpret(env, cfg, ops, s)
    decreases |ops|
  {
    hide Run; hide PreludeCode; hide GuardedCode; hide BranchSafe; hide Execute; hide NeedsPc; hide HelpersAgree;
    hide Step; hide NoCarry; hide FlushCode; hide RsFree; hide IsBranch;
    if ops == [] {
      RunFlush(env, pcinc, h);
    } else {
      var p := Pending(cfg, ops[0], pcinc);
      var rest := Compile(cfg, ops[1..], Add(pc, 4), p);
      var h2 := OneInstruction(env, cfg, ops[0], pc, pcinc, h, s, rest);
      if !h2.abort { CompileCorrect(env, cfg, ops[1..], Add(pc, 4), p, h2, Advance(Execute(env, cfg, ops[0], s))); }
    }
  }

  /**
   A compiled block of any length is the interpretation of its instructions, registers and memory, up to its end or
   to the first abort.
   */
  lemma BlockCorrect(env: Env, cfg: Config, ops: seq<Word>, pc: Word, h: Host)
    requires HelpersAgree(env, cfg) && !h.abort && Tame(env, cfg, ops, pc, 0, Seen(h))
    ensures Outcome(Run(env, Compile(cfg, ops, pc, 0), h)) == Interpret(env, cfg, ops, Seen(h))
  {
    hide Run; hide Compile; hide Tame; hide Interpret; hide HelpersAgree; hide Outcome;
    CompileCorrect(env, cfg, ops, pc, 0, h, Seen(h));
  }

  // ---- why Rs = R15 is left out ----

  const NOP: Word := 0xe1a0_0000       // MOV R0, R0
  const MULPC: Word := 0xe001_0f92     // MUL R1, R2, R15

  lemma MulPcFields()
    ensures Cond(NOP) == 14 && Cond(MULPC) == 14 && Class(NOP) == 0 && Class(MULPC) == 0
    ensures !IsBranch(NOP) && !IsBranch(MULPC) && !RsIsPc(NOP) && ShortMultiply(MULPC) && !ShortMultiply(NOP)
    ensures Rn(MULPC) == 1 && Rm(MULPC) == 2 && Rs(MULPC) == 15 && Operation(MULPC) == 0 && !SetsFlags(MULPC)
  {
  }

  lemma MulPcModelled()
    ensures var cfg := Config(false, false);
            !NeedsPc(cfg, NOP) && !NeedsPc(cfg, MULPC) && Modelled(cfg, NOP) && Modelled(cfg, MULPC)
    ensures forall r: Regs :: Handler(Config(false, false), NOP, r) == r[0 := r[0]]
    ensures forall r: Regs :: Handler(Config(false, false), MULPC, r) == r[1 := Mul(r[2], r[15])]
  {
    MulPcFields();
    hide Mul; hide Lsl; hide Lsr; hide Asr; hide Ror; hide PutNz; hide PutNzcv; hide Address;
    assert Unshifted(NOP) && Rm(NOP) == 0 && Rd(NOP) == 0 && Operation(NOP) == 13 && !SetsFlags(NOP) && !Immediate(NOP) && Rn(NOP) == 0;
  }

  /**
   arm_opcode_needs_pc() does not look at Rs: a multiply by R15 after another instruction reads an R15
   whose increment is still pending, and its product differs from the interpreter's.
   */
  lemma RsPcGoesWrong(env: Env, pc: Word, h: Host)
    requires HelpersAgree(env, Config(false, false)) && h.reg[2] == 1 && !h.abort
    ensures var cfg := Config(false, false);
            View(Run(env, Compile(cfg, [NOP, MULPC], pc, 0), h))[1] != Interpret(env, cfg, [NOP, MULPC], Seen(h)).reg[1]
  {
    hide Run; hide PreludeCode; hide GuardedCode; hide BranchSafe; hide Step; hide FlushCode; hide Handler; hide NeedsPc; hide Modelled; hide Class;
    hide Cond; hide Mul; hide IsBranch; hide RsIsPc; hide ShortMultiply; hide Operation; hide SetsFlags; hide Opcodes.Rn; hide Opcodes.Rm; hide Opcodes.Rs;
    hide Inlined; hide Transfers; hide InlinedSingle; hide SingleTransfers; hide MayAbort;
    var cfg, s := Config(false, false), Seen(h);
    MulPcFields();
    MulPcModelled();
    var c2 := FlushCode(8);
    var c1 := PreludeCode(cfg, MULPC, 4) + (GuardedCode(cfg, MULPC, Add(pc, 4)) + c2);
    TwoCompiled(cfg, pc);
    Always(cfg, s.reg);
    var h1 := OneInstruction(env, cfg, NOP, pc, 0, h, s, c1);
    var s1 := Advance(Execute(env, cfg, NOP, s));
    assert s1.reg == s.reg[0 := s.reg[0]][15 := Add(s.reg[15], 4)];
    assert PreludeCode(cfg, MULPC, 4) == [] by { QuietPrelude(cfg); }
    assert c1 == GuardedCode(cfg, MULPC, Add(pc, 4)) + c2;
    var h2 := RunGuarded(env, cfg, MULPC, Add(pc, 4), h1, c2);
    RunFlush(env, 8, h2);
    Always(cfg, View(h1));
    Always(cfg, s1.reg);
    ByOne(View(h1)[15]);
    ByOne(s1.reg[15]);
    TwoInterpreted(env, cfg, s);
    assert Pending(cfg, NOP, 0) == 4 by { QuietPrelude(cfg); }
    assert s1.reg == View(h1)[15 := Add(h1.r15, 4)];
    assert s1.reg[2] == 1 && View(h1)[2] == 1;
    assert View(h2) == View(h1)[1 := h1.r15];
    assert Execute(env, cfg, MULPC, s1).reg == s1.reg[1 := Add(h1.r15, 4)];
    assert Run(env, Compile(cfg, [NOP, MULPC], pc, 0), h) == Run(env, c1, h1) == Run(env, c2, h2);
    assert View(h2)[1] == h2.reg[1] == h1.r15;
    assert View(Run(env, c2, h2))[1] == h2.reg[1];
    assert Interpret(env, cfg, [NOP, MULPC], Seen(h)).reg[1] == Add(h1.r15, 4);
  }

  lemma TwoCompiled(cfg: Config, pc: Word)
    requires cfg == Config(false, false)
    ensures Compile(cfg, [NOP, MULPC], pc, 0) ==
            PreludeCode(cfg, NOP, 0) + (GuardedCode(cfg, NOP, pc) + (PreludeCode(cfg, MULPC, 4) + (GuardedCode(cfg, MULPC, Add(pc, 4)) + FlushCode(8))))
  {
    hide PreludeCode; hide GuardedCode; hide FlushCode;
    MulPcFields();
    MulPcModelled();
    assert [NOP, MULPC][1..] == [MULPC] && [MULPC][1..] == [];
    assert Pending(cfg, NOP, 0) == 4 && Pending(cfg, MULPC, 4) == 8;
    assert Compile(cfg, [], Add(Add(pc, 4), 4), 8) == FlushCode(8);
    assert Compile(cfg, [MULPC], Add(pc, 4), 4) == PreludeCode(cfg, MULPC, 4) + (GuardedCode(cfg, MULPC, Add(pc, 4)) + FlushCode(8));
  }

  lemma QuietPrelude(cfg: Config)
    requires cfg == Config(false, false)
    ensures PreludeCode(cfg, MULPC, 4) == [] && Pending(cfg, NOP, 0) == 4
  {
    MulPcFields();
    MulPcModelled();
  }

  lemma Always(cfg: Config, r: Regs)
    ensures Condition(14, Nib(cfg, r))
  {
  }

  lemma ByOne(w: Word)
    ensures Mul(1, w) == w
  {
  }

  lemma TwoInterpreted(env: Env, cfg: Config, s: Machine)
    requires !s.abort && !Execute(env, cfg, NOP, s).abort
    ensures Interpret(env, cfg, [NOP, MULPC], s) == Advance(Execute(env, cfg, MULPC, Advance(Execute(env, cfg, NOP, s))))
  {
    hide Execute;
    var s1 := Advance(Execute(env, cfg, NOP, s));
    assert [NOP, MULPC][1..] == [MULPC] && [MULPC][1..] == [];
    assert Interpret(env, cfg, [MULPC], s1) == Advance(Execute(env, cfg, MULPC, s1));
  }
}
