/**
 The AArch64 recompiler (codegen_arm64.c): what `recompile` emits for the
 data-processing, multiply and branch opcodes it accepts, and the proof that the
 emitted code leaves the register file and the flag word exactly as the interpreter's
 handler does.
 */
module Recompiler {
  import opened Words
  import opened Flags
  import opened Opcodes
  import opened Interpreter
  import opened HostA64

  datatype Emitted = Declined | Code(code: seq<Insn>)

  // ---- emitters ----

  function LoadReg(i: nat, d: Reg): seq<Insn> { if i == 15 then [Mov(d, X20)] else [Ldr(d, i)] }

  function SaveReg(i: nat, a: Reg): seq<Insn> { if i == 15 then [Mov(X20, a)] else [Str(a, i)] }

  /** The shifter operand into w9; register shifts and RRX are declined. */
  function ShiftCode(op: Word): Emitted {
    var amt := ShiftAmount(op);
    if ShiftByRegister(op) then Declined
    else if Unshifted(op) then Code(LoadReg(Rm(op), X9))
    else match ShiftKind(op)
      case 0 => Code(LoadReg(Rm(op), X9) + if amt != 0 then [LslImm(X9, X9, amt)] else [])
      case 1 => Code(if amt != 0 then LoadReg(Rm(op), X9) + [LsrImm(X9, X9, amt)] else [LoadImm(X9, 0)])
      case 2 => Code(LoadReg(Rm(op), X9) + [AsrImm(X9, X9, if amt != 0 then amt else 31)])
      case _ => if amt == 0 then Declined else Code(LoadReg(Rm(op), X9) + [RorImm(X9, X9, amt)])
  }

  /** Keep some bits of `r` and take the others from w11. */
  function MergeCode(r: Reg, take: Word): seq<Insn> {
    [LoadImm(X9, Not(take)), LogicOp(AndOp, false, r, r, X9),
     LoadImm(X9, take), LogicOp(AndOp, false, X11, X11, X9),
     LogicOp(OrrOp, false, r, r, X11)]
  }

  /** Merge the host's NZCV into the guest's flag word: all four, or only N and Z. */
  function FlagsCode(bits26: bool, setCv: bool): seq<Insn> {
    var take: Word := if setCv then 0xf000_0000 else 0xc000_0000;
    if bits26 then [MrsNzcv(X11)] + MergeCode(X20, take)
    else [MrsNzcv(X11)] + ([Ldr(X10, 16)] + (MergeCode(X10, take) + [Str(X10, 16)]))
  }

  /** The immediate, rotated while compiling. */
  function RotatedImmediate(op: Word): Word {
    if Rotation(op) == 0 then Imm8(op)
    else OrW(Lsr(Imm8(op), Rotation(op)), Lsl(Imm8(op), 32 - Rotation(op)))
  }

  /** The second operand; a flag-setting logical operation that needs the shifter's carry is declined. */
  function OperandCode(op: Word): Emitted {
    var needsCarry := SetsFlags(op) && Logical(Operation(op));
    if Immediate(op) then
      if needsCarry && Rotation(op) != 0 then Declined else Code([LoadImm(X9, RotatedImmediate(op))])
    else if needsCarry && !Unshifted(op) then Declined
    else ShiftCode(op)
  }

  function RnCode(cfg: Config, op: Word): seq<Insn> {
    if Operation(op) == 13 || Operation(op) == 15 then []
    else LoadReg(Rn(op), X10) +
         if Rn(op) == 15 then [LoadImm(X11, cfg.R15Mask()), LogicOp(AndOp, false, X10, X10, X11)] else []
  }

  function TestCode(s: bool): seq<Insn> {
    if s then [LogicOp(AndOp, true, Zr, X12, X12)] else []
  }

  function AluCode(opn: nat, s: bool): seq<Insn> {
    match opn
    case 0 => [LogicOp(AndOp, s, X12, X10, X9)]
    case 1 => [LogicOp(EorOp, false, X12, X10, X9)] + TestCode(s)
    case 2 => [SubOp(s, X12, X10, X9)]
    case 3 => [SubOp(s, X12, X9, X10)]
    case 4 => [AddOp(s, X12, X10, X9)]
    case 8 => [LogicOp(AndOp, true, Zr, X10, X9)]
    case 9 => [LogicOp(EorOp, false, X12, X10, X9), LogicOp(AndOp, true, Zr, X12, X12)]
    case 10 => [SubOp(true, Zr, X10, X9)]
    case 11 => [AddOp(true, Zr, X10, X9)]
    case 12 => [LogicOp(OrrOp, false, X12, X10, X9)] + TestCode(s)
    case 13 => [Mov(X12, X9)] + TestCode(s)
    case 14 => [LogicOp(BicOp, s, X12, X10, X9)]
    case _ => [LogicOp(OrnOp, false, X12, Zr, X9)] + TestCode(s)
  }

  function DataProcessingCode(cfg: Config, op: Word): Emitted {
    var opn, s := Operation(op), SetsFlags(op);
    if 5 <= opn <= 7 || (Compare(opn) && !s) || Rd(op) == 15 || OperandCode(op).Declined? then Declined
    else Code(OperandCode(op).code + RnCode(cfg, op) + AluCode(opn, s) +
              (if s then FlagsCode(cfg.bits26, !Logical(opn)) else []) +
              (if Compare(opn) then [] else SaveReg(Rd(op), X12)))
  }

  function MultiplyCode(op: Word): Emitted {
    if SetsFlags(op) || Rn(op) == Rm(op) || Rn(op) == 15 then Declined
    else Code(LoadReg(Rm(op), X9) + LoadReg(Rs(op), X10) +
              (if Operation(op) == 1 then LoadReg(Rd(op), X11) + [Madd(X9, X9, X10, X11)]
               else [MulOp(X9, X9, X10)]) +
              SaveReg(Rn(op), X9))
  }

  function MultiplyLongCode(op: Word): Emitted {
    if Operation(op) != 4 || SetsFlags(op) || Rn(op) == 15 || Rd(op) == 15 || Rn(op) == Rd(op) then Declined
    else Code(LoadReg(Rm(op), X9) + LoadReg(Rs(op), X10) + [UmullX9(X9, X10)] +
              SaveReg(Rd(op), X9) + [LsrX9By32] + SaveReg(Rn(op), X9))
  }

  /** May the offset simply be added to the cached R15? Decided from the branch's own address. */
  predicate FastBranch(cfg: Config, op: Word, pc: Word) {
    Add(pc, Add(BranchOffset(op), 4)) < 0x0400_0000 || !cfg.bits26
  }

  function BranchCode(cfg: Config, op: Word, pc: Word): seq<Insn> {
    var offset := Add(BranchOffset(op), 4);
    var link := if Links(op) then [Mov(X9, X20), SubImm(X9, X9, 4)] + SaveReg(14, X9) else [];
    if FastBranch(cfg, op, pc) then
      link + [LoadImm(X10, offset), AddOp(false, X20, X20, X10)]
    else
      link + Sources(op) + SlowTail(offset)
  }

  /** The opcode classes the table canrecompile[] lets through, within the modelled space. */
  predicate CanRecompile(op: Word) {
    IsBranch(op) ||
    (Class(op) == 0 &&
     var i := 2 * Operation(op) + Bit(SetsFlags(op));
     i != 6 && !(10 <= i <= 16) && i != 18 && i != 20 && i != 22)
  }

  /** `generatecall`'s native half: the code emitted for `op` compiled at address `pc`. */
  function Recompile(cfg: Config, op: Word, pc: Word): Emitted {
    if !CanRecompile(op) || (cfg.archV4 && ExtraTransfer(op)) then Declined
    else if IsBranch(op) then Code(BranchCode(cfg, op, pc))
    else if ShortMultiply(op) then MultiplyCode(op)
    else if LongMultiply(cfg, op) then MultiplyLongCode(op)
    else DataProcessingCode(cfg, op)
  }

  lemma RecompiledIsModelled(cfg: Config, op: Word, pc: Word)
    requires Recompile(cfg, op, pc).Code?
    ensures Modelled(cfg, op)
  {
  }

  // ---- each piece of emitted code ----

  lemma RunLoad(env: Env, i: nat, d: Reg, h: Host)
    requires i < 16
    ensures Straight(LoadReg(i, d))
    ensures Run(env, LoadReg(i, d), h) == Put(h, d, View(h)[i])
  {
    hide Called; hide Transferred; hide Singled;
  }

  lemma RunSave(env: Env, i: nat, a: Reg, h: Host)
    requires i < 16 && a != Zr
    ensures Straight(SaveReg(i, a))
    ensures View(Run(env, SaveReg(i, a), h)) == View(h)[i := W(h, a)]
    ensures var h' := Run(env, SaveReg(i, a), h); h'.(reg := h.reg, r15 := h.r15) == h
  {
    hide Called; hide Transferred; hide Singled;
  }

  /** The instruction that shifts w9, unless the operand is taken as it is or is zero. */
  function ShiftInsn(op: Word): Insn {
    var amt := ShiftAmount(op);
    if ShiftKind(op) == 0 then LslImm(X9, X9, amt)
    else if ShiftKind(op) == 1 then LsrImm(X9, X9, amt)
    else if ShiftKind(op) == 2 then AsrImm(X9, X9, if amt != 0 then amt else 31)
    else RorImm(X9, X9, amt)
  }

  predicate NoInsn(op: Word) { Unshifted(op) || (ShiftKind(op) == 0 && ShiftAmount(op) == 0) }

  predicate Vanishes(op: Word) { !Unshifted(op) && ShiftKind(op) == 1 && ShiftAmount(op) == 0 }

  lemma ShiftParts(op: Word)
    requires ShiftCode(op).Code?
    ensures var load := LoadReg(Rm(op), X9);
            ShiftCode(op).code == if Vanishes(op) then [LoadImm(X9, 0)] else if NoInsn(op) then load else load + [ShiftInsn(op)]
  {
    hide LoadReg; hide Rm;
    assert LoadReg(Rm(op), X9) + [] == LoadReg(Rm(op), X9);
  }

  /** What the instruction computes is the interpreter's operand. */
  lemma ShiftValue(env: Env, cfg: Config, op: Word, h: Host)
    requires ShiftCode(op).Code?
    ensures var v := Shifted(cfg, op, View(h));
            if Vanishes(op) then v == 0 else if NoInsn(op) then v == View(h)[Rm(op)]
            else Step(env, ShiftInsn(op), h.(x9 := View(h)[Rm(op)], x9hi := 0)) == h.(x9 := v, x9hi := 0)
  {
    hide Called; hide Transferred; hide Singled; hide Lsl; hide Lsr; hide Ror; hide Asr; hide Rm; hide LoadReg; hide Rrx; hide View;
    AsrSign(View(h)[Rm(op)]);
    LslZero(View(h)[Rm(op)]);
  }

  lemma LslZero(w: Word)
    ensures Lsl(w, 0) == w
  {
  }

  /** The shifter operand arrives in w9 and nothing else changes. */
  lemma RunShift(env: Env, cfg: Config, op: Word, h: Host)
    requires ShiftCode(op).Code?
    ensures Straight(ShiftCode(op).code)
    ensures Run(env, ShiftCode(op).code, h) == h.(x9 := Shifted(cfg, op, View(h)), x9hi := 0)
  {
    hide Run; hide ShiftCode; hide Shifted; hide LoadReg; hide Vanishes; hide NoInsn; hide Step;
    var load, w := LoadReg(Rm(op), X9), View(h)[Rm(op)];
    ShiftParts(op);
    ShiftValue(env, cfg, op, h);
    RunLoad(env, Rm(op), X9, h);
    assert Put(h, X9, w) == h.(x9 := w, x9hi := 0);
    RunAppend(env, load, [ShiftInsn(op)], h);
    Run1(env, ShiftInsn(op), h.(x9 := w, x9hi := 0));
    Run1(env, LoadImm(X9, 0), h);
    StepImm(env, X9, 0, h);
  }

  lemma ImmediateAgrees(op: Word)
    ensures RotatedImmediate(op) == ImmediateOperand(op)
  {
    hide And; hide Xor; hide Or; hide Lsl; hide Lsr;
    if Rotation(op) == 0 { RorZero(Imm8(op)); }
  }

  lemma RunOperand(env: Env, cfg: Config, op: Word, h: Host)
    requires OperandCode(op).Code?
    ensures Straight(OperandCode(op).code)
    ensures Operand(cfg, op, View(h)).1.Unchanged? || !SetsFlags(op) || !Logical(Operation(op))
    ensures Run(env, OperandCode(op).code, h) == h.(x9 := Operand(cfg, op, View(h)).0, x9hi := 0)
  {
    hide Called; hide Transferred; hide Singled;
    hide And; hide Or; hide Xor; hide Ror; hide OrW; hide RotatedImmediate; hide ShiftCode;
    if Immediate(op) {
      ImmediateAgrees(op);
      Run1(env, LoadImm(X9, RotatedImmediate(op)), h);
    } else {
      RunShift(env, cfg, op, h);
    }
  }

  /** Rn, masked when it is the PC, arrives in w10; only the scratch register w11 is lost. */
  lemma RunRn(env: Env, cfg: Config, op: Word, h: Host)
    ensures Straight(RnCode(cfg, op))
    ensures var h' := Run(env, RnCode(cfg, op), h);
            && h'.(x10 := h.x10, x11 := h.x11) == h
            && (Operation(op) != 13 && Operation(op) != 15 ==> h'.x10 == Address(cfg, View(h), Rn(op)))
  {
    hide Called; hide Transferred; hide Singled;
    hide And;
    if Operation(op) != 13 && Operation(op) != 15 {
      var load := LoadReg(Rn(op), X10);
      RunLoad(env, Rn(op), X10, h);
      if Rn(op) == 15 {
        var i, j := LoadImm(X11, cfg.R15Mask()), LogicOp(AndOp, false, X10, X10, X11);
        RunAppend(env, load, [i, j], h);
        RunAppend(env, [i], [j], h.(x10 := h.r15));
        assert [i] + [j] == [i, j];
        Run1(env, i, h.(x10 := h.r15));
        Run1(env, j, h.(x10 := h.r15, x11 := cfg.R15Mask()));
      } else {
        assert load + [] == load;
      }
    }
  }

  predicate Accepted(opn: nat) { opn < 16 && !(5 <= opn <= 7) }

  /** After the ALU code: the result in w12 and, where the operation sets flags, the host's flags. */
  predicate AluDone(opn: nat, s: bool, h: Host, h': Host, lhs: Word, rhs: Word, dest: Word) {
    && h'.reg == h.reg && h'.r15 == h.r15
    && (!Compare(opn) ==> h'.x12 == dest)
    && (s && Logical(opn) ==> h'.f.n == Neg(dest) && h'.f.z == (dest == 0))
    && (s && !Logical(opn) ==> h'.f == ArithmeticFlags(opn, lhs, rhs, dest))
  }

  lemma RunAlu(env: Env, opn: nat, s: bool, h: Host, lhs: Word, rhs: Word, carry: bool)
    requires Accepted(opn) && (Compare(opn) ==> s)
    requires h.x9 == rhs && (opn != 13 && opn != 15 ==> h.x10 == lhs)
    ensures Straight(AluCode(opn, s))
    ensures AluDone(opn, s, h, Run(env, AluCode(opn, s), h), lhs, rhs, Result(opn, lhs, rhs, carry))
  {
    hide Called; hide Transferred; hide Singled;
    if Logical(opn) {
      RunLogic(env, opn, s, h, lhs, rhs, carry);
    } else {
      RunArithmetic(env, opn, s, h, lhs, rhs, carry);
    }
  }

  lemma RunArithmetic(env: Env, opn: nat, s: bool, h: Host, lhs: Word, rhs: Word, carry: bool)
    requires opn in {2, 3, 4, 10, 11} && (Compare(opn) ==> s)
    requires h.x9 == rhs && h.x10 == lhs
    ensures Straight(AluCode(opn, s))
    ensures AluDone(opn, s, h, Run(env, AluCode(opn, s), h), lhs, rhs, Result(opn, lhs, rhs, carry))
  {
    hide Step; hide Run;
    hide AddWithCarry; hide FlagsAdd; hide FlagsSub; hide Add; hide Sub; hide And; hide Or; hide Xor; hide Lsl; hide Lsr; hide Asr; hide Ror;
    var i := AluCode(opn, s)[0];
    assert AluCode(opn, s) == [i];
    Run1(env, i, h);
    StepAddSub(env, i.sets, i.d, i.a, i.b, h);
    AddExact(lhs, rhs); SubExact(lhs, rhs); SubExact(rhs, lhs);
  }

  lemma RunLogic(env: Env, opn: nat, s: bool, h: Host, lhs: Word, rhs: Word, carry: bool)
    requires Logical(opn) && (Compare(opn) ==> s)
    requires h.x9 == rhs && (opn != 13 && opn != 15 ==> h.x10 == lhs)
    ensures Straight(AluCode(opn, s))
    ensures AluDone(opn, s, h, Run(env, AluCode(opn, s), h), lhs, rhs, Result(opn, lhs, rhs, carry))
  {
    hide Step; hide Run; hide AndW; hide OrW; hide XorW; hide Add; hide Sub;
    var dest := Result(opn, lhs, rhs, carry);
    OrZero(Not(rhs));
    var i := AluCode(opn, s)[0];
    if opn == 13 { StepMov(env, X12, X9, h); } else { StepLogic(env, i.fn, i.sets, i.d, i.a, i.b, h); }
    Run1(env, i, h);
    if opn in {1, 9, 12, 13, 15} && s {
      var h1 := Step(env, i, h);
      assert h1 == h.(x12 := dest);
      assert AluCode(opn, s) == [i] + TestCode(true);
      RunTest(env, i, h, h1, dest);
    } else {
      assert AluCode(opn, s) == [i];
    }
  }

  /** An operation without a flag-setting form is followed by a test of its result. */
  lemma RunTest(env: Env, i: Insn, h: Host, h1: Host, dest: Word)
    requires Falls(i) && !i.Call? && h1 == Step(env, i, h) && h1.x12 == dest
    ensures Run(env, [i] + TestCode(true), h) == h1.(f := Nzcv(Neg(dest), dest == 0, false, false))
  {
    hide Called; hide Transferred; hide Singled;
    hide AndW;
    var test := TestCode(true);
    RunAppend(env, [i], test, h);
    Run1(env, i, h);
    Run1(env, test[0], h1);
    AndSelf(dest);
  }

  lemma AndSelf(a: Word)
    ensures AndW(a, a) == a
  {
    Pow32();
    AndIdempotent(a);
  }

  lemma {:induction false} AndIdempotent(a: nat)
    ensures And(a, a) == a
  {
    if a != 0 { AndIdempotent(a / 2); }
  }

  lemma OrZero(a: Word)
    ensures OrW(0, a) == a
  {
  }

  /** The guest's flag word with the host's flags merged in. */
  function Merged(psr: Word, f: Nzcv, setCv: bool): Word {
    if setCv then PutNzcv(psr, f) else psr % 0x4000_0000 + (2 * Bit(f.n) + Bit(f.z)) * 0x4000_0000
  }

  lemma MergeMasks(psr: Word, f: Nzcv, setCv: bool)
    ensures var take: Word := if setCv then 0xf000_0000 else 0xc000_0000;
            OrW(AndW(psr, Not(take)), AndW(Nibble(f) * 0x1000_0000, take)) == Merged(psr, f, setCv)
  {
    if setCv { MergeAll(psr, f); } else { MergeNz(psr, f); }
  }

  lemma MergeAll(psr: Word, f: Nzcv)
    ensures Or(And(psr, 0x0fff_ffff), And(Nibble(f) * 0x1000_0000, 0xf000_0000)) == Merged(psr, f, true)
  {
    hide Or; hide And; hide Shl; hide Pow2;
    var n := Nibble(f);
    PowersOfInterest();
    ShlTimes(n, 28); ShlTimes(15, 28);
    AndLow(psr, 28);
    AndShl(n, 15, 28);
    AndFifteen(n);
    OrDisjoint(psr % 0x1000_0000, n, 28);
  }

  lemma MergeNz(psr: Word, f: Nzcv)
    ensures Or(And(psr, 0x3fff_ffff), And(Nibble(f) * 0x1000_0000, 0xc000_0000)) == Merged(psr, f, false)
  {
    hide Or; hide And; hide Shl; hide Pow2;
    var n := Nibble(f);
    PowersOfInterest();
    ShlTimes(n, 28); ShlTimes(12, 28); ShlTimes(4 * (n / 4), 28); ShlTimes(n / 4, 30);
    AndLow(psr, 30);
    AndShl(n, 12, 28);
    AndTwelve(n);
    OrDisjoint(psr % 0x4000_0000, n / 4, 30);
  }

  lemma AndFifteen(n: nat)
    requires n < 16
    ensures And(n, 15) == n
  {
    hide And;
    assert Pow2(4) == 16;
    AndLow(n, 4);
  }

  lemma AndTwelve(n: nat)
    requires n < 16
    ensures And(n, 12) == 4 * (n / 4)
  {
    hide And;
    AndEven(n, 6);
    AndEven(n / 2, 3);
    assert Pow2(2) == 4;
    AndLow(n / 4, 2);
  }

  lemma RunMerge(env: Env, r: Reg, take: Word, h: Host)
    requires r == X20 || r == X10
    ensures Straight(MergeCode(r, take))
    ensures var t := AndW(h.x11, take);
            Run(env, MergeCode(r, take), h) ==
            Put(h.(x9 := take, x9hi := 0, x11 := t), r, OrW(AndW(W(h, r), Not(take)), t))
  {
    hide AndW; hide OrW; hide Run; hide Step; hide Put; hide W;
    var c0, c1 := LoadImm(X9, Not(take)), LogicOp(AndOp, false, r, r, X9);
    var c2, c3, c4 := LoadImm(X9, take), LogicOp(AndOp, false, X11, X11, X9), LogicOp(OrrOp, false, r, r, X11);
    var h1 := h.(x9 := Not(take), x9hi := 0);
    var h2 := Put(h1, r, AndW(W(h, r), Not(take)));
    var h3 := h2.(x9 := take);
    var h4 := h3.(x11 := AndW(h.x11, take));
    assert MergeCode(r, take) == [c0] + ([c1] + ([c2] + ([c3] + [c4])));
    RunCons(env, c0, [c1] + ([c2] + ([c3] + [c4])), h);
    RunCons(env, c1, [c2] + ([c3] + [c4]), h1);
    RunCons(env, c2, [c3] + [c4], h2);
    RunCons(env, c3, [c4], h3);
    Run1(env, c4, h4);
    StepImm(env, X9, Not(take), h);
    StepLogic(env, AndOp, false, r, r, X9, h1);
    StepImm(env, X9, take, h2);
    StepLogic(env, AndOp, false, X11, X11, X9, h3);
    StepLogic(env, OrrOp, false, r, r, X11, h4);
    Scratch(r, h, h1, h2, take);
  }

  lemma Scratch(r: Reg, h: Host, h1: Host, h2: Host, take: Word)
    requires r == X20 || r == X10
    requires h1 == h.(x9 := Not(take), x9hi := 0) && h2 == Put(h1, r, AndW(W(h, r), Not(take)))
    ensures Put(h, X9, Not(take)) == h1 && W(h1, r) == W(h, r) && W(h1, X9) == Not(take)
    ensures Put(h2, X9, take) == h2.(x9 := take) && W(h2.(x9 := take), X9) == take && W(h2.(x9 := take), X11) == h.x11
    ensures var t := AndW(h.x11, take);
            var h3 := h2.(x9 := take);
            && Put(h3, X11, t) == h3.(x11 := t) && W(h3.(x11 := t), r) == AndW(W(h, r), Not(take)) && W(h3.(x11 := t), X11) == t
            && forall v :: Put(h3.(x11 := t), r, v) == Put(h.(x9 := take, x9hi := 0, x11 := t), r, v)
  {
    hide AndW;
  }

  /** The flag code merges the flags into R15 or the PSR and keeps the result in w12. */
  lemma RunFlags(env: Env, cfg: Config, setCv: bool, h: Host)
    ensures Straight(FlagsCode(cfg.bits26, setCv))
    ensures var h' := Run(env, FlagsCode(cfg.bits26, setCv), h);
            && View(h') == View(h)[cfg.Psr() := Merged(View(h)[cfg.Psr()], h.f, setCv)]
            && h'.x12 == h.x12
  {
    hide Merged; hide AndW; hide OrW; hide Run; hide MergeCode; hide Step; hide Nibble;
    var take: Word := if setCv then 0xf000_0000 else 0xc000_0000;
    MergeMasks(View(h)[cfg.Psr()], h.f, setCv);
    var h1 := h.(x11 := Nibble(h.f) * 0x1000_0000);
    StepMrs(env, X11, h);
    if cfg.bits26 {
      RunMerge(env, X20, take, h1);
      RunCons(env, MrsNzcv(X11), MergeCode(X20, take), h);
    } else {
      var h2 := h1.(x10 := h.reg[16]);
      var tail := MergeCode(X10, take) + [Str(X10, 16)];
      RunCons(env, MrsNzcv(X11), [Ldr(X10, 16)] + tail, h);
      RunCons(env, Ldr(X10, 16), tail, h1);
      RunMerge(env, X10, take, h2);
      RunAppend(env, MergeCode(X10, take), [Str(X10, 16)], h2);
      Run1(env, Str(X10, 16), Run(env, MergeCode(X10, take), h2));
      StepLdr(env, X10, 16, h1);
      StepStr(env, X10, 16, Run(env, MergeCode(X10, take), h2));
    }
  }

  // ---- the theorem, class by class ----

  lemma DataProcessingCorrect(env: Env, cfg: Config, op: Word, h: Host)
    requires DataProcessingCode(cfg, op).Code?
    ensures View(Run(env, DataProcessingCode(cfg, op).code, h)) == DataProcessing(cfg, op, View(h))
    ensures Straight(DataProcessingCode(cfg, op).code)
  {
    hide OperandCode; hide RnCode; hide AluCode; hide FlagsCode; hide SaveReg; hide Run;
    hide Operand; hide Address; hide Result; hide ArithmeticFlags; hide PutNzcv; hide PutNz; hide Step;
    var opn, s := Operation(op), SetsFlags(op);
    var c1, c2, c3 := OperandCode(op).code, RnCode(cfg, op), AluCode(opn, s);
    var c4 := if s then FlagsCode(cfg.bits26, !Logical(opn)) else [];
    var c5 := if Compare(opn) then [] else SaveReg(Rd(op), X12);
    var (rhs, carry) := Operand(cfg, op, View(h));
    var lhs := Address(cfg, View(h), Rn(op));
    var psr := View(h)[cfg.Psr()];
    var dest := Result(opn, lhs, rhs, CarrySet(psr));
    RunOperand(env, cfg, op, h);
    var h1 := Run(env, c1, h);
    RunRn(env, cfg, op, h1);
    var h2 := Run(env, c2, h1);
    RunAlu(env, opn, s, h2, lhs, rhs, CarrySet(psr));
    var h3 := Run(env, c3, h2);
    RunFlags(env, cfg, !Logical(opn), h3);
    var h4 := Run(env, c4, h3);
    RunNil(env, h3);
    RunSave(env, Rd(op), X12, h4);
    RunNil(env, h4);
    RunAppend(env, c1, c2, h);
    RunAppend(env, c1 + c2, c3, h);
    RunAppend(env, c1 + c2 + c3, c4, h);
    RunAppend(env, c1 + c2 + c3 + c4, c5, h);
    assert View(h3) == View(h);
    if s { MergedIsNewPsr(op, psr, lhs, rhs, carry, dest, h3.f); }
  }

  lemma RunNil(env: Env, h: Host)
    ensures Run(env, [], h) == h
  {
    hide Called; hide Transferred; hide Singled;
  }

  lemma MergedIsNewPsr(op: Word, psr: Word, lhs: Word, rhs: Word, carry: Carry, dest: Word, f: Nzcv)
    requires Logical(Operation(op)) ==> carry.Unchanged? && f.n == Neg(dest) && f.z == (dest == 0)
    requires !Logical(Operation(op)) ==> f == ArithmeticFlags(Operation(op), lhs, rhs, dest)
    ensures Merged(psr, f, !Logical(Operation(op))) == NewPsr(op, psr, lhs, rhs, carry, dest)
  {
    hide ArithmeticFlags;
  }

  lemma MultiplyCorrect(env: Env, cfg: Config, op: Word, h: Host)
    requires ShortMultiply(op) && MultiplyCode(op).Code?
    ensures View(Run(env, MultiplyCode(op).code, h)) == Multiply(cfg, op, View(h))
    ensures Straight(MultiplyCode(op).code)
  {
    hide Run; hide LoadReg; hide SaveReg; hide Mul; hide Add; hide Called; hide Transferred; hide Singled; hide LogicValue; hide AddWithCarry; hide Rn; hide Rm; hide Rs; hide Rd; hide Operation; hide SetsFlags;
    var r := View(h);
    var h1 := h.(x9 := r[Rm(op)], x9hi := 0);
    var h2 := h1.(x10 := r[Rs(op)]);
    var h3 := h2.(x11 := r[Rd(op)]);
    RunLoad(env, Rm(op), X9, h);
    RunLoad(env, Rs(op), X10, h1);
    RunLoad(env, Rd(op), X11, h2);
    var c1, c2 := LoadReg(Rm(op), X9), LoadReg(Rs(op), X10);
    var mul := if Operation(op) == 1 then Madd(X9, X9, X10, X11) else MulOp(X9, X9, X10);
    var c3 := if Operation(op) == 1 then LoadReg(Rd(op), X11) + [mul] else [mul];
    RunAppend(env, LoadReg(Rd(op), X11), [mul], h2);
    Run1(env, mul, if Operation(op) == 1 then h3 else h2);
    var h4 := Run(env, c3, h2);
    RunSave(env, Rn(op), X9, h4);
    RunAppend(env, c1, c2, h);
    RunAppend(env, c1 + c2, c3, h);
    RunAppend(env, c1 + c2 + c3, SaveReg(Rn(op), X9), h);
  }

  lemma MultiplyLongCorrect(env: Env, cfg: Config, op: Word, h: Host)
    requires LongMultiply(cfg, op) && MultiplyLongCode(op).Code?
    ensures View(Run(env, MultiplyLongCode(op).code, h)) == MultiplyLong(cfg, op, View(h))
    ensures Straight(MultiplyLongCode(op).code)
  {
    hide Run; hide LoadReg; hide SaveReg; hide Product; hide Called; hide Transferred; hide Singled; hide LogicValue; hide AddWithCarry; hide Rn; hide Rm; hide Rs; hide Rd; hide Operation; hide SetsFlags; hide Step;
    var r := View(h);
    var h1 := h.(x9 := r[Rm(op)], x9hi := 0);
    var h2 := h1.(x10 := r[Rs(op)]);
    RunLoad(env, Rm(op), X9, h);
    RunLoad(env, Rs(op), X10, h1);
    var c1, c2, c3, c4 := LoadReg(Rm(op), X9), LoadReg(Rs(op), X10), [UmullX9(X9, X10)], SaveReg(Rd(op), X9);
    var c5, c6 := [LsrX9By32], SaveReg(Rn(op), X9);
    var h3 := Step(env, c3[0], h2);
    Run1(env, c3[0], h2);
    var h4 := Run(env, c4, h3);
    RunSave(env, Rd(op), X9, h3);
    var h5 := Step(env, LsrX9By32, h4);
    Run1(env, LsrX9By32, h4);
    StepLong(env, h2, h4);
    RunSave(env, Rn(op), X9, h5);
    RunAppend(env, c1, c2, h);
    RunAppend(env, c1 + c2, c3, h);
    RunAppend(env, c1 + c2 + c3, c4, h);
    RunAppend(env, c1 + c2 + c3 + c4, c5, h);
    RunAppend(env, c1 + c2 + c3 + c4 + c5, c6, h);
    ProductIs(op, r);
  }

  lemma StepLong(env: Env, h: Host, k: Host)
    ensures var a: int, b: int := h.x9, h.x10;
            0 <= a * b < MOD * MOD && Step(env, UmullX9(X9, X10), h) == h.(x9 := a * b % MOD, x9hi := a * b / MOD)
    ensures Step(env, LsrX9By32, k) == k.(x9 := k.x9hi, x9hi := 0)
  {
    ProductBound(h.x9, h.x10);
  }

  lemma ProductIs(op: Word, r: Regs)
    requires Operation(op) == 4
    ensures var a: int, b: int := r[Rm(op)], r[Rs(op)]; Product(op, r) == a * b
  {
    var a: int, b: int := r[Rm(op)], r[Rs(op)];
    ProductBound(a, b);
    assert a * b == b * a;
    SmallRemainder(b * a, MOD * MOD);
  }

  lemma SmallRemainder(a: int, d: int)
    requires 0 <= a < d
    ensures a % d == a
  {
  }

  // ---- branches ----

  /** What the emitted branch leaves in R15. */
  function BranchedR15(cfg: Config, op: Word, pc: Word, r15: Word): Word {
    var offset := Add(BranchOffset(op), 4);
    if FastBranch(cfg, op, pc) then Add(r15, offset)
    else OrW(AndW(Add(r15, offset), 0x03ff_fffc),
             AndW(if Links(op) then Sub(r15, 4) else r15, 0xfc00_0003))
  }

  lemma RunBranch(env: Env, cfg: Config, op: Word, pc: Word, h: Host)
    ensures Straight(BranchCode(cfg, op, pc))
    ensures View(Run(env, BranchCode(cfg, op, pc), h)) ==
            (if Links(op) then View(h)[14 := Sub(h.r15, 4)] else View(h))
            [15 := BranchedR15(cfg, op, pc, h.r15)]
  {
    hide Called; hide Transferred; hide Singled;
    hide Run; hide AndW; hide OrW; hide Add; hide Sub; hide BranchOffset; hide FastBranch; hide Step; hide SlowTail;
    var offset := Add(BranchOffset(op), 4);
    var link := if Links(op) then [Mov(X9, X20), SubImm(X9, X9, 4)] + SaveReg(14, X9) else [];
    var h1 := Run(env, link, h);
    RunLink(env, op, h);
    if FastBranch(cfg, op, pc) {
      RunAppend(env, link, [LoadImm(X10, offset), AddOp(false, X20, X20, X10)], h);
      RunFast(env, offset, h1);
    } else {
      var c2 := Sources(op);
      var c3 := SlowTail(offset);
      RunSources(env, op, h1);
      RunAppend(env, link, c2, h);
      RunAppend(env, link + c2, c3, h);
      var h2 := Run(env, c2, h1);
      AddBack(h.r15);
      RunSlowTail(env, offset, h2);
      assert BranchCode(cfg, op, pc) == link + c2 + c3;
    }
  }

  lemma RunFast(env: Env, offset: Word, h: Host)
    ensures var code := [LoadImm(X10, offset), AddOp(false, X20, X20, X10)];
            Straight(code) && Run(env, code, h) == h.(x10 := offset, r15 := Add(h.r15, offset))
  {
    hide Run; hide Add; hide Step;
    var i, j := LoadImm(X10, offset), AddOp(false, X20, X20, X10);
    assert [i, j] == [i] + [j];
    RunCons(env, i, [j], h);
    Run1(env, j, h.(x10 := offset));
    StepImm(env, X10, offset, h);
    StepAddSub(env, false, X20, X20, X10, h.(x10 := offset));
    AddExact(h.r15, offset);
  }

  /** The PC into w9 and the PSR into w10. */
  function Sources(op: Word): seq<Insn> {
    if Links(op) then [Mov(X10, X9), AddImm(X9, X9, 4)] else [Mov(X9, X20), Mov(X10, X9)]
  }

  lemma RunSources(env: Env, op: Word, h: Host)
    ensures Straight(Sources(op))
    ensures var h1 := Run(env, Sources(op), h);
            && h1.reg == h.reg && h1.r15 == h.r15
            && h1.x9 == (if Links(op) then Add(h.x9, 4) else h.r15) && h1.x10 == (if Links(op) then h.x9 else h.r15)
  {
    hide Run; hide Add; hide Step;
    var i, j := Sources(op)[0], Sources(op)[1];
    assert Sources(op) == [i] + [j];
    RunCons(env, i, [j], h);
    Run1(env, j, Step(env, i, h));
    StepMov(env, i.d, i.a, h);
    if Links(op) { StepConst(env, X9, X9, 4, Step(env, i, h)); } else { StepMov(env, X10, X9, Step(env, i, h)); }
  }

  lemma AddBack(r15: Word)
    ensures Add(Sub(r15, 4), 4) == r15
  {
  }

  lemma RunLink(env: Env, op: Word, h: Host)
    ensures var link := if Links(op) then [Mov(X9, X20), SubImm(X9, X9, 4)] + SaveReg(14, X9) else [];
            var h1 := Run(env, link, h);
            && Straight(link) && h1.r15 == h.r15 && h1.reg[15] == h.reg[15]
            && h1.reg == (if Links(op) then h.reg[14 := Sub(h.r15, 4)] else h.reg)
            && (Links(op) ==> h1.x9 == Sub(h.r15, 4))
  {
    hide Called; hide Transferred; hide Singled;
    hide Run; hide Sub;
    if Links(op) {
      var i, j, k := Mov(X9, X20), SubImm(X9, X9, 4), Str(X9, 14);
      assert [i, j] + SaveReg(14, X9) == [i] + ([j] + [k]);
      RunCons(env, i, [j] + [k], h);
      RunCons(env, j, [k], Step(env, i, h));
      Run1(env, k, Step(env, j, Step(env, i, h)));
    } else {
      RunNil(env, h);
    }
  }

  function SlowTail(offset: Word): seq<Insn> {
    [LoadImm(X11, 0xfc00_0003), LogicOp(AndOp, false, X10, X10, X11),
     LoadImm(X11, offset), AddOp(false, X9, X9, X11),
     LoadImm(X11, 0x03ff_fffc), LogicOp(AndOp, false, X9, X9, X11),
     LogicOp(OrrOp, false, X9, X9, X10), Mov(X20, X9)]
  }

  lemma RunSlowTail(env: Env, offset: Word, h: Host)
    ensures Straight(SlowTail(offset))
    ensures var h' := Run(env, SlowTail(offset), h);
            && h'.reg == h.reg
            && h'.r15 == OrW(AndW(Add(h.x9, offset), 0x03ff_fffc), AndW(h.x10, 0xfc00_0003))
  {
    hide Called; hide Transferred; hide Singled;
    hide Run; hide AndW; hide OrW; hide Add;
    var c := SlowTail(offset);
    AddExact(h.x9, offset);
    var psr, sum := AndW(h.x10, 0xfc00_0003), Add(h.x9, offset);
    var h1 := h.(x11 := 0xfc00_0003);
    var h2 := h1.(x10 := psr);
    var h3 := h2.(x11 := offset);
    var h4 := h3.(x9 := sum, x9hi := 0);
    var h5 := h4.(x11 := 0x03ff_fffc);
    var h6 := h5.(x9 := AndW(sum, 0x03ff_fffc));
    var h7 := h6.(x9 := OrW(AndW(sum, 0x03ff_fffc), psr));
    var t6 := [c[6]] + [c[7]];
    var t5 := [c[5]] + t6;
    var t4 := [c[4]] + t5;
    var t3 := [c[3]] + t4;
    var t2 := [c[2]] + t3;
    var t1 := [c[1]] + t2;
    assert c == [c[0]] + t1;
    RunCons(env, c[0], t1, h);
    RunCons(env, c[1], t2, h1);
    RunCons(env, c[2], t3, h2);
    RunCons(env, c[3], t4, h3);
    RunCons(env, c[4], t5, h4);
    RunCons(env, c[5], t6, h5);
    RunCons(env, c[6], [c[7]], h6);
    Run1(env, c[7], h7);
  }

  /**
   When the emitted branch agrees with the interpreter: always in the 32-bit modes. In the
   26-bit modes the fast form must not leave the PC field of R15, and the slow form of BL
   must not borrow from the PSR bits when it forms the link.
   */
  predicate BranchSafe(cfg: Config, op: Word, pc: Word, r15: Word) {
    !cfg.bits26 ||
    if FastBranch(cfg, op, pc) then 0 <= r15 % 0x400_0000 + Signed(Add(BranchOffset(op), 4)) < 0x400_0000
    else Links(op) ==> r15 % 0x400_0000 >= 4
  }

  lemma OffsetAligned(op: Word)
    ensures BranchOffset(op) % 4 == 0 && Add(BranchOffset(op), 4) % 4 == 0
    ensures -0x200_0000 < Signed(Add(BranchOffset(op), 4)) <= 0x200_0000
  {
  }

  /** The emitted branch is the interpreter's branch exactly when it is safe. */
  lemma BranchCorrectIff(env: Env, cfg: Config, op: Word, pc: Word, h: Host)
    requires IsBranch(op)
    ensures View(Run(env, BranchCode(cfg, op, pc), h)) == Branch(cfg, op, View(h))
            <==> BranchSafe(cfg, op, pc, h.r15)
  {
    hide Run; hide BranchCode; hide BranchSafe; hide BranchedR15; hide BranchTo; hide FastBranch; hide BranchOffset;
    RunBranch(env, cfg, op, pc, h);
    R15Agrees(cfg, op, pc, h.r15);
    var a, b := View(Run(env, BranchCode(cfg, op, pc), h)), Branch(cfg, op, View(h));
    assert a[15] == BranchedR15(cfg, op, pc, h.r15);
    assert b[15] == BranchTo(cfg, h.r15, Add(h.r15, BranchOffset(op)));
  }

  lemma R15Agrees(cfg: Config, op: Word, pc: Word, r15: Word)
    ensures BranchedR15(cfg, op, pc, r15) == BranchTo(cfg, r15, Add(r15, BranchOffset(op)))
            <==> BranchSafe(cfg, op, pc, r15)
  {
    hide AndW; hide OrW; hide BranchTo; hide BranchOffset; hide Add; hide Sub; hide Signed; hide FastBranch;
    OffsetAligned(op);
    var offset := Add(BranchOffset(op), 4);
    var y := Add(r15, offset);
    BranchToIs(cfg, r15, BranchOffset(op));
    AddAligned(r15, offset);
    if !cfg.bits26 {
      FastBranchWide(cfg, op, pc);
    } else if FastBranch(cfg, op, pc) {
      SameTop(r15, offset);
    } else {
      PsrSource(y, if Links(op) then Sub(r15, 4) else r15);
      KeepsTop(r15);
    }
  }

  lemma FastBranchWide(cfg: Config, op: Word, pc: Word)
    ensures !cfg.bits26 ==> FastBranch(cfg, op, pc)
  {
  }

  lemma AddAligned(r15: Word, o: Word)
    requires o % 4 == 0
    ensures Add(r15, o) % 4 == r15 % 4
  {
    RemainderUnique(Add(r15, o), 4, r15 / 4 + o / 4 - (if r15 + o < MOD then 0 else 0x4000_0000), r15 % 4);
  }

  /** Replacing the PC field by the offset field keeps the rest of R15. */
  lemma BranchToIs(cfg: Config, r15: Word, o: Word)
    requires o % 4 == 0
    ensures var y := Add(r15, Add(o, 4));
            BranchTo(cfg, r15, Add(r15, o)) ==
            if cfg.bits26 then y % 0x400_0000 + (r15 - r15 % 0x400_0000) else y
  {
    hide AndW; hide OrW; hide Add;
    var y := Add(r15, Add(o, 4));
    AddOffset(r15, o);
    Masked(cfg, y); Masked(cfg, r15);
    Replace(y, r15, cfg.R15Mask());
  }

  lemma AddOffset(r15: Word, o: Word)
    requires o % 4 == 0
    ensures var y := Add(r15, Add(o, 4)); Add(Add(r15, o), 4) == y && y % 4 == r15 % 4
  {
  }

  lemma PsrSource(y: Word, x: Word)
    ensures OrW(AndW(y, 0x03ff_fffc), AndW(x, 0xfc00_0003)) ==
            y % 0x400_0000 - y % 4 + (x - x % 0x400_0000) + x % 4
  {
    hide AndW; hide OrW;
    PcMasks(y); PcMasks(x);
    Masked(Config(true, true), y); Masked(Config(true, true), x);
    Replace(y, x, 0x03ff_fffc);
  }

  lemma KeepsTop(r15: Word)
    ensures var x := Sub(r15, 4);
            x % 4 == r15 % 4 &&
            (x - x % 0x400_0000 == r15 - r15 % 0x400_0000 <==> r15 % 0x400_0000 >= 4)
  {
    SameTop(r15, 0xffff_fffc);
    assert Sub(r15, 4) == Add(r15, 0xffff_fffc);
  }

  /** Adding a small offset keeps the bits above the PC field exactly when the field does not overflow. */
  lemma SameTop(r: Word, o: Word)
    requires -0x400_0000 < Signed(o) < 0x400_0000
    ensures var y := Add(r, o);
            y - y % 0x400_0000 == r - r % 0x400_0000 <==> 0 <= r % 0x400_0000 + Signed(o) < 0x400_0000
  {
    var p, l, top := 0x400_0000, r % 0x400_0000 + Signed(o), r / 0x400_0000;
    var y := Add(r, o);
    if 0 <= l < p {
      assert y == p * top + l;
    } else if l >= p {
      assert y == p * ((top + 1) % 64) + (l - p);
    } else {
      assert y == p * ((top + 63) % 64) + (l + p);
    }
  }

  lemma Masked(cfg: Config, x: Word)
    ensures AndW(x, cfg.R15Mask()) == if cfg.bits26 then x % 0x400_0000 - x % 4 else x - x % 4
  {
    PcMasks(x);
  }

  /** The address of the instruction whose R15 this is. */
  function Pc(cfg: Config, r15: Word): Word { AndW(Sub(r15, 8), cfg.R15Mask()) }

  /**
   In the 26-bit modes the fast form is used for any branch whose target, less four, lies in
   the 26-bit space; it is wrong exactly for the last two of these, where R15 leaves the field.
   */
  lemma FastBranchLimit(cfg: Config, op: Word, r15: Word)
    requires cfg.bits26 && r15 % 0x400_0000 >= 8
    requires FastBranch(cfg, op, Pc(cfg, r15))
    ensures BranchSafe(cfg, op, Pc(cfg, r15), r15) <==>
            Add(Pc(cfg, r15), Add(BranchOffset(op), 4)) < 0x3ff_fff8
  {
    hide AndW; hide BranchOffset; hide Pc; hide Add; hide Signed;
    OffsetAligned(op);
    PcInField(cfg, r15);
    FieldLimit(Pc(cfg, r15), r15 % 4, Add(BranchOffset(op), 4));
  }

  lemma PcInField(cfg: Config, r15: Word)
    requires cfg.bits26 && r15 % 0x400_0000 >= 8
    ensures Pc(cfg, r15) == r15 % 0x400_0000 - 8 - r15 % 4 && Pc(cfg, r15) % 4 == 0 && 0 <= r15 % 4 < 4
  {
    hide AndW;
    Masked(cfg, Sub(r15, 8));
    var q, f, w, t: int := r15 / 0x400_0000, r15 % 0x400_0000, r15 / 4, r15 % 4;
    RemainderUnique(r15 - 8, 0x400_0000, q, f - 8);
    RemainderUnique(r15 - 8, 4, w - 2, t);
    RemainderUnique(f - 8 - t, 4, w - 0x100_0000 * q - 2, 0);
  }

  lemma FieldLimit(p: Word, t: int, o: Word)
    requires p % 4 == 0 && p < 0x3ff_fffc && 0 <= t < 4 && o % 4 == 0 && -0x200_0000 < Signed(o) <= 0x200_0000 && Add(p, o) < 0x400_0000
    ensures 0 <= p + 8 + t + Signed(o) < 0x400_0000 <==> Add(p, o) < 0x3ff_fff8
  {
  }

  /** A branch to the last word of the 26-bit space: the emitted code turns the F bit on. */
  lemma FastBranchGoesWrong(env: Env, h: Host)
    requires h.r15 == 0x03ff_0008
    ensures var cfg, op: Word := Config(true, true), 0xea00_3ffd;
            && FastBranch(cfg, op, Pc(cfg, h.r15))
            && View(Run(env, BranchCode(cfg, op, Pc(cfg, h.r15)), h))[15] == 0x0400_0000
            && Branch(cfg, op, View(h))[15] == 0
  {
    hide Run; hide And; hide Or; hide BranchCode;
    var cfg, op: Word := Config(true, true), 0xea00_3ffd;
    PcMasks(Sub(h.r15, 8));
    RunBranch(env, cfg, op, Pc(cfg, h.r15), h);
    BranchToIs(cfg, h.r15, BranchOffset(op));
  }

  /** Every accepted opcode: the emitted code is the interpreter's handler, and it leaves memory alone. */
  lemma RecompileCorrect(env: Env, cfg: Config, op: Word, pc: Word, h: Host)
    requires Recompile(cfg, op, pc).Code?
    requires IsBranch(op) ==> BranchSafe(cfg, op, pc, h.r15)
    ensures Modelled(cfg, op)
    ensures Straight(Recompile(cfg, op, pc).code)
    ensures Seen(Run(env, Recompile(cfg, op, pc).code, h)) == Seen(h).(reg := Handler(cfg, op, View(h)))
  {
    RecompiledIsModelled(cfg, op, pc);
    hide Run; hide BranchCode; hide MultiplyCode; hide MultiplyLongCode; hide DataProcessingCode; hide View;
    hide BranchSafe; hide Branch; hide Multiply; hide MultiplyLong; hide DataProcessing;
    if IsBranch(op) {
      BranchCorrectIff(env, cfg, op, pc, h);
      RunBranch(env, cfg, op, pc, h);
    } else if ShortMultiply(op) {
      MultiplyCorrect(env, cfg, op, h);
    } else if LongMultiply(cfg, op) {
      MultiplyLongCorrect(env, cfg, op, h);
    } else {
      DataProcessingCorrect(env, cfg, op, h);
    }
    StraightKeepsMemory(env, Recompile(cfg, op, pc).code, h);
  }
}
