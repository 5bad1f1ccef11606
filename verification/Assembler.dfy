/**
 The code generator as the source writes it: emitters that append to the block being
 built, a saved-up PC increment, and a forward skip that is patched once the code it
 jumps over is known. Its output is the code the functions of Recompiler and Block name.
 */
module Assembler {
  import opened Words
  import opened Opcodes
  import opened Interpreter
  import opened HostA64
  import opened Recompiler
  import opened Block
  import InlineSingle

  /** The block with the skip at `at` landing at its end. */
  function Patch(code: seq<Insn>, at: nat): seq<Insn>
    requires at != 0 ==> at < |code|
  {
    if at == 0 then code else code[at := Cbz(X9, |code| - at - 1)]
  }

  predicate Native(cfg: Config, op: Word, pc: Word) { Recompile(cfg, op, pc).Code? || Inlined(op) || InlinedSingle(op) }

  /** The body of an instruction but for the exit after a call. */
  function CalledCode(cfg: Config, op: Word, pc: Word): seq<Insn> {
    if Native(cfg, op, pc) then BodyCode(cfg, op, pc) else [Str(X20, 15), Call(op), Ldr(X20, 15)]
  }

  class CodeBlock {
    const cfg: Config
    var code: seq<Insn>
    var pcinc: Word
    var lastJump: nat          // position of the skip of this instruction, or 0
    var lastRecompiled: bool   // was the last opcode compiled inline?

    constructor (cfg: Config)
      ensures this.cfg == cfg && code == [] && pcinc == 0 && lastJump == 0
    {
      this.cfg := cfg;
      code, pcinc, lastJump, lastRecompiled := [], 0, 0, false;
    }

    /** Everything after the skip is the code it is to jump over. */
    ghost predicate Valid()
      reads this
    {
      PcincOk(pcinc) && (lastJump != 0 ==> lastJump < |code|)
    }

    method Emit(more: seq<Insn>)
      requires Valid()
      modifies this`code
      ensures Valid() && code == old(code) + more
    {
      code := code + more;
    }

    method PatchHere()
      requires Valid()
      modifies this`code
      ensures Valid() && code == Patch(old(code), lastJump)
    {
      if lastJump != 0 {
        code := code[lastJump := Cbz(X9, |code| - lastJump - 1)];
      }
    }

    method GenerateShift(op: Word) returns (ok: bool)
      requires Valid()
      modifies this`code
      ensures Valid() && ok == ShiftCode(op).Code?
      ensures code == old(code) + if ok then ShiftCode(op).code else []
    {
      if ShiftByRegister(op) { return false; }
      if Unshifted(op) {
        Emit(LoadReg(Rm(op), X9));
        return true;
      }
      var amt := ShiftAmount(op);
      match ShiftKind(op)
      case 0 =>
        Emit(LoadReg(Rm(op), X9));
        if amt != 0 { Emit([LslImm(X9, X9, amt)]); }
        return true;
      case 1 =>
        if amt != 0 {
          Emit(LoadReg(Rm(op), X9));
          Emit([LsrImm(X9, X9, amt)]);
        } else {
          Emit([LoadImm(X9, 0)]);
        }
        return true;
      case 2 =>
        Emit(LoadReg(Rm(op), X9));
        Emit([AsrImm(X9, X9, if amt != 0 then amt else 31)]);
        return true;
      case _ =>
        if amt == 0 { return false; }
        Emit(LoadReg(Rm(op), X9));
        Emit([RorImm(X9, X9, amt)]);
        return true;
    }

    method GenNativeFlags(setCv: bool)
      requires Valid()
      modifies this`code
      ensures Valid() && code == old(code) + FlagsCode(cfg.bits26, setCv)
    {
      var take: Word := if setCv then 0xf000_0000 else 0xc000_0000;
      Emit([MrsNzcv(X11)]);
      if cfg.bits26 {
        Emit(MergeCode(X20, take));
      } else {
        Emit([Ldr(X10, 16)]);
        Emit(MergeCode(X10, take));
        Emit([Str(X10, 16)]);
      }
    }

    /** The second operand, declined where a flag-setting logical operation needs the shifter's carry. */
    method GenOperand(op: Word) returns (ok: bool)
      requires Valid()
      modifies this`code
      ensures Valid() && ok == OperandCode(op).Code?
      ensures code == old(code) + if ok then OperandCode(op).code else []
    {
      hide ShiftCode; hide RotatedImmediate; hide Unshifted; hide Rotation; hide Operation; hide Rd; hide SetsFlags;
      var needsCarry := SetsFlags(op) && Logical(Operation(op));
      if Immediate(op) {
        if needsCarry && Rotation(op) != 0 { return false; }
        Emit([LoadImm(X9, RotatedImmediate(op))]);
        return true;
      }
      if needsCarry && !Unshifted(op) { return false; }
      ok := GenerateShift(op);
    }

    method GenDataProcessing(op: Word) returns (ok: bool)
      requires Valid()
      modifies this`code
      ensures Valid() && ok == DataProcessingCode(cfg, op).Code?
      ensures code == old(code) + if ok then DataProcessingCode(cfg, op).code else []
    {
      hide RnCode; hide AluCode; hide FlagsCode; hide SaveReg; hide OperandCode; hide Logical; hide Operation; hide Rd;
      hide SetsFlags;
      var opn, s := Operation(op), SetsFlags(op);
      if 5 <= opn <= 7 || (Compare(opn) && !s) || Rd(op) == 15 { return false; }
      ghost var before := code;
      ok := GenOperand(op);
      if !ok { return; }
      ghost var c1 := OperandCode(op).code;
      assert code == before + c1;
      Emit(RnCode(cfg, op));
      ghost var c2 := c1 + RnCode(cfg, op);
      Glue(before, c1, RnCode(cfg, op));
      Emit(AluCode(opn, s));
      ghost var c3 := c2 + AluCode(opn, s);
      Glue(before, c2, AluCode(opn, s));
      ghost var flags := if s then FlagsCode(cfg.bits26, !Logical(opn)) else [];
      if s { GenNativeFlags(!Logical(opn)); }
      Glue(before, c3, flags);
      ghost var save := if Compare(opn) then [] else SaveReg(Rd(op), X12);
      if !Compare(opn) { Emit(SaveReg(Rd(op), X12)); }
      Glue(before, c3 + flags, save);
      return true;
    }

    method GenMultiply(op: Word) returns (ok: bool)
      requires Valid()
      modifies this`code
      ensures Valid() && ok == MultiplyCode(op).Code?
      ensures code == old(code) + if ok then MultiplyCode(op).code else []
    {
      hide LoadReg; hide SaveReg; hide Rn; hide Rm; hide Rs; hide Rd; hide Operation; hide SetsFlags;
      if SetsFlags(op) || Rn(op) == Rm(op) || Rn(op) == 15 { return false; }
      ghost var before, acc := code, LoadReg(Rm(op), X9);
      Emit(LoadReg(Rm(op), X9));
      Emit(LoadReg(Rs(op), X10));
      Glue(before, acc, LoadReg(Rs(op), X10)); acc := acc + LoadReg(Rs(op), X10);
      ghost var middle := if Operation(op) == 1 then LoadReg(Rd(op), X11) + [Madd(X9, X9, X10, X11)] else [MulOp(X9, X9, X10)];
      if Operation(op) == 1 {
        ghost var now := code;
        Emit(LoadReg(Rd(op), X11));
        Emit([Madd(X9, X9, X10, X11)]);
        Glue(now, LoadReg(Rd(op), X11), [Madd(X9, X9, X10, X11)]);
      } else {
        Emit([MulOp(X9, X9, X10)]);
      }
      Glue(before, acc, middle); acc := acc + middle;
      Emit(SaveReg(Rn(op), X9));
      Glue(before, acc, SaveReg(Rn(op), X9));
      return true;
    }

    method GenMultiplyLong(op: Word) returns (ok: bool)
      requires Valid()
      modifies this`code
      ensures Valid() && ok == MultiplyLongCode(op).Code?
      ensures code == old(code) + if ok then MultiplyLongCode(op).code else []
    {
      hide LoadReg; hide SaveReg; hide Rn; hide Rm; hide Rs; hide Rd; hide Operation; hide SetsFlags;
      if Operation(op) != 4 || SetsFlags(op) || Rn(op) == 15 || Rd(op) == 15 || Rn(op) == Rd(op) { return false; }
      ghost var before, acc := code, LoadReg(Rm(op), X9);
      Emit(LoadReg(Rm(op), X9));
      Emit(LoadReg(Rs(op), X10));
      Glue(before, acc, LoadReg(Rs(op), X10)); acc := acc + LoadReg(Rs(op), X10);
      Emit([UmullX9(X9, X10)]);
      Glue(before, acc, [UmullX9(X9, X10)]); acc := acc + [UmullX9(X9, X10)];
      Emit(SaveReg(Rd(op), X9));
      Glue(before, acc, SaveReg(Rd(op), X9)); acc := acc + SaveReg(Rd(op), X9);
      Emit([LsrX9By32]);
      Glue(before, acc, [LsrX9By32]); acc := acc + [LsrX9By32];
      Emit(SaveReg(Rn(op), X9));
      Glue(before, acc, SaveReg(Rn(op), X9));
      return true;
    }

    /** `recompile`: a declined opcode emits nothing at all, so the call that follows starts clean. */
    method RecompileOne(op: Word, pc: Word) returns (ok: bool)
      requires Valid()
      modifies this`code
      ensures Valid() && ok == Recompile(cfg, op, pc).Code?
      ensures code == old(code) + if ok then Recompile(cfg, op, pc).code else []
    {
      if !CanRecompile(op) || (cfg.archV4 && ExtraTransfer(op)) { return false; }
      if IsBranch(op) {
        Emit(BranchCode(cfg, op, pc));
        return true;
      }
      if ShortMultiply(op) {
        ok := GenMultiply(op);
      } else if LongMultiply(cfg, op) {
        ok := GenMultiplyLong(op);
      } else {
        ok := GenDataProcessing(op);
      }
    }

    /** gen_single_data_transfer(): the offset into w9 if it is a register, then what InlineSingle emits. */
    method SingleTransfer(op: Word) returns (ok: bool)
      requires Valid()
      modifies this`code
      ensures Valid() && ok == (Immediate(op) ==> ShiftCode(op).Code?)
      ensures code == old(code) + if ok then (if Immediate(op) then ShiftCode(op).code else []) + [Single(cfg, op)] else []
    {
      hide ShiftCode; hide Immediate;
      ok := true;
      if Immediate(op) { ok := GenerateShift(op); }
      if ok { Emit([Single(cfg, op)]); }
    }

    method GenerateCall(op: Word, pc: Word)
      requires Valid()
      modifies this`code, this`lastRecompiled
      ensures Valid() && lastRecompiled == Native(cfg, op, pc)
      ensures code == Patch(old(code) + CalledCode(cfg, op, pc), lastJump)
    {
      hide Native; hide BodyCode; hide Patch;
      lastRecompiled := NativeCode(op, pc);
      assert old(code) + [] == old(code);
      if !lastRecompiled {
        Emit([Str(X20, 15), Call(op), Ldr(X20, 15)]);
      }
      PatchHere();
    }

    /** What `recompile` emits for any class of opcodes, or nothing. */
    method NativeCode(op: Word, pc: Word) returns (ok: bool)
      requires Valid()
      modifies this`code
      ensures Valid() && ok == Native(cfg, op, pc)
      ensures code == old(code) + if ok then BodyCode(cfg, op, pc) else []
    {
      hide Recompile; hide Inlined; hide InlineSingle.Compiles; hide ShiftCode; hide Immediate; hide CallCode;
      ok := RecompileOne(op, pc);
      if ok { return; }
      if Inlined(op) {
        Emit([Transfer(cfg, op)]);
        return true;
      }
      if InlineSingle.Compiles(op) { ok := SingleTransfer(op); }
    }

    /** The exit after a call that has aborted; the skip is patched again, to jump past it. */
    method GenerateIrqTest()
      requires Valid()
      modifies this`code, this`lastRecompiled
      ensures Valid() && !lastRecompiled
      ensures code == if old(lastRecompiled) then old(code) else Patch(old(code) + [CbnzLeave], lastJump)
    {
      if lastRecompiled {
        lastRecompiled := false;
        return;
      }
      Emit([CbnzLeave]);
      PatchHere();
    }

    method GenerateUpdatePc()
      requires Valid()
      modifies this`code, this`pcinc
      ensures Valid() && code == old(code) + FlushCode(old(pcinc)) && pcinc == 0
    {
      if pcinc != 0 {
        Emit([AddImm(X20, X20, pcinc)]);
        pcinc := 0;
      }
    }

    method GeneratePcinc()
      requires Valid()
      modifies this`code, this`pcinc, this`lastJump
      ensures Valid() && lastJump == 0
      ensures code == old(code) + if old(pcinc) == 120 then FlushCode(124) else []
      ensures pcinc == if old(pcinc) == 120 then 0 else old(pcinc) + 4
    {
      lastJump := 0;
      if pcinc + 4 == 124 {
        Emit([AddImm(X20, X20, 124)]);
        pcinc := 0;
      } else {
        pcinc := pcinc + 4;
      }
    }

    method GenerateFlagTestAndBranch(op: Word)
      requires Valid() && lastJump == 0
      modifies this`code, this`lastJump
      ensures Valid()
      ensures Cond(op) == 14 ==> code == old(code) && lastJump == 0
      ensures Cond(op) != 14 ==> code == old(code) + TestCodeFor(cfg, Cond(op)) + [Cbz(X9, 0)] && lastJump == |code| - 1
    {
      if Cond(op) == 14 { return; }
      Emit(TestCodeFor(cfg, Cond(op)));
      var at := |code|;
      Emit([Cbz(X9, 0)]);
      lastJump := at;
    }

    method GenerateBody(op: Word, pc: Word)
      requires Valid()
      modifies this`code, this`lastRecompiled
      ensures Valid() && code == Patch(old(code) + BodyCode(cfg, op, pc), lastJump)
    {
      hide MayAbort; hide CalledCode; hide Native;
      GenerateCall(op, pc);
      BodyEnds(cfg, op, pc, old(code), lastJump);
      if MayAbort(cfg, op) { GenerateIrqTest(); }
    }

    /** One instruction of the compile loop. */
    method CompileOne(op: Word, pc: Word)
      requires Valid()
      modifies this
      ensures code == old(code) + PreludeCode(cfg, op, old(pcinc)) + GuardedCode(cfg, op, pc)
      ensures pcinc == Pending(cfg, op, old(pcinc)) && PcincOk(pcinc)
    {
      ghost var c0, p0 := code, pcinc;
      if Cond(op) == 15 {
        GeneratePcinc();
        assert PreludeCode(cfg, op, p0) == if p0 == 120 then FlushCode(124) else [];
      } else {
        if NeedsPc(cfg, op) { GenerateUpdatePc(); }
        GeneratePcinc();
        assert code == c0 + PreludeCode(cfg, op, p0);
        ghost var c1 := code;
        GenerateFlagTestAndBranch(op);
        ghost var c2 := code;
        GenerateBody(op, pc);
        SkipPatched(cfg, op, pc, c1, c2, code);
      }
    }

    /** The whole compile loop, up to the flush of the last increment by endblock. */
    method CompileBlock(ops: seq<Word>, pc: Word)
      requires code == [] && pcinc == 0 && lastJump == 0
      modifies this
      ensures code == Compile(cfg, ops, pc, 0)
      ensures pcinc == 0
    {
      var k, at := 0, pc;
      while k < |ops|
        invariant 0 <= k <= |ops| && PcincOk(pcinc)
        invariant code + Compile(cfg, ops[k..], at, pcinc) == Compile(cfg, ops, pc, 0)
      {
        ghost var c0, p0 := code, pcinc;
        lastJump := 0;
        CompileOne(ops[k], at);
        assert ops[k..][1..] == ops[k + 1..];
        CompileSplits(cfg, ops[k..], at, p0, c0);
        k, at := k + 1, Add(at, 4);
      }
      lastJump := 0;
      assert ops[k..] == [];
      GenerateUpdatePc();
    }
  }

  lemma BodyEnds(cfg: Config, op: Word, pc: Word, code: seq<Insn>, at: nat)
    requires at != 0 ==> at < |code|
    ensures var called := Patch(code + CalledCode(cfg, op, pc), at);
            Patch(code + BodyCode(cfg, op, pc), at) ==
            if MayAbort(cfg, op) && !Native(cfg, op, pc) then Patch(called + [CbnzLeave], at) else called
  {
    hide Recompile; hide MayAbort; hide Inlined; hide InlinedSingle; hide Patch;
    var call := [Str(X20, 15), Call(op), Ldr(X20, 15)];
    if !Native(cfg, op, pc) {
      if MayAbort(cfg, op) {
        PatchedTwice(code + call, at, [CbnzLeave]);
        assert code + CallCode(cfg, op) == code + call + [CbnzLeave];
      } else {
        assert CallCode(cfg, op) == call;
      }
    }
  }

  lemma PatchedTwice(code: seq<Insn>, at: nat, more: seq<Insn>)
    requires at != 0 ==> at < |code|
    ensures Patch(Patch(code, at) + more, at) == Patch(code + more, at)
  {
  }

  lemma Glue(a: seq<Insn>, b: seq<Insn>, c: seq<Insn>)
    ensures a + b + c == a + (b + c)
  {
  }

  lemma SkipPatched(cfg: Config, op: Word, pc: Word, c1: seq<Insn>, c2: seq<Insn>, c3: seq<Insn>)
    requires Cond(op) != 15
    requires c2 == if Cond(op) == 14 then c1 else c1 + TestCodeFor(cfg, Cond(op)) + [Cbz(X9, 0)]
    requires c3 == Patch(c2 + BodyCode(cfg, op, pc), if Cond(op) == 14 then 0 else |c2| - 1)
    ensures c3 == c1 + GuardedCode(cfg, op, pc)
  {
    hide BodyCode; hide TestCodeFor; hide Cond; hide Patch; hide GuardedCode;
    var test, body := TestCodeFor(cfg, Cond(op)), BodyCode(cfg, op, pc);
    TestLength(cfg, Cond(op));
    Guards(cfg, op, pc);
    if Cond(op) == 14 {
      PatchNone(c2 + body);
    } else {
      PatchSkip(c1 + test, body);
      Glue(c1, test, [Cbz(X9, |body|)] + body);
    }
  }

  lemma Guards(cfg: Config, op: Word, pc: Word)
    requires Cond(op) != 15
    ensures var test, body := TestCodeFor(cfg, Cond(op)), BodyCode(cfg, op, pc);
            GuardedCode(cfg, op, pc) == if Cond(op) == 14 then body else test + ([Cbz(X9, |body|)] + body)
  {
    hide BodyCode; hide TestCodeFor; hide Cond;
  }

  lemma PatchNone(code: seq<Insn>)
    ensures Patch(code, 0) == code
  {
  }

  /** The skip at the end of `a` is made to jump past `body`. */
  lemma PatchSkip(a: seq<Insn>, body: seq<Insn>)
    requires a != []
    ensures Patch(a + [Cbz(X9, 0)] + body, |a|) == a + ([Cbz(X9, |body|)] + body)
  {
  }

  lemma TestLength(cfg: Config, cond: nat)
    ensures |TestCodeFor(cfg, cond)| == 3
  {
  }

  lemma CompileSplits(cfg: Config, ops: seq<Word>, pc: Word, pcinc: Word, c0: seq<Insn>)
    requires ops != [] && PcincOk(pcinc)
    ensures var c1 := c0 + PreludeCode(cfg, ops[0], pcinc) + GuardedCode(cfg, ops[0], pc);
            c0 + Compile(cfg, ops, pc, pcinc) == c1 + Compile(cfg, ops[1..], Add(pc, 4), Pending(cfg, ops[0], pcinc))
  {
    hide PreludeCode; hide GuardedCode;
  }
}
