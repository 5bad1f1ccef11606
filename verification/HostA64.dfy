/**
 The part of the AArch64 instruction set the recompiler emits, abstracted from its
 encoding: 32-bit operations on a few scratch registers, the NZCV flags, loads and
 stores of the emulated register file, and forward skips.
 */
module HostA64 {
  import opened Words
  import opened Flags
  import opened Interpreter
  import BlockTransfer
  import InlineTransfer
  import InlineSingle

  /** x9-x14 are scratch, x20 caches the guest's R15, and register 31 reads as zero. */
  datatype Reg = X9 | X10 | X11 | X12 | X20 | Zr

  /**
   The scratch registers by their 32-bit halves; only x9 is ever used at full width, so
   only it has its upper half here. `w0` is what a handler returned. `reg` is arm.reg[]; its
   element 15 is stale while R15 is cached in x20. `abort` is the Data Abort bit of arm.event.
   */
  datatype Host = Host(x9: Word, x9hi: Word, x10: Word, x11: Word, x12: Word, w0: Word, r15: Word, f: Nzcv,
                       reg: Regs, mem: BlockTransfer.Memory, abort: bool)

  /** What the guest sees: its registers, its memory, and whether a Data Abort is to be taken. */
  datatype Machine = Machine(reg: Regs, mem: BlockTransfer.Memory, abort: bool)

  datatype Logic = AndOp | OrrOp | EorOp | BicOp | OrnOp

  datatype Insn =
    | LoadImm(d: Reg, imm: Word)
    | Mov(d: Reg, a: Reg)
    | Ldr(d: Reg, i: nat)
    | Str(a: Reg, i: nat)
    | AddImm(d: Reg, a: Reg, imm: Word)
    | SubImm(d: Reg, a: Reg, imm: Word)
    | LogicOp(fn: Logic, sets: bool, d: Reg, a: Reg, b: Reg)
    | AddOp(sets: bool, d: Reg, a: Reg, b: Reg)
    | SubOp(sets: bool, d: Reg, a: Reg, b: Reg)
    | LslImm(d: Reg, a: Reg, places: nat)
    | LsrImm(d: Reg, a: Reg, places: nat)
    | AsrImm(d: Reg, a: Reg, places: nat)
    | RorImm(d: Reg, a: Reg, places: nat)
    | MrsNzcv(d: Reg)
    | MulOp(d: Reg, a: Reg, b: Reg)
    | Madd(d: Reg, a: Reg, b: Reg, c: Reg)
    | UmullX9(a: Reg, b: Reg)                // x9 = a * b, all 64 bits
    | LsrX9By32                              // x9 = x9 >> 32
    | FlagTable(d: Reg, cond: nat, a: Reg)   // LDRB from one row of flaglookup
    | Cbz(a: Reg, skip: nat)
    | Call(opcode: Word)                      // BLR to the C handler of `op`
    | CbnzLeave                              // CBNZ w0 to the epilogue
    | Transfer(cfg: Config, opcode: Word)    // the inline code of InlineTransfer, which leaves on an abort
    | Single(cfg: Config, opcode: Word)      // that of InlineSingle, the register offset in w9, which leaves on an abort

  /**
   What generated code calls out to, what such a call leaves in the registers it may use, and the options of the
   CPU that block transfers are compiled for.
   */
  datatype Env = Env(helper: (Word, Machine) -> Machine, junk: Word, junkFlags: Nzcv, cpu: BlockTransfer.Model)

  function W(h: Host, r: Reg): Word {
    match r
    case X9 => h.x9
    case X10 => h.x10
    case X11 => h.x11
    case X12 => h.x12
    case X20 => h.r15
    case Zr => 0
  }

  /** A 32-bit write clears the upper half. */
  function Put(h: Host, r: Reg, v: Word): Host {
    match r
    case X9 => h.(x9 := v, x9hi := 0)
    case X10 => h.(x10 := v)
    case X11 => h.(x11 := v)
    case X12 => h.(x12 := v)
    case X20 => h.(r15 := v)
    case Zr => h
  }

  function LogicValue(op: Logic, a: Word, b: Word): Word {
    match op
    case AndOp => AndW(a, b)
    case OrrOp => OrW(a, b)
    case EorOp => XorW(a, b)
    case BicOp => AndW(a, Not(b))
    case OrnOp => OrW(a, Not(b))
  }

  /** The condition table built by arm_init. */
  predicate Condition(cond: nat, nibble: nat)
    requires nibble < 16
  {
    var n, z, c, v := nibble / 8 == 1, (nibble / 4) % 2 == 1, (nibble / 2) % 2 == 1, nibble % 2 == 1;
    match cond
    case 0 => z
    case 1 => !z
    case 2 => c
    case 3 => !c
    case 4 => n
    case 5 => !n
    case 6 => v
    case 7 => !v
    case 8 => c && !z
    case 9 => !c || z
    case 10 => n == v
    case 11 => n != v
    case 12 => !z && n == v
    case 13 => z || n != v
    case 14 => true
    case _ => false
  }

  /** One instruction that does not branch. */
  function Step(env: Env, i: Insn, h: Host): Host {
    match i
    case LoadImm(d, imm) => Put(h, d, imm)
    case Mov(d, a) => Put(h, d, W(h, a))
    case Ldr(d, i) => if i < 17 then Put(h, d, h.reg[i]) else h
    case Str(a, i) => if i < 17 then h.(reg := h.reg[i := W(h, a)]) else h
    case AddImm(d, a, imm) => Put(h, d, Add(W(h, a), imm))
    case SubImm(d, a, imm) => Put(h, d, Sub(W(h, a), imm))
    case LogicOp(fn, sets, d, a, b) =>
      var v := LogicValue(fn, W(h, a), W(h, b));
      Put(if sets then h.(f := Nzcv(Neg(v), v == 0, false, false)) else h, d, v)
    case AddOp(sets, d, a, b) =>
      var (v, f) := AddWithCarry(W(h, a), W(h, b), false);
      Put(if sets then h.(f := f) else h, d, v)
    case SubOp(sets, d, a, b) =>
      var (v, f) := AddWithCarry(W(h, a), Not(W(h, b)), true);
      Put(if sets then h.(f := f) else h, d, v)
    case LslImm(d, a, n) => Put(h, d, Lsl(W(h, a), n))
    case LsrImm(d, a, n) => Put(h, d, Lsr(W(h, a), n))
    case AsrImm(d, a, n) => Put(h, d, Asr(W(h, a), n))
    case RorImm(d, a, n) => Put(h, d, Ror(W(h, a), n))
    case MrsNzcv(d) => Put(h, d, Nibble(h.f) * 0x1000_0000)
    case MulOp(d, a, b) => Put(h, d, Mul(W(h, a), W(h, b)))
    case Madd(d, a, b, c) => Put(h, d, Add(Mul(W(h, a), W(h, b)), W(h, c)))
    case UmullX9(a, b) =>
      ProductBound(W(h, a), W(h, b));
      var p := W(h, a) * W(h, b);
      h.(x9 := p % MOD, x9hi := p / MOD)
    case LsrX9By32 => h.(x9 := h.x9hi, x9hi := 0)
    case FlagTable(d, cond, a) => Put(h, d, Bit(Condition(cond, W(h, a) % 16)))
    case Cbz(_, _) => h
    case CbnzLeave => h
    case Call(op) => Called(env, op, h)
    case Transfer(cfg, op) => Transferred(env, cfg, op, h)
    case Single(cfg, op) => Singled(env, cfg, op, h)
  }

  /** A handler is called with R15 in arm.reg[]; it returns whether there was an abort. */
  function Called(env: Env, op: Word, h: Host): Host {
    var s := env.helper(op, Machine(h.reg, h.mem, h.abort));
    Host(env.junk, env.junk, env.junk, env.junk, env.junk, Bit(s.abort), h.r15, env.junkFlags, s.reg, s.mem, s.abort)
  }

  function Transferred(env: Env, cfg: Config, op: Word, h: Host): Host {
    var out := InlineTransfer.Compiled(cfg, env.cpu, op, Unbanked(View(h)), h.mem, InlineTransfer.Pair(h.x10, h.x11), h.x9);
    Host(env.junk, env.junk, env.junk, env.junk, env.junk, env.junk, out.reg[15], env.junkFlags, out.reg, out.mem, h.abort || out.aborted)
  }

  function Singled(env: Env, cfg: Config, op: Word, h: Host): Host {
    var out := InlineSingle.Compiled(cfg, env.cpu, op, View(h), h.mem, h.x9, env.junk);
    Host(env.junk, env.junk, env.junk, env.junk, env.junk, env.junk, out.reg[15], env.junkFlags, out.reg, out.mem, h.abort || out.aborted)
  }

  /** The registers as block transfers see them; without the S bit the user bank is not looked at. */
  function Unbanked(r: Regs): BlockTransfer.State { BlockTransfer.State(r, seq(15, _ => 0), seq(15, _ => true)) }

  /** After the instruction, does control leave the block? */
  predicate Leaves(i: Insn, h: Host) { (i.CbnzLeave? && h.w0 != 0) || ((i.Transfer? || i.Single?) && h.abort) }

  lemma ProductBound(a: Word, b: Word)
    ensures 0 <= a * b < MOD * MOD
  {
    MulMono(a, b, MOD - 1);
    MulMono(MOD - 1, a, MOD - 1);
  }

  lemma MulMono(x: int, y: int, z: int)
    requires 0 <= x && 0 <= y <= z
    ensures 0 <= x * y <= x * z
  {
    assert x * z == x * y + x * (z - y);
  }

  /** A sequence of instructions, in which a taken skip drops the ones it jumps over and an abort all that follow. */
  function Run(env: Env, code: seq<Insn>, h: Host): Host
    decreases |code|
  {
    if code == [] then h
    else if code[0].Cbz? then
      if W(h, code[0].a) == 0 && code[0].skip < |code| then Run(env, code[1 + code[0].skip..], h)
      else Run(env, code[1..], h)
    else
      var h1 := Step(env, code[0], h);
      if Leaves(code[0], h1) then h1 else Run(env, code[1..], h1)
  }

  /** Does control always go on to the next instruction? */
  predicate Falls(i: Insn) { !i.Cbz? && !i.CbnzLeave? && !i.Transfer? && !i.Single? }

  /** Code that always runs to its end, without calls. */
  predicate Straight(code: seq<Insn>) { forall i :: 0 <= i < |code| ==> Falls(code[i]) && !code[i].Call? }

  lemma {:induction false} RunAppend(env: Env, a: seq<Insn>, b: seq<Insn>, h: Host)
    requires Straight(a)
    ensures Run(env, a + b, h) == Run(env, b, Run(env, a, h))
    decreases |a|
  {
    hide Step;
    if a == [] {
      assert a + b == b;
    } else {
      assert (a + b)[1..] == a[1..] + b;
      RunAppend(env, a[1..], b, Step(env, a[0], h));
    }
  }

  lemma RunCons(env: Env, i: Insn, rest: seq<Insn>, h: Host)
    requires Falls(i)
    ensures Run(env, [i] + rest, h) == Run(env, rest, Step(env, i, h))
  {
    hide Step;
    assert ([i] + rest)[1..] == rest;
  }

  lemma Run1(env: Env, i: Insn, h: Host)
    requires Falls(i)
    ensures Run(env, [i], h) == Step(env, i, h)
  {
    hide Step;
    assert [i][1..] == [];
  }

  lemma StepKeepsMemory(env: Env, i: Insn, h: Host)
    requires Falls(i) && !i.Call?
    ensures Step(env, i, h).mem == h.mem && Step(env, i, h).abort == h.abort
  {
    hide LogicValue; hide AddWithCarry; hide Add; hide Sub; hide Mul; hide Lsl; hide Lsr; hide Asr; hide Ror; hide Condition; hide Nibble; hide Called; hide Transferred; hide Singled;
  }

  /** Such code does not touch memory. */
  lemma {:induction false} StraightKeepsMemory(env: Env, code: seq<Insn>, h: Host)
    requires Straight(code)
    ensures var h' := Run(env, code, h); h'.mem == h.mem && h'.abort == h.abort
    decreases |code|
  {
    hide Step;
    if code != [] {
      StepKeepsMemory(env, code[0], h);
      StraightKeepsMemory(env, code[1..], Step(env, code[0], h));
    }
  }

  // ---- Step, one kind of instruction at a time ----

  lemma StepImm(env: Env, d: Reg, imm: Word, h: Host)
    ensures Step(env, LoadImm(d, imm), h) == Put(h, d, imm)
  {
  }

  lemma StepMov(env: Env, d: Reg, a: Reg, h: Host)
    ensures Step(env, Mov(d, a), h) == Put(h, d, W(h, a))
  {
  }

  lemma StepLdr(env: Env, d: Reg, i: nat, h: Host)
    requires i < 17
    ensures Step(env, Ldr(d, i), h) == Put(h, d, h.reg[i])
  {
  }

  lemma StepStr(env: Env, a: Reg, i: nat, h: Host)
    requires i < 17
    ensures Step(env, Str(a, i), h) == h.(reg := h.reg[i := W(h, a)])
  {
  }

  lemma StepLogic(env: Env, fn: Logic, sets: bool, d: Reg, a: Reg, b: Reg, h: Host)
    ensures var v := LogicValue(fn, W(h, a), W(h, b));
            Step(env, LogicOp(fn, sets, d, a, b), h) == Put(if sets then h.(f := Nzcv(Neg(v), v == 0, false, false)) else h, d, v)
  {
  }

  lemma StepAddSub(env: Env, sets: bool, d: Reg, a: Reg, b: Reg, h: Host)
    ensures var (v, f) := AddWithCarry(W(h, a), W(h, b), false);
            Step(env, AddOp(sets, d, a, b), h) == Put(if sets then h.(f := f) else h, d, v)
    ensures var (v, f) := AddWithCarry(W(h, a), Not(W(h, b)), true);
            Step(env, SubOp(sets, d, a, b), h) == Put(if sets then h.(f := f) else h, d, v)
  {
    hide AddWithCarry;
  }

  lemma StepConst(env: Env, d: Reg, a: Reg, n: Word, h: Host)
    ensures Step(env, AddImm(d, a, n), h) == Put(h, d, Add(W(h, a), n))
    ensures Step(env, SubImm(d, a, n), h) == Put(h, d, Sub(W(h, a), n))
  {
  }

  lemma StepMrs(env: Env, d: Reg, h: Host)
    ensures Step(env, MrsNzcv(d), h) == Put(h, d, Nibble(h.f) * 0x1000_0000)
  {
  }

  lemma StepFlagTable(env: Env, d: Reg, cond: nat, a: Reg, h: Host)
    ensures Step(env, LsrImm(d, a, 28), h) == Put(h, d, Lsr(W(h, a), 28))
    ensures Step(env, FlagTable(d, cond, a), h) == Put(h, d, Bit(Condition(cond, W(h, a) % 16)))
  {
  }

  /** The register file the host state stands for: R15 from its cache. */
  function View(h: Host): Regs { h.reg[15 := h.r15] }

  /** What the guest sees of the host state. */
  function Seen(h: Host): Machine { Machine(View(h), h.mem, h.abort) }
}
