/**
 Single loads and stores compiled inline (gen_single_data_transfer in codegen_arm64.c), words and bytes, in all
 addressing modes, with the base written back before or after an abort is looked for. The result is proved to be
 that of the interpreter's LDR, STR, LDRB and STRB.
 */
module InlineSingle {
  import opened Words
  import opened Opcodes
  import opened Interpreter
  import BlockTransfer

  type Memory = BlockTransfer.Memory
  type Model = BlockTransfer.Model

  // ---- bytes of memory ----

  type Byte = x: int | 0 <= x < 256

  /** Byte `k` of a word, the lowest first. */
  function ByteIn(w: Word, k: int): Byte {
    (if k == 0 then w else if k == 1 then w / 0x100 else if k == 2 then w / 0x1_0000 else w / 0x100_0000) % 0x100
  }

  function OfBytes(a: Byte, b: Byte, c: Byte, d: Byte): Word { a + 0x100 * b + 0x1_0000 * c + 0x100_0000 * d }

  function WithByte(w: Word, k: int, v: Byte): Word {
    OfBytes(if k == 0 then v else ByteIn(w, 0), if k == 1 then v else ByteIn(w, 1),
            if k == 2 then v else ByteIn(w, 2), if k == 3 then v else ByteIn(w, 3))
  }

  lemma BytesOf(a: Byte, b: Byte, c: Byte, d: Byte)
    ensures var w := OfBytes(a, b, c, d); ByteIn(w, 0) == a && ByteIn(w, 1) == b && ByteIn(w, 2) == c && ByteIn(w, 3) == d
  {
    var w := OfBytes(a, b, c, d);
    var h1, h2 := b + 0x100 * c + 0x1_0000 * d, c + 0x100 * d;
    RemainderUnique(w, 0x100, h1, a);
    QuotientUnique(w, 0x100, h1, a);
    RemainderUnique(h1, 0x100, h2, b);
    QuotientUnique(w, 0x1_0000, h2, a + 0x100 * b);
    RemainderUnique(h2, 0x100, d, c);
    QuotientUnique(w, 0x100_0000, d, a + 0x100 * b + 0x1_0000 * c);
    RemainderUnique(d, 0x100, 0, d);
  }

  lemma ByteKept(w: Word, k: int, v: Byte, i: int)
    requires 0 <= k < 4 && 0 <= i < 4
    ensures ByteIn(WithByte(w, k, v), i) == if i == k then v else ByteIn(w, i)
  {
    hide ByteIn; hide OfBytes;
    BytesOf(if k == 0 then v else ByteIn(w, 0), if k == 1 then v else ByteIn(w, 1),
            if k == 2 then v else ByteIn(w, 2), if k == 3 then v else ByteIn(w, 3));
  }

  function HostByte(m: Memory, at: int): Byte { ByteIn(BlockTransfer.HostWord(m, at - at % 4), at % 4) }

  function ReadByte(m: Memory, a: Word): Byte {
    if BlockTransfer.FastRead(m, a) then HostByte(m, a + m.readMap(BlockTransfer.Page(a)))
    else ByteIn(BlockTransfer.Read(m, BlockTransfer.Align(a)), a % 4)
  }

  function PutHostByte(m: Memory, at: int, v: Byte): Memory {
    m.(host := m.host[at - at % 4 := WithByte(BlockTransfer.HostWord(m, at - at % 4), at % 4, v)])
  }

  function WriteByte(m: Memory, a: Word, v: Byte): Memory {
    if BlockTransfer.FastWrite(m, a) then PutHostByte(m, a + m.writeMap(BlockTransfer.Page(a)), v)
    else
      var w := BlockTransfer.Align(a);
      m.(slow := m.slow[w := WithByte(if w in m.slow then m.slow[w] else 0, a % 4, v)])
  }

  /** A byte written is that byte and no other. */
  lemma HostByteWritten(m: Memory, at: int, v: Byte, x: int)
    ensures HostByte(PutHostByte(m, at, v), x) == if x == at then v else HostByte(m, x)
  {
    hide ByteIn; hide WithByte;
    if x - x % 4 == at - at % 4 { ByteKept(BlockTransfer.HostWord(m, at - at % 4), at % 4, v, x % 4); }
  }

  // ---- fields ----

  predicate Loads(op: Word) { SetsFlags(op) }

  predicate OfByte(op: Word) { (op / 0x40_0000) % 2 == 1 }

  predicate Pre(op: Word) { (op / 0x100_0000) % 2 == 1 }

  predicate Up(op: Word) { (op / 0x80_0000) % 2 == 1 }

  /** Bit 21: write the address back, or with post-indexing use User mode's view of memory. */
  predicate BitW(op: Word) { (op / 0x20_0000) % 2 == 1 }

  /** Bit 25 set means the offset is a register. */
  predicate ByRegister(op: Word) { Immediate(op) }

  function Imm12(op: Word): Word { op % 0x1000 }

  // ---- the interpreter: opLDR, opSTR, opLDRB, opSTRB ----

  datatype Result = Result(reg: Regs, mem: Memory, aborted: bool)

  function OffsetBy(op: Word, a: Word, offset: Word): Word { Add(a, if Up(op) then offset else Sub(0, offset)) }

  /** shift_ldrstr() or the immediate. */
  function Offset(cfg: Config, op: Word, r: Regs): Word { if ByRegister(op) then Shifted(cfg, op, r) else Imm12(op) }

  /** Where the transfer goes. */
  function Target(op: Word, base: Word, offset: Word): Word { if Pre(op) then OffsetBy(op, base, offset) else base }

  /** The base register is written back by all but a plain pre-indexed transfer. */
  function WriteBack(op: Word, r: Regs, base: Word, offset: Word): Regs {
    if !Pre(op) || BitW(op) then r[Rn(op) := OffsetBy(op, base, offset)] else r
  }

  function Raw(op: Word, m: Memory, a: Word): Word {
    if OfByte(op) then ReadByte(m, a) else BlockTransfer.Read(m, BlockTransfer.Align(a))
  }

  /** Words are rotated to bring the byte addressed to the bottom. */
  function Fetch(op: Word, m: Memory, a: Word): Word {
    if OfByte(op) then Raw(op, m, a) else Ror(Raw(op, m, a), 8 * (a % 4))
  }

  function Store(op: Word, m: Memory, a: Word, v: Word): Memory {
    if OfByte(op) then WriteByte(m, a, v % 0x100) else BlockTransfer.Write(m, BlockTransfer.Align(a), v)
  }

  /** May the access be made? */
  predicate Can(op: Word, m: Memory, a: Word) {
    var at := if OfByte(op) then a else BlockTransfer.Align(a);
    if Loads(op) then BlockTransfer.CanRead(m, at) else BlockTransfer.CanWrite(m, at)
  }

  function Interpreted(cfg: Config, cpu: Model, op: Word, r: Regs, m: Memory): Result {
    var base, offset := Address(cfg, r, Rn(op)), Offset(cfg, op, r);
    var a := Target(op, base, offset);
    var v := if Rd(op) == 15 then Add(r[15], cpu.r15Diff) else r[Rd(op)];
    var abort := !Can(op, m, a);
    var m1 := if Loads(op) || abort then m else Store(op, m, a, v);
    if abort && cpu.baseRestored then Result(r, m1, true)
    else
      var r1 := WriteBack(op, r, base, offset);
      if !Loads(op) || abort then Result(r1, m1, abort)
      else
        var data := Fetch(op, m, a);
        Result(r1[Rd(op) := if Rd(op) == 15 then BranchTo(cfg, r1[15], data) else data], m, false)
  }

  // ---- the code emitted ----

  /** w9 data, x10 and x13 scratch, x23 the address, x24 the offset of a post-indexed transfer. */
  datatype Reg = X9 | X10 | X13 | X23 | X24

  datatype Insn =
    | Load(d: Reg, i: nat)              // a guest register, R15 from its cache
    | Save(i: nat, a: Reg)
    | Imm(d: Reg, n: Word)
    | Mov(d: Reg, a: Reg)
    | AndOp(d: Reg, a: Reg, b: Reg)
    | AddOp(d: Reg, a: Reg, b: Reg)
    | SubOp(d: Reg, a: Reg, b: Reg)
    | AddImm(d: Reg, a: Reg, n: Word)
    | SubImm(d: Reg, a: Reg, n: Word)
    | LslImm(d: Reg, a: Reg, places: nat)
    | LsrImm(d: Reg, a: Reg, places: nat)
    | RorBy(d: Reg, a: Reg, b: Reg)
    | Access(opcode: Word, test: bool)  // through the fast map or the C helper; out of the block on an abort if tested
    | TestAbort                         // gen_test_armirq()

  /** `junk` is whatever an access leaves in the registers it uses. */
  datatype Host = Host(x9: Word, x10: Word, x13: Word, x23: Word, x24: Word, reg: Regs, mem: Memory, abort: bool, junk: Word)

  function Get(h: Host, r: Reg): Word {
    match r
    case X9 => h.x9
    case X10 => h.x10
    case X13 => h.x13
    case X23 => h.x23
    case X24 => h.x24
  }

  function Put(h: Host, r: Reg, v: Word): Host {
    match r
    case X9 => h.(x9 := v)
    case X10 => h.(x10 := v)
    case X13 => h.(x13 := v)
    case X23 => h.(x23 := v)
    case X24 => h.(x24 := v)
  }

  /** genldr(), genldrb(), genstr() and genstrb() without the rotation. */
  function Accessed(op: Word, h: Host): Host {
    var done, v := Can(op, h.mem, h.x23), h.junk;
    h.(x9 := if done && Loads(op) then Raw(op, h.mem, h.x23) else v, x10 := v, x13 := v,
       mem := if done && !Loads(op) then Store(op, h.mem, h.x23, h.x9) else h.mem,
       abort := h.abort || !done)
  }

  function Step(i: Insn, h: Host): Host {
    match i
    case Load(d, i) => if i < 17 then Put(h, d, h.reg[i]) else h
    case Save(i, a) => if i < 17 then h.(reg := h.reg[i := Get(h, a)]) else h
    case Imm(d, n) => Put(h, d, n)
    case Mov(d, a) => Put(h, d, Get(h, a))
    case AndOp(d, a, b) => Put(h, d, AndW(Get(h, a), Get(h, b)))
    case AddOp(d, a, b) => Put(h, d, Add(Get(h, a), Get(h, b)))
    case SubOp(d, a, b) => Put(h, d, Sub(Get(h, a), Get(h, b)))
    case AddImm(d, a, n) => Put(h, d, Add(Get(h, a), n))
    case SubImm(d, a, n) => Put(h, d, Sub(Get(h, a), n))
    case LslImm(d, a, n) => Put(h, d, Lsl(Get(h, a), n))
    case LsrImm(d, a, n) => Put(h, d, Lsr(Get(h, a), n))
    case RorBy(d, a, b) => Put(h, d, Ror(Get(h, a), Get(h, b) % 32))
    case Access(op, _) => Accessed(op, h)
    case TestAbort => h.(x13 := if h.abort then 0x40 else 0)
  }

  predicate Tests(i: Insn) { i.TestAbort? || (i.Access? && i.test) }

  function Run(code: seq<Insn>, h: Host): Host
    decreases |code|
  {
    if code == [] then h
    else
      var h1 := Step(code[0], h);
      if Tests(code[0]) && h1.abort then h1 else Run(code[1..], h1)
  }

  /** x23 becomes the address. */
  function AddressCode(cfg: Config, op: Word): seq<Insn> {
    if Pre(op) then BaseLoad(cfg, op) + OffsetStep(op)
    else (if ByRegister(op) then [Mov(X24, X9)] else []) + [Load(X23, Rn(op))]
  }

  function BaseLoad(cfg: Config, op: Word): seq<Insn> {
    [Load(X23, Rn(op))] + if Rn(op) == 15 then [Imm(X13, cfg.R15Mask()), AndOp(X23, X23, X13)] else []
  }

  function OffsetStep(op: Word): seq<Insn> {
    if ByRegister(op) then [if Up(op) then AddOp(X23, X23, X9) else SubOp(X23, X23, X9)]
    else if Imm12(op) != 0 then [if Up(op) then AddImm(X23, X23, Imm12(op)) else SubImm(X23, X23, Imm12(op))]
    else []
  }

  function RotateCode(op: Word): seq<Insn> {
    if Loads(op) && !OfByte(op) then [LslImm(X10, X23, 30), LsrImm(X10, X10, 30), LslImm(X10, X10, 3), RorBy(X9, X9, X10)]
    else []
  }

  function AccessCode(cpu: Model, op: Word): seq<Insn> {
    (if Loads(op) then [] else [Load(X9, Rd(op))]) + ([Access(op, cpu.baseRestored)] + RotateCode(op))
  }

  function BaseCode(op: Word): seq<Insn> {
    if Pre(op) then (if BitW(op) then [Save(Rn(op), X23)] else [])
    else
      [if ByRegister(op) then (if Up(op) then AddOp(X10, X23, X24) else SubOp(X10, X23, X24))
       else if Up(op) then AddImm(X10, X23, Imm12(op)) else SubImm(X10, X23, Imm12(op))] +
      [Save(Rn(op), X10)]
  }

  function LastCode(cpu: Model, op: Word): seq<Insn> {
    (if cpu.baseRestored then [] else [TestAbort]) + (if Loads(op) then [Save(Rd(op), X9)] else [])
  }

  /** gen_single_data_transfer(), after the shift that leaves a register offset in w9. */
  function Code(cfg: Config, cpu: Model, op: Word): seq<Insn> {
    AddressCode(cfg, op) + (AccessCode(cpu, op) + (BaseCode(op) + LastCode(cpu, op)))
  }

  /** What is not declined, and canrecompile[] lets through: not to or from R15, no post-indexing by it, no LDRT and its like. */
  predicate Compiles(op: Word) {
    Class(op) == 1 && Rd(op) != 15 && (!Pre(op) ==> Rn(op) != 15 && !BitW(op))
  }

  function Compiled(cfg: Config, cpu: Model, op: Word, r: Regs, m: Memory, x9: Word, junk: Word): Result {
    var h := Run(Code(cfg, cpu, op), Host(x9, junk, junk, junk, junk, r, m, false, junk));
    Result(h.reg, h.mem, h.abort)
  }

  // ---- running it ----

  predicate Straight(code: seq<Insn>) { forall i :: 0 <= i < |code| ==> !Tests(code[i]) }

  lemma {:induction false} RunAppend(a: seq<Insn>, b: seq<Insn>, h: Host)
    requires Straight(a)
    ensures Run(a + b, h) == Run(b, Run(a, h))
    decreases |a|
  {
    hide Step;
    if a == [] {
      assert a + b == b;
    } else {
      assert (a + b)[1..] == a[1..] + b;
      RunAppend(a[1..], b, Step(a[0], h));
    }
  }

  lemma RunCons(i: Insn, rest: seq<Insn>, h: Host)
    ensures var h1 := Step(i, h); Run([i] + rest, h) == if Tests(i) && h1.abort then h1 else Run(rest, h1)
  {
    hide Step;
    assert ([i] + rest)[1..] == rest;
  }

  lemma RunNil(h: Host)
    ensures Run([], h) == h
  {
  }

  lemma Run1(i: Insn, h: Host)
    ensures Run([i], h) == Step(i, h)
  {
    hide Step;
    assert [i] + [] == [i];
    RunCons(i, [], h);
    RunNil(Step(i, h));
  }

  lemma Run2(i: Insn, j: Insn, h: Host)
    requires !Tests(i)
    ensures Run([i] + [j], h) == Step(j, Step(i, h))
  {
    hide Step;
    RunCons(i, [j], h);
    Run1(j, Step(i, h));
  }

  lemma SubIsAdd(a: Word, b: Word)
    ensures Sub(a, b) == Add(a, Sub(0, b)) && Add(a, 0) == a && Sub(a, 0) == a
  {
  }

  /** The address arrives in w23, and in w24 a register offset that is still to be added. */
  lemma RunAddress(cfg: Config, op: Word, h: Host)
    requires Compiles(op) && (ByRegister(op) ==> h.x9 == Shifted(cfg, op, h.reg))
    ensures Straight(AddressCode(cfg, op))
    ensures var h1 := Run(AddressCode(cfg, op), h);
            && h1 == h.(x13 := h1.x13, x23 := Target(op, Address(cfg, h.reg, Rn(op)), Offset(cfg, op, h.reg)), x24 := h1.x24)
            && (!Pre(op) && ByRegister(op) ==> h1.x24 == Offset(cfg, op, h.reg))
  {
    hide Run; hide Add; hide Sub; hide AndW; hide Rn; hide Rd; hide Shifted; hide Accessed;
    var base, offset := Address(cfg, h.reg, Rn(op)), Offset(cfg, op, h.reg);
    SubIsAdd(base, offset);
    SubIsAdd(0, 0);
    if Pre(op) {
      RunBaseLoad(cfg, op, h);
      var head := BaseLoad(cfg, op);
      var h1 := Run(head, h);
      var step := OffsetStep(op);
      assert AddressCode(cfg, op) == head + step;
      RunAppend(head, step, h);
      RunNil(h1);
      if step != [] { assert step == [step[0]]; Run1(step[0], h1); }
    } else if ByRegister(op) {
      Run2(Mov(X24, X9), Load(X23, Rn(op)), h);
    } else {
      assert AddressCode(cfg, op) == [Load(X23, Rn(op))];
      Run1(Load(X23, Rn(op)), h);
    }
  }

  lemma RunBaseLoad(cfg: Config, op: Word, h: Host)
    ensures Straight(BaseLoad(cfg, op))
    ensures var h1 := Run(BaseLoad(cfg, op), h); h1 == h.(x13 := h1.x13, x23 := Address(cfg, h.reg, Rn(op)))
  {
    hide Run; hide AndW; hide Rn; hide Accessed;
    var i := Load(X23, Rn(op));
    if Rn(op) == 15 {
      var j, k := Imm(X13, cfg.R15Mask()), AndOp(X23, X23, X13);
      assert BaseLoad(cfg, op) == [i] + ([j] + [k]);
      RunCons(i, [j] + [k], h);
      Run2(j, k, Step(i, h));
    } else {
      assert BaseLoad(cfg, op) == [i];
      Run1(i, h);
    }
  }

  lemma LowTwo(a: Word)
    ensures Lsl(a, 30) == a % 4 * 0x4000_0000
  {
    hide Lsl; hide Pow2;
    PowersOfInterest();
    LslTimes(a, 30);
    RemainderUnique(a * 0x4000_0000, MOD, a / 4, a % 4 * 0x4000_0000);
  }

  /** The three shifts leave eight times the bottom two bits. */
  lemma RotationIs(a: Word)
    ensures Lsl(Lsr(Lsl(a, 30), 30), 3) == 8 * (a % 4)
  {
    hide Lsl; hide Lsr; hide Pow2;
    PowersOfInterest();
    LowTwo(a);
    LsrDivides(Lsl(a, 30), 30);
    QuotientUnique(a % 4 * 0x4000_0000, 0x4000_0000, a % 4, 0);
    TimesEight(a % 4);
  }

  lemma TimesEight(r: Word)
    requires r < 4
    ensures Lsl(r, 3) == 8 * r
  {
  }

  /** The access and the rotation: out of the block with everything as it was if it is refused and that is tested here. */
  lemma RunAccess(cpu: Model, op: Word, rest: seq<Insn>, h: Host) returns (h2: Host)
    requires Compiles(op) && !h.abort
    ensures Run(AccessCode(cpu, op) + rest, h) == if h2.abort && cpu.baseRestored then h2 else Run(rest, h2)
    ensures var v := h.reg[Rd(op)];
            && h2.abort == !Can(op, h.mem, h.x23) && h2.reg == h.reg && h2.x23 == h.x23 && h2.x24 == h.x24
            && h2.mem == (if Loads(op) || h2.abort then h.mem else Store(op, h.mem, h.x23, v))
            && (Loads(op) && !h2.abort ==> h2.x9 == Fetch(op, h.mem, h.x23))
  {
    hide Run; hide Can; hide Store; hide Raw; hide Rd; hide Lsl; hide Lsr; hide Ror; hide AndW; hide Add; hide Sub;
    var head := if Loads(op) then [] else [Load(X9, Rd(op))];
    var h0 := if Loads(op) then h else h.(x9 := h.reg[Rd(op)]);
    var i := Access(op, cpu.baseRestored);
    assert AccessCode(cpu, op) + rest == head + ([i] + (RotateCode(op) + rest));
    RunAppend(head, [i] + (RotateCode(op) + rest), h);
    RunNil(h);
    Run1(Load(X9, Rd(op)), h);
    RunCons(i, RotateCode(op) + rest, h0);
    var h1 := Step(i, h0);
    RunRotate(op, h1);
    RunAppend(RotateCode(op), rest, h1);
    h2 := if h1.abort && cpu.baseRestored then h1 else Run(RotateCode(op), h1);
  }

  lemma ThreeShifts(h: Host)
    ensures Step(LslImm(X10, X10, 3), Step(LsrImm(X10, X10, 30), Step(LslImm(X10, X23, 30), h))) == h.(x10 := 8 * (h.x23 % 4))
  {
    hide Lsl; hide Lsr; hide Ror; hide AndW; hide Add; hide Sub; hide Accessed;
    RotationIs(h.x23);
  }

  lemma RotatedBy(h: Host)
    requires h.x10 < 32
    ensures Step(RorBy(X9, X9, X10), h) == h.(x9 := Ror(h.x9, h.x10))
  {
    hide Lsl; hide Lsr; hide Ror; hide AndW; hide Add; hide Sub; hide Accessed;
    RemainderUnique(h.x10, 32, 0, h.x10);
  }

  lemma RunRotate(op: Word, h: Host)
    ensures Straight(RotateCode(op))
    ensures var h1 := Run(RotateCode(op), h);
            h1 == h.(x10 := h1.x10, x9 := if Loads(op) && !OfByte(op) then Ror(h.x9, 8 * (h.x23 % 4)) else h.x9)
  {
    hide Run; hide Ror; hide Step;
    if Loads(op) && !OfByte(op) {
      var i, j, k, l := LslImm(X10, X23, 30), LsrImm(X10, X10, 30), LslImm(X10, X10, 3), RorBy(X9, X9, X10);
      assert RotateCode(op) == [i] + ([j] + ([k] + [l]));
      RunCons(i, [j] + ([k] + [l]), h);
      RunCons(j, [k] + [l], Step(i, h));
      Run2(k, l, Step(j, Step(i, h)));
      ThreeShifts(h);
      RotatedBy(h.(x10 := 8 * (h.x23 % 4)));
    } else {
      RunNil(h);
    }
  }

  /** The writeback. */
  lemma RunBase(cfg: Config, op: Word, h: Host, base: Word, offset: Word)
    requires Compiles(op) && h.x23 == Target(op, base, offset) && (!Pre(op) && ByRegister(op) ==> h.x24 == offset)
    requires !ByRegister(op) ==> offset == Imm12(op)
    ensures Straight(BaseCode(op))
    ensures var h1 := Run(BaseCode(op), h); h1 == h.(x10 := h1.x10, reg := WriteBack(op, h.reg, base, offset))
  {
    hide Run; hide Add; hide Sub; hide Rn; hide Accessed; hide AndW; hide Rd;
    SubIsAdd(base, offset);
    if !Pre(op) {
      var i := if ByRegister(op) then (if Up(op) then AddOp(X10, X23, X24) else SubOp(X10, X23, X24))
               else if Up(op) then AddImm(X10, X23, Imm12(op)) else SubImm(X10, X23, Imm12(op));
      Run2(i, Save(Rn(op), X10), h);
    } else if BitW(op) {
      Run1(Save(Rn(op), X23), h);
    } else {
      RunNil(h);
    }
  }

  /** The last test, and the destination of a load. */
  lemma RunLast(cpu: Model, op: Word, h: Host)
    requires Compiles(op) && (h.abort ==> !cpu.baseRestored)
    ensures var h1 := Run(LastCode(cpu, op), h);
            h1 == h.(x13 := h1.x13, reg := if Loads(op) && !h.abort then h.reg[Rd(op) := h.x9] else h.reg)
  {
    hide Run; hide Rd; hide Accessed; hide AndW; hide Add; hide Sub;
    var save := if Loads(op) then [Save(Rd(op), X9)] else [];
    var h0 := if cpu.baseRestored then h else Step(TestAbort, h);
    RunCons(TestAbort, save, h);
    assert LastCode(cpu, op) == (if cpu.baseRestored then [] else [TestAbort]) + save;
    assert [] + save == save;
    RunNil(h0);
    if Loads(op) { Run1(Save(Rd(op), X9), h0); }
  }

  /**
   Every single load and store that is compiled, words and bytes, on either path and at either moment of the
   abort test: registers, memory and aborts are the interpreter's.
   */
  lemma SingleCorrect(cfg: Config, cpu: Model, op: Word, r: Regs, m: Memory, x9: Word, junk: Word)
    requires Compiles(op) && (ByRegister(op) ==> x9 == Shifted(cfg, op, r))
    ensures Compiled(cfg, cpu, op, r, m, x9, junk) == Interpreted(cfg, cpu, op, r, m)
  {
    hide Run; hide Shifted; hide AddressCode; hide AccessCode; hide BaseCode; hide LastCode; hide Target; hide Address; hide Offset; hide Can;
    hide Fetch; hide Store; hide Rn; hide Rd; hide WriteBack; hide Add; hide BranchTo;
    var base, offset := Address(cfg, r, Rn(op)), Offset(cfg, op, r);
    var h := Host(x9, junk, junk, junk, junk, r, m, false, junk);
    var tail := BaseCode(op) + LastCode(cpu, op);
    RunAddress(cfg, op, h);
    RunAppend(AddressCode(cfg, op), AccessCode(cpu, op) + tail, h);
    var h1 := Run(AddressCode(cfg, op), h);
    var h2 := RunAccess(cpu, op, tail, h1);
    if !(h2.abort && cpu.baseRestored) {
      OffsetImm(cfg, op, r);
      RunBase(cfg, op, h2, base, offset);
      RunAppend(BaseCode(op), LastCode(cpu, op), h2);
      RunLast(cpu, op, Run(BaseCode(op), h2));
    }
  }

  lemma OffsetImm(cfg: Config, op: Word, r: Regs)
    ensures !ByRegister(op) ==> Offset(cfg, op, r) == Imm12(op)
  {
  }

  // ---- the emitter as the source writes it ----

  class Emitter {
    var code: seq<Insn>

    constructor ()
      ensures code == []
    {
      code := [];
    }

    /** gen_single_data_transfer(), after the shift. */
    method GenSingle(cfg: Config, cpu: Model, op: Word)
      modifies this
      ensures code == old(code) + Code(cfg, cpu, op)
    {
      hide AddressCode; hide AccessCode; hide BaseCode; hide LastCode;
      GenAddress(cfg, op);
      GenAccess(cpu, op);
      GenBase(op);
      if !cpu.baseRestored { code := code + [TestAbort]; }
      if Loads(op) { code := code + [Save(Rd(op), X9)]; }
      FourParts(old(code), cfg, cpu, op);
    }

    method GenAddress(cfg: Config, op: Word)
      modifies this
      ensures code == old(code) + AddressCode(cfg, op)
    {
      hide Rn;
      if Pre(op) {
        code := code + [Load(X23, Rn(op))];
        if Rn(op) == 15 { code := code + [Imm(X13, cfg.R15Mask()), AndOp(X23, X23, X13)]; }
        if ByRegister(op) {
          code := code + [if Up(op) then AddOp(X23, X23, X9) else SubOp(X23, X23, X9)];
        } else if Imm12(op) != 0 {
          code := code + [if Up(op) then AddImm(X23, X23, Imm12(op)) else SubImm(X23, X23, Imm12(op))];
        }
      } else {
        if ByRegister(op) { code := code + [Mov(X24, X9)]; }
        code := code + [Load(X23, Rn(op))];
      }
    }

    method GenAccess(cpu: Model, op: Word)
      modifies this
      ensures code == old(code) + AccessCode(cpu, op)
    {
      hide Rd;
      if !Loads(op) { code := code + [Load(X9, Rd(op))]; }
      code := code + [Access(op, cpu.baseRestored)];
      if Loads(op) && !OfByte(op) {
        code := code + [LslImm(X10, X23, 30), LsrImm(X10, X10, 30), LslImm(X10, X10, 3), RorBy(X9, X9, X10)];
      }
    }

    method GenBase(op: Word)
      modifies this
      ensures code == old(code) + BaseCode(op)
    {
      hide Rn;
      if Pre(op) {
        if BitW(op) { code := code + [Save(Rn(op), X23)]; }
      } else {
        if ByRegister(op) {
          code := code + [if Up(op) then AddOp(X10, X23, X24) else SubOp(X10, X23, X24)];
        } else {
          code := code + [if Up(op) then AddImm(X10, X23, Imm12(op)) else SubImm(X10, X23, Imm12(op))];
        }
        code := code + [Save(Rn(op), X10)];
      }
    }
  }

  lemma FourParts(a: seq<Insn>, cfg: Config, cpu: Model, op: Word)
    ensures a + AddressCode(cfg, op) + AccessCode(cpu, op) + BaseCode(op)
              + (if cpu.baseRestored then [] else [TestAbort]) + (if Loads(op) then [Save(Rd(op), X9)] else [])
            == a + Code(cfg, cpu, op)
  {
    hide AddressCode; hide AccessCode; hide BaseCode; hide Rd;
  }
}
