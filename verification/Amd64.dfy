/**
 Flag capture in the amd64 recompiler (codegen_amd64.c): the flag-setting data-processing opcodes
 take N, Z, C and V from the host's EFLAGS, whose carry is inverted for a subtraction, and the
 carry of a rotated immediate from a constant known while compiling.
 */
module Amd64 {
  import opened Words
  import opened Flags
  import opened Opcodes
  import opened Interpreter
  import Recompiler

  // ---- the host ----

  datatype Reg = Eax | Ebx | Ecx | Edx

  datatype Eflags = Eflags(cf: bool, zf: bool, sf: bool, of: bool)

  /** Scratch registers; r12 caches the guest's R15; `reg` is arm.reg[]. */
  datatype Host = Host(eax: Word, ebx: Word, ecx: Word, edx: Word, r12: Word, f: Eflags, reg: Regs)

  type Index = i: int | 0 <= i < 17

  /** An operand: a register, the R15 cache, an element of arm.reg[], a constant. */
  datatype Place = Gp(r: Reg) | R12 | Mem(i: Index) | Imm(w: Word)

  datatype Alu = AddI | SubI | AndI | OrI | XorI | CmpI | TestI

  datatype Cond = IfS | IfZ | IfO | IfC | IfNc

  datatype Insn =
    | Mov(d: Place, s: Place)
    | AluOp(fn: Alu, d: Place, s: Place)
    | NotOp(r: Reg)
    | ShiftOp(kind: int, r: Reg, n: nat)      // SHL, SHR, SAR, ROR
    | Set(cond: Cond, r: Reg)                 // SETcc: the low byte only
    | Movzbl(r: Reg)

  function W(h: Host, p: Place): Word {
    match p
    case Gp(Eax) => h.eax
    case Gp(Ebx) => h.ebx
    case Gp(Ecx) => h.ecx
    case Gp(Edx) => h.edx
    case R12 => h.r12
    case Mem(i) => h.reg[i]
    case Imm(w) => w
  }

  function Put(h: Host, p: Place, v: Word): Host {
    match p
    case Gp(Eax) => h.(eax := v)
    case Gp(Ebx) => h.(ebx := v)
    case Gp(Ecx) => h.(ecx := v)
    case Gp(Edx) => h.(edx := v)
    case R12 => h.(r12 := v)
    case Mem(i) => h.(reg := h.reg[i := v])
    case Imm(_) => h
  }

  function AluValue(fn: Alu, a: Word, b: Word): Word {
    match fn
    case AddI => Add(a, b)
    case SubI => Sub(a, b)
    case CmpI => Sub(a, b)
    case AndI => AndW(a, b)
    case TestI => AndW(a, b)
    case OrI => OrW(a, b)
    case XorI => XorW(a, b)
  }

  /** CF is the carry of an addition, the borrow of a subtraction; logical operations clear CF and OF. */
  function AluFlags(fn: Alu, a: Word, b: Word): Eflags {
    var v := AluValue(fn, a, b);
    if fn == AddI then Eflags(a + b >= MOD, v == 0, Neg(v), Signed(a) + Signed(b) != Signed(v))
    else if fn == SubI || fn == CmpI then Eflags(a < b, v == 0, Neg(v), Signed(a) - Signed(b) != Signed(v))
    else Eflags(false, v == 0, Neg(v), false)
  }

  predicate Holds(f: Eflags, c: Cond) {
    match c
    case IfS => f.sf
    case IfZ => f.zf
    case IfO => f.of
    case IfC => f.cf
    case IfNc => !f.cf
  }

  function ShiftValue(kind: int, v: Word, n: nat): Word {
    if kind == 0 then Lsl(v, n) else if kind == 1 then Lsr(v, n) else if kind == 2 then Asr(v, n) else Ror(v, n)
  }

  /** One instruction; shifts leave some flags or other. */
  function Step(junk: Eflags, i: Insn, h: Host): Host {
    match i
    case Mov(d, s) => Put(h, d, W(h, s))
    case AluOp(fn, d, s) =>
      var a, b := W(h, d), W(h, s);
      var h1 := h.(f := AluFlags(fn, a, b));
      if fn == CmpI || fn == TestI then h1 else Put(h1, d, AluValue(fn, a, b))
    case NotOp(r) => Put(h, Gp(r), Not(W(h, Gp(r))))
    case ShiftOp(kind, r, n) => Put(h.(f := junk), Gp(r), ShiftValue(kind, W(h, Gp(r)), n))
    case Set(c, r) => Put(h, Gp(r), LowByte(W(h, Gp(r)), Bit(Holds(h.f, c))))
    case Movzbl(r) => Put(h, Gp(r), W(h, Gp(r)) % 256)
  }

  /** A register with its low byte replaced. */
  function LowByte(v: Word, b: Word): Word
    requires b < 256
  {
    v / 256 * 256 + b
  }

  function Run(junk: Eflags, code: seq<Insn>, h: Host): Host
    decreases |code|
  {
    if code == [] then h else Run(junk, code[1..], Step(junk, code[0], h))
  }

  lemma {:induction false} RunAppend(junk: Eflags, a: seq<Insn>, b: seq<Insn>, h: Host)
    ensures Run(junk, a + b, h) == Run(junk, b, Run(junk, a, h))
    decreases |a|
  {
    hide Step;
    if a == [] {
      assert a + b == b;
    } else {
      assert (a + b)[1..] == a[1..] + b;
      RunAppend(junk, a[1..], b, Step(junk, a[0], h));
    }
  }

  lemma RunCons(junk: Eflags, i: Insn, rest: seq<Insn>, h: Host)
    ensures Run(junk, [i] + rest, h) == Run(junk, rest, Step(junk, i, h))
  {
    hide Step;
    assert ([i] + rest)[1..] == rest;
  }

  lemma Run1(junk: Eflags, i: Insn, h: Host)
    ensures Run(junk, [i], h) == Step(junk, i, h)
  {
    hide Step;
    assert [i][1..] == [];
  }

  lemma RunNil(junk: Eflags, h: Host)
    ensures Run(junk, [], h) == h
  {
  }

  /** The register file the host state stands for. */
  function View(h: Host): Regs { h.reg[15 := h.r12] }

  // ---- flag capture ----

  /** Where the guest's flag word is. */
  function FlagWord(bits26: bool): Place { if bits26 then R12 else Mem(16) }

  /** SETcc each flag while EFLAGS are valid. */
  function CaptureCode(setCv: bool, invert: bool): seq<Insn> {
    [Set(IfS, Ecx), Set(IfZ, Edx)] + if setCv then [Set(IfO, Eax), Set(if invert then IfNc else IfC, Ebx)] else []
  }

  /** Assemble them in bits 31..28 of ECX. */
  function AssembleCode(setCv: bool): seq<Insn> {
    [Movzbl(Ecx), Movzbl(Edx), ShiftOp(0, Ecx, 31), ShiftOp(0, Edx, 30), AluOp(OrI, Gp(Ecx), Gp(Edx))] +
    if setCv then
      [Movzbl(Eax), Movzbl(Ebx), ShiftOp(0, Eax, 28), ShiftOp(0, Ebx, 29), AluOp(OrI, Gp(Ecx), Gp(Eax)), AluOp(OrI, Gp(Ecx), Gp(Ebx))]
    else []
  }

  function MergeCode(bits26: bool, setCv: bool): seq<Insn> {
    [AluOp(AndI, FlagWord(bits26), Imm(if setCv then 0x0fff_ffff else 0x3fff_ffff)), AluOp(OrI, FlagWord(bits26), Gp(Ecx))]
  }

  /** gen_native_flags(). */
  function FlagsCode(bits26: bool, setCv: bool, invert: bool): seq<Insn> {
    CaptureCode(setCv, invert) + AssembleCode(setCv) + MergeCode(bits26, setCv)
  }

  /** gen_carry_constant(), or nothing when the carry does not change. */
  function CarryCode(bits26: bool, carry: Carry): seq<Insn> {
    if carry.Unchanged? then []
    else if carry.c then [AluOp(OrI, FlagWord(bits26), Imm(0x2000_0000))]
    else [AluOp(AndI, FlagWord(bits26), Imm(0xdfff_ffff))]
  }

  /** The captured flags in the guest's terms. */
  function Guest(f: Eflags, setCv: bool, invert: bool): Nzcv {
    Nzcv(f.sf, f.zf, setCv && f.cf != invert, setCv && f.of)
  }

  lemma SetLow(v: Word, b: bool)
    ensures LowByte(v, Bit(b)) % 256 == Bit(b)
  {
  }

  lemma LslIs(c: bool, n: nat)
    requires 28 <= n <= 31
    ensures Lsl(Bit(c), n) == Bit(c) * Pow2(n)
  {
    LslBit(Bit(c), n, 0);
  }

  /** Numbers moved up alike are merged where they were. */
  lemma {:induction false} OrShl(a: nat, b: nat, n: nat)
    ensures Or(Shl(a, n), Shl(b, n)) == Shl(Or(a, b), n)
    decreases n
  {
    hide Or;
    if n > 0 {
      OrShl(a, b, n - 1);
      OrHalves(Shl(a, n), Shl(b, n));
    }
  }

  /** Two flags' nibbles. */
  lemma OrNibbles(a: nat, b: nat)
    requires a < 16 && b < 16 && Or(a, b) < 16
    ensures OrW(a * 0x1000_0000, b * 0x1000_0000) == Or(a, b) * 0x1000_0000
  {
    hide Or; hide Pow2;
    PowersOfInterest();
    ShlTimes(a, 28);
    ShlTimes(b, 28);
    ShlTimes(Or(a, b), 28);
    OrShl(a, b, 28);
  }

  lemma NibbleOrs(n: bool, z: bool, c: bool, v: bool)
    ensures Or(8 * Bit(n), 4 * Bit(z)) == 8 * Bit(n) + 4 * Bit(z)
    ensures Or(8 * Bit(n) + 4 * Bit(z), Bit(v)) == 8 * Bit(n) + 4 * Bit(z) + Bit(v)
    ensures Or(8 * Bit(n) + 4 * Bit(z) + Bit(v), 2 * Bit(c)) == 8 * Bit(n) + 4 * Bit(z) + Bit(v) + 2 * Bit(c)
  {
    hide Or;
    OrSmall(Bit(n), Bit(z), Bit(v), Bit(c));
  }

  lemma OrSmall(n: nat, z: nat, v: nat, c: nat)
    requires n < 2 && z < 2 && v < 2 && c < 2
    ensures Or(8 * n, 4 * z) == 8 * n + 4 * z
    ensures Or(8 * n + 4 * z, v) == 8 * n + 4 * z + v
    ensures Or(8 * n + 4 * z + v, 2 * c) == 8 * n + 4 * z + v + 2 * c
  {
    hide Or;
    OrStep(n, 0, 0, z);
    OrStep(2 * n, z, 0, 0);
    OrStep(4 * n, 2 * z, 0, 0);
    OrStep(4 * n + 2 * z, 0, 0, v);
    OrStep(2 * n + z, 0, 0, c);
    OrStep(4 * n + 2 * z, c, v, 0);
    OrNothing(n);
    OrNothing(4 * n + 2 * z);
    OrNothing(2 * n + z);
  }

  lemma OrStep(a: nat, b: nat, x: nat, y: nat)
    requires x < 2 && y < 2
    ensures Or(2 * a + x, 2 * b + y) == 2 * Or(a, b) + if x == 1 || y == 1 then 1 else 0
  {
    hide Or;
    OrHalves(2 * a + x, 2 * b + y);
  }

  lemma OrNothing(a: nat)
    ensures Or(a, 0) == a
  {
  }

  /** The flags assembled: the nibble in the top four bits. */
  lemma Assembled(f: Nzcv, n: Word, z: Word, c: Word, v: Word)
    requires n == Lsl(Bit(f.n), 31) && z == Lsl(Bit(f.z), 30) && c == Lsl(Bit(f.c), 29) && v == Lsl(Bit(f.v), 28)
    ensures OrW(n, z) == (8 * Bit(f.n) + 4 * Bit(f.z)) * 0x1000_0000
    ensures OrW(OrW(OrW(n, z), v), c) == Nibble(f) * 0x1000_0000
  {
    hide Or; hide Lsl; hide Pow2; hide OrW;
    PowersOfInterest();
    Pow29();
    LslIs(f.n, 31);
    LslIs(f.z, 30);
    LslIs(f.c, 29);
    LslIs(f.v, 28);
    NibbleOrs(f.n, f.z, f.c, f.v);
    OrNibbles(8 * Bit(f.n), 4 * Bit(f.z));
    OrNibbles(8 * Bit(f.n) + 4 * Bit(f.z), Bit(f.v));
    OrNibbles(8 * Bit(f.n) + 4 * Bit(f.z) + Bit(f.v), 2 * Bit(f.c));
  }

  lemma Pow29()
    ensures Pow2(29) == 0x2000_0000
  {
    PowersOfInterest();
    assert Pow2(29) == 2 * Pow2(28);
  }

  /** Merging an assembled nibble into the flag word. */
  lemma MergedIn(psr: Word, f: Nzcv, setCv: bool)
    requires setCv || (!f.c && !f.v)
    ensures OrW(AndW(psr, if setCv then 0x0fff_ffff else 0x3fff_ffff), Nibble(f) * 0x1000_0000) == Recompiler.Merged(psr, f, setCv)
  {
    hide And; hide Or; hide OrW; hide Pow2; hide Shl; hide Recompiler.Merged;
    var n := Nibble(f);
    Recompiler.MergeMasks(psr, f, setCv);
    PowersOfInterest();
    ShlTimes(n, 28);
    ShlTimes(15, 28);
    ShlTimes(12, 28);
    AndShl(n, 15, 28);
    AndShl(n, 12, 28);
    Recompiler.AndFifteen(n);
    Recompiler.AndTwelve(n);
  }

  /** Bit 29 of a word. */
  lemma {:induction false} AndPower(x: nat, k: nat)
    ensures And(x, Pow2(k)) == Pow2(k) * (Half(x, k) % 2)
    decreases k
  {
    hide And;
    if k == 0 {
      AndOne(x);
    } else {
      AndPower(x / 2, k - 1);
      AndEven(x, Pow2(k - 1));
      HalfFirst(x, k);
      Doubled(Pow2(k - 1), Half(x / 2, k - 1) % 2);
    }
  }

  lemma Doubled(p: int, b: int)
    ensures 2 * (p * b) == (2 * p) * b
  {
  }

  function Half(x: nat, k: nat): nat { if k == 0 then x else Half(x / 2, k - 1) }

  lemma HalfFirst(x: nat, k: nat)
    requires k > 0
    ensures Half(x, k) == Half(x / 2, k - 1)
  {
  }

  lemma {:induction false} HalfDivides(x: nat, k: nat)
    ensures Half(x, k) == x / Pow2(k)
    decreases k
  {
    if k > 0 {
      HalfDivides(x / 2, k - 1);
      DivDouble(x, Pow2(k - 1));
    }
  }

  lemma AndOne(x: nat)
    ensures And(x, 1) == x % 2
  {
    AndHalves(x, 1);
    AndZero(x / 2);
  }

  /** Setting or clearing the carry in the flag word. */
  lemma CarryBit(psr: Word)
    ensures OrW(psr, 0x2000_0000) == PutCarry(psr, Becomes(true))
    ensures AndW(psr, 0xdfff_ffff) == PutCarry(psr, Becomes(false))
  {
    hide And; hide Or; hide Pow2;
    Pow32();
    Pow29();
    AndPower(psr, 29);
    HalfDivides(psr, 29);
    AndComplement(psr, 0x2000_0000, 32);
    OrIsAndPlus(psr, 0x2000_0000, 32);
  }

  // ---- running the flag code ----

  /** The captured flags are in the low bytes. */
  predicate Captured(h: Host, f: Nzcv, setCv: bool) {
    && h.ecx % 256 == Bit(f.n) && h.edx % 256 == Bit(f.z)
    && (setCv ==> h.eax % 256 == Bit(f.v) && h.ebx % 256 == Bit(f.c))
  }

  lemma RunCapture(junk: Eflags, setCv: bool, invert: bool, h: Host)
    ensures var h' := Run(junk, CaptureCode(setCv, invert), h);
            Captured(h', Guest(h.f, setCv, invert), setCv) && h'.reg == h.reg && h'.r12 == h.r12
  {
    hide Run; hide LowByte;
    SetLow(h.ecx, h.f.sf);
    SetLow(h.edx, h.f.zf);
    SetLow(h.eax, h.f.of);
    SetLow(h.ebx, if invert then !h.f.cf else h.f.cf);
    var h1 := Step(junk, Set(IfS, Ecx), h);
    var h2 := Step(junk, Set(IfZ, Edx), h1);
    var c := Set(if invert then IfNc else IfC, Ebx);
    if setCv {
      var h3 := Step(junk, Set(IfO, Eax), h2);
      assert CaptureCode(setCv, invert) == [Set(IfS, Ecx)] + ([Set(IfZ, Edx)] + ([Set(IfO, Eax)] + [c]));
      RunCons(junk, Set(IfS, Ecx), [Set(IfZ, Edx)] + ([Set(IfO, Eax)] + [c]), h);
      RunCons(junk, Set(IfZ, Edx), [Set(IfO, Eax)] + [c], h1);
      RunCons(junk, Set(IfO, Eax), [c], h2);
      Run1(junk, c, h3);
    } else {
      assert CaptureCode(setCv, invert) == [Set(IfS, Ecx)] + [Set(IfZ, Edx)];
      RunCons(junk, Set(IfS, Ecx), [Set(IfZ, Edx)], h);
      Run1(junk, Set(IfZ, Edx), h1);
    }
  }

  /** N and Z into ECX. */
  lemma RunAssembleNz(junk: Eflags, f: Nzcv, setCv: bool, h: Host)
    requires Captured(h, f, setCv)
    ensures var h' := Run(junk, AssembleCode(false), h);
            && h'.ecx == OrW(Lsl(Bit(f.n), 31), Lsl(Bit(f.z), 30))
            && h'.eax == h.eax && h'.ebx == h.ebx && h'.reg == h.reg && h'.r12 == h.r12
  {
    hide Run; hide OrW; hide Lsl;
    var i1, i2, i3, i4, i5 := Movzbl(Ecx), Movzbl(Edx), ShiftOp(0, Ecx, 31), ShiftOp(0, Edx, 30), AluOp(OrI, Gp(Ecx), Gp(Edx));
    assert AssembleCode(false) == [i1] + ([i2] + ([i3] + ([i4] + [i5])));
    var h1 := Step(junk, i1, h);
    var h2 := Step(junk, i2, h1);
    var h3 := Step(junk, i3, h2);
    var h4 := Step(junk, i4, h3);
    RunCons(junk, i1, [i2] + ([i3] + ([i4] + [i5])), h);
    RunCons(junk, i2, [i3] + ([i4] + [i5]), h1);
    RunCons(junk, i3, [i4] + [i5], h2);
    RunCons(junk, i4, [i5], h3);
    Run1(junk, i5, h4);
  }

  lemma RunAssembleCv(junk: Eflags, f: Nzcv, h: Host)
    requires h.eax % 256 == Bit(f.v) && h.ebx % 256 == Bit(f.c)
    ensures var h' := Run(junk, AssembleCode(true)[5..], h);
            && h'.ecx == OrW(OrW(h.ecx, Lsl(Bit(f.v), 28)), Lsl(Bit(f.c), 29)) && h'.reg == h.reg && h'.r12 == h.r12
  {
    hide Run; hide OrW; hide Lsl;
    var i1, i2, i3, i4, i5, i6 :=
      Movzbl(Eax), Movzbl(Ebx), ShiftOp(0, Eax, 28), ShiftOp(0, Ebx, 29), AluOp(OrI, Gp(Ecx), Gp(Eax)), AluOp(OrI, Gp(Ecx), Gp(Ebx));
    assert AssembleCode(true)[5..] == [i1] + ([i2] + ([i3] + ([i4] + ([i5] + [i6]))));
    var h1 := Step(junk, i1, h);
    var h2 := Step(junk, i2, h1);
    var h3 := Step(junk, i3, h2);
    var h4 := Step(junk, i4, h3);
    var h5 := Step(junk, i5, h4);
    RunCons(junk, i1, [i2] + ([i3] + ([i4] + ([i5] + [i6]))), h);
    RunCons(junk, i2, [i3] + ([i4] + ([i5] + [i6])), h1);
    RunCons(junk, i3, [i4] + ([i5] + [i6]), h2);
    RunCons(junk, i4, [i5] + [i6], h3);
    RunCons(junk, i5, [i6], h4);
    Run1(junk, i6, h5);
  }

  lemma RunAssemble(junk: Eflags, f: Nzcv, setCv: bool, h: Host)
    requires Captured(h, f, setCv) && (setCv || (!f.c && !f.v))
    ensures var h' := Run(junk, AssembleCode(setCv), h);
            h'.ecx == Nibble(f) * 0x1000_0000 && h'.reg == h.reg && h'.r12 == h.r12
  {
    hide Run; hide OrW; hide Lsl; hide Step;
    Assembled(f, Lsl(Bit(f.n), 31), Lsl(Bit(f.z), 30), Lsl(Bit(f.c), 29), Lsl(Bit(f.v), 28));
    RunAssembleNz(junk, f, setCv, h);
    if setCv {
      assert AssembleCode(true) == AssembleCode(false) + AssembleCode(true)[5..];
      RunAppend(junk, AssembleCode(false), AssembleCode(true)[5..], h);
      RunAssembleCv(junk, f, Run(junk, AssembleCode(false), h));
    }
  }

  lemma RunMerge(junk: Eflags, cfg: Config, setCv: bool, h: Host)
    ensures var psr := View(h)[cfg.Psr()];
            View(Run(junk, MergeCode(cfg.bits26, setCv), h)) ==
            View(h)[cfg.Psr() := OrW(AndW(psr, if setCv then 0x0fff_ffff else 0x3fff_ffff), h.ecx)]
  {
    hide Run; hide OrW; hide AndW; hide AluFlags;
    var w := FlagWord(cfg.bits26);
    var i1, i2 := AluOp(AndI, w, Imm(if setCv then 0x0fff_ffff else 0x3fff_ffff)), AluOp(OrI, w, Gp(Ecx));
    assert MergeCode(cfg.bits26, setCv) == [i1] + [i2];
    RunCons(junk, i1, [i2], h);
    Run1(junk, i2, Step(junk, i1, h));
  }

  /** Flag capture merges the host's flags, in the guest's terms, into the flag word and touches nothing else. */
  lemma RunFlags(junk: Eflags, cfg: Config, setCv: bool, invert: bool, h: Host)
    ensures View(Run(junk, FlagsCode(cfg.bits26, setCv, invert), h)) ==
            View(h)[cfg.Psr() := Recompiler.Merged(View(h)[cfg.Psr()], Guest(h.f, setCv, invert), setCv)]
  {
    hide Run; hide CaptureCode; hide AssembleCode; hide MergeCode; hide OrW; hide AndW; hide Recompiler.Merged; hide Nibble;
    var a, b, c := CaptureCode(setCv, invert), AssembleCode(setCv), MergeCode(cfg.bits26, setCv);
    var f := Guest(h.f, setCv, invert);
    RunCapture(junk, setCv, invert, h);
    var h1 := Run(junk, a, h);
    RunAssemble(junk, f, setCv, h1);
    var h2 := Run(junk, b, h1);
    RunMerge(junk, cfg, setCv, h2);
    RunAppend(junk, a, b, h);
    RunAppend(junk, a + b, c, h);
    MergedIn(View(h)[cfg.Psr()], f, setCv);
  }

  lemma RunCarry(junk: Eflags, cfg: Config, carry: Carry, h: Host)
    ensures View(Run(junk, CarryCode(cfg.bits26, carry), h)) == View(h)[cfg.Psr() := PutCarry(View(h)[cfg.Psr()], carry)]
  {
    hide Run; hide OrW; hide AndW; hide AluFlags; hide PutCarry;
    CarryBit(View(h)[cfg.Psr()]);
    NoCarry(View(h)[cfg.Psr()]);
    if carry.Unchanged? {
      RunNil(junk, h);
      assert View(h)[cfg.Psr() := View(h)[cfg.Psr()]] == View(h);
    } else {
      Run1(junk, CarryCode(cfg.bits26, carry)[0], h);
    }
  }

  lemma NoCarry(psr: Word)
    ensures PutCarry(psr, Unchanged) == psr
  {
  }

  // ---- the operations ----

  datatype Emitted = Declined | Code(code: seq<Insn>)

  function Guest15(i: nat): Place
    requires i < 16
  {
    if i == 15 then R12 else Mem(i)
  }

  /** generate_shift(): the operand into EAX; register shifts and RRX are declined. */
  function ShiftCode(op: Word): Emitted {
    var amt, load := ShiftAmount(op), Mov(Gp(Eax), Guest15(Rm(op)));
    if ShiftByRegister(op) then Declined
    else if Unshifted(op) then Code([load])
    else match ShiftKind(op)
      case 0 => Code([load] + if amt != 0 then [ShiftOp(0, Eax, amt)] else [])
      case 1 => Code(if amt != 0 then [load] + [ShiftOp(1, Eax, amt)] else [AluOp(XorI, Gp(Eax), Gp(Eax))])
      case 2 => Code([load] + [ShiftOp(2, Eax, if amt != 0 then amt else 31)])
      case _ => if amt == 0 then Declined else Code([load] + [ShiftOp(3, Eax, amt)])
  }

  /** Rn into a register, without the PSR bits when it is R15. */
  function RnCode(cfg: Config, op: Word, r: Reg): seq<Insn> {
    [Mov(Gp(r), Guest15(Rn(op)))] + if Rn(op) == 15 then [AluOp(AndI, Gp(r), Imm(cfg.R15Mask()))] else []
  }

  /** gen_data_proc_reg(): Rd becomes Rn and EAX combined. */
  function DataProcReg(cfg: Config, op: Word, fn: Alu, ordered: bool): seq<Insn> {
    if ordered || Rn(op) == 15 then RnCode(cfg, op, Edx) + [AluOp(fn, Gp(Edx), Gp(Eax)), Mov(Mem(Rd(op)), Gp(Edx))]
    else [AluOp(fn, Gp(Eax), Mem(Rn(op))), Mov(Mem(Rd(op)), Gp(Eax))]
  }

  /** gen_data_proc_imm(): Rd becomes Rn and a constant combined. */
  function DataProcImm(cfg: Config, op: Word, fn: Alu, imm: Word): seq<Insn> {
    if Rn(op) == Rd(op) then [AluOp(fn, Mem(Rd(op)), Imm(imm))]
    else RnCode(cfg, op, Eax) + [AluOp(fn, Gp(Eax), Imm(imm)), Mov(Mem(Rd(op)), Gp(Eax))]
  }

  predicate Subtracts(opn: nat) { opn == 2 || opn == 3 || opn == 10 }

  /** The host operation of an arithmetic or logical opcode. */
  function Op(opn: nat): Alu {
    if opn == 0 || opn == 8 || opn == 14 then AndI else if opn == 1 || opn == 9 then XorI
    else if opn == 2 then SubI else if opn == 10 then CmpI else if opn == 12 then OrI else AddI
  }

  /** The operation on Rn and EAX, with its result in Rd. */
  function RegCode(cfg: Config, op: Word): seq<Insn> {
    var opn := Operation(op);
    if opn == 3 then [AluOp(SubI, Gp(Eax), Mem(Rn(op))), Mov(Mem(Rd(op)), Gp(Eax))]
    else if Compare(opn) then [Mov(Gp(Edx), Mem(Rn(op))), AluOp(Op(opn), Gp(Edx), Gp(Eax))]
    else if opn == 13 then [AluOp(TestI, Gp(Eax), Gp(Eax)), Mov(Mem(Rd(op)), Gp(Eax))]
    else if opn == 15 then [NotOp(Eax), AluOp(TestI, Gp(Eax), Gp(Eax)), Mov(Mem(Rd(op)), Gp(Eax))]
    else if opn == 14 then [NotOp(Eax)] + DataProcReg(cfg, op, AndI, false)
    else DataProcReg(cfg, op, Op(opn), opn == 2)
  }

  /** The same with a constant. */
  function ImmCode(cfg: Config, op: Word, imm: Word): seq<Insn> {
    var opn := Operation(op);
    if opn == 3 then [Mov(Gp(Eax), Imm(imm)), AluOp(SubI, Gp(Eax), Mem(Rn(op))), Mov(Mem(Rd(op)), Gp(Eax))]
    else if Compare(opn) then [Mov(Gp(Eax), Mem(Rn(op))), AluOp(if opn == 8 then TestI else Op(opn), Gp(Eax), Imm(imm))]
    else if opn == 13 || opn == 15 then
      [Mov(Gp(Eax), Imm(if opn == 13 then imm else Not(imm))), AluOp(TestI, Gp(Eax), Gp(Eax)), Mov(Mem(Rd(op)), Gp(Eax))]
    else DataProcImm(cfg, op, Op(opn), if opn == 14 then Not(imm) else imm)
  }

  /** arm_imm_carry_out(): the shifter's carry for an immediate. */
  function ImmCarry(op: Word): Carry { if Rs(op) == 0 then Unchanged else Becomes(Neg(ImmediateOperand(op))) }

  /** What recompile() declines of the flag-setting opcodes, whatever their operand. */
  predicate Refused(op: Word) {
    var opn := Operation(op);
    !SetsFlags(op) || 5 <= opn <= 7 || Rd(op) == 15 || (Rn(op) == 15 && (opn == 3 || Compare(opn)))
  }

  /** The flag-setting cases of recompile(). */
  function FlagSettingCode(cfg: Config, op: Word): Emitted {
    var opn := Operation(op);
    var flags := FlagsCode(cfg.bits26, !Logical(opn), Subtracts(opn));
    if Refused(op) then Declined
    else if Immediate(op) then
      Code(ImmCode(cfg, op, ImmediateOperand(op)) + (flags + if Logical(opn) then CarryCode(cfg.bits26, ImmCarry(op)) else []))
    else if (Logical(opn) && !Unshifted(op)) || ShiftCode(op).Declined? then Declined
    else Code(ShiftCode(op).code + (RegCode(cfg, op) + flags))
  }

  // ---- each piece of emitted code ----

  lemma Run2(junk: Eflags, i: Insn, j: Insn, h: Host)
    ensures Run(junk, [i, j], h) == Step(junk, j, Step(junk, i, h))
  {
    hide Step; hide Run;
    assert [i, j] == [i] + [j];
    RunCons(junk, i, [j], h);
    Run1(junk, j, Step(junk, i, h));
  }

  lemma Run3(junk: Eflags, i: Insn, j: Insn, k: Insn, h: Host)
    ensures Run(junk, [i, j, k], h) == Run(junk, [j, k], Step(junk, i, h))
  {
    hide Step; hide Run;
    assert [i, j, k] == [i] + [j, k];
    RunCons(junk, i, [j, k], h);
  }

  lemma {:induction false} XorSelf(a: nat)
    ensures Xor(a, a) == 0
  {
    if a != 0 { XorSelf(a / 2); }
  }

  lemma RunShift(junk: Eflags, cfg: Config, op: Word, h: Host)
    requires ShiftCode(op).Code?
    ensures var h' := Run(junk, ShiftCode(op).code, h);
            h'.eax == Shifted(cfg, op, View(h)) && h'.reg == h.reg && h'.r12 == h.r12
  {
    hide And; hide Or; hide Xor; hide Ror; hide OrW; hide XorW; hide Run; hide AluFlags;
    var w, amt, load := View(h)[Rm(op)], ShiftAmount(op), Mov(Gp(Eax), Guest15(Rm(op)));
    AsrSign(w);
    XorNothing(h.eax);
    Run1(junk, load, h);
    Run1(junk, AluOp(XorI, Gp(Eax), Gp(Eax)), h);
    var kind := ShiftKind(op);
    var i := ShiftOp(kind, Eax, if kind == 2 && amt == 0 then 31 else amt);
    RunCons(junk, load, [i], h);
    Run1(junk, i, h.(eax := w));
    assert [load] + [] == [load];
  }

  lemma XorNothing(a: Word)
    ensures XorW(a, a) == 0
  {
    XorSelf(a);
  }

  lemma RunRn(junk: Eflags, cfg: Config, op: Word, r: Reg, h: Host)
    ensures var h' := Run(junk, RnCode(cfg, op, r), h);
            && W(h', Gp(r)) == Address(cfg, View(h), Rn(op)) && h'.reg == h.reg && h'.r12 == h.r12
            && (r != Eax ==> h'.eax == h.eax)
  {
    hide AndW; hide Run; hide AluFlags;
    var load, mask := Mov(Gp(r), Guest15(Rn(op))), AluOp(AndI, Gp(r), Imm(cfg.R15Mask()));
    Run1(junk, load, h);
    RunCons(junk, load, [mask], h);
    Run1(junk, mask, Step(junk, load, h));
    assert [load] + [] == [load];
  }

  /** The result and the flags of a host operation on `a` and `b`, the result in Rd. */
  predicate Combined(op: Word, fn: Alu, a: Word, b: Word, h: Host, h': Host) {
    View(h') == View(h)[Rd(op) := AluValue(fn, a, b)] && h'.f == AluFlags(fn, a, b)
  }

  lemma RunDataProcReg(junk: Eflags, cfg: Config, op: Word, fn: Alu, ordered: bool, h: Host)
    requires fn != CmpI && fn != TestI && Rd(op) != 15
    ensures var h' := Run(junk, DataProcReg(cfg, op, fn, ordered), h);
            var lhs := Address(cfg, View(h), Rn(op));
            Combined(op, fn, lhs, h.eax, h, h') || (!ordered && Combined(op, fn, h.eax, lhs, h, h'))
  {
    hide Run; hide AluFlags; hide AluValue; hide RnCode; hide Opcodes.Rn; hide Opcodes.Rd;
    if ordered || Rn(op) == 15 {
      var tail := [AluOp(fn, Gp(Edx), Gp(Eax)), Mov(Mem(Rd(op)), Gp(Edx))];
      RunRn(junk, cfg, op, Edx, h);
      RunAppend(junk, RnCode(cfg, op, Edx), tail, h);
      Run2(junk, tail[0], tail[1], Run(junk, RnCode(cfg, op, Edx), h));
    } else {
      Run2(junk, AluOp(fn, Gp(Eax), Mem(Rn(op))), Mov(Mem(Rd(op)), Gp(Eax)), h);
    }
  }

  lemma RunDataProcImm(junk: Eflags, cfg: Config, op: Word, fn: Alu, imm: Word, h: Host)
    requires fn != CmpI && fn != TestI && Rd(op) != 15
    ensures Combined(op, fn, Address(cfg, View(h), Rn(op)), imm, h, Run(junk, DataProcImm(cfg, op, fn, imm), h))
  {
    hide Run; hide AluFlags; hide AluValue; hide RnCode; hide Opcodes.Rn; hide Opcodes.Rd;
    if Rn(op) == Rd(op) {
      Run1(junk, AluOp(fn, Mem(Rd(op)), Imm(imm)), h);
    } else {
      var tail := [AluOp(fn, Gp(Eax), Imm(imm)), Mov(Mem(Rd(op)), Gp(Eax))];
      RunRn(junk, cfg, op, Eax, h);
      RunAppend(junk, RnCode(cfg, op, Eax), tail, h);
      Run2(junk, tail[0], tail[1], Run(junk, RnCode(cfg, op, Eax), h));
    }
  }

  // ---- host flags in the guest's terms ----

  lemma AddFlags(a: Word, b: Word)
    ensures Guest(AluFlags(AddI, a, b), true, false) == FlagsAdd(a, b, Add(a, b)) == FlagsAdd(b, a, Add(b, a))
    ensures Add(a, b) == Add(b, a)
  {
  }

  /** The borrow of the host is the inverse of the guest's carry. */
  lemma SubFlags(a: Word, b: Word)
    ensures Guest(AluFlags(SubI, a, b), true, true) == FlagsSub(a, b, Sub(a, b))
    ensures AluFlags(CmpI, a, b) == AluFlags(SubI, a, b)
  {
  }

  lemma LogicFlags(fn: Alu, a: Word, b: Word)
    requires fn != AddI && fn != SubI && fn != CmpI
    ensures var v := AluValue(fn, a, b); AluFlags(fn, a, b) == Eflags(false, v == 0, Neg(v), false)
  {
    hide AluValue;
  }

  lemma {:induction false} Commute(a: nat, b: nat)
    ensures And(a, b) == And(b, a) && Or(a, b) == Or(b, a) && Xor(a, b) == Xor(b, a)
    decreases a
  {
    if a == 0 { AndZero(b); } else if b == 0 { AndZero(a); } else { Commute(a / 2, b / 2); }
  }

  lemma LogicCommutes(fn: Alu, a: Word, b: Word)
    requires fn == AndI || fn == OrI || fn == XorI
    ensures AluValue(fn, a, b) == AluValue(fn, b, a)
  {
    hide And; hide Or; hide Xor;
    Commute(a, b);
  }

  // ---- the theorem ----

  /** After the operation: the result in Rd unless it is a compare, and flags that stand for the guest's. */
  predicate AluDone(op: Word, h: Host, h': Host, lhs: Word, rhs: Word, dest: Word) {
    var opn := Operation(op);
    && View(h') == (if Compare(opn) then View(h) else View(h)[Rd(op) := dest])
    && (if Logical(opn) then h'.f.sf == Neg(dest) && h'.f.zf == (dest == 0)
        else Guest(h'.f, true, Subtracts(opn)) == ArithmeticFlags(opn, lhs, rhs, dest))
  }

  /** A host operation on the guest's operands, in the guest's order or the other one, is the guest's operation. */
  lemma OperationAgrees(opn: nat, fn: Alu, a: Word, b: Word, lhs: Word, rhs: Word, carry: bool)
    requires opn in {0, 1, 2, 4, 8, 9, 10, 11, 12} && fn == Op(opn)
    requires (a, b) == (lhs, rhs) || (opn != 2 && opn != 10 && (a, b) == (rhs, lhs))
    ensures var dest := Result(opn, lhs, rhs, carry);
            && AluValue(fn, a, b) == dest
            && (if Logical(opn) then AluFlags(fn, a, b).sf == Neg(dest) && AluFlags(fn, a, b).zf == (dest == 0)
                else Guest(AluFlags(fn, a, b), true, Subtracts(opn)) == ArithmeticFlags(opn, lhs, rhs, dest))
  {
    hide AluFlags; hide FlagsAdd; hide FlagsSub; hide AndW; hide OrW; hide XorW; hide Add; hide Sub; hide Guest;
    AddFlags(a, b);
    SubFlags(a, b);
    if Logical(opn) {
      LogicFlags(fn, a, b);
      LogicCommutes(fn, a, b);
    }
  }

  lemma RegDone(junk: Eflags, cfg: Config, op: Word, h: Host, carry: bool)
    requires !Refused(op)
    ensures var lhs := Address(cfg, View(h), Rn(op));
            AluDone(op, h, Run(junk, RegCode(cfg, op), h), lhs, h.eax, Result(Operation(op), lhs, h.eax, carry))
  {
    hide Run; hide AluFlags; hide AluValue; hide DataProcReg; hide Opcodes.Rn; hide Opcodes.Rd; hide Opcodes.Operation;
    hide ArithmeticFlags; hide Guest; hide Result;
    var opn, lhs, rhs := Operation(op), Address(cfg, View(h), Rn(op)), h.eax;
    if opn == 3 {
      ReverseSubtract(rhs, lhs, carry);
      Run2(junk, AluOp(SubI, Gp(Eax), Mem(Rn(op))), Mov(Mem(Rd(op)), Gp(Eax)), h);
    } else if Compare(opn) {
      OperationAgrees(opn, Op(opn), lhs, rhs, lhs, rhs, carry);
      Run2(junk, Mov(Gp(Edx), Mem(Rn(op))), AluOp(Op(opn), Gp(Edx), Gp(Eax)), h);
    } else if opn == 13 {
      Moves(13, lhs, rhs, rhs, carry);
      Run2(junk, AluOp(TestI, Gp(Eax), Gp(Eax)), Mov(Mem(Rd(op)), Gp(Eax)), h);
    } else if opn == 15 {
      Moves(15, lhs, rhs, Not(rhs), carry);
      Run3(junk, NotOp(Eax), AluOp(TestI, Gp(Eax), Gp(Eax)), Mov(Mem(Rd(op)), Gp(Eax)), h);
      Run2(junk, AluOp(TestI, Gp(Eax), Gp(Eax)), Mov(Mem(Rd(op)), Gp(Eax)), Step(junk, NotOp(Eax), h));
    } else if opn == 14 {
      var h1 := h.(eax := Not(rhs));
      RunCons(junk, NotOp(Eax), DataProcReg(cfg, op, AndI, false), h);
      RunDataProcReg(junk, cfg, op, AndI, false, h1);
      BitClear(lhs, rhs, carry);
      LogicFlags(AndI, lhs, Not(rhs));
      LogicFlags(AndI, Not(rhs), lhs);
      LogicCommutes(AndI, lhs, Not(rhs));
    } else {
      RunDataProcReg(junk, cfg, op, Op(opn), opn == 2, h);
      OperationAgrees(opn, Op(opn), lhs, rhs, lhs, rhs, carry);
      if opn != 2 { OperationAgrees(opn, Op(opn), rhs, lhs, lhs, rhs, carry); }
    }
  }

  lemma ReverseSubtract(a: Word, b: Word, carry: bool)
    ensures AluValue(SubI, a, b) == Result(3, b, a, carry)
    ensures Guest(AluFlags(SubI, a, b), true, true) == ArithmeticFlags(3, b, a, Result(3, b, a, carry))
  {
    hide AluFlags; hide FlagsSub; hide Sub; hide Guest;
    SubFlags(a, b);
  }

  /** MOV and MVN: the flags are those of testing the value against itself. */
  lemma Moves(opn: nat, lhs: Word, rhs: Word, v: Word, carry: bool)
    requires (opn == 13 && v == rhs) || (opn == 15 && v == Not(rhs))
    ensures v == Result(opn, lhs, rhs, carry) && AluFlags(TestI, v, v) == Eflags(false, v == 0, Neg(v), false)
  {
    hide AluFlags; hide AndW;
    LogicFlags(TestI, v, v);
    Recompiler.AndSelf(v);
  }

  lemma BitClear(lhs: Word, rhs: Word, carry: bool)
    ensures AluValue(AndI, lhs, Not(rhs)) == Result(14, lhs, rhs, carry)
  {
    hide AndW;
  }

  lemma ImmDone(junk: Eflags, cfg: Config, op: Word, imm: Word, h: Host, carry: bool)
    requires !Refused(op)
    ensures var lhs := Address(cfg, View(h), Rn(op));
            AluDone(op, h, Run(junk, ImmCode(cfg, op, imm), h), lhs, imm, Result(Operation(op), lhs, imm, carry))
  {
    hide Run; hide AluFlags; hide AluValue; hide DataProcImm; hide Opcodes.Rn; hide Opcodes.Rd; hide Opcodes.Operation;
    hide ArithmeticFlags; hide Guest; hide Result;
    var opn, lhs := Operation(op), Address(cfg, View(h), Rn(op));
    if opn == 3 {
      ReverseSubtract(imm, lhs, carry);
      Run3(junk, Mov(Gp(Eax), Imm(imm)), AluOp(SubI, Gp(Eax), Mem(Rn(op))), Mov(Mem(Rd(op)), Gp(Eax)), h);
      Run2(junk, AluOp(SubI, Gp(Eax), Mem(Rn(op))), Mov(Mem(Rd(op)), Gp(Eax)), Step(junk, Mov(Gp(Eax), Imm(imm)), h));
    } else if Compare(opn) {
      OperationAgrees(opn, Op(opn), lhs, imm, lhs, imm, carry);
      TestIsAnd(lhs, imm);
      Run2(junk, Mov(Gp(Eax), Mem(Rn(op))), AluOp(if opn == 8 then TestI else Op(opn), Gp(Eax), Imm(imm)), h);
    } else if opn == 13 || opn == 15 {
      var v := if opn == 13 then imm else Not(imm);
      Moves(opn, lhs, imm, v, carry);
      Run3(junk, Mov(Gp(Eax), Imm(v)), AluOp(TestI, Gp(Eax), Gp(Eax)), Mov(Mem(Rd(op)), Gp(Eax)), h);
      Run2(junk, AluOp(TestI, Gp(Eax), Gp(Eax)), Mov(Mem(Rd(op)), Gp(Eax)), Step(junk, Mov(Gp(Eax), Imm(v)), h));
    } else if opn == 14 {
      RunDataProcImm(junk, cfg, op, AndI, Not(imm), h);
      BitClear(lhs, imm, carry);
      LogicFlags(AndI, lhs, Not(imm));
    } else {
      RunDataProcImm(junk, cfg, op, Op(opn), imm, h);
      OperationAgrees(opn, Op(opn), lhs, imm, lhs, imm, carry);
    }
  }

  lemma TestIsAnd(a: Word, b: Word)
    ensures AluFlags(TestI, a, b) == AluFlags(AndI, a, b)
  {
    hide AndW;
  }

  /** The flag word after the flag code and the carry constant is the interpreter's. */
  lemma PsrAgrees(op: Word, psr: Word, f: Eflags, lhs: Word, rhs: Word, carry: Carry, dest: Word)
    requires if Logical(Operation(op)) then f.sf == Neg(dest) && f.zf == (dest == 0)
             else Guest(f, true, Subtracts(Operation(op))) == ArithmeticFlags(Operation(op), lhs, rhs, dest)
    ensures var merged := Recompiler.Merged(psr, Guest(f, !Logical(Operation(op)), Subtracts(Operation(op))), !Logical(Operation(op)));
            NewPsr(op, psr, lhs, rhs, carry, dest) == if Logical(Operation(op)) then PutCarry(merged, carry) else merged
  {
    hide ArithmeticFlags; hide Opcodes.Operation;
    if Logical(Operation(op)) { CarryLater(psr, dest, carry); }
  }

  /** C can be set before or after N and Z. */
  lemma CarryLater(psr: Word, dest: Word, carry: Carry)
    ensures PutNz(PutCarry(psr, carry), dest) == PutCarry(PutNz(psr, dest), carry)
  {
    hide CarrySet;
    var nz := 2 * Bit(Neg(dest)) + Bit(dest == 0);
    var low := psr % 0x4000_0000;
    var both := low + nz * 0x4000_0000;
    CarryOf(psr);
    CarryOf(both);
    RemainderUnique(both, 0x4000_0000, nz, low);
    if carry.Becomes? { CarryLow(psr, carry.c, low); }
  }

  /** Changing the carry changes bit 29 alone. */
  lemma CarryLow(psr: Word, c: bool, low: int)
    requires low == psr % 0x4000_0000
    ensures PutCarry(psr, Becomes(c)) % 0x4000_0000 ==
            if c == CarrySet(psr) then low else if c then low + 0x2000_0000 else low - 0x2000_0000
  {
    hide CarrySet;
    CarryOf(psr);
    var now := if c == CarrySet(psr) then low else if c then low + 0x2000_0000 else low - 0x2000_0000;
    var k := psr / 0x4000_0000;
    assert psr == 0x4000_0000 * k + low && k < 4;
    RemainderUnique(PutCarry(psr, Becomes(c)), 0x4000_0000, k, now);
  }

  lemma CarryOf(psr: Word)
    ensures CarrySet(psr) <==> psr % 0x4000_0000 >= 0x2000_0000
  {
  }

  /**
   Every flag-setting opcode the amd64 backend accepts leaves the registers and the flag word exactly
   as the interpreter's handler does.
   */
  lemma FlagSettingCorrect(junk: Eflags, cfg: Config, op: Word, h: Host)
    requires FlagSettingCode(cfg, op).Code?
    ensures View(Run(junk, FlagSettingCode(cfg, op).code, h)) == DataProcessing(cfg, op, View(h))
  {
    hide ShiftCode; hide RegCode; hide ImmCode; hide FlagsCode; hide CarryCode; hide Run; hide Operand; hide Address; hide Result;
    hide ArithmeticFlags; hide NewPsr; hide Opcodes.Rd; hide Opcodes.Rn; hide Opcodes.Operation; hide Guest; hide Recompiler.Merged; hide PutCarry;
    var opn := Operation(op);
    var psr, lhs := View(h)[cfg.Psr()], Address(cfg, View(h), Rn(op));
    var (rhs, carry) := Operand(cfg, op, View(h));
    var dest := Result(opn, lhs, rhs, CarrySet(psr));
    var flags := FlagsCode(cfg.bits26, !Logical(opn), Subtracts(opn));
    if Immediate(op) {
      var c1 := ImmCode(cfg, op, ImmediateOperand(op));
      var c3 := if Logical(opn) then CarryCode(cfg.bits26, ImmCarry(op)) else [];
      ImmOperand(cfg, op, View(h));
      ImmDone(junk, cfg, op, rhs, h, CarrySet(psr));
      var h1 := Run(junk, c1, h);
      RunAppend(junk, c1, flags + c3, h);
      RunAppend(junk, flags, c3, h1);
      RunFlags(junk, cfg, !Logical(opn), Subtracts(opn), h1);
      var h2 := Run(junk, flags, h1);
      RunCarry(junk, cfg, carry, h2);
      RunNil(junk, h2);
      PsrAgrees(op, psr, h1.f, lhs, rhs, carry, dest);
    } else {
      var c0, c1 := ShiftCode(op).code, RegCode(cfg, op);
      RegOperand(cfg, op, View(h));
      RunShift(junk, cfg, op, h);
      var h0 := Run(junk, c0, h);
      RegDone(junk, cfg, op, h0, CarrySet(psr));
      var h1 := Run(junk, c1, h0);
      RunAppend(junk, c0, c1 + flags, h);
      RunAppend(junk, c1, flags, h0);
      RunFlags(junk, cfg, !Logical(opn), Subtracts(opn), h1);
      PsrAgrees(op, psr, h1.f, lhs, rhs, carry, dest);
      NoCarry(View(Run(junk, flags, h1))[cfg.Psr()]);
    }
  }

  lemma ImmOperand(cfg: Config, op: Word, r: Regs)
    requires Immediate(op)
    ensures Operand(cfg, op, r) == (ImmediateOperand(op), ImmCarry(op))
  {
    hide ImmediateOperand;
  }

  lemma RegOperand(cfg: Config, op: Word, r: Regs)
    requires !Immediate(op) && (Logical(Operation(op)) ==> Unshifted(op))
    ensures Operand(cfg, op, r) == (Shifted(cfg, op, r), Unchanged)
  {
    hide Lsl; hide Lsr; hide Asr; hide Ror; hide Opcodes.Operation;
  }

  // ---- the emitters as the source writes them ----

  class CodeBlock {
    var code: seq<Insn>

    constructor ()
      ensures code == []
    {
      code := [];
    }

    method Emit(i: Insn)
      modifies this
      ensures code == old(code) + [i]
    {
      code := code + [i];
    }

    method GenCapture(setCv: bool, invert: bool)
      modifies this
      ensures code == old(code) + CaptureCode(setCv, invert)
    {
      Emit(Set(IfS, Ecx));
      Emit(Set(IfZ, Edx));
      if setCv {
        Emit(Set(IfO, Eax));
        Emit(Set(if invert then IfNc else IfC, Ebx));
      }
    }

    method GenAssembleNz()
      modifies this
      ensures code == old(code) + AssembleCode(false)
    {
      Emit(Movzbl(Ecx));
      Emit(Movzbl(Edx));
      Emit(ShiftOp(0, Ecx, 31));
      Emit(ShiftOp(0, Edx, 30));
      Emit(AluOp(OrI, Gp(Ecx), Gp(Edx)));
    }

    method GenAssembleCv()
      modifies this
      ensures code == old(code) + AssembleCode(true)[5..]
    {
      Emit(Movzbl(Eax));
      Emit(Movzbl(Ebx));
      Emit(ShiftOp(0, Eax, 28));
      Emit(ShiftOp(0, Ebx, 29));
      Emit(AluOp(OrI, Gp(Ecx), Gp(Eax)));
      Emit(AluOp(OrI, Gp(Ecx), Gp(Ebx)));
    }

    method GenMerge(bits26: bool, setCv: bool)
      modifies this
      ensures code == old(code) + MergeCode(bits26, setCv)
    {
      Emit(AluOp(AndI, FlagWord(bits26), Imm(if setCv then 0x0fff_ffff else 0x3fff_ffff)));
      Emit(AluOp(OrI, FlagWord(bits26), Gp(Ecx)));
    }

    method GenNativeFlags(bits26: bool, setCv: bool, invert: bool)
      modifies this
      ensures code == old(code) + FlagsCode(bits26, setCv, invert)
    {
      hide CaptureCode; hide MergeCode;
      GenCapture(setCv, invert);
      ghost var captured := code;
      GenAssembleNz();
      if setCv { GenAssembleCv(); }
      assert AssembleCode(true) == AssembleCode(false) + AssembleCode(true)[5..];
      assert code == captured + AssembleCode(setCv);
      GenMerge(bits26, setCv);
    }

    method GenCarryConstant(bits26: bool, carry: bool)
      modifies this
      ensures code == old(code) + CarryCode(bits26, Becomes(carry))
    {
      if carry {
        Emit(AluOp(OrI, FlagWord(bits26), Imm(0x2000_0000)));
      } else {
        Emit(AluOp(AndI, FlagWord(bits26), Imm(0xdfff_ffff)));
      }
    }

    /** A flag-setting logical opcode with an immediate: operation, flags, then the carry if the immediate is rotated. */
    method GenLogicalImmediate(cfg: Config, op: Word)
      requires Immediate(op) && Logical(Operation(op)) && !Refused(op)
      modifies this
      ensures FlagSettingCode(cfg, op).Code? && code == old(code) + FlagSettingCode(cfg, op).code
    {
      hide ImmCode; hide FlagsCode; hide CarryCode; hide Ror; hide Opcodes.Operation;
      var imm := ImmediateOperand(op);
      code := code + ImmCode(cfg, op, imm);
      GenNativeFlags(cfg.bits26, false, Subtracts(Operation(op)));
      if Rs(op) != 0 {
        GenCarryConstant(cfg.bits26, Neg(imm));
      } else {
        EmptyCarry(cfg.bits26);
      }
    }
  }

  lemma EmptyCarry(bits26: bool)
    ensures CarryCode(bits26, Unchanged) == []
  {
  }
}
