/**
 Processor modes, register banks, the program status register and exceptions (arm.c,
 arm_dynarec.c, arm_common.h).

 R8-R14 live partly in `reg` and partly in the shadow banks; the status bits live in R15 in
 the 26-bit modes and in reg[16] in the 32-bit ones.
 */
module Modes {

  type File = s: seq<bv32> | |s| == 17 witness seq(17, _ => 0)
  type Bank = s: seq<bv32> | |s| == 15 witness seq(15, _ => 0)
  type Pair = s: seq<bv32> | |s| == 2 witness seq(2, _ => 0)
  type Spsrs = s: seq<bv32> | |s| == 16 witness seq(16, _ => 0)

  /** The shadow banks; `user` and `fiq` are only used from index 8 on. */
  datatype Banks = Banks(user: Bank, fiq: Bank, irq: Pair, svc: Pair, abt: Pair, und: Pair)

  /** Where a pointer of `usrregs` points: into `arm.reg` or into `arm.user_reg`. */
  datatype Loc = Live(i: nat) | Saved(i: nat)

  type Pointers = s: seq<Loc> | |s| == 16 witness seq(16, _ => Live(0))

  /** The word size of the current mode: what it masks modes with, where the PSR is, R15's PC bits. */
  datatype Size = Size(mmask: bv32, psr: nat, r15mask: bv32)

  datatype Cpu = Cpu(reg: File, banks: Banks, spsr: Spsrs, mode: bv32, size: Size, usr: Pointers)

  const SIZE32 := Size(0x1f, 16, 0xffff_fffc)
  const SIZE26 := Size(3, 15, 0x3ff_fffc)

  predicate Mode32(m: bv32) { m & 0x10 != 0 }
  predicate Privileged(m: bv32) { m & 0xf != 0 }
  predicate HasSpsr(m: bv32) { Privileged(m) && m != 0x1f }

  /** The modes of the ARM architecture, versions 2 to 4. */
  predicate Legal(m: bv32) {
    m == 0 || m == 1 || m == 2 || m == 3 || m == 0x10 || m == 0x11 || m == 0x12 || m == 0x13 || m == 0x17 || m == 0x1b || m == 0x1f
  }

  // ---- banks ----

  datatype Kind = User | Fiq | Irq | Svc | Abt | Und | Reserved

  function KindOf(m: bv32): Kind {
    var k := m & 0xf;
    if k == 0 || k == 15 then User else if k == 1 then Fiq else if k == 2 then Irq
    else if k == 3 then Svc else if k == 7 then Abt else if k == 11 then Und else Reserved
  }

  /** Write the live R8-R14 back to the banks of a mode. */
  function StoreBack(b: Banks, reg: File, k: Kind): Banks {
    var shared := b.user[..8] + reg[8..13] + b.user[13..];
    match k
    case User => b.(user := b.user[..8] + reg[8..15])
    case Fiq => b.(fiq := b.fiq[..8] + reg[8..15])
    case Irq => b.(user := shared, irq := reg[13..15])
    case Svc => b.(user := shared, svc := reg[13..15])
    case Abt => b.(user := shared, abt := reg[13..15])
    case Und => b.(user := shared, und := reg[13..15])
    case Reserved => b
  }

  function OwnPair(b: Banks, k: Kind): Pair {
    match k
    case Irq => b.irq
    case Svc => b.svc
    case Abt => b.abt
    case Und => b.und
    case Fiq => b.fiq[13..]
    case _ => b.user[13..]
  }

  /** Bring the banks of a mode into R8-R14; a reserved mode gets those of User mode. */
  function LoadBank(reg: File, b: Banks, k: Kind): File {
    reg[..8] + (if k == Fiq then b.fiq[8..13] else b.user[8..13]) + OwnPair(b, k) + reg[15..]
  }

  /** How many registers from R0 up a mode shares with User mode. */
  function Shared(k: Kind): nat { if k == User || k == Reserved then 15 else if k == Fiq then 8 else 13 }

  function Pointing(k: Kind): Pointers { Shares(Shared(k)) }

  /** The first registers, and R15, are the current ones. */
  function Shares(n: nat): Pointers {
    seq(16, i requires 0 <= i < 16 => if i == 15 || i < n then Live(i) else Saved(i))
  }

  // ---- the status register in a change of mode ----

  /** reg[16] in a change of mode. */
  function Settle16(r15: bv32, psr: bv32, from: bv32, to: bv32): bv32 {
    if !Mode32(to) then (psr & 0xffff_ffe0) | to
    else if Mode32(from) then psr
    else (r15 & 0xf000_0000) | to | ((r15 & 0xc00_0000) >> 20)
  }

  /** R15 in a change of mode. */
  function Settle15(r15: bv32, psr: bv32, from: bv32, to: bv32): bv32 {
    if Mode32(to) == Mode32(from) then r15
    else if Mode32(to) then r15 & 0x3ff_fffc
    else
      var named := (psr & 0xffff_ffe0) | to;
      (r15 & 0x3ff_fffc) | (to & 3) | (named & 0xf000_0000) | ((named & 0xc0) << 20)
  }

  function Retype(reg: File, from: bv32, to: bv32): File {
    reg[15 := Settle15(reg[15], reg[16], from, to)][16 := Settle16(reg[15], reg[16], from, to)]
  }

  function SizeOf(m: bv32): Size { if Mode32(m) then SIZE32 else SIZE26 }

  /** updatemode(). */
  function Switch(c: Cpu, m: bv32): Cpu {
    var banks := StoreBack(c.banks, c.reg, KindOf(c.mode));
    var reg := LoadBank(c.reg, banks, KindOf(m));
    Cpu(Retype(reg, c.mode, m), banks, c.spsr, m, SizeOf(m), Pointing(KindOf(m)))
  }

  // ---- the abstract register file ----

  /** The bank that register `i` of a mode belongs to. */
  function Home(k: Kind, i: nat): Kind {
    if i < 8 then User else if i < 13 then (if k == Fiq then Fiq else User) else k
  }

  /** What a shadow bank holds for register `i`. */
  function Shadow(b: Banks, home: Kind, i: nat): bv32
    requires i < 15 && home != Reserved && (home != User && home != Fiq ==> i >= 13)
  {
    match home
    case User => b.user[i]
    case Fiq => b.fiq[i]
    case Irq => b.irq[i - 13]
    case Svc => b.svc[i - 13]
    case Abt => b.abt[i - 13]
    case Und => b.und[i - 13]
  }

  /** Register `i` of kind `k`, when the banks of kind `current` are in `reg`. */
  function ValueIn(reg: File, b: Banks, current: Kind, k: Kind, i: nat): bv32
    requires k != Reserved && i < 15
  {
    if i < 8 || Home(current, i) == Home(k, i) then reg[i] else Shadow(b, Home(k, i), i)
  }

  /** Register `i` as a mode of kind `k` sees it, wherever it is kept at the moment. */
  function Value(c: Cpu, k: Kind, i: nat): bv32
    requires k != Reserved && i < 15
  {
    ValueIn(c.reg, c.banks, KindOf(c.mode), k, i)
  }

  /** A change of mode moves no value. */
  lemma SwitchKeeps(c: Cpu, m: bv32, k: Kind, i: nat)
    requires KindOf(c.mode) != Reserved && KindOf(m) != Reserved && k != Reserved && i < 15
    ensures Value(Switch(c, m), k, i) == Value(c, k, i)
  {
    hide Retype; hide KindOf;
    RetypeFrame(LoadBank(c.reg, StoreBack(c.banks, c.reg, KindOf(c.mode)), KindOf(m)), c.mode, m, i);
    BankMoves(c.banks, c.reg, KindOf(c.mode), KindOf(m), k, i);
  }

  lemma RetypeFrame(reg: File, from: bv32, to: bv32, i: nat)
    requires i < 15
    ensures Retype(reg, from, to)[i] == reg[i]
  {
  }

  lemma StoredAll(b: Banks, reg: File, from: Kind, k: Kind, i: nat)
    requires from != Reserved && k != Reserved && 8 <= i < 15
    ensures Shadow(StoreBack(b, reg, from), Home(k, i), i) == ValueIn(reg, b, from, k, i)
  {
  }

  lemma LoadsOwn(reg: File, b: Banks, k: Kind, i: nat)
    requires k != Reserved && i < 15
    ensures LoadBank(reg, b, k)[i] == if i < 8 then reg[i] else Shadow(b, Home(k, i), i)
  {
  }

  lemma BankMoves(b: Banks, reg: File, from: Kind, to: Kind, k: Kind, i: nat)
    requires from != Reserved && to != Reserved && k != Reserved && i < 15
    ensures var b1 := StoreBack(b, reg, from);
            ValueIn(LoadBank(reg, b1, to), b1, to, k, i) == ValueIn(reg, b, from, k, i)
  {
    hide StoreBack; hide LoadBank; hide Shadow;
    LoadsOwn(reg, StoreBack(b, reg, from), to, i);
    if i >= 8 { StoredAll(b, reg, from, k, i); }
  }

  /** And the new mode sees its own registers in `reg`. */
  lemma SwitchShows(c: Cpu, m: bv32, i: nat)
    requires KindOf(c.mode) != Reserved && KindOf(m) != Reserved && i < 15
    ensures Switch(c, m).reg[i] == Value(c, KindOf(m), i)
  {
    hide Retype; hide StoreBack; hide LoadBank;
    SwitchKeeps(c, m, KindOf(m), i);
  }

  /**
   Is register `i` the same one in two modes? All share R0-R7; R8-R12 are FIQ mode's own or those of all other modes; R13
   and R14 belong to one mode, the User and System modes being one in this.
   */
  predicate SharedBy(m: bv32, n: bv32, i: nat) {
    i < 8 || SameNibble(m, n) || (i < 13 && m & 0xf != 1 && n & 0xf != 1)
  }

  predicate SameNibble(m: bv32, n: bv32) { m & 0xf == n & 0xf || (m & 0xf in {0, 15} && n & 0xf in {0, 15}) }

  lemma KindsApart(m: bv32, n: bv32)
    requires Legal(m) && Legal(n)
    ensures (KindOf(m) == KindOf(n) <==> SameNibble(m, n)) && (KindOf(m) == Fiq <==> m & 0xf == 1) && KindOf(m) != Reserved
  {
  }

  /** What is written to a register in one mode is seen in another if and only if they share the register. */
  lemma WrittenInMode(c: Cpu, n: bv32, i: nat, v: bv32, j: nat)
    requires Legal(c.mode) && Legal(n) && i < 15 && j < 15
    ensures Switch(c.(reg := c.reg[i := v]), n).reg[j] == if j == i && SharedBy(c.mode, n, i) then v else Switch(c, n).reg[j]
  {
    hide Switch; hide KindOf; hide Legal; hide SameNibble;
    KindsApart(c.mode, n);
    KindsApart(n, c.mode);
    SwitchShows(c, n, j);
    SwitchShows(c.(reg := c.reg[i := v]), n, j);
  }

  /** The register a pointer of `usrregs` leads to. */
  function Deref(c: Cpu, p: Loc): bv32
    requires p.i < 15
  {
    match p
    case Live(i) => c.reg[i]
    case Saved(i) => c.banks.user[i]
  }

  lemma PointersLeadHome(c: Cpu, i: nat)
    requires c.usr == Pointing(KindOf(c.mode)) && KindOf(c.mode) != Reserved && i < 15
    ensures c.usr[i].i == i && Deref(c, c.usr[i]) == Value(c, User, i)
  {
    var k := KindOf(c.mode);
    assert c.usr[i] == if i < Shared(k) then Live(i) else Saved(i);
    assert i < Shared(k) <==> i < 8 || Home(k, i) == User;
  }

  // ---- the status bits ----

  /** N, Z, C, V, I and F, in the places of the 32-bit PSR. */
  function BitsIn(r15: bv32, psr: bv32, m: bv32): bv32 {
    if Mode32(m) then psr & 0xf000_00c0 else (r15 & 0xf000_0000) | ((r15 >> 20) & 0xc0)
  }

  function Bits(c: Cpu): bv32 { BitsIn(c.reg[15], c.reg[16], c.mode) }

  lemma SettleKeepsBits(r15: bv32, psr: bv32, from: bv32, to: bv32)
    requires Legal(to)
    ensures BitsIn(Settle15(r15, psr, from, to), Settle16(r15, psr, from, to), to) == BitsIn(r15, psr, from)
  {
  }

  /** A change of mode keeps the status bits, wherever they are. */
  lemma SwitchKeepsBits(c: Cpu, m: bv32)
    requires Legal(m)
    ensures Bits(Switch(c, m)) == Bits(c)
  {
    hide Switch; hide Settle15; hide Settle16; hide BitsIn; hide Legal;
    SwitchedPsr(c, m);
    SettleKeepsBits(c.reg[15], c.reg[16], c.mode, m);
  }

  // ---- the instructions that write the status register ----

  /** The bits of R15 that an S-set write replaces. */
  function R15Mask(m: bv32): bv32 {
    if Mode32(m) then 0xffff_fffc else if Privileged(m) then 0xffff_ffff else 0xf3ff_fffc
  }

  /** R15 runs ahead of the instruction that is fetched next. */
  function Ahead(dest: bv32): bv32 { dest + 4 }

  /** arm_write_r15(): R15 as destination with the S bit, and LDM with R15 and the S bit. */
  function WriteR15(c: Cpu, dest: bv32): Cpu { Return(c, NewR15(c, dest)) }

  function NewR15(c: Cpu, dest: bv32): bv32 { UnderMask(c.reg[15], R15Mask(c.mode), Ahead(dest)) }

  /** R15 is written; a privileged mode takes its PSR from the SPSR or from R15. */
  function Return(c: Cpu, r15: bv32): Cpu {
    var c1 := c.(reg := c.reg[15 := r15]);
    if !Privileged(c.mode) then c1
    else Follow(if Mode32(c.mode) then c1.(reg := c1.reg[16 := c.spsr[Index(c.mode)]]) else c1)
  }

  /** The SPSR of a mode. */
  function Index(m: bv32): (i: nat)
    ensures i < 16
  {
    (m & 0xf) as nat
  }

  /** Take up the mode the status register now names. */
  function Follow(c: Cpu): Cpu {
    var named := Masked(if c.size.psr == 15 then c.reg[15] else c.reg[16], c.size.mmask);
    if named != c.mode then Switch(c, named) else c
  }

  function Masked(v: bv32, mask: bv32): bv32 { v & mask }

  /** arm_compare_rd15(): TSTP, TEQP, CMPP, CMNP. */
  function CompareRd15(c: Cpu, dest: bv32): Cpu {
    var c1 :=
      if Mode32(c.mode) then
        if Privileged(c.mode) then c.(reg := c.reg[16 := c.spsr[Index(c.mode)]]) else c
      else
        var mask: bv32 := if Privileged(c.mode) then 0xfc00_0003 else 0xf000_0000;
        c.(reg := c.reg[15 := UnderMask(c.reg[15], mask, dest)]);
    Follow(c1)
  }

  /** The bits MSR may change, by the field bits of the opcode. */
  function FieldMask(opcode: bv32): bv32 {
    ( (if opcode & 0x1_0000 != 0 then 0xff else 0) | (if opcode & 0x2_0000 != 0 then 0xff00 else 0)
    | (if opcode & 0x4_0000 != 0 then 0xff_0000 else 0) | (if opcode & 0x8_0000 != 0 then 0xff00_0000 else 0)) & 0xf000_00df
  }

  /** arm_write_cpsr(). */
  function WriteCpsr(c: Cpu, opcode: bv32, value: bv32): Cpu {
    var op := if Privileged(c.mode) then opcode else FlagsOnly(opcode);
    var pc := if Mode32(c.mode) then c.reg[15] else MsrR15(c.reg[15], op, value);
    Named(c, MsrPsr(c.reg[16], op, value), pc)
  }

  /** reg[16] and R15 are written, and the mode that reg[16] names is taken up. */
  function Named(c: Cpu, psr: bv32, r15: bv32): Cpu {
    var c1 := c.(reg := c.reg[16 := psr][15 := r15]);
    if Names32(psr) != c.mode then Switch(c1, Names32(psr)) else c1
  }

  /** In User mode only the flags can be written. */
  function FlagsOnly(opcode: bv32): bv32 { opcode & !0x7_0000 }

  /** A PSR after MSR. */
  function MsrPsr(psr: bv32, op: bv32, value: bv32): bv32 { UnderMask(psr, FieldMask(op), value) }

  /** The bits under a mask, from another word. */
  function UnderMask(w: bv32, mask: bv32, value: bv32): bv32 { (w & !mask) | (value & mask) }

  /** The part of MSR CPSR that shows in R15. */
  function MsrR15(r15: bv32, op: bv32, value: bv32): bv32 {
    var a := if op & 0x8_0000 != 0 then WithFlags(r15, value) else r15;
    if op & 0x1_0000 != 0 then WithControl(a, value) else a
  }

  function WithFlags(r15: bv32, value: bv32): bv32 { (r15 & !0xf000_0000) | (value & 0xf000_0000) }

  function WithControl(r15: bv32, value: bv32): bv32 { (r15 & !0xc00_0003) | (value & 3) | ((value & 0xc0) << 20) }

  /** arm_write_spsr(). */
  function WriteSpsr(c: Cpu, opcode: bv32, value: bv32): Cpu {
    if HasSpsr(c.mode) then
      c.(spsr := c.spsr[Index(c.mode) := MsrPsr(c.spsr[Index(c.mode)], opcode, value)])
    else c
  }

  /** The mode number an exception enters, without bit 4. */
  predicate Vector(mmode: bv32, address: bv32, diff: bv32) {
    && (mmode == 1 || mmode == 2 || mmode == 3 || mmode == 7 || mmode == 11)
    && address & 0xffff_ff03 == 0 && (diff == 0 || diff == 4)
  }

  /** The interrupt-disable bits an exception sets. */
  function Disable(mmode: bv32): bv32 { if mmode == 1 then 0xc0 else 0x80 }

  /** The return address, `diff` below R15. */
  function Link(r15: bv32, diff: bv32): bv32 { r15 - diff }

  /** exception(). */
  function Exception(c: Cpu, prog32: bool, mmode: bv32, address: bv32, diff: bv32): Cpu {
    var link := Link(c.reg[15], diff);
    if Mode32(c.mode) then Enter32(c, mmode, address, link)
    else if prog32 then EnterFrom26(c, mmode, address, link)
    else Enter26(c, mmode, address, link)
  }

  /** The 32-bit mode an exception enters. */
  function Wide(mmode: bv32): bv32 { 0x10 | mmode }

  /** The PC field of R15 in a 26-bit mode. */
  function Pc26(r15: bv32): bv32 { r15 & 0x3ff_fffc }

  /** The mode that R15 or a PSR names. */
  function Names26(r15: bv32): bv32 { r15 & 3 }
  function Names32(psr: bv32): bv32 { psr & 0x1f }

  function EnteredPsr(psr: bv32, mmode: bv32): bv32 { (psr & !0x1f) | 0x10 | mmode | Disable(mmode) }

  /** From a 32-bit mode. */
  function Enter32(c: Cpu, mmode: bv32, address: bv32, link: bv32): Cpu {
    var e := Switch(c, Wide(mmode));
    Cpu(e.reg[14 := link][16 := EnteredPsr(e.reg[16], mmode)][15 := address],
        e.banks, c.spsr[Index(mmode) := c.reg[16]], e.mode, e.size, e.usr)
  }

  /** From a 26-bit mode, with 32-bit exceptions configured. */
  function EnterFrom26(c: Cpu, mmode: bv32, address: bv32, link: bv32): Cpu {
    var e := Switch(c, Wide(mmode));
    Cpu(e.reg[14 := Pc26(link)][16 := Disabled(e.reg[16], mmode)][15 := address],
        e.banks, c.spsr[Index(mmode) := SavedPsr(e.reg[16], link)], e.mode, e.size, e.usr)
  }

  function Disabled(psr: bv32, mmode: bv32): bv32 { psr | Disable(mmode) }

  function SavedPsr(psr: bv32, link: bv32): bv32 { ((psr & !0x1f) | (link & 3)) & !0x10 }

  function Entered(mmode: bv32): bv32 { if mmode >= 3 then 3 else mmode }

  /** From a 26-bit mode on a 26-bit configuration, where Abort and Undefined enter Supervisor mode. */
  function Enter26(c: Cpu, mmode: bv32, address: bv32, link: bv32): Cpu {
    var entered := Entered(mmode);
    var e := Switch(c, entered);
    e.(reg := e.reg[14 := link][15 := EnteredR15(e.reg[15], mmode, address)])
  }

  /** N, Z, C, V, I and F are kept, and the PC and the mode replaced. */
  function EnteredR15(r15: bv32, mmode: bv32, address: bv32): bv32 {
    (r15 & 0xfc00_0000) | (Disable(mmode) << 20) | address | Entered(mmode)
  }

  /** The control register's PROG32 bit, as cp15_write() takes it over. */
  function SetProg32(c: Cpu, on: bool): Cpu {
    if !on && Mode32(c.mode) then Switch(c, c.mode & 0xf) else c
  }

  // ---- every run ----

  /** What every step keeps. */
  predicate Inv(c: Cpu) {
    && Legal(c.mode)
    && c.size == SizeOf(c.mode)
    && c.usr == Pointing(KindOf(c.mode))
    && (if Mode32(c.mode) then c.reg[16] & 0x1f == c.mode && c.reg[15] & 3 == 0 else c.reg[15] & 3 == c.mode)
    // reg[16] names the mode too, but for the 32-bit form of SVC that reset leaves there
    && (c.reg[16] & 0x1f == c.mode || (c.mode == 3 && c.reg[16] & 0x1f == 0x13))
  }

  /** The property itself: the status register in use names the mode, and R15 is masked for its size. */
  lemma InvMeans(c: Cpu)
    requires Inv(c)
    ensures c.size.psr == (if Mode32(c.mode) then 16 else 15) && c.reg[c.size.psr] & c.size.mmask == c.mode
    ensures c.size.r15mask == if Mode32(c.mode) then 0xffff_fffc else 0x3ff_fffc
  {
  }

  /** Entering a legal mode; the word size of R15 and reg[16] is settled afterwards. */
  lemma SwitchSettles(c: Cpu, m: bv32)
    requires Legal(m)
    requires Mode32(m) && Mode32(c.mode) ==> c.reg[16] & 0x1f == m && c.reg[15] & 3 == 0
    requires !Mode32(m) && !Mode32(c.mode) ==> c.reg[15] & 3 == m
    ensures Inv(Switch(c, m))
  {
    hide StoreBack; hide Pointing; hide KindOf;
  }

  /** Which of the low bits each mask of arm_write_r15() replaces. */
  lemma Replaced(r15: bv32, v: bv32)
    ensures ((r15 & 3) | (v & 0xffff_fffc)) & 3 == r15 & 3
    ensures ((r15 & 0xc00_0003) | (v & 0xf3ff_fffc)) & 0xc00_0003 == r15 & 0xc00_0003
  {
  }

  lemma WriteR15Keeps(c: Cpu, dest: bv32)
    requires Inv(c)
    requires Mode32(c.mode) && Privileged(c.mode) ==> Legal(c.spsr[Index(c.mode)] & 0x1f)
    ensures Inv(WriteR15(c, dest))
  {
    hide Return; hide Index; hide Ahead;
    Replaced(c.reg[15], Ahead(dest));
    ReturnKeeps(c, NewR15(c, dest));
  }

  lemma ReturnKeeps(c: Cpu, r15: bv32)
    requires Inv(c)
    requires Mode32(c.mode) && Privileged(c.mode) ==> Legal(c.spsr[Index(c.mode)] & 0x1f)
    requires Mode32(c.mode) || !Privileged(c.mode) ==> r15 & 3 == c.reg[15] & 3
    ensures Inv(Return(c, r15))
  {
    hide Switch; hide Pointing; hide KindOf; hide Index; hide Follow;
    var c1 := c.(reg := c.reg[15 := r15]);
    if Privileged(c.mode) {
      FollowSettles(if Mode32(c.mode) then c1.(reg := c1.reg[16 := c.spsr[Index(c.mode)]]) else c1);
    }
  }

  lemma FollowSettles(c: Cpu)
    requires Legal(c.mode) && c.size == SizeOf(c.mode) && c.usr == Pointing(KindOf(c.mode))
    requires if Mode32(c.mode) then c.reg[15] & 3 == 0 && Legal(c.reg[16] & 0x1f) else (c.reg[16] & 0x1f == c.mode || (c.mode == 3 && c.reg[16] & 0x1f == 0x13))
    ensures Inv(Follow(c))
  {
    hide Switch; hide Pointing; hide KindOf;
    var named := (if c.size.psr == 15 then c.reg[15] else c.reg[16]) & c.size.mmask;
    assert Legal(named);
    if named != c.mode { SwitchSettles(c, named); }
  }

  lemma CompareKeeps(c: Cpu, dest: bv32)
    requires Inv(c)
    requires Mode32(c.mode) && Privileged(c.mode) ==> Legal(c.spsr[Index(c.mode)] & 0x1f)
    ensures Inv(CompareRd15(c, dest))
  {
    hide Switch; hide Pointing; hide KindOf; hide Index; hide Follow;
    var c1 :=
      if Mode32(c.mode) then
        if Privileged(c.mode) then c.(reg := c.reg[16 := c.spsr[Index(c.mode)]]) else c
      else
        var mask: bv32 := if Privileged(c.mode) then 0xfc00_0003 else 0xf000_0000;
        c.(reg := c.reg[15 := UnderMask(c.reg[15], mask, dest)]);
    FollowSettles(c1);
  }

  lemma FieldMaskIs(op: bv32)
    ensures FieldMask(op) == (if op & 0x1_0000 != 0 then 0xdf else 0) | (if op & 0x8_0000 != 0 then 0xf000_0000 else 0)
  {
  }

  /** Which mode MSR leaves in reg[16] and in R15. */
  lemma MsrMode(psr: bv32, r15: bv32, op: bv32, value: bv32)
    ensures Names32(MsrPsr(psr, op, value)) == if op & 0x1_0000 != 0 then Names32(value) else Names32(psr)
    ensures MsrR15(r15, op, value) & 3 == if op & 0x1_0000 != 0 then value & 3 else r15 & 3
  {
    FieldMaskIs(op);
    hide FieldMask;
  }

  lemma UserOpcode(opcode: bv32)
    ensures FlagsOnly(opcode) & 0x1_0000 == 0 && FlagsOnly(opcode) & 0x8_0000 == opcode & 0x8_0000
  {
  }

  /** Low bits of a PSR that names a legal 26-bit mode. */
  lemma LowBits(psr: bv32)
    ensures (psr & 0x1f) & 3 == psr & 3
  {
  }

  lemma WriteCpsrKeeps(c: Cpu, opcode: bv32, value: bv32)
    requires Inv(c)
    requires opcode & 0x1_0000 != 0 && Privileged(c.mode) ==> Legal(value & 0x1f)
    ensures Inv(WriteCpsr(c, opcode, value))
  {
    hide Named; hide MsrPsr; hide MsrR15; hide Inv; hide Legal; hide Mode32; hide Privileged;
    var op := if Privileged(c.mode) then opcode else FlagsOnly(opcode);
    UserOpcode(opcode);
    MsrMode(c.reg[16], c.reg[15], op, value);
    MsrKeeps(c, op & 0x1_0000 != 0, value, MsrPsr(c.reg[16], op, value),
             if Mode32(c.mode) then c.reg[15] else MsrR15(c.reg[15], op, value));
  }

  lemma MsrKeeps(c: Cpu, control: bool, value: bv32, psr: bv32, r15: bv32)
    requires Inv(c) && (control ==> Legal(value & 0x1f))
    requires psr & 0x1f == if control then value & 0x1f else c.reg[16] & 0x1f
    requires if Mode32(c.mode) then r15 == c.reg[15] else r15 & 3 == if control then value & 3 else c.reg[15] & 3
    ensures Inv(Named(c, psr, r15))
  {
    hide Named;
    LowBits(psr);
    LowBits(value);
    LowBits(c.reg[16]);
    NamedKeeps(c, psr, r15);
  }

  lemma NamedKeeps(c: Cpu, psr: bv32, r15: bv32)
    requires Inv(c) && Legal(psr & 0x1f)
    requires Mode32(c.mode) ==> r15 == c.reg[15]
    requires !Mode32(c.mode) ==> r15 & 3 == psr & 3
    ensures Inv(Named(c, psr, r15))
  {
    hide Switch; hide Pointing; hide KindOf;
    LowBits(psr);
    var c1 := c.(reg := c.reg[16 := psr][15 := r15]);
    if psr & 0x1f != c.mode { SwitchSettles(c1, psr & 0x1f); }
  }

  lemma Enter32Keeps(c: Cpu, mmode: bv32, address: bv32, link: bv32)
    requires Inv(c) && Mode32(c.mode) && Vector(mmode, address, 0)
    ensures Inv(Enter32(c, mmode, address, link))
  {
    hide StoreBack; hide Pointing; hide KindOf; hide LoadBank; hide Index;
  }

  lemma EnterFrom26Keeps(c: Cpu, mmode: bv32, address: bv32, link: bv32)
    requires Inv(c) && !Mode32(c.mode) && Vector(mmode, address, 0)
    ensures Inv(EnterFrom26(c, mmode, address, link))
  {
    hide StoreBack; hide Pointing; hide KindOf; hide LoadBank; hide Index;
  }

  lemma Enter26Keeps(c: Cpu, mmode: bv32, address: bv32, link: bv32)
    requires Inv(c) && !Mode32(c.mode) && Vector(mmode, address, 0)
    ensures Inv(Enter26(c, mmode, address, link))
  {
    hide StoreBack; hide Pointing; hide KindOf; hide LoadBank; hide Index;
  }

  lemma ExceptionKeeps(c: Cpu, prog32: bool, mmode: bv32, address: bv32, diff: bv32)
    requires Inv(c) && Vector(mmode, address, diff)
    ensures Inv(Exception(c, prog32, mmode, address, diff))
  {
    hide Inv; hide Enter32; hide EnterFrom26; hide Enter26; hide Link; hide Mode32;
    var link := Link(c.reg[15], diff);
    if Mode32(c.mode) { Enter32Keeps(c, mmode, address, link); }
    else if prog32 { EnterFrom26Keeps(c, mmode, address, link); }
    else { Enter26Keeps(c, mmode, address, link); }
  }

  // ---- ordinary writes ----

  /** arm_write_dest() and branches: R15 without the S bit. */
  function Jump(c: Cpu, dest: bv32): Cpu {
    c.(reg := c.reg[15 := UnderMask(c.reg[15], c.size.r15mask, Ahead(dest))])
  }

  lemma JumpKeeps(c: Cpu, dest: bv32)
    requires Inv(c)
    ensures Inv(Jump(c, dest)) && Bits(Jump(c, dest)) == Bits(c) && Jump(c, dest).mode == c.mode
  {
    hide Ahead; hide Pointing; hide KindOf; hide Legal;
  }

  /** A register below R15 in the current mode. */
  function SetReg(c: Cpu, i: nat, v: bv32): Cpu
    requires i < 15
  {
    c.(reg := c.reg[i := v])
  }

  /** A register of User mode, through `usrregs`, as LDM with the S bit writes it. */
  function SetUser(c: Cpu, i: nat, v: bv32): Cpu
    requires i < 15 && c.usr[i].i == i
  {
    match c.usr[i]
    case Live(_) => c.(reg := c.reg[i := v])
    case Saved(_) => c.(banks := c.banks.(user := c.banks.user[i := v]))
  }

  lemma InvPointers(c: Cpu, i: nat)
    requires Inv(c) && i < 15
    ensures KindOf(c.mode) != Reserved && c.usr[i] == if i < Shared(KindOf(c.mode)) then Live(i) else Saved(i)
    ensures c.usr[i].i == i
  {
  }

  /** It changes that register of User mode and no other register of any mode. */
  lemma SetUserSets(c: Cpu, i: nat, v: bv32, k: Kind, j: nat)
    requires Inv(c) && i < 15 && j < 15 && k != Reserved
    ensures c.usr[i].i == i
    ensures Value(SetUser(c, i, v), k, j) == if i == j && Home(k, j) == User then v else Value(c, k, j)
  {
    hide Inv; hide KindOf;
    InvPointers(c, i);
    var kind := KindOf(c.mode);
    assert i < Shared(kind) <==> i < 8 || Home(kind, i) == User;
  }

  /** MRS of the CPSR, which the 26-bit modes put together from R15 first. */
  function Mrs(c: Cpu, i: nat): Cpu
    requires i < 16
  {
    var psr := if Mode32(c.mode) then c.reg[16] else Psr26(c.reg[15]);
    c.(reg := c.reg[16 := psr][i := psr])
  }

  function Psr26(r15: bv32): bv32 { (r15 & 0xf000_0000) | (r15 & 3) | ((r15 & 0xc00_0000) >> 20) }

  lemma Psr26Means(r15: bv32)
    ensures Psr26(r15) & 0x1f == r15 & 3 && Psr26(r15) & 0xf000_00c0 == (r15 & 0xf000_0000) | ((r15 >> 20) & 0xc0)
  {
  }

  /** What is read is the status bits and the mode, and reading them changes neither. */
  lemma MrsReads(c: Cpu, i: nat)
    requires Inv(c) && i < 15
    ensures var d := Mrs(c, i);
            && Inv(d) && d.mode == c.mode && Bits(d) == Bits(c)
            && d.reg[i] & 0xf000_00c0 == Bits(c) && d.reg[i] & 0x1f == c.mode
  {
    hide Psr26; hide Pointing; hide KindOf; hide Legal;
    Psr26Means(c.reg[15]);
  }

  // ---- runs ----

  datatype Op =
    | OpWriteR15(dest: bv32)
    | OpCompare(dest: bv32)
    | OpMsr(opcode: bv32, value: bv32)
    | OpMsrSpsr(opcode: bv32, value: bv32)
    | OpJump(dest: bv32)
    | OpSet(i: nat, v: bv32)
    | OpSetUser(i: nat, v: bv32)
    | OpMrs(i: nat)
    | OpProg32(on: bool)
    | OpException(prog32: bool, mmode: bv32, address: bv32, diff: bv32)

  /**
   No reserved mode number is written to the status register, PROG32 is cleared where a 26-bit mode corresponds
   (SetProg32Exact), and exceptions go to a vector.
   */
  predicate Allowed(c: Cpu, op: Op) {
    match op
    case OpWriteR15(_) => Mode32(c.mode) && Privileged(c.mode) ==> Legal(c.spsr[Index(c.mode)] & 0x1f)
    case OpCompare(_) => Mode32(c.mode) && Privileged(c.mode) ==> Legal(c.spsr[Index(c.mode)] & 0x1f)
    case OpMsr(opcode, value) => opcode & 0x1_0000 != 0 && Privileged(c.mode) ==> Legal(value & 0x1f)
    case OpException(_, mmode, address, diff) => Vector(mmode, address, diff)
    case OpSet(i, _) => i < 15
    case OpSetUser(i, _) => i < 15
    case OpMrs(i) => i < 15
    case OpProg32(on) => Privileged(c.mode) && (!on && Mode32(c.mode) ==> c.mode & 0xf <= 3)
    case _ => true
  }

  function Apply(c: Cpu, op: Op): Cpu
    requires Inv(c) && Allowed(c, op)
  {
    match op
    case OpWriteR15(dest) => WriteR15(c, dest)
    case OpCompare(dest) => CompareRd15(c, dest)
    case OpMsr(opcode, value) => WriteCpsr(c, opcode, value)
    case OpMsrSpsr(opcode, value) => WriteSpsr(c, opcode, value)
    case OpJump(dest) => Jump(c, dest)
    case OpSet(i, v) => SetReg(c, i, v)
    case OpSetUser(i, v) => InvPointers(c, i); SetUser(c, i, v)
    case OpMrs(i) => Mrs(c, i)
    case OpProg32(on) => SetProg32(c, on)
    case OpException(prog32, mmode, address, diff) => Exception(c, prog32, mmode, address, diff)
  }

  lemma SetsKeep(c: Cpu, i: nat, v: bv32, opcode: bv32)
    requires Inv(c)
    ensures i < 15 ==> Inv(SetReg(c, i, v))
    ensures i < 15 && c.usr[i].i == i ==> Inv(SetUser(c, i, v))
    ensures Inv(WriteSpsr(c, opcode, v))
  {
    hide Legal; hide Pointing; hide KindOf; hide Index; hide MsrPsr;
  }

  lemma ApplyKeeps(c: Cpu, op: Op)
    requires Inv(c) && Allowed(c, op)
    ensures Inv(Apply(c, op))
  {
    hide WriteR15; hide CompareRd15; hide WriteCpsr; hide WriteSpsr; hide Jump; hide Exception; hide Legal; hide Index; hide Inv;
    hide SetReg; hide SetUser; hide KindOf; hide Mode32; hide Privileged; hide Vector; hide Mrs; hide Switch;
    match op {
      case OpWriteR15(dest) => WriteR15Keeps(c, dest);
      case OpCompare(dest) => CompareKeeps(c, dest);
      case OpMsr(opcode, value) => WriteCpsrKeeps(c, opcode, value);
      case OpMsrSpsr(opcode, value) => SetsKeep(c, 0, value, opcode);
      case OpJump(dest) => JumpKeeps(c, dest);
      case OpSet(i, v) => SetsKeep(c, i, v, 0);
      case OpSetUser(i, v) =>
        InvPointers(c, i);
        SetsKeep(c, i, v, 0);
      case OpMrs(i) => MrsReads(c, i);
      case OpProg32(on) => SetProg32Exact(c);
      case OpException(prog32, mmode, address, diff) => ExceptionKeeps(c, prog32, mmode, address, diff);
    }
  }

  predicate Steps(c: Cpu, op: Op, d: Cpu)
    requires Inv(c)
  {
    Allowed(c, op) && d == Apply(c, op)
  }

  /** The states a run goes through. */
  predicate Run(cs: seq<Cpu>, ops: seq<Op>) {
    |cs| == |ops| + 1 && forall i :: 0 <= i < |ops| && Inv(cs[i]) ==> Steps(cs[i], ops[i], cs[i + 1])
  }

  /** After every step of every run the status register in use names the mode. */
  lemma {:induction false} RunKeeps(cs: seq<Cpu>, ops: seq<Op>, n: nat)
    requires Run(cs, ops) && n < |cs| && Inv(cs[0])
    ensures Inv(cs[n])
  {
    hide Inv; hide Allowed; hide Apply;
    if n > 0 {
      RunKeeps(cs, ops, n - 1);
      assert Steps(cs[n - 1], ops[n - 1], cs[n - 1 + 1]);
      ApplyKeeps(cs[n - 1], ops[n - 1]);
    }
  }

  /** Nothing a User mode can execute, short of MRS to R15, changes the mode or the interrupt-disable bits. */
  lemma UserStays(c: Cpu, op: Op)
    requires Inv(c) && !Privileged(c.mode) && Allowed(c, op) && !op.OpException?
    ensures Apply(c, op).mode == c.mode && Bits(Apply(c, op)) & 0xc0 == Bits(c) & 0xc0
  {
    hide Inv; hide Bits; hide Mrs; hide WriteR15; hide CompareRd15; hide WriteCpsr; hide WriteSpsr; hide Jump; hide SetReg; hide SetUser; hide Privileged;
    match op {
      case OpWriteR15(dest) => UserWritesR15(c, dest);
      case OpCompare(dest) => UserCompares(c, dest);
      case OpMsr(opcode, value) => UserMsr(c, opcode, value);
      case OpMsrSpsr(opcode, value) =>
        InvPointers(c, 0);
        UserSets(c, 0, value, opcode);
      case OpJump(dest) => JumpKeeps(c, dest);
      case OpSet(i, v) =>
        InvPointers(c, i);
        UserSets(c, i, v, 0);
      case OpSetUser(i, v) =>
        InvPointers(c, i);
        UserSets(c, i, v, 0);
      case OpMrs(i) => MrsReads(c, i);
    }
  }

  lemma UserWritesR15(c: Cpu, dest: bv32)
    requires Inv(c) && !Privileged(c.mode)
    ensures WriteR15(c, dest).mode == c.mode && Bits(WriteR15(c, dest)) & 0xc0 == Bits(c) & 0xc0
  {
    hide Follow; hide Index; hide Pointing; hide KindOf; hide Ahead;
    Replaced(c.reg[15], Ahead(dest));
  }

  lemma UserCompares(c: Cpu, dest: bv32)
    requires Inv(c) && !Privileged(c.mode)
    ensures CompareRd15(c, dest).mode == c.mode && Bits(CompareRd15(c, dest)) & 0xc0 == Bits(c) & 0xc0
  {
    hide Switch; hide Index; hide Pointing; hide KindOf;
  }

  lemma UserSets(c: Cpu, i: nat, v: bv32, opcode: bv32)
    requires i < 15 && c.usr[i].i == i
    ensures SetReg(c, i, v).mode == c.mode && Bits(SetReg(c, i, v)) == Bits(c)
    ensures SetUser(c, i, v).mode == c.mode && Bits(SetUser(c, i, v)) == Bits(c)
    ensures WriteSpsr(c, opcode, v).mode == c.mode && Bits(WriteSpsr(c, opcode, v)) == Bits(c)
  {
    hide Mode32; hide Index; hide MsrPsr; hide HasSpsr;
  }

  lemma UserMsr(c: Cpu, opcode: bv32, value: bv32)
    requires Inv(c) && !Privileged(c.mode)
    ensures WriteCpsr(c, opcode, value).mode == c.mode && Bits(WriteCpsr(c, opcode, value)) & 0xc0 == Bits(c) & 0xc0
  {
    hide Switch; hide Pointing; hide KindOf; hide MsrPsr; hide MsrR15;
    var op := FlagsOnly(opcode);
    UserOpcode(opcode);
    MsrMode(c.reg[16], c.reg[15], op, value);
    MsrDisables(c.reg[16], c.reg[15], op, value);
  }

  lemma MsrDisables(psr: bv32, r15: bv32, op: bv32, value: bv32)
    requires op & 0x1_0000 == 0
    ensures MsrPsr(psr, op, value) & 0xc0 == psr & 0xc0 && (MsrR15(r15, op, value) >> 20) & 0xc0 == (r15 >> 20) & 0xc0
  {
    FieldMaskIs(op);
    hide FieldMask;
  }

  // ---- exception and return ----

  /** States that differ only in R14 of the current mode, R15 and reg[16] agree on every other register. */
  lemma SameValues(a: Cpu, b: Cpu, k: Kind, i: nat)
    requires a.mode == b.mode && a.banks == b.banks && a.reg[..14] == b.reg[..14]
    requires k != Reserved && i < 15 && (i == 14 ==> k != KindOf(a.mode))
    ensures Value(a, k, i) == Value(b, k, i)
  {
    hide KindOf;
    assert i < 14 ==> a.reg[i] == a.reg[..14][i] && b.reg[i] == b.reg[..14][i];
  }

  /** The mode a return goes to. */
  function Target(e: Cpu, r15: bv32): bv32 {
    if Mode32(e.mode) then Names32(e.spsr[Index(e.mode)]) else Names26(r15)
  }

  /** The state a return leads to, before the mode is changed. */
  function Written(e: Cpu, r15: bv32): Cpu {
    e.(reg := e.reg[15 := r15][16 := if Mode32(e.mode) then e.spsr[Index(e.mode)] else e.reg[16]])
  }

  function Resume(c: Cpu, m: bv32): Cpu { if m != c.mode then Switch(c, m) else c }

  lemma ReturnResumes(e: Cpu, r15: bv32)
    requires e.size == SizeOf(e.mode) && Privileged(e.mode)
    ensures Return(e, r15) == Resume(Written(e, r15), Target(e, r15))
  {
    hide Switch; hide Index;
    assert !Mode32(e.mode) ==> e.reg[15 := r15][16 := e.reg[16]] == e.reg[15 := r15];
  }

  /** Banked registers survive the way back. */
  lemma ResumeValues(c: Cpu, m: bv32, k: Kind, i: nat)
    requires KindOf(c.mode) != Reserved && KindOf(m) != Reserved && k != Reserved && i < 15
    ensures Value(Resume(c, m), k, i) == Value(c, k, i)
  {
    hide Switch; hide KindOf; hide Value;
    if m != c.mode { SwitchKeeps(c, m, k, i); }
  }

  /** R15, reg[16] and the SPSRs after a change of mode. */
  lemma SwitchedPsr(c: Cpu, m: bv32)
    ensures var d := Switch(c, m);
            && d.mode == m && d.size == SizeOf(m) && d.spsr == c.spsr
            && d.reg[15] == Settle15(c.reg[15], c.reg[16], c.mode, m)
            && d.reg[16] == Settle16(c.reg[15], c.reg[16], c.mode, m)
  {
    hide StoreBack; hide KindOf; hide Pointing; hide Settle15; hide Settle16; hide OwnPair; hide SizeOf;
    var banks := StoreBack(c.banks, c.reg, KindOf(c.mode));
    var reg := LoadBank(c.reg, banks, KindOf(m));
    assert reg[15] == c.reg[15] && reg[16] == c.reg[16];
  }

  /** R15, reg[16] and the SPSRs after a return. */
  lemma ResumedPsr(e: Cpu, r15: bv32)
    requires e.size == SizeOf(e.mode) && Privileged(e.mode)
    ensures var r := Return(e, r15);
            var m := Target(e, r15);
            var psr := if Mode32(e.mode) then e.spsr[Index(e.mode)] else e.reg[16];
            && r.mode == m && r.size == SizeOf(m) && r.spsr == e.spsr
            && r.reg[15] == (if m != e.mode then Settle15(r15, psr, e.mode, m) else r15)
            && r.reg[16] == (if m != e.mode then Settle16(r15, psr, e.mode, m) else psr)
  {
    hide Switch; hide Index; hide Settle15; hide Settle16; hide Return; hide Target;
    ReturnResumes(e, r15);
    SwitchedPsr(Written(e, r15), Target(e, r15));
  }

  lemma WriteR15Values(e: Cpu, dest: bv32, k: Kind, i: nat)
    requires e.size == SizeOf(e.mode) && Privileged(e.mode)
    requires KindOf(e.mode) != Reserved && KindOf(Target(e, NewR15(e, dest))) != Reserved
    requires k != Reserved && i < 15 && (i == 14 ==> k != KindOf(e.mode))
    ensures Value(WriteR15(e, dest), k, i) == Value(e, k, i)
  {
    hide Value; hide Return; hide NewR15; hide Index; hide KindOf; hide Target; hide Resume; hide Mode32;
    var r15 := NewR15(e, dest);
    ReturnResumes(e, r15);
    ResumeValues(Written(e, r15), Target(e, r15), k, i);
    SameValues(Written(e, r15), e, k, i);
  }

  lemma InHandler32(c: Cpu, mmode: bv32, address: bv32, link: bv32)
    requires Mode32(c.mode) && Vector(mmode, address, 0)
    ensures var e := Enter32(c, mmode, address, link);
            && e.mode == Wide(mmode) && e.size == SIZE32 && e.reg[14] == link && e.reg[15] == address
            && OtherSpsrs(e.spsr, c.spsr, mmode) && e.spsr[Index(mmode)] == c.reg[16]
  {
    hide Switch; hide Settle15; hide Settle16; hide Index; hide Disable;
    SwitchedPsr(c, Wide(mmode));
  }

  /** From a 32-bit mode. */
  lemma Return32(c: Cpu, mmode: bv32, address: bv32, link: bv32)
    requires Inv(c) && Mode32(c.mode) && Vector(mmode, address, 0)
    ensures var e := Enter32(c, mmode, address, link);
            var r := WriteR15(e, link);
            && e.mode == Wide(mmode) && e.size == SIZE32 && e.reg[14] == link && Target(e, NewR15(e, link)) == c.mode
            && r.mode == c.mode && r.reg[16] == c.reg[16] && r.reg[15] == Ahead(link) & 0xffff_fffc
            && OtherSpsrs(r.spsr, c.spsr, mmode)
  {
    hide *;
    var e := Enter32(c, mmode, address, link);
    InHandler32(c, mmode, address, link);
    VectorModes(mmode, address, 0);
    NewR15In32(e, link);
    Names32Itself(c);
    BackWithin32(e, c.mode, NewR15(e, link));
    WriteR15Is(e, link);
  }

  lemma Names32Itself(c: Cpu)
    requires Inv(c) && Mode32(c.mode)
    ensures Names32(c.reg[16]) == c.mode
  {
  }

  lemma BackWithin32(e: Cpu, m: bv32, r15: bv32)
    requires Mode32(e.mode) && Mode32(m) && Privileged(e.mode) && e.size == SIZE32 && Names32(e.spsr[Index(e.mode)]) == m
    ensures var r := Return(e, r15);
            Target(e, r15) == m && r.mode == m && r.reg[15] == r15 && r.reg[16] == e.spsr[Index(e.mode)] && r.spsr == e.spsr
  {
    hide Return; hide Index; hide Privileged;
    ResumedPsr(e, r15);
  }

  lemma Return32Values(c: Cpu, mmode: bv32, address: bv32, link: bv32, k: Kind, i: nat)
    requires Inv(c) && Mode32(c.mode) && Vector(mmode, address, 0)
    requires k != Reserved && i < 15 && (i == 14 ==> k != KindOf(Wide(mmode)))
    ensures Value(WriteR15(Enter32(c, mmode, address, link), link), k, i) == Value(c, k, i)
  {
    hide Switch; hide Value; hide WriteR15; hide NewR15; hide Target; hide Pointing; hide Index;
    Return32(c, mmode, address, link);
    VectorModes(mmode, address, 0);
    LegalKinds(c.mode);
    SwitchKeeps(c, Wide(mmode), k, i);
    hide KindOf;
    SameValues(Enter32(c, mmode, address, link), Switch(c, Wide(mmode)), k, i);
    WriteR15Values(Enter32(c, mmode, address, link), link, k, i);
  }

  lemma LegalKinds(m: bv32)
    requires Legal(m)
    ensures KindOf(m) != Reserved
  {
  }

  /** What an exception's mode number is good for. */
  lemma VectorModes(mmode: bv32, address: bv32, diff: bv32)
    requires Vector(mmode, address, diff)
    ensures Legal(Wide(mmode)) && Mode32(Wide(mmode)) && Privileged(Wide(mmode)) && KindOf(Wide(mmode)) != Reserved
    ensures Index(Wide(mmode)) == Index(mmode) && address & 3 == 0
    ensures var entered := Entered(mmode); Legal(entered) && !Mode32(entered) && Privileged(entered) && KindOf(entered) != Reserved
  {
  }

  /** The SPSRs of other modes than the handler's. */
  predicate OtherSpsrs(a: Spsrs, b: Spsrs, mmode: bv32) {
    forall j :: 0 <= j < 16 && j != Index(mmode) ==> a[j] == b[j]
  }

  /** The state in the handler, entered from a 26-bit mode. */
  lemma InHandlerFrom26(c: Cpu, mmode: bv32, address: bv32, link: bv32)
    requires !Mode32(c.mode) && Vector(mmode, address, 0)
    ensures var e := EnterFrom26(c, mmode, address, link);
            && e.mode == Wide(mmode) && e.size == SIZE32 && e.reg[14] == Pc26(link) && e.reg[15] == address
            && OtherSpsrs(e.spsr, c.spsr, mmode)
            && e.spsr[Index(mmode)] == SavedPsr(Settle16(c.reg[15], c.reg[16], c.mode, Wide(mmode)), link)
  {
    hide Switch; hide Pointing; hide KindOf; hide Index; hide Legal; hide SavedPsr; hide Settle15; hide Settle16;
    SwitchedPsr(c, Wide(mmode));
  }

  /** From a 26-bit mode into a 32-bit one. */
  lemma ReturnFrom26(c: Cpu, mmode: bv32, address: bv32, link: bv32)
    requires Inv(c) && !Mode32(c.mode) && Vector(mmode, address, 0) && Names26(link) == c.mode
    ensures var e := EnterFrom26(c, mmode, address, link);
            var r := WriteR15(e, e.reg[14]);
            && e.mode == Wide(mmode) && e.size == SIZE32 && e.reg[14] == Pc26(link)
            && Target(e, NewR15(e, e.reg[14])) == c.mode
            && r.mode == c.mode && Bits(r) == Bits(c)
            && Pc26(r.reg[15]) == Pc26(Ahead(Pc26(link)))
            && OtherSpsrs(r.spsr, c.spsr, mmode)
  {
    hide *;
    var e := EnterFrom26(c, mmode, address, link);
    InHandlerFrom26(c, mmode, address, link);
    VectorModes(mmode, address, 0);
    SavedNames(c.reg[15], c.reg[16], c.mode, Wide(mmode), link);
    NewR15In32(e, e.reg[14]);
    Low26(c.mode, link, Ahead(Pc26(link)));
    BitsAre(c);
    BackFromHandler(e, c.mode, NewR15(e, e.reg[14]), e.spsr[Index(mmode)]);
    WriteR15Is(e, e.reg[14]);
  }

  lemma BitsAre(c: Cpu)
    ensures Bits(c) == BitsIn(c.reg[15], c.reg[16], c.mode)
  {
    hide BitsIn;
  }

  lemma WriteR15Is(c: Cpu, dest: bv32)
    ensures WriteR15(c, dest) == Return(c, NewR15(c, dest))
  {
    hide Return; hide NewR15;
  }

  lemma BackFromHandler(e: Cpu, m: bv32, r15: bv32, saved: bv32)
    requires Mode32(e.mode) && Privileged(e.mode) && e.size == SIZE32 && saved == e.spsr[Index(e.mode)]
    requires Names32(saved) == m && !Mode32(m) && Names26(m) == m
    ensures var r := Return(e, r15);
            && Target(e, r15) == m && r.mode == m && r.spsr == e.spsr && Bits(r) == saved & 0xf000_00c0
            && Pc26(r.reg[15]) == Pc26(r15)
  {
    hide Return; hide Index; hide Settle15; hide Settle16; hide BitsIn; hide Privileged;
    ResumedPsr(e, r15);
    BackTo26(r15, saved, e.mode, m);
  }

  lemma Low26(m: bv32, link: bv32, v: bv32)
    requires Names26(link) == m
    ensures Names26(m) == m && Pc26(v & 0xffff_fffc) == Pc26(v)
  {
  }

  lemma NewR15In32(e: Cpu, dest: bv32)
    requires Mode32(e.mode) && e.reg[15] & 3 == 0
    ensures NewR15(e, dest) == Ahead(dest) & 0xffff_fffc
  {
    hide Ahead;
  }

  /** The status bits saved from R15, in the form of the 32-bit PSR, and the mode with them. */
  lemma SavedNames(r15: bv32, psr: bv32, mode: bv32, to: bv32, link: bv32)
    requires !Mode32(mode) && Mode32(to) && Legal(to) && Names26(link) == mode
    ensures var saved := SavedPsr(Settle16(r15, psr, mode, to), link);
            Names32(saved) == mode && saved & 0xf000_00c0 == BitsIn(r15, psr, mode)
  {
  }

  /** Going back from a 32-bit mode puts them into R15 again. */
  lemma BackTo26(r15: bv32, psr: bv32, from: bv32, to: bv32)
    requires Mode32(from) && !Mode32(to) && Names26(to) == to
    ensures var r := Settle15(r15, psr, from, to);
            && BitsIn(r, Settle16(r15, psr, from, to), to) == psr & 0xf000_00c0
            && Pc26(r) == Pc26(r15)
  {
  }

  lemma ReturnFrom26Values(c: Cpu, mmode: bv32, address: bv32, link: bv32, k: Kind, i: nat)
    requires Inv(c) && !Mode32(c.mode) && Vector(mmode, address, 0) && Names26(link) == c.mode
    requires k != Reserved && i < 15 && (i == 14 ==> k != KindOf(Wide(mmode)))
    ensures var e := EnterFrom26(c, mmode, address, link);
            Value(WriteR15(e, e.reg[14]), k, i) == Value(c, k, i)
  {
    hide Switch; hide Value; hide WriteR15; hide NewR15; hide Target; hide Pointing; hide Index; hide KindOf;
    ReturnFrom26(c, mmode, address, link);
    VectorModes(mmode, address, 0);
    LegalKinds(c.mode);
    SwitchKeeps(c, Wide(mmode), k, i);
    var e := EnterFrom26(c, mmode, address, link);
    SameValues(e, Switch(c, Wide(mmode)), k, i);
    WriteR15Values(e, e.reg[14], k, i);
  }

  lemma InHandler26(c: Cpu, mmode: bv32, address: bv32, link: bv32)
    requires !Mode32(c.mode) && Vector(mmode, address, 0)
    ensures var e := Enter26(c, mmode, address, link);
            e.mode == Entered(mmode) && e.size == SIZE26 && e.reg[14] == link && e.spsr == c.spsr
  {
    hide Switch; hide Settle15; hide Settle16; hide Index;
    SwitchedPsr(c, Entered(mmode));
  }

  lemma NewR15In26(e: Cpu, dest: bv32)
    requires !Mode32(e.mode) && Privileged(e.mode)
    ensures NewR15(e, dest) == Ahead(dest)
  {
    hide Ahead;
  }

  /** From a 26-bit mode into a 26-bit one: R15 comes back whole. */
  lemma Return26(c: Cpu, mmode: bv32, address: bv32, link: bv32)
    requires Inv(c) && !Mode32(c.mode) && Vector(mmode, address, 0)
    ensures var e := Enter26(c, mmode, address, link);
            var r := WriteR15(e, link);
            && e.mode == Entered(mmode) && e.size == SIZE26 && e.reg[14] == link
            && Target(e, NewR15(e, link)) == Names26(Ahead(link))
            && r.mode == Names26(Ahead(link)) && r.reg[15] == Ahead(link) && r.spsr == c.spsr
  {
    hide *;
    var e := Enter26(c, mmode, address, link);
    InHandler26(c, mmode, address, link);
    VectorModes(mmode, address, 0);
    NewR15In26(e, link);
    BackWithin26(e, Ahead(link));
    WriteR15Is(e, link);
  }

  lemma BackWithin26(e: Cpu, r15: bv32)
    requires !Mode32(e.mode) && Privileged(e.mode) && e.size == SIZE26
    ensures var r := Return(e, r15);
            Target(e, r15) == Names26(r15) && r.mode == Names26(r15) && r.reg[15] == r15 && r.spsr == e.spsr
  {
    hide Return; hide Index; hide Settle16; hide Privileged;
    ResumedPsr(e, r15);
  }

  lemma Return26Values(c: Cpu, mmode: bv32, address: bv32, link: bv32, k: Kind, i: nat)
    requires Inv(c) && !Mode32(c.mode) && Vector(mmode, address, 0)
    requires k != Reserved && i < 15 && (i == 14 ==> k != KindOf(Entered(mmode)))
    ensures Value(WriteR15(Enter26(c, mmode, address, link), link), k, i) == Value(c, k, i)
  {
    hide Switch; hide Value; hide WriteR15; hide NewR15; hide Target; hide Pointing; hide Index; hide KindOf;
    Return26(c, mmode, address, link);
    VectorModes(mmode, address, 0);
    LegalKinds(c.mode);
    LegalKinds(Names26(Ahead(link)));
    SwitchKeeps(c, Entered(mmode), k, i);
    var e := Enter26(c, mmode, address, link);
    SameValues(e, Switch(c, Entered(mmode)), k, i);
    WriteR15Values(e, link, k, i);
  }

  /** The arithmetic of the return address. */
  lemma LinkArithmetic(r15: bv32, diff: bv32)
    requires diff == 0 || diff == 4
    ensures Names26(Link(r15, diff)) == Names26(r15) && Names26(Ahead(Link(r15, diff))) == Names26(r15)
    ensures Pc26(Ahead(Pc26(Link(r15, diff)))) == Pc26(Ahead(Link(r15, diff)))
    ensures r15 & 3 == 0 ==> Ahead(Link(r15, diff)) & 0xffff_fffc == Ahead(Link(r15, diff))
  {
  }

  lemma LinkBack(r15: bv32)
    ensures Ahead(Link(r15, 4)) == r15 && Ahead(Link(r15, 0)) == r15 + 4
  {
  }

  lemma CarriesOut(r15: bv32)
    requires r15 & 0x3ff_fffc == 0x3ff_fffc
    ensures (r15 + 4) & 0xfc00_0000 != r15 & 0xfc00_0000
  {
  }

  lemma CarriesNot(r15: bv32)
    requires r15 & 0x3ff_fffc != 0x3ff_fffc
    ensures (r15 + 4) & 0xfc00_0000 == r15 & 0xfc00_0000
  {
  }

  /** Status bits survive the return address's addition unless it carries out of the PC field. */
  lemma NoCarry(r15: bv32, diff: bv32, v: bv32)
    requires (diff == 0 || diff == 4) && v == Ahead(Link(r15, diff))
    ensures v & 0xfc00_0000 == r15 & 0xfc00_0000 <==> !(diff == 0 && r15 & 0x3ff_fffc == 0x3ff_fffc)
  {
    hide Ahead; hide Link;
    LinkBack(r15);
    if diff == 0 {
      if r15 & 0x3ff_fffc == 0x3ff_fffc { CarriesOut(r15); } else { CarriesNot(r15); }
    }
  }

  /** The mode of the handler. */
  function HandlerMode(c: Cpu, prog32: bool, mmode: bv32): bv32 {
    if Mode32(c.mode) || prog32 then Wide(mmode) else Entered(mmode)
  }

  /**
   An exception and its return. Whatever the mode, the configuration and the exception: the mode
   is restored, R15 is the instruction after the link, and every register of every mode keeps its
   value but the handler's own R14; the SPSRs keep theirs but for the handler's own. N, Z, C, V, I
   and F are restored too, if and only if the return address does not carry out of a 26-bit
   configuration's PC field.
   */
  lemma ExceptionReturn(c: Cpu, prog32: bool, mmode: bv32, address: bv32, diff: bv32)
    requires Inv(c) && Vector(mmode, address, diff)
    ensures var e := Exception(c, prog32, mmode, address, diff);
            Restored(c, WriteR15(e, e.reg[14]), mmode, diff, Mode32(c.mode) || prog32) && e.mode == HandlerMode(c, prog32, mmode)
  {
    hide WriteR15; hide Enter32; hide EnterFrom26; hide Enter26; hide Inv; hide Mode32; hide Link; hide Restored;
    var link := Link(c.reg[15], diff);
    if Mode32(c.mode) {
      Restored32(c, mmode, address, diff);
    } else if prog32 {
      RestoredFrom26(c, mmode, address, diff);
    } else {
      Restored26(c, mmode, address, diff);
    }
  }

  /** What the return brings back; `wide` when the handler ran in a 32-bit mode. */
  predicate Restored(c: Cpu, r: Cpu, mmode: bv32, diff: bv32, wide: bool) {
    && r.mode == c.mode
    && r.reg[15] & SizeOf(c.mode).r15mask == Ahead(Link(c.reg[15], diff)) & SizeOf(c.mode).r15mask
    && (Bits(r) == Bits(c) <==> wide || !(diff == 0 && c.reg[15] & 0x3ff_fffc == 0x3ff_fffc))
    && OtherSpsrs(r.spsr, c.spsr, mmode)
  }

  lemma VectorAny(mmode: bv32, address: bv32, diff: bv32)
    requires Vector(mmode, address, diff)
    ensures Vector(mmode, address, 0) && (diff == 0 || diff == 4)
  {
  }

  lemma Restored32(c: Cpu, mmode: bv32, address: bv32, diff: bv32)
    requires Inv(c) && Vector(mmode, address, diff) && Mode32(c.mode)
    ensures var link := Link(c.reg[15], diff);
            var e := Enter32(c, mmode, address, link);
            Restored(c, WriteR15(e, e.reg[14]), mmode, diff, true) && e.mode == Wide(mmode)
  {
    hide *;
    VectorAny(mmode, address, diff);
    var link := Link(c.reg[15], diff);
    Return32(c, mmode, address, link);
    RestoredWide(c, WriteR15(Enter32(c, mmode, address, link), link), mmode, diff);
  }

  /** Back in a 32-bit mode. */
  lemma RestoredWide(c: Cpu, r: Cpu, mmode: bv32, diff: bv32)
    requires Mode32(c.mode) && r.mode == c.mode && r.reg[16] == c.reg[16] && OtherSpsrs(r.spsr, c.spsr, mmode)
    requires r.reg[15] == Ahead(Link(c.reg[15], diff)) & 0xffff_fffc
    ensures Restored(c, r, mmode, diff, true)
  {
    hide OtherSpsrs; hide Ahead; hide Link;
  }

  lemma RestoredFrom26(c: Cpu, mmode: bv32, address: bv32, diff: bv32)
    requires Inv(c) && Vector(mmode, address, diff) && !Mode32(c.mode)
    ensures var link := Link(c.reg[15], diff);
            var e := EnterFrom26(c, mmode, address, link);
            Restored(c, WriteR15(e, e.reg[14]), mmode, diff, true) && e.mode == Wide(mmode)
  {
    hide *;
    VectorAny(mmode, address, diff);
    var link := Link(c.reg[15], diff);
    LinkArithmetic(c.reg[15], diff);
    NamesItself(c);
    ReturnFrom26(c, mmode, address, link);
    var e := EnterFrom26(c, mmode, address, link);
    RestoredNarrow(c, WriteR15(e, e.reg[14]), mmode, diff);
  }

  lemma NamesItself(c: Cpu)
    requires Inv(c) && !Mode32(c.mode)
    ensures Names26(c.reg[15]) == c.mode
  {
  }

  /** Back in a 26-bit mode from a 32-bit one. */
  lemma RestoredNarrow(c: Cpu, r: Cpu, mmode: bv32, diff: bv32)
    requires !Mode32(c.mode) && r.mode == c.mode && Bits(r) == Bits(c) && OtherSpsrs(r.spsr, c.spsr, mmode)
    requires Pc26(r.reg[15]) == Pc26(Ahead(Link(c.reg[15], diff)))
    ensures Restored(c, r, mmode, diff, true)
  {
    hide OtherSpsrs; hide Ahead; hide Link; hide Bits;
  }

  lemma Restored26(c: Cpu, mmode: bv32, address: bv32, diff: bv32)
    requires Inv(c) && Vector(mmode, address, diff) && !Mode32(c.mode)
    ensures var link := Link(c.reg[15], diff);
            var e := Enter26(c, mmode, address, link);
            Restored(c, WriteR15(e, e.reg[14]), mmode, diff, false) && e.mode == Entered(mmode)
  {
    hide *;
    VectorAny(mmode, address, diff);
    var link := Link(c.reg[15], diff);
    LinkArithmetic(c.reg[15], diff);
    NamesItself(c);
    Return26(c, mmode, address, link);
    RestoredWhole(c, WriteR15(Enter26(c, mmode, address, link), link), mmode, diff);
  }

  /** Back in a 26-bit mode from a 26-bit one. */
  lemma RestoredWhole(c: Cpu, r: Cpu, mmode: bv32, diff: bv32)
    requires !Mode32(c.mode) && r.mode == c.mode && r.spsr == c.spsr && r.reg[15] == Ahead(Link(c.reg[15], diff))
    requires diff == 0 || diff == 4
    ensures Restored(c, r, mmode, diff, false)
  {
    hide Ahead; hide Link; hide BitsIn;
    NoCarry(c.reg[15], diff, r.reg[15]);
    BitsDiffer(r.reg[15], c.reg[15], r.reg[16], c.reg[16], c.mode);
  }

  lemma BitsDiffer(a: bv32, b: bv32, psr: bv32, other: bv32, m: bv32)
    requires !Mode32(m)
    ensures BitsIn(a, psr, m) == BitsIn(b, other, m) <==> a & 0xfc00_0000 == b & 0xfc00_0000
  {
  }

  lemma ExceptionReturnValues(c: Cpu, prog32: bool, mmode: bv32, address: bv32, diff: bv32, k: Kind, i: nat)
    requires Inv(c) && Vector(mmode, address, diff)
    requires k != Reserved && i < 15 && !(i == 14 && k == KindOf(HandlerMode(c, prog32, mmode)))
    ensures var e := Exception(c, prog32, mmode, address, diff);
            Value(WriteR15(e, e.reg[14]), k, i) == Value(c, k, i)
  {
    hide WriteR15; hide Enter32; hide EnterFrom26; hide Enter26; hide Pointing; hide KindOf; hide Index; hide Legal; hide NewR15; hide Target; hide Value; hide Link; hide Ahead;
    var link := Link(c.reg[15], diff);
    LinkArithmetic(c.reg[15], diff);
    if Mode32(c.mode) {
      Return32(c, mmode, address, link);
      Return32Values(c, mmode, address, link, k, i);
    } else if prog32 {
      ReturnFrom26Values(c, mmode, address, link, k, i);
    } else {
      Return26(c, mmode, address, link);
      Return26Values(c, mmode, address, link, k, i);
    }
  }

  // ---- load multiple with R15 and the S bit ----

  /** An S-set write of R15 moves no register of any mode, R14 included. */
  lemma WriteR15MovesNothing(e: Cpu, dest: bv32, k: Kind, i: nat)
    requires e.size == SizeOf(e.mode) && KindOf(e.mode) != Reserved && k != Reserved && i < 15
    requires Privileged(e.mode) ==> KindOf(Target(e, NewR15(e, dest))) != Reserved
    ensures Value(WriteR15(e, dest), k, i) == Value(e, k, i)
  {
    hide Value; hide NewR15; hide Index; hide KindOf; hide Target; hide Resume; hide Mode32; hide Follow;
    var r15 := NewR15(e, dest);
    SameBelow15(Written(e, r15), e, k, i);
    SameBelow15(e.(reg := e.reg[15 := r15]), e, k, i);
    if Privileged(e.mode) {
      ReturnResumes(e, r15);
      ResumeValues(Written(e, r15), Target(e, r15), k, i);
    }
  }

  lemma SameBelow15(a: Cpu, b: Cpu, k: Kind, i: nat)
    requires a.mode == b.mode && a.banks == b.banks && a.reg[..15] == b.reg[..15] && k != Reserved && i < 15
    ensures Value(a, k, i) == Value(b, k, i)
  {
    hide KindOf;
    assert a.reg[i] == a.reg[..15][i] && b.reg[i] == b.reg[..15][i];
  }

  /** Writing a register of the current mode. */
  lemma SetRegSets(c: Cpu, i: nat, v: bv32, k: Kind, j: nat)
    requires i < 15 && j < 15 && k != Reserved
    ensures Value(SetReg(c, i, v), k, j) == if i == j && Home(k, j) == Home(KindOf(c.mode), j) then v else Value(c, k, j)
  {
    hide KindOf;
  }

  /** The registers of a list, one after the other. */
  function LoadRegs(c: Cpu, l: seq<nat>, vs: seq<bv32>): Cpu
    requires |l| == |vs| && forall n :: 0 <= n < |l| ==> l[n] < 15
    decreases |l|
  {
    if l == [] then c else LoadRegs(SetReg(c, l[0], vs[0]), l[1..], vs[1..])
  }

  lemma {:induction false} LoadRegsKeep(c: Cpu, l: seq<nat>, vs: seq<bv32>)
    requires |l| == |vs| && forall n :: 0 <= n < |l| ==> l[n] < 15
    ensures var d := LoadRegs(c, l, vs);
            && d.mode == c.mode && d.size == c.size && d.spsr == c.spsr && d.reg[15] == c.reg[15] && d.reg[16] == c.reg[16]
            && (Inv(c) ==> Inv(d))
    decreases |l|
  {
    hide Legal; hide Pointing; hide KindOf;
    if l != [] { LoadRegsKeep(SetReg(c, l[0], vs[0]), l[1..], vs[1..]); }
  }

  lemma {:induction false} LoadRegsElsewhere(c: Cpu, l: seq<nat>, vs: seq<bv32>, k: Kind, j: nat)
    requires |l| == |vs| && (forall n :: 0 <= n < |l| ==> l[n] < 15) && k != Reserved && j < 15
    requires j !in l || Home(k, j) != Home(KindOf(c.mode), j)
    ensures Value(LoadRegs(c, l, vs), k, j) == Value(c, k, j)
    decreases |l|
  {
    hide Value; hide KindOf;
    if l != [] {
      SetRegSets(c, l[0], vs[0], k, j);
      LoadRegsElsewhere(SetReg(c, l[0], vs[0]), l[1..], vs[1..], k, j);
    }
  }

  lemma {:induction false} LoadRegsLoads(c: Cpu, l: seq<nat>, vs: seq<bv32>, i: nat)
    requires |l| == |vs| && i < |l| && (forall n :: 0 <= n < |l| ==> l[n] < 15) && KindOf(c.mode) != Reserved
    requires forall m, n :: 0 <= m < n < |l| ==> l[m] < l[n]
    ensures Value(LoadRegs(c, l, vs), KindOf(c.mode), l[i]) == vs[i]
    decreases |l|
  {
    hide Value; hide KindOf;
    var c1 := SetReg(c, l[0], vs[0]);
    if i > 0 {
      LoadRegsLoads(c1, l[1..], vs[1..], i - 1);
    } else {
      SetRegSets(c, l[0], vs[0], KindOf(c.mode), l[0]);
      LoadRegsElsewhere(c1, l[1..], vs[1..], KindOf(c.mode), l[0]);
    }
  }

  /** The base register is written back, if at all, before the first transfer. */
  function Based(c: Cpu, writes: bool, rn: nat, v: bv32): Cpu
    requires writes ==> rn < 15
  {
    if writes then SetReg(c, rn, v) else c
  }

  /** arm_load_multiple_s() with R15 in the list, when no transfer faults. */
  function LoadAndReturn(c: Cpu, writes: bool, rn: nat, v: bv32, l: seq<nat>, vs: seq<bv32>, dest: bv32): Cpu
    requires (writes ==> rn < 15) && |l| == |vs| && forall n :: 0 <= n < |l| ==> l[n] < 15
  {
    WriteR15(LoadRegs(Based(c, writes, rn, v), l, vs), dest)
  }

  /** The mode R15 or the SPSR gives back is not a reserved one. */
  predicate ReturnsLegally(c: Cpu) { Mode32(c.mode) && Privileged(c.mode) ==> Legal(c.spsr[Index(c.mode)] & 0x1f) }

  /**
   The listed registers go to the bank of the mode that executes the load, the base is written back unless it is
   listed, no other register of any mode changes, and PC, PSR and mode are those of an S-set write of R15 in that mode.
   */
  lemma LoadAndReturns(c: Cpu, writes: bool, rn: nat, v: bv32, l: seq<nat>, vs: seq<bv32>, dest: bv32, k: Kind, j: nat)
    requires Inv(c) && ReturnsLegally(c) && |l| == |vs| && (forall n :: 0 <= n < |l| ==> l[n] < 15) && (writes ==> rn < 15)
    requires (forall m, n :: 0 <= m < n < |l| ==> l[m] < l[n]) && k != Reserved && j < 15
    ensures var d := LoadAndReturn(c, writes, rn, v, l, vs, dest);
            && Inv(d) && KindOf(c.mode) != Reserved
            && (forall i :: 0 <= i < |l| ==> Value(d, KindOf(c.mode), l[i]) == vs[i])
            && (writes && rn !in l ==> Value(d, KindOf(c.mode), rn) == v)
            && ((j !in l && !(writes && j == rn)) || Home(k, j) != Home(KindOf(c.mode), j) ==> Value(d, k, j) == Value(c, k, j))
            && PsrAlike(d, WriteR15(c, dest))
  {
    hide Value; hide WriteR15; hide KindOf; hide Index; hide Inv; hide Legal; hide NewR15; hide Target; hide LoadRegs;
    var b := Based(c, writes, rn, v);
    var e := LoadRegs(b, l, vs);
    BasedKeeps(c, writes, rn, v);
    LoadRegsKeep(b, l, vs);
    WriteR15Keeps(e, dest);
    InvKinds(c);
    TargetLegal(e, dest);
    WriteR15Alike(e, c, dest);
    forall i | 0 <= i < |l| ensures Value(WriteR15(e, dest), KindOf(c.mode), l[i]) == vs[i] {
      LoadRegsLoads(b, l, vs, i);
      WriteR15MovesNothing(e, dest, KindOf(c.mode), l[i]);
    }
    if writes && rn !in l {
      LoadRegsElsewhere(b, l, vs, KindOf(c.mode), rn);
      SetRegSets(c, rn, v, KindOf(c.mode), rn);
      WriteR15MovesNothing(e, dest, KindOf(c.mode), rn);
    }
    if (j !in l && !(writes && j == rn)) || Home(k, j) != Home(KindOf(c.mode), j) {
      LoadRegsElsewhere(b, l, vs, k, j);
      if writes { SetRegSets(c, rn, v, k, j); }
      WriteR15MovesNothing(e, dest, k, j);
    }
  }

  lemma BasedKeeps(c: Cpu, writes: bool, rn: nat, v: bv32)
    requires writes ==> rn < 15
    ensures var b := Based(c, writes, rn, v);
            && b == c.(reg := b.reg, banks := b.banks) && b.reg[15] == c.reg[15] && b.reg[16] == c.reg[16] && (Inv(c) ==> Inv(b))
  {
    hide Legal; hide Pointing; hide KindOf;
  }

  /** The same PC, PSR, mode and SPSRs. */
  predicate PsrAlike(a: Cpu, b: Cpu) {
    a.reg[15] == b.reg[15] && a.reg[16] == b.reg[16] && a.mode == b.mode && a.size == b.size && a.spsr == b.spsr
  }

  /** What an S-set write of R15 makes of them does not depend on the other registers. */
  lemma WriteR15Alike(a: Cpu, b: Cpu, dest: bv32)
    requires PsrAlike(a, b)
    ensures PsrAlike(WriteR15(a, dest), WriteR15(b, dest))
  {
    hide Follow; hide Index; hide NewR15; hide Mode32; hide Privileged;
    var r15 := NewR15(a, dest);
    SameNewR15(a, b, dest);
    var c, d := a.(reg := a.reg[15 := r15]), b.(reg := b.reg[15 := r15]);
    var s := a.spsr[Index(a.mode)];
    FollowAlike(c, d);
    FollowAlike(c.(reg := c.reg[16 := s]), d.(reg := d.reg[16 := s]));
  }

  lemma SameNewR15(a: Cpu, b: Cpu, dest: bv32)
    requires a.reg[15] == b.reg[15] && a.mode == b.mode
    ensures NewR15(a, dest) == NewR15(b, dest)
  {
    hide R15Mask; hide Ahead;
  }

  lemma FollowAlike(a: Cpu, b: Cpu)
    requires PsrAlike(a, b)
    ensures PsrAlike(Follow(a), Follow(b))
  {
    hide Switch; hide Masked;
    SwitchAlike(a, b, Masked(if a.size.psr == 15 then a.reg[15] else a.reg[16], a.size.mmask));
  }

  lemma SwitchAlike(a: Cpu, b: Cpu, m: bv32)
    requires PsrAlike(a, b)
    ensures PsrAlike(Switch(a, m), Switch(b, m))
  {
    hide StoreBack; hide LoadBank; hide KindOf; hide Pointing; hide Settle15; hide Settle16; hide SizeOf;
    LoadBankTop(a.reg, StoreBack(a.banks, a.reg, KindOf(a.mode)), KindOf(m));
    LoadBankTop(b.reg, StoreBack(b.banks, b.reg, KindOf(b.mode)), KindOf(m));
  }

  lemma LoadBankTop(reg: File, b: Banks, k: Kind)
    ensures LoadBank(reg, b, k)[15] == reg[15] && LoadBank(reg, b, k)[16] == reg[16]
  {
  }

  lemma InvKinds(c: Cpu)
    requires Inv(c)
    ensures KindOf(c.mode) != Reserved && c.size == SizeOf(c.mode)
  {
  }

  lemma TargetLegal(c: Cpu, dest: bv32)
    requires Inv(c) && ReturnsLegally(c)
    ensures Privileged(c.mode) ==> KindOf(Target(c, NewR15(c, dest))) != Reserved
  {
    hide Index; hide NewR15;
    LegalKinds(NewR15(c, dest) & 3);
    if Mode32(c.mode) && Privileged(c.mode) { LegalKinds(c.spsr[Index(c.mode)] & 0x1f); }
  }

  // ---- where the property fails ----

  /** MRS to R15 from User mode keeps the interrupt-disable bits in the 26-bit mode only if they were clear. */
  lemma UserMrsExact(c: Cpu)
    requires Inv(c) && !Privileged(c.mode)
    ensures Mrs(c, 15).mode == c.mode
    ensures Bits(Mrs(c, 15)) & 0xc0 == Bits(c) & 0xc0 <==> Mode32(c.mode) || Bits(c) & 0xc0 == 0
  {
    hide Pointing; hide KindOf; hide Psr26; hide Legal;
    Psr26Clears(c.reg[15]);
  }

  lemma Psr26Clears(r15: bv32)
    ensures (Psr26(r15) >> 20) & 0xc0 == 0
  {
  }

  /** An instance, with interrupts disabled. */
  lemma MrsClearsDisable()
    ensures var c := Reset().(reg := Reset().reg[15 := 0x800_0000][16 := 0x80], mode := 0, usr := Pointing(User));
            Inv(c) && !Privileged(c.mode) && Bits(c) == 0x80 && Bits(Mrs(c, 15)) & 0xc0 == 0
  {
    hide Pointing; hide Psr26;
    Psr26Clears(0x800_0000);
  }

  /** Clearing PROG32 in a 32-bit mode keeps the invariant exactly where a 26-bit mode corresponds. */
  lemma SetProg32Exact(c: Cpu)
    requires Inv(c)
    ensures Inv(SetProg32(c, false)) <==> !Mode32(c.mode) || c.mode & 0xf <= 3
  {
    hide StoreBack; hide Pointing; hide KindOf; hide Switch; hide Settle15; hide Settle16;
    if Mode32(c.mode) {
      var m := c.mode & 0xf;
      SwitchedPsr(c, m);
      WithoutBit4(c.mode);
      if m <= 3 { SwitchSettles(c, m); }
    }
  }

  lemma WithoutBit4(m: bv32)
    requires Legal(m) && Mode32(m)
    ensures !Mode32(m & 0xf) && (Legal(m & 0xf) <==> m & 0xf <= 3)
  {
  }

  /** Such a mode: Abort. The 26-bit mode it leaves for cannot be named in R15. */
  lemma AbortWithoutProg32()
    ensures var c := Reset().(reg := Reset().reg[15 := 0][16 := 0x17], mode := 0x17, size := SIZE32, usr := Pointing(Abt));
            Inv(c) && !Inv(SetProg32(c, false))
  {
    hide Pointing; hide SetProg32;
    var c := Reset().(reg := Reset().reg[15 := 0][16 := 0x17], mode := 0x17, size := SIZE32, usr := Pointing(Abt));
    SetProg32Exact(c);
  }

  /** An interrupt with the PC at the end of the 26-bit space: after the return the F bit has changed. */
  lemma WrapLosesFlags()
    ensures var c := Reset().(reg := Reset().reg[15 := 0x3ff_ffff]);
            var r := WriteR15(Exception(c, false, 2, 0x18, 0), Exception(c, false, 2, 0x18, 0).reg[14]);
            Inv(c) && Bits(c) == 0 && Bits(r) != Bits(c)
  {
    hide Pointing; hide WriteR15; hide Exception; hide Index; hide OtherSpsrs;
    var c := Reset().(reg := Reset().reg[15 := 0x3ff_ffff]);
    ExceptionReturn(c, false, 2, 0x18, 0);
  }

  /** arm_reset(). */
  function Reset(): Cpu {
    Cpu(seq(17, i => if i == 15 then 0xc00_000b else if i == 16 then 0xd3 else 0),
        Banks(seq(15, _ => 0), seq(15, _ => 0), [0, 0], [0, 0], [0, 0], [0, 0]), seq(16, _ => 0), 3, SIZE26, Pointing(Svc))
  }

  lemma ResetInv()
    ensures Inv(Reset())
  {
    hide Pointing;
  }

  /** MSR without the control field leaves the mode alone exactly when reg[16] names it ... */
  lemma MsrFlagsMode(c: Cpu, opcode: bv32, value: bv32)
    requires Inv(c) && opcode & 0x1_0000 == 0
    ensures WriteCpsr(c, opcode, value).mode == c.mode <==> Names32(c.reg[16]) == c.mode
  {
    hide Named; hide Inv; hide MsrPsr; hide MsrR15; hide Privileged; hide Mode32; hide Names32; hide FlagsOnly;
    var op := if Privileged(c.mode) then opcode else FlagsOnly(opcode);
    UserOpcode(opcode);
    MsrMode(c.reg[16], c.reg[15], op, value);
    NamedMode(c, MsrPsr(c.reg[16], op, value), if Mode32(c.mode) then c.reg[15] else MsrR15(c.reg[15], op, value));
  }

  lemma NamedMode(c: Cpu, psr: bv32, r15: bv32)
    ensures Named(c, psr, r15).mode == Names32(psr)
  {
    hide Switch;
    SwitchedMode(c.(reg := c.reg[16 := psr][15 := r15]), psr & 0x1f);
  }

  lemma SwitchedMode(c: Cpu, m: bv32)
    ensures Switch(c, m).mode == m
  {
    hide StoreBack; hide LoadBank; hide Retype;
  }

  /** ... so the first MSR of the flags after reset goes to the 32-bit Supervisor mode. */
  lemma ResetMsr(value: bv32)
    ensures Reset().mode == 3 && WriteCpsr(Reset(), 0x8_0000, value).mode == 0x13
  {
    hide Named; hide MsrPsr; hide MsrR15; hide Pointing;
    var c := Reset();
    MsrMode(c.reg[16], c.reg[15], 0x8_0000, value);
    NamedMode(c, MsrPsr(c.reg[16], 0x8_0000, value), MsrR15(c.reg[15], 0x8_0000, value));
  }

  // ---- the processor as the source keeps it ----

  /** `for (c = lo; c < hi; c++) dst[c] = src[c]`. */
  method CopyRange(dst: seq<bv32>, src: seq<bv32>, lo: nat, hi: nat) returns (r: seq<bv32>)
    requires lo <= hi <= |dst| && hi <= |src|
    ensures r == dst[..lo] + src[lo..hi] + dst[hi..]
  {
    r := dst;
    var c := lo;
    while c < hi
      invariant lo <= c <= hi && r == dst[..lo] + src[lo..c] + dst[c..]
    {
      r := r[c := src[c]];
      c := c + 1;
    }
  }

  /** The pointers to User mode's registers, the first `shared` of them to the live ones. */
  lemma Front(a: seq<bv32>, b: seq<bv32>, hi: nat)
    requires 8 <= hi <= |a|
    ensures (a + b)[8..hi] == a[8..hi]
  {
  }

  lemma PairIn(reg: File, mid: seq<bv32>, pair: Pair)
    requires |mid| == 5
    ensures (reg[..8] + mid + reg[13..])[13 := pair[0]][14 := pair[1]] == reg[..8] + mid + pair + reg[15..]
  {
  }

  method PointRange(shared: nat) returns (r: Pointers)
    requires shared <= 15
    ensures r == Shares(shared)
  {
    var p := seq(16, i => Live(15));
    var c := 0;
    while c < shared
      invariant c <= shared && |p| == 16 && p[15] == Live(15)
      invariant forall i :: 0 <= i < c ==> p[i] == Live(i)
    {
      p := p[c := Live(c)];
      c := c + 1;
    }
    while c < 15
      invariant shared <= c <= 15 && |p| == 16 && p[15] == Live(15)
      invariant forall i :: 0 <= i < shared ==> p[i] == Live(i)
      invariant forall i :: shared <= i < c ==> p[i] == Saved(i)
    {
      p := p[c := Saved(c)];
      c := c + 1;
    }
    r := p;
  }

  class Arm {
    var reg: File
    var banks: Banks
    var spsr: Spsrs
    var mode: bv32
    var size: Size
    var usr: Pointers

    function View(): Cpu
      reads this
    {
      Cpu(reg, banks, spsr, mode, size, usr)
    }

    constructor (c: Cpu)
      ensures View() == c
    {
      reg, banks, spsr, mode, size, usr := c.reg, c.banks, c.spsr, c.mode, c.size, c.usr;
    }

    method Store()
      modifies this
      ensures View() == old(View()).(banks := StoreBack(old(banks), old(reg), KindOf(old(mode))))
    {
      hide KindOf;
      var k := KindOf(mode);
      if k == User {
        var user := CopyRange(banks.user, reg, 8, 15);
        banks := banks.(user := user);
      } else if k == Fiq {
        var fiq := CopyRange(banks.fiq, reg, 8, 15);
        banks := banks.(fiq := fiq);
      } else if k != Reserved {
        var user := CopyRange(banks.user, reg, 8, 13);
        var pair := [reg[13], reg[14]];
        assert pair == reg[13..15];
        banks := banks.(user := user);
        if k == Irq { banks := banks.(irq := pair); }
        else if k == Svc { banks := banks.(svc := pair); }
        else if k == Abt { banks := banks.(abt := pair); }
        else { banks := banks.(und := pair); }
      }
    }

    method Load(k: Kind)
      modifies this
      ensures View() == old(View()).(reg := LoadBank(old(reg), old(banks), k), usr := Pointing(k))
    {
      hide LoadBank; hide Shares;
      LoadRegisters(k);
      usr := PointRange(Shared(k));
    }

    method LoadRegisters(k: Kind)
      modifies this`reg
      ensures reg == LoadBank(old(reg), banks, k)
    {
      if k == Fiq {
        reg := CopyRange(reg, banks.fiq + reg[15..], 8, 15);
        Front(banks.fiq, old(reg)[15..], 15);
        assert banks.fiq[8..15] == banks.fiq[8..13] + banks.fiq[13..];
      } else if k == User || k == Reserved {
        reg := CopyRange(reg, banks.user + reg[15..], 8, 15);
        Front(banks.user, old(reg)[15..], 15);
        assert banks.user[8..15] == banks.user[8..13] + banks.user[13..];
      } else {
        var r := CopyRange(reg, banks.user + reg[15..], 8, 13);
        var pair := OwnPair(banks, k);
        reg := r[13 := pair[0]][14 := pair[1]];
        Front(banks.user, old(reg)[15..], 13);
        PairIn(old(reg), banks.user[8..13], pair);
      }
    }

    /** updatemode_at(). */
    method UpdateMode(m: bv32)
      modifies this
      ensures View() == Switch(old(View()), m)
    {
      hide StoreBack; hide LoadBank; hide KindOf; hide Pointing; hide Settle15; hide Settle16;
      var om := mode;
      Store();
      mode := m;
      Load(KindOf(m));
      size := if m & 0x10 != 0 then SIZE32 else SIZE26;
      var r15, psr := SettlePsr(reg[15], reg[16], om, m);
      reg := reg[15 := r15][16 := psr];
    }

    /** Take up the mode the status register names. */
    method FollowPsr()
      requires size.psr == 15 || size.psr == 16
      modifies this
      ensures View() == Follow(old(View()))
    {
      hide Switch; hide Masked;
      var named := Masked(reg[size.psr], size.mmask);
      if named != mode {
        UpdateMode(named);
      }
    }

    /** arm_write_r15(). */
    method SetR15(dest: bv32)
      requires size == SizeOf(mode)
      modifies this
      ensures View() == WriteR15(old(View()), dest)
    {
      hide Switch; hide NewR15; hide Index; hide Follow;
      reg := reg[15 := NewR15(View(), dest)];
      if Privileged(mode) {
        if Mode32(mode) {
          reg := reg[16 := spsr[Index(mode)]];
        }
        FollowPsr();
      }
    }

    /** arm_compare_rd15(). */
    method ComparePsr(dest: bv32)
      requires size == SizeOf(mode)
      modifies this
      ensures View() == CompareRd15(old(View()), dest)
    {
      hide Switch; hide Index; hide Follow;
      if Mode32(mode) {
        if Privileged(mode) { reg := reg[16 := spsr[Index(mode)]]; }
      } else {
        var mask: bv32 := if Privileged(mode) then 0xfc00_0003 else 0xf000_0000;
        reg := reg[15 := UnderMask(reg[15], mask, dest)];
      }
      FollowPsr();
    }

    /** MRS of the CPSR. */
    method ReadCpsr(i: nat)
      requires i < 16
      modifies this
      ensures View() == Mrs(old(View()), i)
    {
      hide Psr26;
      if !Mode32(mode) { reg := reg[16 := Psr26(reg[15])]; }
      reg := reg[i := reg[16]];
    }

    /** arm_write_cpsr(). */
    method SetCpsr(opcode: bv32, value: bv32)
      modifies this
      ensures View() == WriteCpsr(old(View()), opcode, value)
    {
      hide Switch; hide MsrPsr; hide MsrR15; hide Mode32; hide Privileged; hide Names32; hide FlagsOnly;
      var op := if Privileged(mode) then opcode else FlagsOnly(opcode);
      var psr, r15 := MsrFields(reg[16], reg[15], op, value);
      reg := reg[16 := psr];
      if !Mode32(mode) { reg := reg[15 := r15]; }
      assert reg == old(reg)[16 := psr][15 := if Mode32(mode) then old(reg[15]) else r15];
      var named := Names32(psr);
      if named != mode {
        UpdateMode(named);
      }
    }

    method Raise32(mmode: bv32, address: bv32, link: bv32)
      modifies this
      ensures View() == Enter32(old(View()), mmode, address, link)
    {
      hide Switch; hide Index; hide Wide; hide EnteredPsr;
      spsr := spsr[Index(mmode) := reg[16]];
      SwitchFrame(View(), old(View()), Wide(mmode));
      UpdateMode(Wide(mmode));
      reg := reg[14 := link];
      reg := reg[16 := EnteredPsr(reg[16], mmode)];
      reg := reg[15 := address];
    }

    method RaiseFrom26(mmode: bv32, address: bv32, link: bv32)
      modifies this
      ensures View() == EnterFrom26(old(View()), mmode, address, link)
    {
      hide Switch; hide Index; hide Disable; hide SavedPsr; hide Pc26; hide Wide; hide Disabled;
      SwitchFrame(View(), View(), Wide(mmode));
      UpdateMode(Wide(mmode));
      reg := reg[14 := Pc26(link)];
      spsr := spsr[Index(mmode) := SavedPsr(reg[16], link)];
      reg := reg[16 := Disabled(reg[16], mmode)];
      reg := reg[15 := address];
    }

    method Raise26(mmode: bv32, address: bv32, link: bv32)
      modifies this
      ensures View() == Enter26(old(View()), mmode, address, link)
    {
      hide Switch; hide EnteredR15; hide Entered;
      UpdateMode(Entered(mmode));
      reg := reg[14 := link];
      var r15 := VectorR15(reg[15], mmode, address);
      reg := reg[15 := r15];
    }

    /** exception(). */
    method Raise(prog32: bool, mmode: bv32, address: bv32, diff: bv32)
      modifies this
      ensures View() == Exception(old(View()), prog32, mmode, address, diff)
    {
      hide Enter32; hide EnterFrom26; hide Enter26; hide Link; hide Mode32;
      var link := Link(reg[15], diff);
      if Mode32(mode) {
        Raise32(mmode, address, link);
      } else if prog32 {
        RaiseFrom26(mmode, address, link);
      } else {
        Raise26(mmode, address, link);
      }
    }
  }

  /** A change of mode does not look at the SPSRs. */
  lemma SwitchFrame(a: Cpu, b: Cpu, m: bv32)
    requires a == b.(spsr := a.spsr)
    ensures Switch(a, m) == Switch(b, m).(spsr := a.spsr) && Switch(b, m).spsr == b.spsr
  {
    hide StoreBack; hide LoadBank; hide KindOf; hide Pointing; hide Retype;
  }

  /** R15 in a 26-bit handler, step by step. */
  method VectorR15(r15: bv32, mmode: bv32, address: bv32) returns (r: bv32)
    ensures r == EnteredR15(r15, mmode, address)
  {
    hide Disable; hide Entered;
    r := r15 & 0xfc00_0000;
    r := r | (Disable(mmode) << 20) | address | Entered(mmode);
  }

  /** reg[16] and R15 as arm_write_cpsr() writes them. */
  method MsrFields(psr: bv32, r15: bv32, op: bv32, value: bv32) returns (p: bv32, r: bv32)
    ensures p == MsrPsr(psr, op, value) && r == MsrR15(r15, op, value)
  {
    hide FieldMask; hide UnderMask; hide WithFlags; hide WithControl;
    var mask := FieldMask(op);
    p := UnderMask(psr, mask, value);
    r := r15;
    if op & 0x8_0000 != 0 { r := WithFlags(r, value); }
    if op & 0x1_0000 != 0 { r := WithControl(r, value); }
  }

  /** The status register in a change of mode, step by step. */
  method SettlePsr(r15: bv32, psr: bv32, om: bv32, m: bv32) returns (r: bv32, p: bv32)
    ensures r == Settle15(r15, psr, om, m) && p == Settle16(r15, psr, om, m)
  {
    r, p := r15, psr;
    if Mode32(m) {
      if !Mode32(om) { r, p := To32(r, m); }
    } else {
      p := (p & 0xffff_ffe0) | m;
      if Mode32(om) { r := To26(r, p, m); }
    }
  }

  method To32(r15: bv32, m: bv32) returns (r: bv32, p: bv32)
    ensures r == r15 & 0x3ff_fffc && p == (r15 & 0xf000_0000) | m | ((r15 & 0xc00_0000) >> 20)
  {
    p := (r15 & 0xf000_0000) | m;
    p := p | ((r15 & 0xc00_0000) >> 20);
    r := r15 & 0x3ff_fffc;
  }

  method To26(r15: bv32, psr: bv32, m: bv32) returns (r: bv32)
    ensures r == (r15 & 0x3ff_fffc) | (m & 3) | (psr & 0xf000_0000) | ((psr & 0xc0) << 20)
  {
    r := r15 & 0x3ff_fffc;
    r := r | (m & 3);
    r := r | (psr & 0xf000_0000);
    r := r | ((psr & 0xc0) << 20);
  }
}
