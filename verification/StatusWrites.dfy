/**
 What the instructions that write the status register leave in it (arm_write_r15, arm_compare_rd15 and arm_write_cpsr
 in arm_common.h): the status bits, the mode and the program counter, wherever the mode keeps them.
 */
module StatusWrites {
  import opened Modes

  // ---- parts of R15 and of a PSR ----

  /** N, Z, C, V, I and F of a 26-bit R15, and of a 32-bit PSR, in the places of the PSR. */
  function Of26(r15: bv32): bv32 { (r15 & 0xf000_0000) | ((r15 >> 20) & 0xc0) }
  function Of32(psr: bv32): bv32 { psr & 0xf000_00c0 }

  function Conditions(bits: bv32): bv32 { bits & 0xf000_0000 }
  function Disables(bits: bv32): bv32 { bits & 0xc0 }

  /** The whole words of an address. */
  function Aligned(v: bv32): bv32 { v & 0xffff_fffc }

  lemma BitsInIs(r15: bv32, psr: bv32, m: bv32)
    ensures BitsIn(r15, psr, m) == if Mode32(m) then Of32(psr) else Of26(r15)
  {
    hide Mode32;
  }

  lemma Parts(r15: bv32, v: bv32)
    ensures Pc26(Aligned(v)) == Pc26(v)
    ensures Legal(Names26(v)) && !Mode32(Names26(v))
  {
  }

  /** The three masks of an S-set write of R15: 32-bit modes, privileged 26-bit modes, User mode. */
  lemma Masks(r15: bv32, v: bv32)
    ensures r15 & 3 == 0 ==> UnderMask(r15, 0xffff_fffc, v) == Aligned(v)
    ensures UnderMask(r15, 0xffff_ffff, v) == v
    ensures var n := UnderMask(r15, 0xf3ff_fffc, v);
            Conditions(Of26(n)) == Conditions(v) && Disables(Of26(n)) == Disables(Of26(r15)) && Pc26(n) == Pc26(v)
  {
  }

  lemma NewR15Parts(c: Cpu, dest: bv32)
    requires Inv(c)
    ensures var n, v := NewR15(c, dest), Ahead(dest);
            && (Mode32(c.mode) ==> n == Aligned(v))
            && (!Mode32(c.mode) && Privileged(c.mode) ==> n == v)
            && (!Mode32(c.mode) && !Privileged(c.mode) ==>
                  Conditions(Of26(n)) == Conditions(v) && Disables(Of26(n)) == Disables(Of26(c.reg[15])) && Pc26(n) == Pc26(v))
  {
    hide UnderMask; hide Ahead; hide Mode32; hide Privileged; hide Conditions; hide Disables; hide Of26; hide Pc26; hide Aligned; hide Legal; hide Pointing; hide KindOf;
    Masks(c.reg[15], Ahead(dest));
  }

  // ---- taking up a mode ----

  function Naming(c: Cpu): bv32 { Masked(if c.size.psr == 15 then c.reg[15] else c.reg[16], c.size.mmask) }

  /** Taking up the mode that is named keeps the status bits and the PC. */
  lemma FollowStatus(c: Cpu)
    requires Legal(Naming(c))
    ensures var d, m := Follow(c), Naming(c);
            && d.mode == m && Bits(d) == Bits(c)
            && (Mode32(m) == Mode32(c.mode) ==> d.reg[15] == c.reg[15])
            && (!Mode32(m) && Mode32(c.mode) ==> Pc26(d.reg[15]) == Pc26(c.reg[15]))
  {
    hide Switch; hide Bits; hide Legal; hide Settle15; hide Settle16; hide Mode32; hide Masked; hide Pc26;
    SwitchKeepsBits(c, Naming(c));
    SwitchedPsr(c, Naming(c));
    SettledPc(c.reg[15], c.reg[16], c.mode, Naming(c));
  }

  lemma SettledPc(r15: bv32, psr: bv32, from: bv32, to: bv32)
    ensures Mode32(to) == Mode32(from) ==> Settle15(r15, psr, from, to) == r15
    ensures !Mode32(to) && Mode32(from) ==> Pc26(Settle15(r15, psr, from, to)) == Pc26(r15)
  {
  }

  /** Which mode that is. */
  lemma NamingIs(c: Cpu)
    requires c.size == SizeOf(c.mode)
    ensures Naming(c) == if Mode32(c.mode) then Names32(c.reg[16]) else Names26(c.reg[15])
  {
    hide Mode32;
  }

  // ---- R15 written with the S bit ----

  /** R15 written without a change of status: what the two word sizes keep of it. */
  predicate PcIs(d: Cpu, v: bv32) { Pc26(d.reg[15]) == Pc26(v) && (Mode32(d.mode) ==> d.reg[15] == Aligned(v)) }

  /** From User mode: the PC, and in the 26-bit mode the condition flags; I, F and the mode stay. */
  lemma UserWritesR15(c: Cpu, dest: bv32)
    requires Inv(c) && !Privileged(c.mode)
    ensures var d, v := WriteR15(c, dest), dest + 4;
            && d.mode == c.mode && PcIs(d, v) && Disables(Bits(d)) == Disables(Bits(c))
            && Conditions(Bits(d)) == if Mode32(c.mode) then Conditions(Bits(c)) else Conditions(v)
  {
    hide NewR15; hide Inv; hide BitsIn; hide Mode32; hide Conditions; hide Disables; hide Of26; hide Of32; hide Pc26; hide Aligned; hide Privileged;
    var r15 := NewR15(c, dest);
    NewR15Parts(c, dest);
    BitsInIs(r15, c.reg[16], c.mode);
    BitsInIs(c.reg[15], c.reg[16], c.mode);
    Parts(r15, dest + 4);
  }

  /** From a privileged 26-bit mode: PC, flags, I, F and mode, all of R15. */
  lemma Privileged26WritesR15(c: Cpu, dest: bv32)
    requires Inv(c) && Privileged(c.mode) && !Mode32(c.mode)
    ensures var d, v := WriteR15(c, dest), dest + 4;
            d.mode == Names26(v) && Bits(d) == Of26(v) && d.reg[15] == v
  {
    hide NewR15; hide BitsIn; hide Mode32; hide Of26; hide Of32; hide Pc26; hide Aligned; hide Privileged; hide Follow; hide Legal; hide Pointing; hide KindOf; hide SizeOf; hide Naming; hide Names26; hide Index;
    var r15 := NewR15(c, dest);
    var c1 := c.(reg := c.reg[15 := r15]);
    NewR15Parts(c, dest);
    Parts(r15, r15);
    NamingIs(c1);
    FollowStatus(c1);
    BitsInIs(c1.reg[15], c1.reg[16], c1.mode);
  }

  /** From a privileged 32-bit mode: the PC, and status and mode from the SPSR of the mode. */
  lemma Privileged32WritesR15(c: Cpu, dest: bv32)
    requires Inv(c) && Privileged(c.mode) && Mode32(c.mode) && ReturnsLegally(c)
    ensures var d, v, s := WriteR15(c, dest), dest + 4, c.spsr[Index(c.mode)];
            d.mode == Names32(s) && Bits(d) == Of32(s) && PcIs(d, v)
  {
    hide NewR15; hide BitsIn; hide Mode32; hide Of26; hide Of32; hide Pc26; hide Aligned; hide Privileged; hide Follow; hide Legal; hide Pointing; hide KindOf; hide SizeOf; hide Naming; hide Index; hide Names32;
    var r15 := NewR15(c, dest);
    var c2 := c.(reg := c.reg[15 := r15][16 := c.spsr[Index(c.mode)]]);
    NewR15Parts(c, dest);
    NamingIs(c2);
    SavedIsLegal(c);
    FollowStatus(c2);
    BitsInIs(c2.reg[15], c2.reg[16], c2.mode);
    Parts(r15, dest + 4);
  }

  lemma SavedIsLegal(c: Cpu)
    requires ReturnsLegally(c) && Mode32(c.mode) && Privileged(c.mode)
    ensures Legal(Names32(c.spsr[Index(c.mode)]))
  {
    hide Legal; hide Index;
  }

  // ---- TSTP, TEQP, CMPP and CMNP ----

  /** The bits of R15 that a comparison with P replaces: flags, disables and mode ... */
  lemma CompareMask(r15: bv32, v: bv32)
    ensures var n := UnderMask(r15, 0xfc00_0003, v); Names26(n) == Names26(v) && Pc26(n) == Pc26(r15)
    ensures Of26(UnderMask(r15, 0xfc00_0003, v)) == Of26(v)
  {
  }

  /** ... or the flags alone in User mode. */
  lemma UserCompareMask(r15: bv32, v: bv32)
    ensures var n := UnderMask(r15, 0xf000_0000, v);
            Conditions(Of26(n)) == Conditions(v) && Disables(Of26(n)) == Disables(Of26(r15)) && Names26(n) == Names26(r15) && Pc26(n) == Pc26(r15)
  {
    TopNibble(r15, v);
    BelowNibble(r15, v);
    NibbleApart(r15, v);
  }

  lemma TopNibble(r15: bv32, v: bv32)
    ensures Conditions(Of26(UnderMask(r15, 0xf000_0000, v))) == Conditions(v)
  {
  }

  lemma BelowNibble(r15: bv32, v: bv32)
    ensures Names26(UnderMask(r15, 0xf000_0000, v)) == Names26(r15) && Pc26(UnderMask(r15, 0xf000_0000, v)) == Pc26(r15)
  {
  }

  lemma NibbleApart(r15: bv32, v: bv32)
    ensures Disables(Of26(UnderMask(r15, 0xf000_0000, v))) == Disables(Of26(r15))
  {
  }

  /** In a 26-bit mode the result is the new status, in User mode only its flags; the PC stays. */
  lemma Compares26(c: Cpu, dest: bv32)
    requires Inv(c) && !Mode32(c.mode)
    ensures var d := CompareRd15(c, dest);
            && Pc26(d.reg[15]) == Pc26(c.reg[15])
            && (Privileged(c.mode) ==> d.mode == Names26(dest) && Bits(d) == Of26(dest))
            && (!Privileged(c.mode) ==> d.mode == c.mode && Conditions(Bits(d)) == Conditions(dest) && Disables(Bits(d)) == Disables(Bits(c)))
  {
    hide BitsIn; hide Mode32; hide Of26; hide Of32; hide Pc26; hide Privileged; hide Follow; hide Legal; hide Pointing; hide KindOf; hide SizeOf; hide Naming; hide UnderMask; hide Names26; hide Conditions; hide Disables; hide Names32;
    var n := UnderMask(c.reg[15], if Privileged(c.mode) then 0xfc00_0003 else 0xf000_0000, dest);
    var c1 := c.(reg := c.reg[15 := n]);
    CompareMask(c.reg[15], dest);
    UserCompareMask(c.reg[15], dest);
    Parts(n, n);
    InvNames(c);
    NamingIs(c1);
    FollowStatus(c1);
    BitsInIs(n, c.reg[16], c.mode);
    BitsInIs(c.reg[15], c.reg[16], c.mode);
  }

  lemma InvNames(c: Cpu)
    requires Inv(c)
    ensures if Mode32(c.mode) then Names32(c.reg[16]) == c.mode else Names26(c.reg[15]) == c.mode
    ensures c.size == SizeOf(c.mode) && Legal(c.mode)
  {
    hide Legal; hide Pointing; hide KindOf; hide SizeOf;
  }

  /** In a privileged 32-bit mode the SPSR is, and in the User mode nothing; the PC stays. */
  lemma Compares32(c: Cpu, dest: bv32)
    requires Inv(c) && Mode32(c.mode) && ReturnsLegally(c)
    ensures var d, s := CompareRd15(c, dest), c.spsr[Index(c.mode)];
            && Pc26(d.reg[15]) == Pc26(c.reg[15]) && (Mode32(d.mode) ==> d.reg[15] == c.reg[15])
            && (Privileged(c.mode) ==> d.mode == Names32(s) && Bits(d) == Of32(s))
            && (!Privileged(c.mode) ==> d.mode == c.mode && Bits(d) == Bits(c))
  {
    hide BitsIn; hide Mode32; hide Of26; hide Of32; hide Pc26; hide Privileged; hide Follow; hide Legal; hide Pointing; hide KindOf; hide SizeOf; hide Naming; hide UnderMask; hide Names26; hide Names32; hide Index;
    var s := c.spsr[Index(c.mode)];
    var c1 := if Privileged(c.mode) then c.(reg := c.reg[16 := s]) else c;
    InvNames(c);
    if Privileged(c.mode) { SavedIsLegal(c); }
    NamingIs(c1);
    FollowStatus(c1);
    BitsInIs(c1.reg[15], c1.reg[16], c.mode);
    BitsInIs(c.reg[15], c.reg[16], c.mode);
  }

  // ---- MSR ----

  const FLAGS: bv32 := 0x8_0000      // the field bits of the opcode
  const CONTROL: bv32 := 0x1_0000

  /** The fields MSR writes: the flags if they are asked for, and I, F and the mode for a privileged mode that asks for them. */
  predicate WritesFlags(op: bv32) { op & FLAGS != 0 }
  predicate WritesControl(c: Cpu, op: bv32) { op & CONTROL != 0 && Privileged(c.mode) }

  lemma MsrPsrParts(psr: bv32, op: bv32, value: bv32)
    ensures var n := MsrPsr(psr, op, value);
            && Conditions(Of32(n)) == Conditions(Of32(if op & FLAGS != 0 then value else psr))
            && Disables(Of32(n)) == Disables(Of32(if op & CONTROL != 0 then value else psr))
            && Names32(n) == Names32(if op & CONTROL != 0 then value else psr)
  {
    hide FieldMask; hide UnderMask; hide Conditions; hide Disables; hide Of32; hide Names32;
    FieldMaskIs(op);
    var f, c := op & FLAGS != 0, op & CONTROL != 0;
    FlagsUnder(psr, f, c, value);
    DisablesUnder(psr, f, c, value);
    ModeUnder(psr, f, c, value);
  }

  /** The mask of the fields asked for. */
  function Fields(flags: bool, control: bool): bv32 { (if control then 0xdf else 0) | (if flags then 0xf000_0000 else 0) }

  lemma FlagsUnder(psr: bv32, flags: bool, control: bool, value: bv32)
    ensures Conditions(Of32(UnderMask(psr, Fields(flags, control), value))) == Conditions(Of32(if flags then value else psr))
  {
  }

  lemma DisablesUnder(psr: bv32, flags: bool, control: bool, value: bv32)
    ensures Disables(Of32(UnderMask(psr, Fields(flags, control), value))) == Disables(Of32(if control then value else psr))
  {
  }

  lemma ModeUnder(psr: bv32, flags: bool, control: bool, value: bv32)
    ensures Names32(UnderMask(psr, Fields(flags, control), value)) == Names32(if control then value else psr)
  {
  }

  lemma MsrR15Parts(r15: bv32, op: bv32, value: bv32)
    ensures var n := MsrR15(r15, op, value);
            && Pc26(n) == Pc26(r15)
            && Conditions(Of26(n)) == (if op & FLAGS != 0 then Conditions(value) else Conditions(Of26(r15)))
            && Disables(Of26(n)) == (if op & CONTROL != 0 then Disables(value) else Disables(Of26(r15)))
  {
    var a := if op & 0x8_0000 != 0 then WithFlags(r15, value) else r15;
    WithFlagsParts(r15, value);
    WithControlParts(a, value);
    hide Pc26; hide Of26; hide Conditions; hide Disables; hide WithFlags; hide WithControl;
  }

  lemma WithFlagsParts(r15: bv32, value: bv32)
    ensures var n := WithFlags(r15, value);
            Pc26(n) == Pc26(r15) && Conditions(Of26(n)) == Conditions(value) && Disables(Of26(n)) == Disables(Of26(r15))
  {
  }

  lemma WithControlParts(r15: bv32, value: bv32)
    ensures var n := WithControl(r15, value);
            Pc26(n) == Pc26(r15) && Conditions(Of26(n)) == Conditions(Of26(r15)) && Disables(Of26(n)) == Disables(value)
  {
  }

  /**
   MSR CPSR: the flags are those of the value if the flag field is written; I, F and the mode are the value's if a
   privileged mode writes the control field; the rest stays, the mode being the one reg[16] names.
   */
  lemma MsrWrites(c: Cpu, opcode: bv32, value: bv32)
    requires Inv(c) && (WritesControl(c, opcode) ==> Legal(value & 0x1f))
    ensures var d := WriteCpsr(c, opcode, value);
            && Conditions(Bits(d)) == (if WritesFlags(opcode) then Conditions(value) else Conditions(Bits(c)))
            && Disables(Bits(d)) == (if WritesControl(c, opcode) then Disables(value) else Disables(Bits(c)))
            && d.mode == Names32(if WritesControl(c, opcode) then value else c.reg[16])
            && Pc26(d.reg[15]) == Pc26(c.reg[15]) && (Mode32(d.mode) && Mode32(c.mode) ==> d.reg[15] == c.reg[15])
  {
    hide Named; hide BitsIn; hide MsrPsr; hide MsrR15; hide Conditions; hide Disables; hide Of26; hide Of32; hide Pc26; hide Names32; hide Mode32; hide Legal; hide Inv; hide FlagsOnly; hide Privileged; hide WritesFlags;
    hide WritesControl;
    var op := if Privileged(c.mode) then opcode else FlagsOnly(opcode);
    FieldsAsked(c, opcode);
    MsrPsrParts(c.reg[16], op, value);
    MsrR15Parts(c.reg[15], op, value);
    PsrConditions(value, c.reg[16]);
    NamesLegal(c, value);
    var psr, r15 := MsrPsr(c.reg[16], op, value), if Mode32(c.mode) then c.reg[15] else MsrR15(c.reg[15], op, value);
    NamedStatus(c, psr, r15);
    BitsInIs(r15, psr, c.mode);
    BitsInIs(c.reg[15], c.reg[16], c.mode);
  }

  lemma FieldsAsked(c: Cpu, opcode: bv32)
    ensures var op := if Privileged(c.mode) then opcode else FlagsOnly(opcode);
            (op & FLAGS != 0 <==> WritesFlags(opcode)) && (op & CONTROL != 0 <==> WritesControl(c, opcode))
  {
    hide FlagsOnly; hide Privileged;
    UserOpcode(opcode);
  }

  /** reg[16] and R15 are written and the mode that reg[16] names is taken up. */
  lemma NamedStatus(c: Cpu, psr: bv32, r15: bv32)
    requires Legal(Names32(psr))
    ensures var d, m := Named(c, psr, r15), Names32(psr);
            d.mode == m && Bits(d) == BitsIn(r15, psr, c.mode) && Pc26(d.reg[15]) == Pc26(r15) && (Mode32(m) && Mode32(c.mode) ==> d.reg[15] == r15)
  {
    hide Switch; hide BitsIn; hide Pc26; hide Names32; hide Mode32; hide Legal; hide Settle15; hide Settle16;
    var c1 := c.(reg := c.reg[16 := psr][15 := r15]);
    SwitchKeepsBits(c1, Names32(psr));
    SwitchedPsr(c1, Names32(psr));
    AnyPc(r15, psr, c.mode, Names32(psr));
  }

  lemma PsrConditions(value: bv32, psr: bv32)
    ensures Conditions(Of32(value)) == Conditions(value) && Disables(Of32(value)) == Disables(value)
  {
  }

  lemma NamesLegal(c: Cpu, value: bv32)
    requires Inv(c)
    ensures Legal(Names32(c.reg[16])) && (Legal(value & 0x1f) ==> Legal(Names32(value)))
  {
    hide Pointing; hide KindOf; hide SizeOf;
  }

  lemma AnyPc(r15: bv32, psr: bv32, from: bv32, to: bv32)
    ensures Pc26(Settle15(r15, psr, from, to)) == Pc26(r15) && (Mode32(to) == Mode32(from) ==> Settle15(r15, psr, from, to) == r15)
  {
  }

  /** MSR SPSR: the fields that are asked for, in the SPSR of the mode, if it has one. */
  lemma SpsrWrites(c: Cpu, opcode: bv32, value: bv32)
    requires Inv(c)
    ensures var d := WriteSpsr(c, opcode, value);
            && d == c.(spsr := d.spsr) && (c.mode & 0xf == 0 || c.mode == 0x1f ==> d == c)
            && (forall i :: 0 <= i < 16 && i != Index(c.mode) ==> d.spsr[i] == c.spsr[i])
            && (c.mode & 0xf != 0 && c.mode != 0x1f ==>
                  var s, n := c.spsr[Index(c.mode)], d.spsr[Index(c.mode)];
                  && Conditions(Of32(n)) == Conditions(Of32(if opcode & FLAGS != 0 then value else s))
                  && Disables(Of32(n)) == Disables(Of32(if opcode & CONTROL != 0 then value else s))
                  && Names32(n) == Names32(if opcode & CONTROL != 0 then value else s))
  {
    hide Inv; hide MsrPsr; hide Conditions; hide Disables; hide Of32; hide Names32; hide Index;
    MsrPsrParts(c.spsr[Index(c.mode)], opcode, value);
  }

  /** A write of R15 without S moves the PC, four ahead, and changes nothing else. */
  lemma JumpMoves(c: Cpu, dest: bv32)
    requires Inv(c)
    ensures var d := Jump(c, dest);
            PcIs(d, dest + 4) && d == c.(reg := d.reg) && Bits(d) == Bits(c) && forall i :: 0 <= i < 17 && i != 15 ==> d.reg[i] == c.reg[i]
  {
    hide Inv; hide Bits; hide PcIs; hide Jump;
    JumpKeeps(c, dest);
    JumpPc(c, dest);
    JumpFrame(c, dest);
  }

  lemma JumpFrame(c: Cpu, dest: bv32)
    ensures var d := Jump(c, dest); d == c.(reg := d.reg) && forall i :: 0 <= i < 17 && i != 15 ==> d.reg[i] == c.reg[i]
  {
    hide Ahead; hide UnderMask;
  }

  lemma JumpPc(c: Cpu, dest: bv32)
    requires Inv(c)
    ensures PcIs(Jump(c, dest), dest + 4)
  {
    hide Inv; hide Mode32; hide Pc26; hide Aligned; hide UnderMask; hide Clear; hide Jump; hide Ahead; hide Names26; hide Names32; hide Legal;
    var v := Ahead(dest);
    AheadIs(dest);
    JumpPut(c, dest);
    InvNames(c);
    if Mode32(c.mode) {
      InvAligned(c);
      PutWide(c.reg[15], v);
      Parts(v, v);
    } else {
      PutNarrow(c.reg[15], v);
    }
  }

  predicate Clear(r15: bv32) { r15 & 3 == 0 }

  lemma AheadIs(dest: bv32)
    ensures Ahead(dest) == dest + 4
  {
  }

  lemma JumpPut(c: Cpu, dest: bv32)
    ensures var d := Jump(c, dest); d.mode == c.mode && d.reg[15] == UnderMask(c.reg[15], c.size.r15mask, Ahead(dest))
  {
    hide Ahead; hide UnderMask;
  }

  lemma InvAligned(c: Cpu)
    requires Inv(c) && Mode32(c.mode)
    ensures Clear(c.reg[15])
  {
    hide Legal; hide Pointing; hide KindOf; hide SizeOf;
  }

  lemma PutWide(r15: bv32, v: bv32)
    requires Clear(r15)
    ensures UnderMask(r15, 0xffff_fffc, v) == Aligned(v)
  {
  }

  lemma PutNarrow(r15: bv32, v: bv32)
    ensures Pc26(UnderMask(r15, 0x3ff_fffc, v)) == Pc26(v)
  {
  }
}
