/**
 The state an exception handler starts in (exception() in arm.c): status bits, mode, program counter, link, saved
 status and registers, in each of the three ways an exception is entered.
 */
module Exceptions {
  import opened Modes

  const FIQ: bv32 := 1

  predicate IrqOff(c: Cpu) { Bits(c) & 0x80 != 0 }
  predicate FiqOff(c: Cpu) { Bits(c) & 0x40 != 0 }
  function Nzcv(c: Cpu): bv32 { Bits(c) & 0xf000_0000 }

  /** Is a 32-bit mode entered? */
  predicate Wide32(c: Cpu, prog32: bool) { Mode32(c.mode) || prog32 }

  /** IRQs are disabled, FIQs too if they were or if this is one, and N, Z, C and V are as they were. */
  lemma StatusInHandler(c: Cpu, prog32: bool, mmode: bv32, address: bv32, diff: bv32)
    requires Inv(c) && Vector(mmode, address, diff)
    ensures var e := Exception(c, prog32, mmode, address, diff);
            IrqOff(e) && (FiqOff(e) <==> FiqOff(c) || mmode == FIQ) && Nzcv(e) == Nzcv(c)
  {
    hide Exception; hide Bits; hide Inv; hide Vector;
    BitsInHandler(c, prog32, mmode, address, diff);
    Added(Bits(c), mmode);
  }

  /** What is added to the status bits. */
  function Extra(mmode: bv32): bv32 { if mmode == FIQ then 0xc0 else 0x80 }

  lemma Added(bits: bv32, mmode: bv32)
    ensures var b := bits | Extra(mmode);
            b & 0x80 != 0 && (b & 0x40 != 0 <==> bits & 0x40 != 0 || mmode == FIQ) && b & 0xf000_0000 == bits & 0xf000_0000
  {
  }

  lemma BitsInHandler(c: Cpu, prog32: bool, mmode: bv32, address: bv32, diff: bv32)
    requires Inv(c) && Vector(mmode, address, diff)
    ensures Bits(Exception(c, prog32, mmode, address, diff)) == Bits(c) | Extra(mmode)
  {
    hide Inv; hide Mode32; hide Extra; hide BitsIn; hide Enter32; hide EnterFrom26; hide Enter26;
    VectorAtZero(mmode, address, diff);
    VectorModes(mmode, address, diff);
    var link := Link(c.reg[15], diff);
    if Mode32(c.mode) { Bits32(c, mmode, address, link); }
    else if prog32 { BitsFrom26(c, mmode, address, link); }
    else { Bits26(c, mmode, address, link); }
  }

  lemma VectorAtZero(mmode: bv32, address: bv32, diff: bv32)
    requires Vector(mmode, address, diff)
    ensures Vector(mmode, address, 0)
  {
  }

  lemma Bits32(c: Cpu, mmode: bv32, address: bv32, link: bv32)
    requires Inv(c) && Mode32(c.mode) && Vector(mmode, address, 0)
    ensures Bits(Enter32(c, mmode, address, link)) == Bits(c) | Extra(mmode)
  {
    hide Switch; hide Index; hide Inv; hide EnteredPsr; hide Extra; hide BitsIn; hide Settle15; hide Settle16; hide Vector; hide Mode32; hide Wide;
    SwitchedPsr(c, Wide(mmode));
    VectorModes(mmode, address, 0);
    Settle32(c.reg[15], c.reg[16], c.mode, Wide(mmode));
    Put32(c.reg[15], c.reg[16], c.mode, mmode, address);
  }

  lemma Settle32(r15: bv32, psr: bv32, m: bv32, to: bv32)
    requires Mode32(m) && Mode32(to)
    ensures Settle16(r15, psr, m, to) == psr
  {
  }

  lemma Put32(r15: bv32, psr: bv32, m: bv32, mmode: bv32, address: bv32)
    requires Mode32(m) && Vector(mmode, address, 0)
    ensures BitsIn(address, EnteredPsr(psr, mmode), Wide(mmode)) == BitsIn(r15, psr, m) | Extra(mmode)
  {
  }

  lemma BitsFrom26(c: Cpu, mmode: bv32, address: bv32, link: bv32)
    requires Inv(c) && !Mode32(c.mode) && Vector(mmode, address, 0)
    ensures Bits(EnterFrom26(c, mmode, address, link)) == Bits(c) | Extra(mmode)
  {
    hide Switch; hide Index; hide Inv; hide Disabled; hide Extra; hide BitsIn; hide Settle15; hide Settle16; hide Vector; hide Mode32; hide Wide; hide SavedPsr; hide Pc26;
    SwitchedPsr(c, Wide(mmode));
    VectorModes(mmode, address, 0);
    PutFrom26(c.reg[15], c.reg[16], c.mode, mmode, address);
  }

  lemma PutFrom26(r15: bv32, psr: bv32, m: bv32, mmode: bv32, address: bv32)
    requires !Mode32(m) && Vector(mmode, address, 0)
    ensures BitsIn(address, Disabled(Settle16(r15, psr, m, Wide(mmode)), mmode), Wide(mmode)) == BitsIn(r15, psr, m) | Extra(mmode)
  {
  }

  lemma Bits26(c: Cpu, mmode: bv32, address: bv32, link: bv32)
    requires Inv(c) && !Mode32(c.mode) && Vector(mmode, address, 0)
    ensures Bits(Enter26(c, mmode, address, link)) == Bits(c) | Extra(mmode)
    ensures Enter26(c, mmode, address, link).reg[15] == EnteredR15(c.reg[15], mmode, address)
  {
    hide Switch; hide Index; hide Inv; hide Extra; hide BitsIn; hide Settle15; hide Settle16; hide Vector; hide Mode32; hide Entered; hide EnteredR15;
    SwitchedPsr(c, Entered(mmode));
    VectorModes(mmode, address, 0);
    Settle26(c.reg[15], c.reg[16], c.mode, Entered(mmode));
    Put26(c.reg[15], c.reg[16], c.mode, Switch(c, Entered(mmode)).reg[16], mmode, address);
  }

  lemma Settle26(r15: bv32, psr: bv32, m: bv32, to: bv32)
    requires !Mode32(m) && !Mode32(to)
    ensures Settle15(r15, psr, m, to) == r15
  {
  }

  lemma Put26(r15: bv32, psr: bv32, m: bv32, psr': bv32, mmode: bv32, address: bv32)
    requires !Mode32(m) && Vector(mmode, address, 0)
    ensures BitsIn(EnteredR15(r15, mmode, address), psr', Entered(mmode)) == BitsIn(r15, psr, m) | Extra(mmode)
  {
  }

  /** The mode is that of the exception; a 26-bit processor has Supervisor mode for Abort and Undefined. */
  lemma ModeInHandler(c: Cpu, prog32: bool, mmode: bv32, address: bv32, diff: bv32)
    requires Inv(c) && Vector(mmode, address, diff)
    ensures var e := Exception(c, prog32, mmode, address, diff);
            e.mode == if Wide32(c, prog32) then 0x10 | mmode else if mmode == 1 || mmode == 2 then mmode else 3
  {
    hide Inv; hide Index; hide Switch; hide Pc26; hide SavedPsr; hide EnteredPsr; hide Disabled; hide Disable; hide Settle15; hide Settle16;
    VectorAtZero(mmode, address, diff);
    SwitchedPsr(c, Wide(mmode));
    SwitchedPsr(c, Entered(mmode));
  }

  /** Execution goes on at the vector, and R14 has the return address, with the status bits around it where the mode is a 26-bit one. */
  lemma PcInHandler(c: Cpu, prog32: bool, mmode: bv32, address: bv32, diff: bv32)
    requires Inv(c) && Vector(mmode, address, diff)
    ensures var e := Exception(c, prog32, mmode, address, diff);
            && (if Wide32(c, prog32) then e.reg[15] == address else e.reg[15] & 0x3ff_fffc == address)
            && e.reg[14] == if !Mode32(c.mode) && prog32 then (c.reg[15] - diff) & 0x3ff_fffc else c.reg[15] - diff
  {
    hide Inv; hide Vector; hide Exception; hide Mode32; hide Wide32;
    PcEntered(c, prog32, mmode, address, diff);
  }

  lemma PcEntered(c: Cpu, prog32: bool, mmode: bv32, address: bv32, diff: bv32)
    requires Inv(c) && Vector(mmode, address, diff)
    ensures var e, link := Exception(c, prog32, mmode, address, diff), Link(c.reg[15], diff);
            && (if Wide32(c, prog32) then e.reg[15] == address else Pc26(e.reg[15]) == address)
            && e.reg[14] == if !Mode32(c.mode) && prog32 then Pc26(link) else link
  {
    hide Inv; hide Vector; hide Enter32; hide EnterFrom26; hide Enter26; hide Mode32; hide Link; hide Pc26;
    VectorAtZero(mmode, address, diff);
    var link := Link(c.reg[15], diff);
    if Mode32(c.mode) { Pc32(c, mmode, address, link); }
    else if prog32 { PcFrom26(c, mmode, address, link); }
    else { PcIn26(c, mmode, address, link); }
  }

  lemma Pc32(c: Cpu, mmode: bv32, address: bv32, link: bv32)
    ensures var e := Enter32(c, mmode, address, link); e.reg[15] == address && e.reg[14] == link
  {
    hide Switch; hide EnteredPsr; hide Index; hide Wide;
  }

  lemma PcFrom26(c: Cpu, mmode: bv32, address: bv32, link: bv32)
    ensures var e := EnterFrom26(c, mmode, address, link); e.reg[15] == address && e.reg[14] == Pc26(link)
  {
    hide Switch; hide Pc26; hide Disabled; hide SavedPsr; hide Index; hide Wide;
  }

  lemma PcIn26(c: Cpu, mmode: bv32, address: bv32, link: bv32)
    requires Inv(c) && !Mode32(c.mode) && Vector(mmode, address, 0)
    ensures var e := Enter26(c, mmode, address, link); Pc26(e.reg[15]) == address && e.reg[14] == link
  {
    hide Inv; hide Vector; hide Enter26; hide EnteredR15; hide Bits; hide Mode32; hide Pc26;
    Bits26(c, mmode, address, link);
    InHandler26(c, mmode, address, link);
    Field26(c.reg[15], mmode, address);
  }

  lemma Field26(r15: bv32, mmode: bv32, address: bv32)
    requires Vector(mmode, address, 0)
    ensures Pc26(EnteredR15(r15, mmode, address)) == address
  {
  }

  /** The status bits and the mode of `c`. */
  predicate Saves(s: bv32, c: Cpu) { s & 0xf000_00c0 == Bits(c) && s & 0x1f == c.mode }

  /** The SPSR of the mode entered holds the old status bits and mode; no other changes, and a 26-bit processor uses none. */
  lemma SpsrInHandler(c: Cpu, prog32: bool, mmode: bv32, address: bv32, diff: bv32)
    requires Inv(c) && Vector(mmode, address, diff)
    ensures var e := Exception(c, prog32, mmode, address, diff);
            && (forall j :: 0 <= j < 16 && (j != mmode as int || !Wide32(c, prog32)) ==> e.spsr[j] == c.spsr[j])
            && (Wide32(c, prog32) ==> Saves(e.spsr[mmode as int], c))
  {
    hide Inv; hide Exception; hide Vector; hide Index; hide Wide32; hide Saves;
    IndexIs(mmode, address, diff);
    SpsrEntered(c, prog32, mmode, address, diff);
  }

  lemma SpsrEntered(c: Cpu, prog32: bool, mmode: bv32, address: bv32, diff: bv32)
    requires Inv(c) && Vector(mmode, address, diff)
    ensures var e := Exception(c, prog32, mmode, address, diff);
            && (forall j :: 0 <= j < 16 && (j != Index(mmode) || !Wide32(c, prog32)) ==> e.spsr[j] == c.spsr[j])
            && (Wide32(c, prog32) ==> Saves(e.spsr[Index(mmode)], c))
  {
    hide Inv; hide Enter32; hide EnterFrom26; hide Enter26; hide Vector; hide Index; hide Link; hide Mode32; hide Wide; hide OtherSpsrs; hide Saves; hide SavedPsr; hide Settle16; hide Pc26;
    VectorAtZero(mmode, address, diff);
    var link := Link(c.reg[15], diff);
    if Mode32(c.mode) {
      InHandler32(c, mmode, address, link);
      Saved32(c);
      Others(Enter32(c, mmode, address, link).spsr, c.spsr, mmode);
    } else if prog32 {
      InHandlerFrom26(c, mmode, address, link);
      SavedFrom26(c, mmode, address, diff);
      Others(EnterFrom26(c, mmode, address, link).spsr, c.spsr, mmode);
    } else {
      InHandler26(c, mmode, address, link);
    }
  }

  lemma Others(a: Spsrs, b: Spsrs, mmode: bv32)
    requires OtherSpsrs(a, b, mmode)
    ensures forall j :: 0 <= j < 16 && j != Index(mmode) ==> a[j] == b[j]
  {
    hide Index;
  }

  lemma IndexIs(mmode: bv32, address: bv32, diff: bv32)
    requires Vector(mmode, address, diff)
    ensures Index(mmode) == mmode as int
  {
  }

  lemma Saved32(c: Cpu)
    requires Inv(c) && Mode32(c.mode)
    ensures Saves(c.reg[16], c)
  {
    hide Pointing; hide KindOf; hide Legal;
  }

  lemma SavedFrom26(c: Cpu, mmode: bv32, address: bv32, diff: bv32)
    requires Inv(c) && !Mode32(c.mode) && Vector(mmode, address, diff)
    ensures Saves(SavedPsr(Settle16(c.reg[15], c.reg[16], c.mode, Wide(mmode)), Link(c.reg[15], diff)), c)
  {
    hide Pointing; hide KindOf;
    SavedBits(c.reg[15], c.reg[16], c.mode, mmode, address, diff);
  }

  lemma SavedBits(r15: bv32, psr: bv32, m: bv32, mmode: bv32, address: bv32, diff: bv32)
    requires !Mode32(m) && r15 & 3 == m && Legal(m) && Vector(mmode, address, diff)
    ensures var s := SavedPsr(Settle16(r15, psr, m, Wide(mmode)), Link(r15, diff));
            s & 0xf000_00c0 == BitsIn(r15, psr, m) && s & 0x1f == m
  {
  }

  /** The registers in a handler are those after the change of mode alone, but for R14 and R15. */
  predicate Switched(e: Cpu, d: Cpu) { e.mode == d.mode && e.banks == d.banks && e.reg[..14] == d.reg[..14] }

  lemma Switched32(c: Cpu, mmode: bv32, address: bv32, link: bv32)
    ensures Switched(Enter32(c, mmode, address, link), Switch(c, Wide(mmode)))
  {
    hide Switch; hide EnteredPsr; hide Index; hide Wide;
  }

  lemma SwitchedFrom26(c: Cpu, mmode: bv32, address: bv32, link: bv32)
    ensures Switched(EnterFrom26(c, mmode, address, link), Switch(c, Wide(mmode)))
  {
    hide Switch; hide Disabled; hide SavedPsr; hide Pc26; hide Index; hide Wide;
  }

  lemma Switched26(c: Cpu, mmode: bv32, address: bv32, link: bv32)
    ensures Switched(Enter26(c, mmode, address, link), Switch(c, Entered(mmode)))
  {
    hide Switch; hide EnteredR15; hide Entered;
  }

  /** Every register of every mode is as it was but for R14 of the mode entered. */
  lemma RegistersInHandler(c: Cpu, prog32: bool, mmode: bv32, address: bv32, diff: bv32, k: Kind, i: nat)
    requires Inv(c) && Vector(mmode, address, diff) && k != Reserved && i < 15
    requires i == 14 ==> k != KindOf(Exception(c, prog32, mmode, address, diff).mode)
    ensures Value(Exception(c, prog32, mmode, address, diff), k, i) == Value(c, k, i)
  {
    hide Inv; hide Switch; hide Value; hide KindOf; hide Legal; hide Vector; hide Enter32; hide EnterFrom26; hide Enter26; hide Mode32; hide Wide; hide Entered; hide Link;
    VectorModes(mmode, address, diff);
    InvKinds(c);
    var link := Link(c.reg[15], diff);
    Switched32(c, mmode, address, link);
    SwitchedFrom26(c, mmode, address, link);
    Switched26(c, mmode, address, link);
    var to := if Wide32(c, prog32) then Wide(mmode) else Entered(mmode);
    SwitchKeeps(c, to, k, i);
    SwitchMode(c, to);
    SameValues(Exception(c, prog32, mmode, address, diff), Switch(c, to), k, i);
  }

  lemma SwitchMode(c: Cpu, m: bv32)
    ensures Switch(c, m).mode == m
  {
    hide StoreBack; hide LoadBank; hide Retype; hide KindOf; hide Pointing; hide SizeOf;
  }
}
