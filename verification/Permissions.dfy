/**
 What the page tables permit and where they lead (cp15_check_permissions and translateaddress2 in cp15.c), by the
 fields of the descriptors and the domain and control registers.
 */
module Permissions {
  import opened Tlb
  import Words

  /** The System and ROM protection bits of the control register. */
  predicate SystemBit(r: Regs) { Words.BitAt(r.ctrl, 8) }
  predicate RomBit(r: Regs) { Words.BitAt(r.ctrl, 9) }

  lemma ControlBits(r: Regs)
    ensures RomSystem(r.ctrl) == (if SystemBit(r) then 1 else 0) + (if RomBit(r) then 2 else 0)
  {
    hide Words.Pow2;
    Words.PowersOfInterest();
    Words.PowUnfold(10);
    Words.PowUnfold(9);
    var q: int := r.ctrl / 0x100;
    Words.QuotientUnique(r.ctrl, 0x200, q / 2, r.ctrl % 0x100 + 0x100 * (q % 2));
    Words.RemainderUnique(q, 4, q / 4, q % 2 + 2 * (q / 2 % 2));
  }

  /** A translation is found in a client domain, whose accesses are checked. */
  predicate Client(r: Regs, m: Memory, addr: Word) { Descriptor(r, m, addr).Found? && Access(r, m, addr) == 1 }

  function FieldOf(r: Regs, m: Memory, addr: Word): int
    requires Descriptor(r, m, addr).Found?
  {
    Descriptor(r, m, addr).ap
  }

  lemma FieldRange(r: Regs, m: Memory, addr: Word)
    requires Descriptor(r, m, addr).Found?
    ensures 0 <= FieldOf(r, m, addr) < 4
  {
    hide FirstLevel; hide Power4; hide SecondAddress; hide Sub;
  }

  /** Which accesses a client domain permits, for each privilege and direction; the others are permission faults. */
  lemma ClientPermits(r: Regs, m: Memory, addr: Word)
    requires Client(r, m, addr)
    ensures var ap := FieldOf(r, m, addr);
            && (Walk(r, m, addr, false, true).Ok? <==> ap == 3)
            && (Walk(r, m, addr, false, false).Ok? <==> ap >= 2 || (ap == 0 && RomBit(r) && !SystemBit(r)))
            && (Walk(r, m, addr, true, true).Ok? <==> ap != 0)
            && (Walk(r, m, addr, true, false).Ok? <==> ap != 0 || SystemBit(r) != RomBit(r))
    ensures forall privileged, write :: var o := Walk(r, m, addr, privileged, write);
            o == Ok(Descriptor(r, m, addr).phys) || o == Faulted(if Descriptor(r, m, addr).section then SectionPermission else PagePermission)
  {
    hide RomSystem; hide SystemBit; hide RomBit; hide Access; hide Descriptor;
    ControlBits(r);
    FieldRange(r, m, addr);
  }

  /** A manager domain permits everything, and a domain without access nothing. */
  lemma DomainsPermit(r: Regs, m: Memory, addr: Word, privileged: bool, write: bool)
    requires Descriptor(r, m, addr).Found? && Access(r, m, addr) != 1
    ensures var f := Descriptor(r, m, addr);
            Walk(r, m, addr, privileged, write) ==
            if Access(r, m, addr) == 3 then Ok(f.phys) else Faulted(if f.section then SectionDomain else PageDomain)
  {
    hide Descriptor; hide RomSystem; hide FirstLevel;
    AccessRange(r, m, addr);
  }

  lemma AccessRange(r: Regs, m: Memory, addr: Word)
    ensures 0 <= Access(r, m, addr) < 4
  {
    hide FirstLevel; hide Power4;
  }

  /** The same through the cache, wherever its entry is exact. */
  lemma CachePermits(c: Cache, r: Regs, m: Memory, addr: Word)
    requires Exact(c, r, m, addr) && Client(r, m, addr)
    ensures var ap := FieldOf(r, m, addr);
            && (Translate(c, r, m, addr, false, true).0.Ok? <==> ap == 3)
            && (Translate(c, r, m, addr, false, false).0.Ok? <==> ap >= 2 || (ap == 0 && RomBit(r) && !SystemBit(r)))
            && (Translate(c, r, m, addr, true, true).0.Ok? <==> ap != 0)
            && (Translate(c, r, m, addr, true, false).0.Ok? <==> ap != 0 || SystemBit(r) != RomBit(r))
  {
    hide Exact; hide Walk; hide Translate; hide Client; hide SystemBit; hide RomBit; hide Descriptor;
    ClientPermits(r, m, addr);
    TranslateIsWalk(c, r, m, addr, false, false);
    TranslateIsWalk(c, r, m, addr, false, true);
    TranslateIsWalk(c, r, m, addr, true, false);
    TranslateIsWalk(c, r, m, addr, true, true);
  }

  lemma CacheDomains(c: Cache, r: Regs, m: Memory, addr: Word, privileged: bool, write: bool)
    requires Exact(c, r, m, addr) && Descriptor(r, m, addr).Found? && Access(r, m, addr) != 1
    ensures Translate(c, r, m, addr, privileged, write).0.Ok? <==> Access(r, m, addr) == 3
  {
    hide Exact; hide Walk; hide Translate; hide Descriptor; hide Access;
    DomainsPermit(r, m, addr, privileged, write);
    TranslateIsWalk(c, r, m, addr, privileged, write);
  }

  // ---- where a translation leads ----

  /** The two bits of the domain register for the domain in bits 8 to 5 of the first-level descriptor. */
  lemma DomainBits(r: Regs, m: Memory, addr: Word)
    ensures var d := FirstLevel(r, m, addr) / 0x20 % 0x10;
            Access(r, m, addr) == (if Words.BitAt(r.domains, 2 * d) then 1 else 0) + (if Words.BitAt(r.domains, 2 * d + 1) then 2 else 0)
  {
    hide FirstLevel; hide Words.Pow2; hide Power4;
    var d := FirstLevel(r, m, addr) / 0x20 % 0x10;
    FourthPowers(d);
    Words.PowUnfold(2 * d + 1);
    var p := Power4(d);
    HalfOf(r.domains, p);
    TwoBits(r.domains / p);
  }

  lemma TwoBits(q: nat)
    ensures q % 4 == q % 2 + 2 * (q / 2 % 2)
  {
    var h: int := q / 2;
    Words.RemainderUnique(q, 4, h / 2, q % 2 + 2 * (h % 2));
  }

  lemma HalfOf(x: int, p: int)
    requires p > 0
    ensures x / (2 * p) == x / p / 2
  {
    var q, t := x / p, x % p;
    assert x == p * q + t;
    assert p * q == (2 * p) * (q / 2) + p * (q % 2);
    Words.QuotientUnique(x, 2 * p, q / 2, p * (q % 2) + t);
  }

  lemma {:induction false} FourthPowers(k: nat)
    ensures Power4(k) == Words.Pow2(2 * k)
  {
    hide Words.Pow2;
    if k > 0 {
      FourthPowers(k - 1);
      Words.PowUnfold(2 * k);
      Words.PowUnfold(2 * k - 1);
    } else {
      Words.PowUnfold(0);
    }
  }

  /** The entry of the first-level table for the megabyte of the address. */
  lemma FirstLevelEntry(r: Regs, m: Memory, addr: Word)
    ensures FirstLevel(r, m, addr) == m.first(r.bank, r.table - r.table % 0x4000 + 4 * (addr / 0x10_0000))
  {
  }

  /** The entry of the page's second-level table, which a first-level descriptor of type 1 gives. */
  function PageEntry(r: Regs, m: Memory, addr: Word): Word {
    var fld := FirstLevel(r, m, addr);
    m.second(fld - fld % 0x400 + 4 * (addr % 0x10_0000 / 0x1000))
  }

  /**
   What is found: a section of a megabyte, a large page of 64 KB or a small one of 4 KB, each with the high bits of its
   descriptor and the low bits of the address, and the permission field of the section or of the quarter of the page.
   */
  lemma FrameFound(r: Regs, m: Memory, addr: Word)
    ensures var fld, sld, f := FirstLevel(r, m, addr), PageEntry(r, m, addr), Descriptor(r, m, addr);
            && (fld % 4 == 0 ==> f == Missing(SectionTranslation))
            && (fld % 4 == 1 && (sld % 4 == 0 || sld % 4 == 3) ==> f == Missing(PageTranslation))
            && (fld % 4 == 3 ==> f == Halt)
            && (fld % 4 == 2 ==> Leads(f, fld, addr, 0x10_0000, true) && f.ap == fld / 0x400 % 4)
            && (fld % 4 == 1 && sld % 4 == 1 ==> Leads(f, sld, addr, 0x1_0000, false) && Quarter(f.ap, sld, addr / 0x4000 % 4))
            && (fld % 4 == 1 && sld % 4 == 2 ==> Leads(f, sld, addr, 0x1000, false) && Quarter(f.ap, sld, addr / 0x400 % 4))
  {
    hide FirstLevel;
    PageIndex(addr);
    Joins(FirstLevel(r, m, addr), addr);
    Joins(PageEntry(r, m, addr), addr);
  }

  /** A translation by a descriptor for a piece of memory of the size given. */
  predicate Leads(f: Found, descriptor: Word, addr: Word, size: int, section: bool)
    requires size > 0
  {
    f.Found? && f.section == section && f.phys / size == descriptor / size && f.phys % size == addr % size
  }

  /** Permission field `k` of a page: two bits from bit 4 + 2k on. */
  predicate Quarter(ap: int, sld: Word, k: int) {
    ap == (if k == 0 then sld / 0x10 else if k == 1 then sld / 0x40 else if k == 2 then sld / 0x100 else sld / 0x400) % 4
  }

  lemma PageIndex(addr: Word)
    ensures addr / 0x1000 % 0x100 == addr % 0x10_0000 / 0x1000
  {
    var q, t: int := addr / 0x10_0000, addr % 0x10_0000;
    Words.QuotientUnique(addr, 0x1000, 0x100 * q + t / 0x1000, t % 0x1000);
    Words.RemainderUnique(0x100 * q + t / 0x1000, 0x100, q, t / 0x1000);
  }

  lemma Joins(d: Word, addr: Word)
    ensures forall size :: size in {0x1000, 0x1_0000, 0x10_0000} ==>
      var x := d / size * size + addr % size; x / size == d / size && x % size == addr % size
  {
    forall size | size in {0x1000, 0x1_0000, 0x10_0000}
      ensures var x := d / size * size + addr % size; x / size == d / size && x % size == addr % size
    {
      Words.QuotientUnique(d / size * size + addr % size, size, d / size, addr % size);
      Words.RemainderUnique(d / size * size + addr % size, size, d / size, addr % size);
    }
  }

  /** The tables are read from the VRAM or the bank of RAM that their address lies in, of the 1 GB that the bus decodes. */
  lemma TablesBank(p: Plain, val: Word)
    ensures var q, a := PlainStep(p, OpTable(val)).0, val % 0x4000_0000;
            && q == p.(regs := p.regs.(table := val - val % 0x4000, bank := q.regs.bank))
            && (0x200_0000 <= a < 0x300_0000 ==> q.regs.bank == 0)
            && (0x1000_0000 <= a < 0x1400_0000 ==> q.regs.bank == 1) && (0x1400_0000 <= a < 0x1800_0000 ==> q.regs.bank == 2)
            && (0x1800_0000 <= a < 0x2000_0000 ==> q.regs.bank == 3) && (0x2000_0000 <= a < 0x3000_0000 ==> q.regs.bank == 4)
            && (0x3000_0000 <= a ==> q.regs.bank == 5)
            && (a < 0x200_0000 || 0x300_0000 <= a < 0x1000_0000 ==> q.regs.bank == p.regs.bank)
  {
    var h, a: int := val / 0x4000_0000, val % 0x4000_0000;
    Words.QuotientUnique(val, 0x100_0000, 0x40 * h + a / 0x100_0000, a % 0x100_0000);
    Words.RemainderUnique(0x40 * h + a / 0x100_0000, 0x40, h, a / 0x100_0000);
  }

  /** The status of each fault, as the ARM architecture numbers them. */
  function Status(why: Fault): int {
    match why
    case SectionTranslation => 5
    case PageTranslation => 7
    case SectionDomain => 9
    case PageDomain => 11
    case SectionPermission => 13
    case PagePermission => 15
  }

  /** A data access that faults leaves its address and the fault with its domain; nothing else touches those registers. */
  lemma FaultReported(p: Plain, addr: Word, privileged: bool, write: bool, prefetch: bool)
    ensures var (q, outcomes) := PlainStep(p, OpAccess(addr, privileged, write, prefetch));
            var o := Walk(p.regs, p.mem, addr, privileged, write);
            && outcomes == [o]
            && q.regs == p.regs && q.mem == p.mem
            && (if o.Faulted? && !prefetch then q.far == addr && q.fsr % 0x10 == Status(o.why) && q.fsr / 0x10 == FirstLevel(p.regs, p.mem, addr) / 0x20 % 0x10
                else q.far == p.far && q.fsr == p.fsr)
  {
    hide Walk; hide FirstLevel;
  }
}
