/**
 Address translation (cp15.c, mem.h): a table of translations by virtual page, filled through a
 ring of 256 slots, against the walk of the two-level page tables.
 */
module Tlb {

  type Word = x: int | 0 <= x < 0x1_0000_0000
  type PageNumber = x: int | 0 <= x < 0x10_0000

  const PAGES: int := 0x10_0000
  const SLOTS: int := 256
  const NONE: Word := 0xffff_ffff

  function Page(addr: Word): PageNumber { addr / 0x1000 }

  function Sub(addr: Word): int { (addr / 0x400) % 4 }

  // ---- the walk ----

  /** Descriptors in memory: those of the first level by the RAM bank chosen for them. */
  datatype Memory = Memory(first: (int, Word) -> Word, second: Word -> Word)

  /** Control, Translation Table Base, Domain Access Control, and the bank of the table. */
  datatype Regs = Regs(ctrl: Word, table: Word, domains: Word, bank: int)

  datatype Fault = SectionTranslation | PageTranslation | SectionDomain | PageDomain | SectionPermission | PagePermission

  /** The code stored in the fault status register. */
  function Code(f: Fault): int {
    match f
    case SectionTranslation => 0x5
    case PageTranslation => 0x7
    case SectionDomain => 0x9
    case PageDomain => 0xb
    case SectionPermission => 0xd
    case PagePermission => 0xf
  }

  /** A translation found, or why there is none; `Halt` is the first-level type 3, which stops the emulator. */
  datatype Found = Found(phys: Word, ap: int, section: bool) | Missing(why: Fault) | Halt

  function FirstIndex(addr: Word): Word { (addr / 0x10_0000) * 4 }

  function FirstLevel(r: Regs, m: Memory, addr: Word): Word {
    m.first(r.bank, r.table / 0x4000 * 0x4000 + FirstIndex(addr))
  }

  /** Field `k` of the four access permissions of a page. */
  function Ap(sld: Word, k: int): int {
    if k == 0 then sld / 0x10 % 4 else if k == 1 then sld / 0x40 % 4 else if k == 2 then sld / 0x100 % 4 else sld / 0x400 % 4
  }

  function SecondAddress(fld: Word, addr: Word): Word { fld / 0x400 * 0x400 + addr / 0x1000 % 0x100 * 4 }

  function Decode2(sld: Word, addr: Word): Found {
    if sld % 4 == 1 then Found(sld / 0x1_0000 * 0x1_0000 + addr % 0x1_0000, Ap(sld, addr / 0x4000 % 4), false)
    else if sld % 4 == 2 then Found(sld / 0x1000 * 0x1000 + addr % 0x1000, Ap(sld, Sub(addr)), false)
    else Missing(PageTranslation)
  }

  function Descriptor(r: Regs, m: Memory, addr: Word): Found {
    var fld := FirstLevel(r, m, addr);
    if fld % 4 == 0 then Missing(SectionTranslation)
    else if fld % 4 == 1 then Decode2(m.second(SecondAddress(fld, addr)), addr)
    else if fld % 4 == 2 then Found(fld / 0x10_0000 * 0x10_0000 + addr % 0x10_0000, fld / 0x400 % 4, true)
    else Halt
  }

  function Domain(r: Regs, m: Memory, addr: Word): int { FirstLevel(r, m, addr) / 0x20 % 16 }

  function Power4(k: nat): (p: int)
    ensures p > 0
  {
    if k == 0 then 1 else 4 * Power4(k - 1)
  }

  /** 0 and 2: no access; 1: client, checked; 3: manager, unchecked. */
  function DomainAccess(r: Regs, domain: int): int
    requires 0 <= domain
  {
    r.domains / Power4(domain) % 4
  }

  /** cp15_check_permissions(): is the access refused? `rs` are the ROM and System bits of the control register. */
  predicate Refused(rs: int, ap: int, privileged: bool, write: bool) {
    if ap == 0 then
      if rs == 1 then !privileged || write else if rs == 2 then write else true
    else if ap == 1 then !privileged
    else if ap == 2 then !privileged && write
    else false
  }

  function RomSystem(ctrl: Word): int { ctrl / 0x100 % 4 }

  datatype Outcome = Ok(phys: Word) | Faulted(why: Fault) | Halted

  /** What the domain and the permission fields say of an access to a translation found. */
  function Checked(rs: int, access: int, f: Found, privileged: bool, write: bool): Outcome
    requires f.Found?
  {
    if access == 0 || access == 2 then Faulted(if f.section then SectionDomain else PageDomain)
    else if access == 1 && Refused(rs, f.ap, privileged, write) then Faulted(if f.section then SectionPermission else PagePermission)
    else Ok(f.phys)
  }

  function Access(r: Regs, m: Memory, addr: Word): int { DomainAccess(r, Domain(r, m, addr)) }

  /** The walk: what the page tables say of an access. */
  function Walk(r: Regs, m: Memory, addr: Word, privileged: bool, write: bool): Outcome {
    match Descriptor(r, m, addr)
    case Missing(why) => Faulted(why)
    case Halt => Halted
    case Found(phys, ap, section) => Checked(RomSystem(r.ctrl), Access(r, m, addr), Found(phys, ap, section), privileged, write)
  }

  // ---- the cache ----

  /** Permission bits, indexed by 2 * privileged + write. */
  type Perms = s: seq<bool> | |s| == 4 witness [false, false, false, false]

  function Bit(privileged: bool, write: bool): int { (if privileged then 2 else 0) + (if write then 1 else 0) }

  /**
   tlbcache and tlbperm of one page. `sub` is the 1 KB sub-page of the access that filled the entry; the
   source does not keep it, and nothing below depends on it but what is said about the entry.
   */
  datatype Line = Line(phys: Word, perm: Perms, sub: int)

  type Lines = s: seq<Line> | |s| == PAGES witness seq(PAGES, _ => Line(NONE, [false, false, false, false], 0))
  type Slots = s: seq<int> | |s| == SLOTS && forall i :: 0 <= i < SLOTS ==> s[i] == NONE || 0 <= s[i] < PAGES
    witness seq(SLOTS, _ => NONE)

  type SlotNumber = x: int | 0 <= x < SLOTS

  datatype Cache = Cache(lines: Lines, ring: Slots, pos: SlotNumber)

  /** The source's test for a usable entry. */
  predicate Live(l: Line) { l.phys % 0x1000 == 0 }

  /** cp15_perm_mask(). */
  function PermMask(rs: int, access: int, ap: int): Perms {
    if access == 3 then [true, true, true, true]
    else [!Refused(rs, ap, false, false), !Refused(rs, ap, false, true), !Refused(rs, ap, true, false), !Refused(rs, ap, true, true)]
  }

  function Evicted(lines: Lines, slot: int): Lines
    requires slot == NONE || 0 <= slot < PAGES
  {
    if slot == NONE then lines else lines[slot := lines[slot].(phys := NONE, perm := [false, false, false, false])]
  }

  /** cp15_tlb_add_entry(). */
  function AddEntry(c: Cache, addr: Word, phys: Word, perm: Perms): Cache
  {
    var lines := Evicted(c.lines, c.ring[c.pos]);
    Cache(lines[Page(addr) := Line(phys / 0x1000 * 0x1000, perm, Sub(addr))], c.ring[c.pos := Page(addr)], (c.pos + 1) % SLOTS)
  }

  /** cp15_tlb_flush(), from slot `k` on. */
  function FlushFrom(c: Cache, k: nat): Cache
    requires k <= SLOTS
    decreases SLOTS - k
  {
    if k == SLOTS then c else FlushFrom(FlushSlot(c, k), k + 1)
  }

  function FlushSlot(c: Cache, k: nat): Cache
    requires k < SLOTS
  {
    c.(lines := Evicted(c.lines, c.ring[k]), ring := c.ring[k := NONE])
  }

  /** translateaddress2(), without the fault registers. */
  function Fill(c: Cache, r: Regs, m: Memory, addr: Word, privileged: bool, write: bool): Cache
  {
    var f := Descriptor(r, m, addr);
    if f.Found? && Walk(r, m, addr, privileged, write).Ok? then
      var access := Access(r, m, addr);
      AddEntry(c, addr, f.phys, PermMask(RomSystem(r.ctrl), access, if access == 1 then f.ap else 3))
    else c
  }

  /** The cached entry may be used for the access. */
  predicate Usable(c: Cache, addr: Word, privileged: bool, write: bool) {
    Live(c.lines[Page(addr)]) && c.lines[Page(addr)].perm[Bit(privileged, write)]
  }

  /** translateaddress(). */
  function Translate(c: Cache, r: Regs, m: Memory, addr: Word, privileged: bool, write: bool): (Outcome, Cache)
  {
    if Usable(c, addr, privileged, write) then (Ok(Joined(c.lines[Page(addr)].phys, addr)), c)
    else (Walk(r, m, addr, privileged, write), Fill(c, r, m, addr, privileged, write))
  }

  /** A page frame and an offset. */
  function Joined(frame: Word, addr: Word): Word { frame / 0x1000 * 0x1000 + addr % 0x1000 }

  // ---- live entries are in the ring ----

  /** Some slot names the page. */
  predicate Named(c: Cache, p: int) { exists k :: 0 <= k < SLOTS && c.ring[k] == p }

  predicate InRing(c: Cache) {
    forall p :: 0 <= p < PAGES && Live(c.lines[p]) ==> Named(c, p)
  }

  lemma AddInRing(c: Cache, addr: Word, phys: Word, perm: Perms)
    requires InRing(c)
    ensures InRing(AddEntry(c, addr, phys, perm))
  {
    hide Page; hide Sub;
    var d := AddEntry(c, addr, phys, perm);
    forall p | 0 <= p < PAGES && Live(d.lines[p]) ensures Named(d, p) {
      if p == Page(addr) {
        assert d.ring[c.pos] == p;
      } else {
        var k :| 0 <= k < SLOTS && c.ring[k] == p;
        assert d.ring[k] == p;
      }
    }
  }

  lemma FlushSlotInRing(c: Cache, k: nat)
    requires InRing(c) && k < SLOTS
    ensures InRing(FlushSlot(c, k))
  {
    var d := FlushSlot(c, k);
    forall p | 0 <= p < PAGES && Live(d.lines[p]) ensures Named(d, p) {
      var j :| 0 <= j < SLOTS && c.ring[j] == p;
      assert d.ring[j] == p;
    }
  }

  lemma {:induction false} FlushFromInRing(c: Cache, k: nat)
    requires InRing(c) && k <= SLOTS && forall i :: 0 <= i < k ==> c.ring[i] == NONE
    ensures var d := FlushFrom(c, k); InRing(d) && forall i :: 0 <= i < SLOTS ==> d.ring[i] == NONE
    decreases SLOTS - k
  {
    hide InRing; hide Evicted;
    if k < SLOTS {
      FlushSlotInRing(c, k);
      FlushFromInRing(FlushSlot(c, k), k + 1);
    }
  }

  /** So a flush leaves no live entry. */
  lemma FlushLeavesNone(c: Cache, p: PageNumber)
    requires InRing(c)
    ensures InRing(FlushFrom(c, 0)) && !Live(FlushFrom(c, 0).lines[p])
  {
    hide FlushFrom;
    FlushFromInRing(c, 0);
  }

  // ---- what an entry says and what the walk says ----

  /** The first address of a sub-page. */
  function Rep(p: PageNumber, sub: int): Word
    requires 0 <= sub < 4
  {
    p * 0x1000 + sub * 0x400
  }

  lemma RepIs(p: PageNumber, sub: int)
    requires 0 <= sub < 4
    ensures Page(Rep(p, sub)) == p && Sub(Rep(p, sub)) == sub
  {
  }

  /** All four access permissions of the page that holds `addr` are the same, or do not matter. */
  predicate Uniform(r: Regs, m: Memory, p: PageNumber) {
    var addr := Rep(p, 0);
    var fld := FirstLevel(r, m, addr);
    var sld := m.second(SecondAddress(fld, addr));
    fld % 4 == 1 && sld % 4 == 2 && Access(r, m, addr) == 1 ==> Ap(sld, 0) == Ap(sld, 1) == Ap(sld, 2) == Ap(sld, 3)
  }

  /** The walk reaches the same descriptors from anywhere in a page. */
  lemma SamePage(r: Regs, m: Memory, a: Word, b: Word)
    requires Page(a) == Page(b)
    ensures FirstLevel(r, m, a) == FirstLevel(r, m, b) && Access(r, m, a) == Access(r, m, b)
    ensures forall fld: Word :: SecondAddress(fld, a) == SecondAddress(fld, b)
  {
    Indices(a);
    Indices(b);
    hide Power4; hide Page; hide FirstIndex;
  }

  lemma Indices(a: Word)
    ensures FirstIndex(a) == Page(a) / 0x100 * 4 && a / 0x1000 % 0x100 == Page(a) % 0x100
  {
  }

  lemma LargeSub(a: Word)
    ensures a / 0x4000 == Page(a) / 4
  {
  }

  /** Frames and permissions: the frame depends on the page, the permission on the sub-page at most. */
  lemma Decode2Same(sld: Word, a: Word, b: Word)
    requires Page(a) == Page(b)
    ensures SameFound(Decode2(sld, a), a, Decode2(sld, b), b, sld % 4 == 2 ==> Ap(sld, Sub(a)) == Ap(sld, Sub(b)))
  {
    hide Ap; hide Page; hide Sub; hide SameFrame;
    LargeSub(a);
    LargeSub(b);
    if sld % 4 == 1 { Frames(sld / 0x1_0000, 0x1_0000, 16, a, b); }
    if sld % 4 == 2 { Frames(sld / 0x1000, 0x1000, 1, a, b); }
  }

  /** The same answer for two addresses, but for the offset and perhaps the permission. */
  predicate SameFound(f: Found, a: Word, g: Found, b: Word, sameAp: bool) {
    if f.Found? then g.Found? && f.section == g.section && SameFrame(f.phys, a, g.phys, b) && (sameAp ==> f.ap == g.ap)
    else g == f
  }

  /** Two physical addresses in one frame, at the offsets of their virtual addresses. */
  predicate SameFrame(x: Word, a: Word, y: Word, b: Word) {
    x / 0x1000 == y / 0x1000 && x % 0x1000 == a % 0x1000 && y % 0x1000 == b % 0x1000
  }

  lemma Frames(base: int, size: int, n: int, a: Word, b: Word)
    requires Page(a) == Page(b) && (size, n) in {(0x1000, 1), (0x1_0000, 16), (0x10_0000, 256)} && 0 <= base
    requires base * size + a % size < 0x1_0000_0000 && base * size + b % size < 0x1_0000_0000
    ensures SameFrame(base * size + a % size, a, base * size + b % size, b)
  {
    Frame(base, size, n, a);
    Frame(base, size, n, b);
  }

  lemma Frame(base: int, size: int, n: int, a: Word)
    requires (size, n) in {(0x1000, 1), (0x1_0000, 16), (0x10_0000, 256)} && 0 <= base && base * size + a % size < 0x1_0000_0000
    ensures (base * size + a % size) / 0x1000 == base * n + Page(a) % n && (base * size + a % size) % 0x1000 == a % 0x1000
  {
    hide Page;
    Remainder(a, size, n);
    assert base * size == 0x1000 * (base * n);
    Split(base * n + Page(a) % n, a % 0x1000, base * size + a % size);
  }

  lemma Remainder(a: Word, size: int, n: int)
    requires (size, n) in {(0x1000, 1), (0x1_0000, 16), (0x10_0000, 256)}
    ensures a % size == 0x1000 * (Page(a) % n) + a % 0x1000
  {
    hide Page;
    Split(a / 0x1000, a % 0x1000, a);
    PageIs(a);
    var p: int := Page(a);
    assert n * (p / n) + p % n == p;
    if n == 16 {
      Wraps16(p / 16, 0x1000 * (p % 16) + a % 0x1000, a);
    } else if n == 256 {
      Wraps256(p / 256, 0x1000 * (p % 256) + a % 0x1000, a);
    }
  }

  lemma PageIs(a: Word)
    ensures a == 0x1000 * Page(a) + a % 0x1000
  {
  }

  lemma Wraps16(q: int, x: int, y: int)
    requires 0 <= x < 0x1_0000 && y == 0x1_0000 * q + x
    ensures y % 0x1_0000 == x
  {
  }

  lemma Wraps256(q: int, x: int, y: int)
    requires 0 <= x < 0x10_0000 && y == 0x10_0000 * q + x
    ensures y % 0x10_0000 == x
  {
  }

  lemma Split(q: int, off: int, x: int)
    requires 0 <= off < 0x1000 && x == 0x1000 * q + off
    ensures x / 0x1000 == q && x % 0x1000 == off
  {
  }

  /** The second-level descriptor of a page. */
  function Small(r: Regs, m: Memory, addr: Word): Word { m.second(SecondAddress(FirstLevel(r, m, addr), addr)) }

  /** The permission fields that two addresses of a page select are equal. */
  predicate SameFields(r: Regs, m: Memory, a: Word, b: Word) {
    FirstLevel(r, m, a) % 4 == 1 && Small(r, m, a) % 4 == 2 ==> Ap(Small(r, m, a), Sub(a)) == Ap(Small(r, m, a), Sub(b))
  }

  lemma DescriptorSame(r: Regs, m: Memory, a: Word, b: Word)
    requires Page(a) == Page(b)
    ensures SameFound(Descriptor(r, m, a), a, Descriptor(r, m, b), b, SameFields(r, m, a, b))
  {
    hide FirstLevel; hide Page; hide Sub; hide Ap; hide SameFrame; hide SecondAddress; hide Decode2;
    SamePage(r, m, a, b);
    var fld := FirstLevel(r, m, a);
    Decode2Same(Small(r, m, a), a, b);
    if fld % 4 == 2 { Frames(fld / 0x10_0000, 0x10_0000, 256, a, b); }
  }

  /** Two outcomes that are the same but for the offset within a frame. */
  predicate SameOutcome(x: Outcome, a: Word, y: Outcome, b: Word) {
    if x.Ok? then y.Ok? && SameFrame(x.phys, a, y.phys, b) else y == x
  }

  /** Within a page the walk has one outcome, for addresses whose permission fields agree or do not matter. */
  lemma WalkSame(r: Regs, m: Memory, a: Word, b: Word, privileged: bool, write: bool)
    requires Page(a) == Page(b) && (Access(r, m, a) == 1 ==> SameFields(r, m, a, b))
    ensures SameOutcome(Walk(r, m, a, privileged, write), a, Walk(r, m, b, privileged, write), b)
  {
    hide Descriptor; hide Access; hide Page; hide SameFields; hide SameFrame; hide RomSystem; hide Refused;
    SamePage(r, m, a, b);
    DescriptorSame(r, m, a, b);
  }

  // ---- coherence ----

  /** The entry for the page of `addr`, if live, says what the walk says of every access to `addr`. */
  predicate Exact(c: Cache, r: Regs, m: Memory, addr: Word) {
    Live(c.lines[Page(addr)]) ==> forall privileged, write :: Says(c.lines[Page(addr)], addr, privileged, write, Walk(r, m, addr, privileged, write))
  }

  predicate Says(l: Line, addr: Word, privileged: bool, write: bool, o: Outcome) {
    && (l.perm[Bit(privileged, write)] <==> o.Ok?)
    && (o.Ok? ==> o.phys == Joined(l.phys, addr))
  }

  /** Every live entry is exact for the sub-page that filled it. */
  predicate Coherent(c: Cache, r: Regs, m: Memory) {
    forall p: PageNumber :: Live(c.lines[p]) ==> 0 <= c.lines[p].sub < 4 && Exact(c, r, m, Rep(p, c.lines[p].sub))
  }

  lemma SaysSame(l: Line, a: Word, x: Outcome, b: Word, y: Outcome, privileged: bool, write: bool)
    requires Says(l, a, privileged, write, x) && SameOutcome(x, a, y, b) && Live(l)
    ensures Says(l, b, privileged, write, y)
  {
  }

  /** An exact entry is exact for all addresses of the page whose permission fields agree. */
  lemma ExactSame(c: Cache, r: Regs, m: Memory, a: Word, b: Word)
    requires Exact(c, r, m, a) && Page(a) == Page(b) && (Access(r, m, a) == 1 ==> SameFields(r, m, a, b))
    ensures Exact(c, r, m, b)
  {
    hide Walk; hide Says; hide Page; hide Live; hide SameFields; hide Access; hide SameOutcome;
    if Live(c.lines[Page(b)]) {
      forall privileged, write ensures Says(c.lines[Page(b)], b, privileged, write, Walk(r, m, b, privileged, write)) {
        WalkSame(r, m, a, b, privileged, write);
        SaysSame(c.lines[Page(b)], a, Walk(r, m, a, privileged, write), b, Walk(r, m, b, privileged, write), privileged, write);
      }
    }
  }

  /** A coherent cache is exact for every address of a page with equal permission fields. */
  lemma UniformExact(c: Cache, r: Regs, m: Memory, addr: Word)
    requires Coherent(c, r, m) && Uniform(r, m, Page(addr))
    ensures Exact(c, r, m, addr)
  {
    hide Walk; hide Ap; hide FirstLevel; hide SecondAddress; hide Access; hide Page; hide Sub; hide Says; hide Rep;
    var p := Page(addr);
    if Live(c.lines[p]) {
      var sub := c.lines[p].sub;
      var a := Rep(p, sub);
      RepIs(p, sub);
      RepIs(p, 0);
      SamePage(r, m, a, addr);
      SamePage(r, m, a, Rep(p, 0));
      SubRange(addr);
      ApUniform(Small(r, m, a));
      ExactSame(c, r, m, a, addr);
    }
  }

  lemma SubRange(addr: Word)
    ensures 0 <= Sub(addr) < 4
  {
  }

  lemma ApUniform(sld: Word)
    ensures Ap(sld, 0) == Ap(sld, 1) == Ap(sld, 2) == Ap(sld, 3) ==> forall i, j :: 0 <= i < 4 && 0 <= j < 4 ==> Ap(sld, i) == Ap(sld, j)
  {
  }

  // ---- filling and flushing keep the cache coherent ----

  lemma MaskSays(rs: int, access: int, f: Found, addr: Word, frame: Word, privileged: bool, write: bool)
    requires f.Found? && (access == 1 || access == 3) && frame == f.phys / 0x1000 * 0x1000 && f.phys % 0x1000 == addr % 0x1000
    ensures Says(Line(frame, PermMask(rs, access, if access == 1 then f.ap else 3), Sub(addr)), addr, privileged, write,
                 Checked(rs, access, f, privileged, write))
  {
    hide Refused; hide Sub;
    FrameAgain(f.phys, frame);
  }

  lemma FrameAgain(phys: Word, frame: Word)
    requires frame == phys / 0x1000 * 0x1000
    ensures frame / 0x1000 * 0x1000 + phys % 0x1000 == phys && frame % 0x1000 == 0
  {
  }

  /** A walk that succeeds finds the offset it started with, in a domain that is client or manager. */
  lemma WalkOk(r: Regs, m: Memory, addr: Word, privileged: bool, write: bool)
    requires Walk(r, m, addr, privileged, write).Ok?
    ensures var f := Descriptor(r, m, addr); f.Found? && f.phys % 0x1000 == addr % 0x1000
    ensures Access(r, m, addr) == 1 || Access(r, m, addr) == 3
  {
    hide Descriptor; hide Refused; hide Power4;
    DescriptorSame(r, m, addr, addr);
  }

  /** The new entry is exact for the address that filled it. */
  lemma FillExact(c: Cache, r: Regs, m: Memory, addr: Word, privileged: bool, write: bool)
    requires Walk(r, m, addr, privileged, write).Ok?
    ensures var d := Fill(c, r, m, addr, privileged, write);
            Exact(d, r, m, addr) && d.lines[Page(addr)].sub == Sub(addr) && Live(d.lines[Page(addr)])
  {
    hide Descriptor; hide Refused; hide Access; hide Page; hide Sub; hide Says; hide PermMask; hide Checked;
    var d := Fill(c, r, m, addr, privileged, write);
    WalkOk(r, m, addr, privileged, write);
    var f := Descriptor(r, m, addr);
    var access := Access(r, m, addr);
    var frame := f.phys / 0x1000 * 0x1000;
    FrameAgain(f.phys, frame);
    assert d.lines[Page(addr)] == Line(frame, PermMask(RomSystem(r.ctrl), access, if access == 1 then f.ap else 3), Sub(addr));
    forall p, w ensures Says(d.lines[Page(addr)], addr, p, w, Walk(r, m, addr, p, w)) {
      MaskSays(RomSystem(r.ctrl), access, f, addr, frame, p, w);
    }
  }

  lemma FillCoherent(c: Cache, r: Regs, m: Memory, addr: Word, privileged: bool, write: bool)
    requires InRing(c) && Coherent(c, r, m)
    ensures InRing(Fill(c, r, m, addr, privileged, write)) && Coherent(Fill(c, r, m, addr, privileged, write), r, m)
  {
    hide Page; hide Sub; hide Live; hide Exact; hide Walk; hide InRing; hide Rep; hide Access; hide Descriptor; hide Fill;
    var d := Fill(c, r, m, addr, privileged, write);
    FillInRing(c, r, m, addr, privileged, write);
    forall p: PageNumber | Live(d.lines[p]) ensures 0 <= d.lines[p].sub < 4 && Exact(d, r, m, Rep(p, d.lines[p].sub)) {
      if p == Page(addr) && Walk(r, m, addr, privileged, write).Ok? {
        FillExactRep(c, r, m, addr, privileged, write);
      } else {
        FillOther(c, r, m, addr, privileged, write, p);
        RepIs(p, d.lines[p].sub);
        ExactLine(c, d, r, m, Rep(p, d.lines[p].sub));
      }
    }
  }

  lemma FillInRing(c: Cache, r: Regs, m: Memory, addr: Word, privileged: bool, write: bool)
    requires InRing(c)
    ensures InRing(Fill(c, r, m, addr, privileged, write))
  {
    hide Walk; hide Descriptor; hide Access; hide PermMask; hide Page; hide AddEntry;
    var f := Descriptor(r, m, addr);
    if f.Found? {
      var access := Access(r, m, addr);
      AddInRing(c, addr, f.phys, PermMask(RomSystem(r.ctrl), access, if access == 1 then f.ap else 3));
    }
  }

  lemma FillExactRep(c: Cache, r: Regs, m: Memory, addr: Word, privileged: bool, write: bool)
    requires Walk(r, m, addr, privileged, write).Ok?
    ensures var d := Fill(c, r, m, addr, privileged, write);
            var sub := d.lines[Page(addr)].sub;
            0 <= sub < 4 && Exact(d, r, m, Rep(Page(addr), sub))
  {
    hide Page; hide Sub; hide Fill; hide Exact; hide Walk; hide Access; hide Rep; hide FirstLevel; hide SecondAddress; hide Ap;
    var d := Fill(c, r, m, addr, privileged, write);
    FillExact(c, r, m, addr, privileged, write);
    SubRange(addr);
    RepIs(Page(addr), Sub(addr));
    ExactSame(d, r, m, addr, Rep(Page(addr), Sub(addr)));
  }

  lemma FillOther(c: Cache, r: Regs, m: Memory, addr: Word, privileged: bool, write: bool, p: PageNumber)
    requires (p != Page(addr) || !Walk(r, m, addr, privileged, write).Ok?)
    ensures var d := Fill(c, r, m, addr, privileged, write); Live(d.lines[p]) ==> d.lines[p] == c.lines[p]
  {
    hide Walk; hide Descriptor; hide Access; hide PermMask; hide Page; hide Sub;
  }

  /** What an entry says depends on the entry alone. */
  lemma ExactLine(c: Cache, d: Cache, r: Regs, m: Memory, addr: Word)
    requires c.lines[Page(addr)] == d.lines[Page(addr)]
    ensures Exact(c, r, m, addr) == Exact(d, r, m, addr)
  {
    hide Walk; hide Says;
  }

  lemma FlushCoherent(c: Cache, r: Regs, m: Memory)
    requires InRing(c)
    ensures InRing(FlushFrom(c, 0)) && Coherent(FlushFrom(c, 0), r, m)
  {
    hide FlushFrom; hide Exact; hide Rep;
    FlushLeavesNone(c, 0);
    forall p: PageNumber ensures !Live(FlushFrom(c, 0).lines[p]) {
      FlushLeavesNone(c, p);
    }
  }

  // ---- the translation is transparent ----

  /** Where the entry is exact, the cached translation is the walk. */
  lemma TranslateIsWalk(c: Cache, r: Regs, m: Memory, addr: Word, privileged: bool, write: bool)
    requires Exact(c, r, m, addr)
    ensures Translate(c, r, m, addr, privileged, write).0 == Walk(r, m, addr, privileged, write)
  {
    hide Page; hide Walk; hide Fill;
    if Usable(c, addr, privileged, write) {
      assert Says(c.lines[Page(addr)], addr, privileged, write, Walk(r, m, addr, privileged, write));
    }
  }

  // ---- exactly when an entry is right for its whole page ----

  /** Distinct permission fields never allow the same accesses. */
  lemma RefusedDiffer(rs: int, ap: int, other: int)
    requires 0 <= ap < 4 && 0 <= other < 4
    requires forall privileged, write :: Refused(rs, ap, privileged, write) == Refused(rs, other, privileged, write)
    ensures ap == other
  {
    assert Refused(rs, ap, false, false) == Refused(rs, other, false, false);
    assert Refused(rs, ap, false, true) == Refused(rs, other, false, true);
    assert Refused(rs, ap, true, true) == Refused(rs, other, true, true);
  }

  /** A live entry is right for the whole page if and only if the page's permission fields agree. */
  lemma WholePage(c: Cache, r: Regs, m: Memory, p: PageNumber)
    requires Coherent(c, r, m) && Live(c.lines[p])
    ensures (forall sub :: 0 <= sub < 4 ==> Exact(c, r, m, Rep(p, sub))) <==> Uniform(r, m, p)
  {
    hide Exact; hide Live; hide Uniform; hide Rep; hide Page;
    if Uniform(r, m, p) {
      forall sub | 0 <= sub < 4 ensures Exact(c, r, m, Rep(p, sub)) {
        RepIs(p, sub);
        UniformExact(c, r, m, Rep(p, sub));
      }
    }
    if forall sub :: 0 <= sub < 4 ==> Exact(c, r, m, Rep(p, sub)) {
      ExactUniform(c, r, m, p);
    }
  }

  lemma ExactUniform(c: Cache, r: Regs, m: Memory, p: PageNumber)
    requires Live(c.lines[p]) && forall sub :: 0 <= sub < 4 ==> Exact(c, r, m, Rep(p, sub))
    ensures Uniform(r, m, p)
  {
    hide Exact; hide Live; hide Rep; hide Page; hide FirstLevel; hide SecondAddress; hide Access; hide Ap;
    var sld := Small(r, m, Rep(p, 0));
    if FirstLevel(r, m, Rep(p, 0)) % 4 == 1 && sld % 4 == 2 && Access(r, m, Rep(p, 0)) == 1 {
      SameAp(c, r, m, p, 1);
      SameAp(c, r, m, p, 2);
      SameAp(c, r, m, p, 3);
    }
  }

  lemma SameAp(c: Cache, r: Regs, m: Memory, p: PageNumber, sub: int)
    requires Live(c.lines[p]) && 0 <= sub < 4 && Exact(c, r, m, Rep(p, 0)) && Exact(c, r, m, Rep(p, sub))
    requires FirstLevel(r, m, Rep(p, 0)) % 4 == 1 && Small(r, m, Rep(p, 0)) % 4 == 2 && Access(r, m, Rep(p, 0)) == 1
    ensures Ap(Small(r, m, Rep(p, 0)), sub) == Ap(Small(r, m, Rep(p, 0)), 0)
  {
    hide Live; hide Rep; hide Page; hide FirstLevel; hide SecondAddress; hide Access; hide Ap; hide Refused; hide Sub;
    var sld := Small(r, m, Rep(p, 0));
    var a, b := Rep(p, 0), Rep(p, sub);
    RepIs(p, 0);
    RepIs(p, sub);
    SamePage(r, m, a, b);
    forall privileged, write
      ensures Refused(RomSystem(r.ctrl), Ap(sld, sub), privileged, write) == Refused(RomSystem(r.ctrl), Ap(sld, 0), privileged, write)
    {
      assert Says(c.lines[p], a, privileged, write, Walk(r, m, a, privileged, write));
      assert Says(c.lines[p], b, privileged, write, Walk(r, m, b, privileged, write));
    }
    ApRange(sld, 0);
    ApRange(sld, sub);
    RefusedDiffer(RomSystem(r.ctrl), Ap(sld, sub), Ap(sld, 0));
  }

  lemma ApRange(sld: Word, k: int)
    ensures 0 <= Ap(sld, k) < 4
  {
  }

  /** A page whose first sub-page anyone may read, and whose second only a privileged mode. */
  function Mixed(): Memory { Memory((bank, at) => 0x401, at => 0x1072) }

  const MIXED := Regs(1, 0, 1, 0)

  lemma MixedDescriptors()
    ensures Access(MIXED, Mixed(), 0) == 1 && Access(MIXED, Mixed(), 0x400) == 1
    ensures Descriptor(MIXED, Mixed(), 0) == Found(0x1000, 3, false) && Descriptor(MIXED, Mixed(), 0x400) == Found(0x1400, 1, false)
  {
    assert FirstLevel(MIXED, Mixed(), 0) == 0x401 && FirstLevel(MIXED, Mixed(), 0x400) == 0x401;
    assert Domain(MIXED, Mixed(), 0) == 0 && Domain(MIXED, Mixed(), 0x400) == 0;
    assert Power4(0) == 1;
    assert Decode2(0x1072, 0) == Found(0x1000, 3, false) && Decode2(0x1072, 0x400) == Found(0x1400, 1, false);
  }

  /** The cached entry of the first lets a user access to the second through, which the walk refuses. */
  lemma MixedLeaks(c: Cache)
    requires !Live(c.lines[0])
    ensures var c1 := Translate(c, MIXED, Mixed(), 0, false, false).1;
            && Translate(c1, MIXED, Mixed(), 0x400, false, false).0 == Ok(0x1400)
            && Walk(MIXED, Mixed(), 0x400, false, false) == Faulted(PagePermission)
  {
    hide Descriptor; hide Access; hide Mixed;
    MixedDescriptors();
    assert Page(0) == 0 && Page(0x400) == 0;
    var c1 := Translate(c, MIXED, Mixed(), 0, false, false).1;
    assert c1.lines[0] == Line(0x1000, PermMask(0, 1, 3), 0);
  }

  // ---- every run ----

  /** Everything but the cache: registers, tables, fault address and status. */
  datatype Plain = Plain(regs: Regs, mem: Memory, far: Word, fsr: int)

  /** With the cache, and whether the tables have changed since the last flush. */
  datatype Mmu = Mmu(plain: Plain, cache: Cache, dirty: bool)

  datatype Op =
    | OpAccess(addr: Word, privileged: bool, write: bool, prefetch: bool)
    | OpControl(val: Word)
    | OpTable(val: Word)
    | OpDomains(val: Word)
    | OpFlush                // on the ARMv3 CPUs also a write of register 5 or 6
    | OpFsr(val: Word)
    | OpFar(val: Word)
    | OpTables(mem: Memory)

  /** The bank of RAM that holds the tables; an address outside RAM leaves it as it was. */
  function Bank(table: Word, last: int): int {
    var top := table / 0x100_0000 % 0x40;
    if top == 2 then 0 else if 0x10 <= top < 0x14 then 1 else if 0x14 <= top < 0x18 then 2
    else if 0x18 <= top < 0x20 then 3 else if 0x20 <= top < 0x30 then 4 else if 0x30 <= top then 5 else last
  }

  /** The fault registers after an access, from translateaddress2(). */
  function Reported(p: Plain, op: Op, o: Outcome): Plain
    requires op.OpAccess?
  {
    if o.Faulted? && !op.prefetch then p.(far := op.addr, fsr := Domain(p.regs, p.mem, op.addr) * 16 + Code(o.why)) else p
  }

  /** A machine that walks the tables on every access. */
  function PlainStep(p: Plain, op: Op): (Plain, seq<Outcome>) {
    match op
    case OpAccess(addr, privileged, write, _) =>
      var o := Walk(p.regs, p.mem, addr, privileged, write);
      (Reported(p, op, o), [o])
    case OpControl(val) => (p.(regs := p.regs.(ctrl := val)), [])
    case OpTable(val) => (p.(regs := p.regs.(table := val / 0x4000 * 0x4000, bank := Bank(val, p.regs.bank))), [])
    case OpDomains(val) => (p.(regs := p.regs.(domains := val)), [])
    case OpFlush => (p, [])
    case OpFsr(val) => (p.(fsr := val), [])
    case OpFar(val) => (p.(far := val), [])
    case OpTables(mem) => (p.(mem := mem), [])
  }

  /** When cp15_write() flushes: the MMU, ROM or System bit changes, the domains change, or a flush is asked for. */
  predicate Flushes(p: Plain, op: Op) {
    match op
    case OpControl(val) => p.regs.ctrl % 2 != val % 2 || RomSystem(p.regs.ctrl) != RomSystem(val)
    case OpTable(_) => true
    case OpDomains(val) => val != p.regs.domains
    case OpFlush => true
    case _ => false
  }

  /** The machine with the cache. */
  function Step(s: Mmu, op: Op): (Mmu, seq<Outcome>) {
    match op
    case OpAccess(addr, privileged, write, _) =>
      var (o, cache) := Translate(s.cache, s.plain.regs, s.plain.mem, addr, privileged, write);
      (Mmu(Reported(s.plain, op, o), cache, s.dirty), [o])
    case OpTables(mem) => (Mmu(s.plain.(mem := mem), s.cache, true), [])
    case _ =>
      var plain := PlainStep(s.plain, op).0;
      if Flushes(s.plain, op) then (Mmu(plain, FlushFrom(s.cache, 0), false), []) else (Mmu(plain, s.cache, s.dirty), [])
  }

  /** What every step keeps. */
  predicate Good(s: Mmu) { InRing(s.cache) && (!s.dirty ==> Coherent(s.cache, s.plain.regs, s.plain.mem)) }

  /** No access between a change of the tables and a flush, and none to a page with unequal permission fields. */
  predicate Proper(s: Mmu, op: Op) {
    op.OpAccess? ==> !s.dirty && Uniform(s.plain.regs, s.plain.mem, Page(op.addr))
  }

  lemma StepTransparent(s: Mmu, op: Op)
    requires Good(s) && Proper(s, op)
    ensures Good(Step(s, op).0)
    ensures Step(s, op).1 == PlainStep(s.plain, op).1 && Step(s, op).0.plain == PlainStep(s.plain, op).0
  {
    StepGood(s, op);
    hide Uniform; hide Walk; hide InRing; hide Coherent; hide Exact; hide FlushFrom; hide Fill; hide Page; hide Domain; hide Code; hide Usable; hide Joined; hide RomSystem;
    match op {
      case OpAccess(addr, privileged, write, _) =>
        UniformExact(s.cache, s.plain.regs, s.plain.mem, addr);
        TranslateIsWalk(s.cache, s.plain.regs, s.plain.mem, addr, privileged, write);
      case OpControl(_) =>
      case OpTable(_) =>
      case OpDomains(_) =>
      case OpFlush =>
      case OpFsr(_) =>
      case OpFar(_) =>
      case OpTables(_) =>
    }
  }

  /** The walk looks at no control bits but ROM and System. */
  lemma ControlCoherent(c: Cache, r: Regs, m: Memory, val: Word)
    requires Coherent(c, r, m) && RomSystem(r.ctrl) == RomSystem(val)
    ensures Coherent(c, r.(ctrl := val), m)
  {
    hide Says; hide Rep; hide Live; hide Page;
    forall p: PageNumber | Live(c.lines[p]) ensures 0 <= c.lines[p].sub < 4 && Exact(c, r.(ctrl := val), m, Rep(p, c.lines[p].sub)) {
      var addr := Rep(p, c.lines[p].sub);
      forall privileged, write ensures Walk(r.(ctrl := val), m, addr, privileged, write) == Walk(r, m, addr, privileged, write) {
        ControlWalk(r, m, val, addr, privileged, write);
      }
    }
  }

  lemma ControlWalk(r: Regs, m: Memory, val: Word, addr: Word, privileged: bool, write: bool)
    requires RomSystem(r.ctrl) == RomSystem(val)
    ensures Walk(r.(ctrl := val), m, addr, privileged, write) == Walk(r, m, addr, privileged, write)
  {
    hide RomSystem; hide Refused; hide Decode2; hide FirstIndex; hide SecondAddress;
  }

  predicate Orderly(s: Mmu, ops: seq<Op>)
    decreases |ops|
  {
    ops == [] || (Proper(s, ops[0]) && Orderly(Step(s, ops[0]).0, ops[1..]))
  }

  /** The outcomes of all accesses of a run, in order. */
  function Trace(s: Mmu, ops: seq<Op>): seq<Outcome>
    decreases |ops|
  {
    if ops == [] then [] else Step(s, ops[0]).1 + Trace(Step(s, ops[0]).0, ops[1..])
  }

  function PlainTrace(p: Plain, ops: seq<Op>): seq<Outcome>
    decreases |ops|
  {
    if ops == [] then [] else PlainStep(p, ops[0]).1 + PlainTrace(PlainStep(p, ops[0]).0, ops[1..])
  }

  /** The machine after a run, and the machine without a cache. */
  function Final(s: Mmu, ops: seq<Op>): Mmu
    decreases |ops|
  {
    if ops == [] then s else Final(Step(s, ops[0]).0, ops[1..])
  }

  function PlainFinal(p: Plain, ops: seq<Op>): Plain
    decreases |ops|
  {
    if ops == [] then p else PlainFinal(PlainStep(p, ops[0]).0, ops[1..])
  }

  /** The cache cannot be told from a machine without one: by any outcome, nor by the registers, faults included, after any run. */
  lemma {:induction false} Transparent(s: Mmu, ops: seq<Op>)
    requires Good(s) && Orderly(s, ops)
    ensures Trace(s, ops) == PlainTrace(s.plain, ops)
    ensures Final(s, ops).plain == PlainFinal(s.plain, ops)
    decreases |ops|
  {
    hide Good; hide Step; hide PlainStep; hide Proper;
    if ops != [] {
      StepTransparent(s, ops[0]);
      Transparent(Step(s, ops[0]).0, ops[1..]);
    }
  }

  /** Any step at all, also an access between a change of the tables and a flush. */
  lemma StepGood(s: Mmu, op: Op)
    requires Good(s)
    ensures Good(Step(s, op).0)
  {
    hide Walk; hide InRing; hide Coherent; hide FlushFrom; hide Fill; hide Page; hide Domain; hide Code; hide Usable; hide Joined; hide RomSystem;
    var r, m := s.plain.regs, s.plain.mem;
    match op {
      case OpAccess(addr, privileged, write, _) =>
        FillInRing(s.cache, r, m, addr, privileged, write);
        if !s.dirty { FillCoherent(s.cache, r, m, addr, privileged, write); }
      case OpControl(val) =>
        FlushCoherent(s.cache, r.(ctrl := val), m);
        if !s.dirty && RomSystem(r.ctrl) == RomSystem(val) { ControlCoherent(s.cache, r, m, val); }
      case OpTable(val) => FlushCoherent(s.cache, PlainStep(s.plain, op).0.regs, m);
      case OpDomains(val) => FlushCoherent(s.cache, r.(domains := val), m);
      case OpFlush => FlushCoherent(s.cache, r, m);
      case OpFsr(_) =>
      case OpFar(_) =>
      case OpTables(mem) =>
    }
  }

  /** After every run whatsoever the live entries are in the ring; and exact, unless the tables have changed since the last flush. */
  lemma {:induction false} RunGood(s: Mmu, ops: seq<Op>)
    requires Good(s)
    ensures Good(Final(s, ops))
    decreases |ops|
  {
    hide Good; hide Step;
    if ops != [] {
      StepGood(s, ops[0]);
      RunGood(Step(s, ops[0]).0, ops[1..]);
    }
  }

  /** What that means at one address: a live entry is in the ring, and says what the walk says of every access there. */
  lemma GoodMeans(s: Mmu, addr: Word)
    requires Good(s)
    ensures Live(s.cache.lines[Page(addr)]) ==> Named(s.cache, Page(addr))
    ensures !s.dirty && Uniform(s.plain.regs, s.plain.mem, Page(addr)) ==> Exact(s.cache, s.plain.regs, s.plain.mem, addr)
  {
    hide Page; hide Uniform; hide Coherent; hide Exact; hide Live; hide Named;
    if !s.dirty && Uniform(s.plain.regs, s.plain.mem, Page(addr)) {
      UniformExact(s.cache, s.plain.regs, s.plain.mem, addr);
    }
  }

  /** The cache after cp15_reset(), which leaves the permission bits alone. */
  lemma ResetGood(p: Plain, c: Cache, dirty: bool)
    requires forall q :: 0 <= q < PAGES ==> c.lines[q].phys == NONE
    ensures Good(Mmu(p, c, dirty))
  {
  }

  // ---- the cache as the source keeps it ----

  /** cp15_perm_mask(): every privilege and direction is tried in turn. */
  method BuildMask(rs: int, access: int, ap: int) returns (mask: Perms)
    ensures mask == PermMask(rs, access, ap)
  {
    if access == 3 { return [true, true, true, true]; }
    hide Refused;
    mask := [false, false, false, false];
    var p := 0;
    while p < 2
      invariant 0 <= p <= 2
      invariant forall k :: 0 <= k < 4 ==> mask[k] == (k < 2 * p && !Refused(rs, ap, k >= 2, k % 2 == 1))
    {
      var w := 0;
      while w < 2
        invariant 0 <= w <= 2
        invariant forall k :: 0 <= k < 4 ==> mask[k] == (k < 2 * p + w && !Refused(rs, ap, k >= 2, k % 2 == 1))
      {
        if !Refused(rs, ap, p == 1, w == 1) { mask := mask[2 * p + w := true]; }
        w := w + 1;
      }
      p := p + 1;
    }
    assert mask == PermMask(rs, access, ap);
  }

  class Translator {
    var lines: Lines
    var ring: Slots
    var pos: SlotNumber

    function View(): Cache
      reads this
    {
      Cache(lines, ring, pos)
    }

    constructor ()
      ensures forall q :: 0 <= q < PAGES ==> View().lines[q].phys == NONE
    {
      lines := seq(PAGES, _ => Line(NONE, [false, false, false, false], 0));
      ring := seq(SLOTS, _ => NONE);
      pos := 0;
    }

    method Flush()
      modifies this
      ensures View() == FlushFrom(old(View()), 0)
    {
      hide FlushFrom;
      var k := 0;
      while k < SLOTS
        invariant 0 <= k <= SLOTS && FlushFrom(View(), k) == FlushFrom(old(View()), 0)
      {
        FlushUnfold(View(), k);
        ghost var c0 := View();
        if ring[k] != NONE {
          lines := lines[ring[k] := lines[ring[k]].(phys := NONE)];
          lines := lines[ring[k] := lines[ring[k]].(perm := [false, false, false, false])];
          assert lines == Evicted(c0.lines, c0.ring[k]);
          ring := ring[k := NONE];
        } else {
          FlushFree(View(), k);
        }
        k := k + 1;
      }
      FlushUnfold(View(), k);
    }

    method Add(addr: Word, phys: Word, perm: Perms)
      modifies this
      ensures View() == AddEntry(old(View()), addr, phys, perm)
    {
      hide Page; hide Sub;
      if ring[pos] != NONE {
        lines := lines[ring[pos] := lines[ring[pos]].(phys := NONE)];
        lines := lines[ring[pos] := lines[ring[pos]].(perm := [false, false, false, false])];
      }
      assert lines == Evicted(old(lines), old(ring[pos]));
      ring := ring[pos := Page(addr)];
      lines := lines[Page(addr) := Line(phys / 0x1000 * 0x1000, perm, Sub(addr))];
      pos := (pos + 1) % SLOTS;
    }

    /** translateaddress(), with translateaddress2() for what the cache does not hold. */
    method Lookup(r: Regs, m: Memory, addr: Word, privileged: bool, write: bool) returns (o: Outcome)
      modifies this
      ensures (o, View()) == Translate(old(View()), r, m, addr, privileged, write)
    {
      hide Page; hide Descriptor; hide Access; hide Refused; hide RomSystem; hide AddEntry; hide PermMask;
      if lines[Page(addr)].phys % 0x1000 == 0 && lines[Page(addr)].perm[Bit(privileged, write)] {
        return Ok(Joined(lines[Page(addr)].phys, addr));
      }
      var f := Descriptor(r, m, addr);
      if f.Missing? { return Faulted(f.why); }
      if f.Halt? { return Halted; }
      var access := Access(r, m, addr);
      if access == 0 || access == 2 {
        return Faulted(if f.section then SectionDomain else PageDomain);
      }
      var ap := 3;
      if access == 1 {
        ap := f.ap;
        if Refused(RomSystem(r.ctrl), ap, privileged, write) {
          return Faulted(if f.section then SectionPermission else PagePermission);
        }
      }
      var mask := BuildMask(RomSystem(r.ctrl), access, ap);
      Add(addr, f.phys, mask);
      return Ok(f.phys);
    }
  }

  lemma FlushUnfold(c: Cache, k: nat)
    requires k <= SLOTS
    ensures FlushFrom(c, k) == if k == SLOTS then c else FlushFrom(FlushSlot(c, k), k + 1)
  {
    hide Evicted;
  }

  lemma FlushFree(c: Cache, k: nat)
    requires k < SLOTS && c.ring[k] == NONE
    ensures FlushSlot(c, k) == c
  {
    assert c.ring[k := NONE] == c.ring;
  }
}
