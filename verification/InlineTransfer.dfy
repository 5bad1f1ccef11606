/**
 Block transfers compiled inline (codegen_arm64.c): when the words lie in one 1 KB region and
 the page is in the fast map, the registers are moved to or from host memory directly. The
 result is proved to be that of the interpreter's loops.
 */
module InlineTransfer {
  import opened Words
  import opened Opcodes
  import opened Interpreter
  import opened BlockTransfer

  /** The instructions of the inline path; w9 carries the data, w11 the writeback value, x10 the host address. */
  datatype Insn =
    | LoadGuest(i: nat)      // w9 = guest register, R15 from its cache
    | SaveGuest(i: nat)      // guest register = w9
    | SaveBase(i: nat)       // guest register = w11
    | AddW9(imm: Word)
    | LdrHost(d: nat)        // w9 = [x10 + d]
    | StrHost(d: nat)        // [x10 + d] = w9
    | MergeR15(mask: Word)   // w9 = ((w9 + 4) & mask) | (R15 & ~mask)

  datatype Host = Host(w9: Word, w11: Word, x10: int, reg: Regs, mem: Memory)

  function Step(i: Insn, h: Host): Host {
    match i
    case LoadGuest(i) => if i < 16 then h.(w9 := h.reg[i]) else h
    case SaveGuest(i) => if i < 16 then h.(reg := h.reg[i := h.w9]) else h
    case SaveBase(i) => if i < 16 then h.(reg := h.reg[i := h.w11]) else h
    case AddW9(imm) => h.(w9 := Add(h.w9, imm))
    case LdrHost(d) => h.(w9 := HostWord(h.mem, h.x10 + d))
    case StrHost(d) => h.(mem := h.mem.(host := h.mem.host[h.x10 + d := h.w9]))
    case MergeR15(mask) => h.(w9 := OrW(AndW(Add(h.w9, 4), mask), AndW(h.reg[15], Not(mask))))
  }

  function Run(code: seq<Insn>, h: Host): Host {
    if code == [] then h else Run(code[1..], Step(code[0], h))
  }

  lemma {:induction false} RunAppend(a: seq<Insn>, b: seq<Insn>, h: Host)
    ensures Run(a + b, h) == Run(b, Run(a, h))
  {
    if a == [] {
      assert a + b == b;
    } else {
      assert (a + b)[1..] == a[1..] + b;
      RunAppend(a[1..], b, Step(a[0], h));
    }
  }

  lemma Run2(i: Insn, j: Insn, h: Host)
    ensures Run([i, j], h) == Step(j, Step(i, h))
  {
    hide Step;
    assert [i, j][1..] == [j] && [j][1..] == [];
    RunNil(Step(j, Step(i, h)));
  }

  lemma Run3(i: Insn, j: Insn, k: Insn, h: Host)
    ensures Run([i, j, k], h) == Step(k, Step(j, Step(i, h)))
  {
    hide Step;
    assert [i, j, k][1..] == [j, k];
    Run2(j, k, Step(i, h));
  }

  // ---- the boundary test ----

  /** The carry of `(address | 0xfffffc00) + ((size - 1) & 0xfff)`: set means "use the helper". */
  predicate CrossesTest(address: Word, size: nat)
    requires size <= 64
  {
    OrW(address, 0xffff_fc00) + (if size == 0 then 0xfff else size - 1) >= MOD
  }

  /** The test passes exactly for a non-empty transfer that stays within a 1 KB region. */
  lemma CrossesTestMeans(address: Word, size: nat)
    requires size <= 64
    ensures !CrossesTest(address, size) <==> size > 0 && address % 0x400 + size <= 0x400
  {
    hide And; hide Or; hide Pow2;
    Pow32(); PowersOfInterest();
    OrIsAndPlus(address, 0xffff_fc00, 32);
    AndLow(address, 10);
  }

  /** Within such a region no address wraps, and all words share the page and its map entries. */
  lemma OneRegion(base: Word, n: nat, k: nat)
    requires base % 0x400 + 4 * n <= 0x400 && k < n
    ensures At(base, k) == base + 4 * k && Page(At(base, k)) == Page(base)
  {
    var q := base / 0x400;
    assert base + 4 * k < 0x400 * q + 0x400;
    assert base + 4 * k < MOD;
    assert Page(base) == q / 4;
    assert (base + 4 * k) / 0x1000 == q / 4;
  }

  lemma AllFast(m: Memory, base: Word, n: nat, k: nat)
    requires base % 0x400 + 4 * n <= 0x400 && k <= n
    ensures n > 0 && FastRead(m, base) ==> Reads(m, base, k) == k
    ensures n > 0 && FastWrite(m, base) ==> Writes(m, base, k) == k
  {
    hide At; hide Page;
    if k != 0 {
      AllFast(m, base, n, k - 1);
      OneRegion(base, n, k - 1);
    }
  }

  // ---- loads ----

  function LoadOne(cfg: Config, c: nat, k: nat): seq<Insn> {
    if c == 15 then [LdrHost(4 * k), MergeR15(cfg.R15Mask()), SaveGuest(15)] else [LdrHost(4 * k), SaveGuest(c)]
  }

  /** Transfers k, k+1, ... of the list. */
  function LoadsFrom(cfg: Config, l: seq<nat>, k: nat): seq<Insn>
    requires k <= |l|
    decreases |l| - k
  {
    if k == |l| then [] else LoadOne(cfg, l[k], k) + LoadsFrom(cfg, l, k + 1)
  }

  function LoadCode(cfg: Config, op: Word): seq<Insn> {
    (if WritesBack(op) then [SaveBase(Rn(op))] else []) + LoadsFrom(cfg, List(op), 0)
  }

  lemma RunLoadOne(cfg: Config, c: nat, k: nat, h: Host)
    requires c < 16
    ensures var v := HostWord(h.mem, h.x10 + 4 * k);
            var w := if c == 15 then BranchTo(cfg, h.reg[15], v) else v;
            Run(LoadOne(cfg, c, k), h) == h.(w9 := w, reg := h.reg[c := w])
  {
    hide AndW; hide OrW; hide Add; hide HostWord; hide Run;
    if c == 15 {
      Run3(LdrHost(4 * k), MergeR15(cfg.R15Mask()), SaveGuest(15), h);
    } else {
      Run2(LdrHost(4 * k), SaveGuest(c), h);
    }
  }

  /** The registers of the list from k on, as both sides leave them. */
  function Loaded(cfg: Config, m: Memory, base: Word, l: seq<nat>, k: nat, r: Regs): Regs
    requires k <= |l|
    decreases |l| - k
  {
    if k == |l| || l[k] >= 16 then r
    else
      var v := Read(m, At(base, k));
      Loaded(cfg, m, base, l, k + 1, r[l[k] := if l[k] == 15 then BranchTo(cfg, r[15], v) else v])
  }

  lemma {:induction false} RunLoads(cfg: Config, l: seq<nat>, k: nat, base: Word, h: Host)
    requires k <= |l| && Ascending(l, 16)
    requires base % 0x400 + 4 * |l| <= 0x400 && FastRead(h.mem, base) && h.x10 == base + h.mem.readMap(Page(base))
    ensures var h' := Run(LoadsFrom(cfg, l, k), h);
            h'.reg == Loaded(cfg, h.mem, base, l, k, h.reg) && h'.mem == h.mem
    decreases |l| - k
  {
    hide Run; hide At; hide Page; hide BranchTo; hide HostWord; hide LoadOne;
    if k == |l| {
      RunNil(h);
    } else {
      OneRegion(base, |l|, k);
      RunLoadOne(cfg, l[k], k, h);
      RunAppend(LoadOne(cfg, l[k], k), LoadsFrom(cfg, l, k + 1), h);
      RunLoads(cfg, l, k + 1, base, Run(LoadOne(cfg, l[k], k), h));
    }
  }

  lemma RunNil(h: Host)
    ensures Run([], h) == h
  {
  }

  /** The interpreter's prefix, then R15, is the same sequence of register writes. */
  lemma {:induction false} LoadedIsPrefix(cfg: Config, j: Job, m: Memory, s: State, l: seq<nat>, n: nat, k: nat)
    requires !j.bank && Ascending(l, 16) && k <= n <= |l|
    requires (forall i :: 0 <= i < n ==> l[i] < 15) && (n < |l| ==> n == |l| - 1 && l[n] == 15)
    ensures var s1 := LoadPrefix(j, m, s, l, n);
            Loaded(cfg, m, j.base, l, k, LoadPrefix(j, m, s, l, k).reg) ==
            if n < |l| then s1.reg[15 := BranchTo(cfg, s1.reg[15], Read(m, At(j.base, n)))] else s1.reg
    decreases n - k
  {
    hide At; hide BranchTo; hide Read;
    if k < n {
      LoadedIsPrefix(cfg, j, m, s, l, n, k + 1);
    }
  }

  /** The inline load is the interpreter's load. */
  lemma InlineLoadCorrect(cfg: Config, j: Job, h: Host, s: State)
    requires !j.bank && s.reg == h.reg && h.w11 == j.writeback
    requires !CrossesTest(j.base, Size(j.op)) && FastRead(h.mem, j.base)
    requires h.x10 == j.base + h.mem.readMap(Page(j.base))
    ensures var h' := Run(LoadCode(cfg, j.op), h);
            && Reads(h.mem, j.base, |List(j.op)|) == |List(j.op)|
            && h'.reg == LoadOutcome(cfg, j, h.mem, s).reg && h'.mem == h.mem
  {
    hide Run; hide At; hide Page; hide BranchTo; hide Read; hide CrossesTest; hide Below; hide Reads; hide LoadPrefix; hide Loaded; hide LoadsFrom; hide Listed; hide Rn; hide WritesBack;
    var l, low := List(j.op), Below(j.op, 15);
    CrossesTestMeans(j.base, Size(j.op));
    AllFast(h.mem, j.base, |l|, |l|);
    BelowMeans(j.op, 16); BelowMeans(j.op, 15);
    ListEnds(j.op, h.mem, j.base);
    var wb := if WritesBack(j.op) then [SaveBase(Rn(j.op))] else [];
    var h1 := if WritesBack(j.op) then h.(reg := h.reg[Rn(j.op) := j.writeback]) else h;
    RunBase(j.op, h);
    RunAppend(wb, LoadsFrom(cfg, l, 0), h);
    RunLoads(cfg, l, 0, j.base, h1);
    var s1 := if WritesBack(j.op) then BaseTo(s, j.op, j.writeback) else s;
    LoadedIsPrefix(cfg, j, h.mem, s1, l, |low|, 0);
    PrefixZero(j, h.mem, s1, l);
    PrefixOfList(j, h.mem, s1, low, l, |low|);
  }

  lemma RunBase(op: Word, h: Host)
    ensures Run(if WritesBack(op) then [SaveBase(Rn(op))] else [], h) ==
            if WritesBack(op) then h.(reg := h.reg[Rn(op) := h.w11]) else h
  {
    if WritesBack(op) {
      assert [SaveBase(Rn(op))][1..] == [];
    }
  }

  lemma PrefixZero(j: Job, m: Memory, s: State, l: seq<nat>)
    ensures LoadPrefix(j, m, s, l, 0) == s
  {
  }

  lemma {:induction false} PrefixOfList(j: Job, m: Memory, s: State, l: seq<nat>, l': seq<nat>, k: nat)
    requires k <= |l| && l <= l'
    ensures LoadPrefix(j, m, s, l, k) == LoadPrefix(j, m, s, l', k)
  {
    hide Put; hide Read; hide At;
    if k != 0 { PrefixOfList(j, m, s, l, l', k - 1); }
  }

  // ---- stores ----

  function StoreOne(cpu: Model, c: nat, k: nat): seq<Insn> {
    if c == 15 && cpu.r15Diff != 0 then [LoadGuest(c), AddW9(cpu.r15Diff), StrHost(4 * k)]
    else [LoadGuest(c), StrHost(4 * k)]
  }

  function StoresFrom(cpu: Model, l: seq<nat>, k: nat): seq<Insn>
    requires k <= |l|
    decreases |l| - k
  {
    if k == |l| then [] else StoreOne(cpu, l[k], k) + StoresFrom(cpu, l, k + 1)
  }

  function BaseCode(op: Word, when: bool): seq<Insn> { if WritesBack(op) && when then [SaveBase(Rn(op))] else [] }

  /** How many registers are stored before an early writeback: the lowest one, unless it is R15. */
  function First(l: seq<nat>): (n: nat) ensures n <= 1 && n <= |l| { if l != [] && l[0] < 15 then 1 else 0 }

  function StoreCode(cpu: Model, op: Word): seq<Insn> {
    var l := List(op);
    (if First(l) == 1 then StoreOne(cpu, l[0], 0) else []) +
    (BaseCode(op, !cpu.writebackAtEnd) +
     (StoresFrom(cpu, l, First(l)) + BaseCode(op, cpu.writebackAtEnd)))
  }

  lemma RunStoreOne(cpu: Model, c: nat, k: nat, h: Host)
    requires c < 16
    ensures var v := if c == 15 then Add(h.reg[15], cpu.r15Diff) else h.reg[c];
            Run(StoreOne(cpu, c, k), h) == h.(w9 := v, mem := h.mem.(host := h.mem.host[h.x10 + 4 * k := v]))
  {
    hide Run; hide Add;
    var v := if c == 15 then Add(h.reg[15], cpu.r15Diff) else h.reg[c];
    if c == 15 && cpu.r15Diff != 0 {
      Run3(LoadGuest(c), AddW9(cpu.r15Diff), StrHost(4 * k), h);
    } else {
      AddZero(h.reg[15]);
      Run2(LoadGuest(c), StrHost(4 * k), h);
    }
  }

  lemma AddZero(a: Word)
    ensures Add(a, 0) == a
  {
  }

  lemma RunBaseCode(op: Word, when: bool, h: Host)
    ensures Run(BaseCode(op, when), h) ==
            if WritesBack(op) && when then h.(reg := h.reg[Rn(op) := h.w11]) else h
  {
    if WritesBack(op) && when {
      assert BaseCode(op, when)[1..] == [];
    }
  }

  /** The host is about to do transfer `k`: memory as the interpreter has it, registers for this point. */
  ghost predicate Storing(j: Job, m: Memory, s: State, l: seq<nat>, k: nat, h: Host)
    requires k <= |l|
  {
    && h.mem == StorePrefix(j, m, s, l, k)
    && h.x10 == j.base + m.writeMap(Page(j.base))
    && h.w11 == j.writeback
    && h.mem.writeMap == m.writeMap
  }

  /** One store, provided the register holds what the interpreter stores at this point. */
  lemma StoreStep(j: Job, m: Memory, s: State, l: seq<nat>, k: nat, h: Host)
    requires !j.bank && k < |l| && l[k] < 16 && Storing(j, m, s, l, k, h)
    requires j.base % 0x400 + 4 * |l| <= 0x400 && FastWrite(m, j.base)
    requires if l[k] == 15 then h.reg[15] == s.reg[15]
             else h.reg[l[k]] == (if EarlyWriteback(j) && k > 0 then BaseTo(s, j.op, j.writeback) else s).reg[l[k]]
    ensures var h' := Run(StoreOne(j.cpu, l[k], k), h);
            Storing(j, m, s, l, k + 1, h') && h'.reg == h.reg
  {
    hide Run; hide At; hide Page; hide StoreOne; hide Add; hide EarlyWriteback; hide BaseTo;
    OneRegion(j.base, |l|, k);
    RunStoreOne(j.cpu, l[k], k, h);
  }

  lemma {:induction false} RunStores(j: Job, m: Memory, s: State, l: seq<nat>, k: nat, h: Host)
    requires !j.bank && k <= |l| && Ascending(l, 16) && Storing(j, m, s, l, k, h)
    requires j.base % 0x400 + 4 * |l| <= 0x400 && FastWrite(m, j.base)
    requires k > 0 || l == [15]
    requires h.reg == (if EarlyWriteback(j) then BaseTo(s, j.op, j.writeback) else s).reg
    ensures var h' := Run(StoresFrom(j.cpu, l, k), h);
            Storing(j, m, s, l, |l|, h') && h'.reg == h.reg
    decreases |l| - k
  {
    hide Run; hide Page; hide StoreOne; hide StorePrefix; hide FastWrite;
    if k == |l| {
      RunNil(h);
    } else {
      StoreStep(j, m, s, l, k, h);
      RunAppend(StoreOne(j.cpu, l[k], k), StoresFrom(j.cpu, l, k + 1), h);
      RunStores(j, m, s, l, k + 1, Run(StoreOne(j.cpu, l[k], k), h));
    }
  }

  /** The inline store is the interpreter's store, with either writeback timing. */
  lemma InlineStoreCorrect(j: Job, h: Host, s: State)
    requires !j.bank && s.reg == h.reg && h.w11 == j.writeback
    requires !CrossesTest(j.base, Size(j.op)) && FastWrite(h.mem, j.base)
    requires h.x10 == j.base + h.mem.writeMap(Page(j.base))
    ensures var h', n := Run(StoreCode(j.cpu, j.op), h), |List(j.op)|;
            && Writes(h.mem, j.base, n) == n
            && h'.mem == StorePrefix(j, h.mem, s, List(j.op), n)
            && h'.reg == StoreOutcome(j, false, s).reg
  {
    hide Run; hide Page; hide CrossesTest; hide Below; hide Writes; hide StoresFrom; hide StoreOne; hide Listed; hide Rn; hide WritesBack; hide BaseCode; hide StorePrefix;
    var l, m := List(j.op), h.mem;
    CrossesTestMeans(j.base, Size(j.op));
    AllFast(m, j.base, |l|, |l|);
    BelowMeans(j.op, 16);
    StoreZero(j, m, s, l);
    var f := First(l);
    var c1 := if f == 1 then StoreOne(j.cpu, l[0], 0) else [];
    var c2, c3, c4 := BaseCode(j.op, !j.cpu.writebackAtEnd), StoresFrom(j.cpu, l, f), BaseCode(j.op, j.cpu.writebackAtEnd);
    var h1 := Run(c1, h);
    RunNil(h);
    if f == 1 { StoreStep(j, m, s, l, 0, h); }
    var h2 := Run(c2, h1);
    RunBaseCode(j.op, !j.cpu.writebackAtEnd, h1);
    OnlyR15(l);
    RunStores(j, m, s, l, f, h2);
    var h3 := Run(c3, h2);
    RunBaseCode(j.op, j.cpu.writebackAtEnd, h3);
    RunAppend(c1, c2 + (c3 + c4), h);
    RunAppend(c2, c3 + c4, h1);
    RunAppend(c3, c4, h2);
  }

  lemma OnlyR15(l: seq<nat>)
    requires l != [] && Ascending(l, 16)
    ensures First(l) == 0 ==> l == [15]
  {
    assert |l| > 1 ==> l[0] < l[1];
  }

  lemma StoreZero(j: Job, m: Memory, s: State, l: seq<nat>)
    ensures StorePrefix(j, m, s, l, 0) == m
  {
  }

  // ---- the addresses ----

  predicate Up(op: Word) { (op / 0x80_0000) % 2 == 1 }

  predicate Before(op: Word) { (op / 0x100_0000) % 2 == 1 }

  /** The first address and the writeback value, as the handlers of LDM and STM pass them on. */
  function Addresses(op: Word, base: Word): (Word, Word) {
    if Up(op) then (if Before(op) then Add(base, 4) else base, Add(base, Size(op)))
    else
      var low := Sub(base, Size(op));
      (if Before(op) then low else Add(low, 4), low)
  }

  /** The two registers of the address code: x10 for the address, x11 for the writeback value. */
  datatype Pair = Pair(x10: Word, x11: Word)

  datatype AddressInsn = LoadX10 | AddX10(n: Word) | SubX10(n: Word) | AddX11(n: Word) | CopyX11 | LsrX10(places: nat) | LslX10(places: nat)

  function AddressStep(i: AddressInsn, base: Word, p: Pair): Pair {
    match i
    case LoadX10 => p.(x10 := base)
    case AddX10(n) => p.(x10 := Add(p.x10, n))
    case SubX10(n) => p.(x10 := Sub(p.x10, n))
    case AddX11(n) => p.(x11 := Add(p.x11, n))
    case CopyX11 => p.(x11 := p.x10)
    case LsrX10(n) => p.(x10 := Lsr(p.x10, n))
    case LslX10(n) => p.(x10 := Lsl(p.x10, n))
  }

  function RunAddress(code: seq<AddressInsn>, base: Word, p: Pair): Pair
    decreases |code|
  {
    if code == [] then p else RunAddress(code[1..], base, AddressStep(code[0], base, p))
  }

  /** gen_arm_ldm_stm_increment() and gen_arm_ldm_stm_decrement(). */
  function AddressCode(op: Word): seq<AddressInsn> {
    (if Up(op) then [LoadX10, CopyX11, AddX11(Size(op))] + (if Before(op) then [AddX10(4)] else [])
     else [LoadX10, SubX10(Size(op)), CopyX11] + (if Before(op) then [] else [AddX10(4)]))
    + [LsrX10(2), LslX10(2)]
  }

  lemma {:induction false} RunAddressAppend(a: seq<AddressInsn>, b: seq<AddressInsn>, base: Word, p: Pair)
    ensures RunAddress(a + b, base, p) == RunAddress(b, base, RunAddress(a, base, p))
    decreases |a|
  {
    hide AddressStep;
    if a == [] {
      assert a + b == b;
    } else {
      assert (a + b)[1..] == a[1..] + b;
      RunAddressAppend(a[1..], b, base, AddressStep(a[0], base, p));
    }
  }

  lemma AlignedByShifts(a: Word)
    ensures Lsl(Lsr(a, 2), 2) == Align(a)
  {
    var q: Word := a / 4;
    assert Lsr(a, 2) == Lsr(a / 2, 1) == Lsr(a / 2 / 2, 0) == q;
    assert Lsl(q, 2) == Lsl(Add(q, q), 1) == Lsl(Add(Add(q, q), Add(q, q)), 0);
  }

  lemma RunAddress1(i: AddressInsn, base: Word, p: Pair)
    ensures RunAddress([i], base, p) == AddressStep(i, base, p)
  {
    assert [i][1..] == [];
    assert RunAddress([], base, AddressStep(i, base, p)) == AddressStep(i, base, p);
  }

  lemma RunAddress3(i: AddressInsn, j: AddressInsn, k: AddressInsn, base: Word, p: Pair)
    ensures RunAddress([i, j, k], base, p) == AddressStep(k, base, AddressStep(j, base, AddressStep(i, base, p)))
  {
    hide AddressStep; hide RunAddress;
    assert [i, j, k] == [i] + ([j] + [k]);
    RunAddressAppend([i], [j] + [k], base, p);
    RunAddressAppend([j], [k], base, AddressStep(i, base, p));
    RunAddress1(i, base, p);
    RunAddress1(j, base, AddressStep(i, base, p));
    RunAddress1(k, base, AddressStep(j, base, AddressStep(i, base, p)));
  }

  /** The address code leaves the handlers' address, aligned, and their writeback value, in all four addressing modes. */
  lemma AddressesAgree(op: Word, base: Word, p: Pair)
    ensures RunAddress(AddressCode(op), base, p) == Pair(Align(Addresses(op, base).0), Addresses(op, base).1)
  {
    hide RunAddress; hide Size; hide Up; hide Before; hide Add; hide Sub; hide Lsr; hide Lsl; hide Align;
    var size: Word := Size(op);
    var head := if Up(op) then [LoadX10, CopyX11, AddX11(size)] else [LoadX10, SubX10(size), CopyX11];
    var step := if Up(op) == Before(op) then [AddX10(4)] else [];
    var tail := [LsrX10(2)] + [LslX10(2)];
    assert AddressCode(op) == head + (step + tail);
    RunAddressAppend(head, step + tail, base, p);
    RunAddress3(head[0], head[1], head[2], base, p);
    var p1 := RunAddress(head, base, p);
    RunAddressAppend(step, tail, base, p1);
    RunAddress1(AddX10(4), base, p1);
    RunAddressNil(base, p1);
    var p2 := RunAddress(step, base, p1);
    assert p2 == Pair(Addresses(op, base).0, Addresses(op, base).1);
    RunAddressAppend([LsrX10(2)], [LslX10(2)], base, p2);
    RunAddress1(LsrX10(2), base, p2);
    RunAddress1(LslX10(2), base, p2.(x10 := Lsr(p2.x10, 2)));
    AlignedByShifts(p2.x10);
  }

  lemma RunAddressNil(base: Word, p: Pair)
    ensures RunAddress([], base, p) == p
  {
  }

  // ---- the whole opcode ----

  predicate Loads(op: Word) { (op / 0x10_0000) % 2 == 1 }

  /** What a block transfer leaves: registers, memory, and whether it was aborted. */
  datatype Result = Result(reg: Regs, mem: Memory, aborted: bool)

  /** The transfer the handlers of LDM and STM ask for, without the S bit. */
  function JobOf(cpu: Model, op: Word, base: Word): Job {
    var (address, writeback) := Addresses(op, base);
    Job(cpu, op, Align(address), writeback, false)
  }

  /** arm_load_multiple() and arm_store_multiple(). */
  function Helper(cfg: Config, j: Job, s: State, m: Memory): Result {
    var l := List(j.op);
    if Loads(j.op) then Result(LoadOutcome(cfg, j, m, s).reg, m, Reads(m, j.base, |l|) < |l|)
    else
      var n := Writes(m, j.base, |l|);
      Result(StoreOutcome(j, n < |l|, s).reg, StorePrefix(j, m, s, l, n), n < |l|)
  }

  /** The interpreter: opLDMD, opLDMI, opSTMD and opSTMI. */
  function Interpreted(cfg: Config, cpu: Model, op: Word, s: State, m: Memory): Result {
    Helper(cfg, JobOf(cpu, op, s.reg[Rn(op)]), s, m)
  }

  /** Is the page of the first word in the fast map? */
  predicate MapHit(op: Word, m: Memory, a: Word) { if Loads(op) then FastRead(m, a) else FastWrite(m, a) }

  /**
   gen_block_transfer(): the addresses, then the inline transfer if the boundary and map tests pass, or a call with
   the address and writeback value.
   */
  function Compiled(cfg: Config, cpu: Model, op: Word, s: State, m: Memory, p: Pair, w9: Word): Result {
    var q := RunAddress(AddressCode(op), s.reg[Rn(op)], p);
    if CrossesTest(q.x10, Size(op)) || !MapHit(op, m, q.x10) then Helper(cfg, Job(cpu, op, Align(q.x10), q.x11, false), s, m)
    else
      var entry := if Loads(op) then m.readMap(Page(q.x10)) else m.writeMap(Page(q.x10));
      var h := Run(if Loads(op) then LoadCode(cfg, op) else StoreCode(cpu, op), Host(w9, q.x11, q.x10 + entry, s.reg, m));
      Result(h.reg, h.mem, false)
  }

  lemma AlignTwice(a: Word)
    ensures Align(Align(a)) == Align(a)
  {
  }

  /** Every LDM and STM without the S bit, on either path: registers, R15, memory and aborts are the interpreter's. */
  lemma BlockTransferCorrect(cfg: Config, cpu: Model, op: Word, s: State, m: Memory, p: Pair, w9: Word)
    ensures Compiled(cfg, cpu, op, s, m, p, w9) == Interpreted(cfg, cpu, op, s, m)
  {
    hide Run; hide RunAddress; hide CrossesTest; hide LoadCode; hide StoreCode; hide LoadOutcome; hide StoreOutcome; hide StorePrefix;
    hide List; hide Reads; hide Writes; hide Page; hide Rn; hide Align; hide Addresses; hide FastRead; hide FastWrite; hide Loads; hide AddressCode;
    AddressesAgree(op, s.reg[Rn(op)], p);
    var j := JobOf(cpu, op, s.reg[Rn(op)]);
    AlignTwice(Addresses(op, s.reg[Rn(op)]).0);
    if !CrossesTest(j.base, Size(op)) && MapHit(op, m, j.base) {
      var entry := if Loads(op) then m.readMap(Page(j.base)) else m.writeMap(Page(j.base));
      var h := Host(w9, j.writeback, j.base + entry, s.reg, m);
      if Loads(op) { InlineLoadCorrect(cfg, j, h, s); } else { InlineStoreCorrect(j, h, s); }
    }
  }

  /** And a transfer that passes the tests has every word in a place of its own. */
  lemma InlineUnaliased(m: Memory, base: Word, n: nat)
    requires base % 0x400 + 4 * n <= 0x400
    ensures Unaliased(m, base, n)
  {
    hide PlaceOf; hide FastWrite; hide At; hide Page;
    forall i, k | 0 <= i < k < n ensures Page(At(base, i)) == Page(At(base, k)) {
      OneRegion(base, n, i);
      OneRegion(base, n, k);
    }
  }

  // ---- the emitters as the source writes them ----

  /** One more register at the end of the list. */
  lemma {:induction false} LoadsSnoc(cfg: Config, l: seq<nat>, x: nat, k: nat)
    requires k <= |l|
    ensures LoadsFrom(cfg, l + [x], k) == LoadsFrom(cfg, l, k) + LoadOne(cfg, x, |l|)
    decreases |l| - k
  {
    hide LoadOne;
    if k < |l| {
      LoadsSnoc(cfg, l, x, k + 1);
    } else {
      assert LoadsFrom(cfg, l + [x], |l| + 1) == [];
    }
  }

  lemma {:induction false} StoresSnoc(cpu: Model, l: seq<nat>, x: nat, k: nat)
    requires k <= |l|
    ensures StoresFrom(cpu, l + [x], k) == StoresFrom(cpu, l, k) + StoreOne(cpu, x, |l|)
    decreases |l| - k
  {
    hide StoreOne;
    if k < |l| {
      StoresSnoc(cpu, l, x, k + 1);
    } else {
      assert StoresFrom(cpu, l + [x], |l| + 1) == [];
    }
  }

  class Emitter {
    var code: seq<Insn>

    constructor ()
      ensures code == []
    {
      code := [];
    }

    /** gen_arm_load_multiple(), inline part. */
    method GenLoadMultiple(cfg: Config, op: Word)
      modifies this
      ensures code == old(code) + LoadCode(cfg, op)
    {
      hide LoadOne; hide LoadsFrom; hide Listed; hide WritesBack; hide Rn;
      if WritesBack(op) { code := code + [SaveBase(Rn(op))]; }
      ghost var start := code;
      var c, d := 0, 0;
      NoLoads(cfg);
      while c < 16
        invariant 0 <= c <= 16 && d == 4 * |Below(op, c)|
        invariant code == start + LoadsFrom(cfg, Below(op, c), 0)
      {
        if Listed(op, c) {
          assert Below(op, c + 1) == Below(op, c) + [c];
          LoadsSnoc(cfg, Below(op, c), c, 0);
          code := code + LoadOne(cfg, c, d / 4);
          d := d + 4;
        } else {
          assert Below(op, c + 1) == Below(op, c);
        }
        c := c + 1;
      }
    }

    /** gen_arm_store_multiple(), inline part: the lowest register, the early writeback, the rest, the late one. */
    method GenStoreMultiple(cpu: Model, op: Word)
      modifies this
      ensures code == old(code) + StoreCode(cpu, op)
    {
      hide StoreOne; hide StoresFrom; hide Listed; hide WritesBack; hide Rn; hide BaseCode; hide First; hide List;
      var c, d := GenFirst(cpu, op);
      ghost var f := if First(List(op)) == 1 then StoreOne(cpu, List(op)[0], 0) else [];
      GenBase(op, !cpu.writebackAtEnd);
      GenRest(cpu, op, c, d);
      GenBase(op, cpu.writebackAtEnd);
      FourParts(old(code), f, BaseCode(op, !cpu.writebackAtEnd), StoresFrom(cpu, List(op), First(List(op))), BaseCode(op, cpu.writebackAtEnd));
    }

    method GenBase(op: Word, when: bool)
      modifies this
      ensures code == old(code) + BaseCode(op, when)
    {
      hide WritesBack; hide Rn;
      if WritesBack(op) && when { code := code + [SaveBase(Rn(op))]; }
    }

    method GenFirst(cpu: Model, op: Word) returns (c: nat, d: nat)
      modifies this
      ensures code == old(code) + if First(List(op)) == 1 then StoreOne(cpu, List(op)[0], 0) else []
      ensures c <= 16 && d == 4 * First(List(op)) && |Below(op, c)| == First(List(op))
    {
      hide StoreOne; hide Listed;
      c, d := 0, 0;
      while c < 15
        invariant 0 <= c <= 15 && Below(op, c) == []
      {
        if Listed(op, c) {
          FirstIs(op, c);
          code := code + StoreOne(cpu, c, 0);
          return c + 1, 4;
        }
        c := c + 1;
      }
      NoneLow(op);
    }

    method GenRest(cpu: Model, op: Word, from: nat, at: nat)
      requires from <= 16 && at == 4 * First(List(op)) && |Below(op, from)| == First(List(op))
      modifies this
      ensures code == old(code) + StoresFrom(cpu, List(op), First(List(op)))
    {
      hide StoreOne; hide StoresFrom; hide Listed; hide First; hide Below;
      var c, d := from, at;
      ghost var f := First(List(op));
      NoStores(cpu, Below(op, from));
      while c < 16
        invariant from <= c <= 16 && d == 4 * |Below(op, c)| && |Below(op, c)| >= f
        invariant code == old(code) + StoresFrom(cpu, Below(op, c), f)
      {
        if Listed(op, c) {
          BelowNext(op, c);
          StoresSnoc(cpu, Below(op, c), c, f);
          StoresGrow(old(code), cpu, Below(op, c), c, f);
          code := code + StoreOne(cpu, c, d / 4);
          d := d + 4;
        } else {
          BelowNext(op, c);
        }
        c := c + 1;
      }
    }
  }

  lemma BelowNext(op: Word, c: nat)
    ensures Below(op, c + 1) == if Listed(op, c) then Below(op, c) + [c] else Below(op, c)
  {
    hide Listed;
  }

  lemma StoresGrow(code: seq<Insn>, cpu: Model, l: seq<nat>, x: nat, k: nat)
    requires k <= |l|
    ensures code + StoresFrom(cpu, l, k) + StoreOne(cpu, x, |l|) == code + (StoresFrom(cpu, l, k) + StoreOne(cpu, x, |l|))
  {
    hide StoresFrom; hide StoreOne;
  }

  lemma NoLoads(cfg: Config)
    ensures LoadsFrom(cfg, [], 0) == []
  {
  }

  lemma NoStores(cpu: Model, l: seq<nat>)
    ensures StoresFrom(cpu, l, |l|) == []
  {
  }

  lemma FourParts(a: seq<Insn>, b: seq<Insn>, c: seq<Insn>, d: seq<Insn>, e: seq<Insn>)
    ensures a + b + c + d + e == a + (b + (c + (d + e)))
  {
  }

  /** The lowest register of the list. */
  lemma FirstIs(op: Word, c: nat)
    requires c < 15 && Listed(op, c) && Below(op, c) == []
    ensures First(List(op)) == 1 && List(op)[0] == c && Below(op, c + 1) == [c]
  {
    hide Listed;
    BelowIsPrefix(op, c + 1, 16);
    assert Below(op, c + 1) == [c];
  }

  lemma NoneLow(op: Word)
    requires Below(op, 15) == []
    ensures First(List(op)) == 0
  {
    hide Listed;
    assert Below(op, 16) == [] || Below(op, 16) == [15];
  }
}
