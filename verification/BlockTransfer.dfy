/**
 Load and store multiple (arm_common.c), with memory that may fault at any transfer, and
 the code the recompiler emits for them inline (codegen_arm64.c).
 */
module BlockTransfer {
  import opened Words
  import opened Opcodes
  import opened Interpreter

  // ---- memory ----

  /**
   Guest memory as mem.h reaches it: a page with a fast-map entry is host memory at
   the guest address plus the entry, anything else goes through the MMU, which may refuse.
   */
  datatype Memory = Memory(
    host: map<int, Word>, readMap: nat -> int, writeMap: nat -> int,
    slow: map<Word, Word>, readFaults: Word -> bool, writeFaults: Word -> bool)

  function Page(a: Word): nat { a / 0x1000 }

  predicate FastRead(m: Memory, a: Word) { m.readMap(Page(a)) % 2 == 0 }

  predicate FastWrite(m: Memory, a: Word) { m.writeMap(Page(a)) % 4 == 0 }

  predicate CanRead(m: Memory, a: Word) { FastRead(m, a) || !m.readFaults(a) }

  predicate CanWrite(m: Memory, a: Word) { FastWrite(m, a) || !m.writeFaults(a) }

  function HostWord(m: Memory, at: int): Word { if at in m.host then m.host[at] else 0 }

  function Read(m: Memory, a: Word): Word {
    if FastRead(m, a) then HostWord(m, a + m.readMap(Page(a)))
    else if a in m.slow then m.slow[a] else 0
  }

  function Write(m: Memory, a: Word, v: Word): Memory {
    if FastWrite(m, a) then m.(host := m.host[a + m.writeMap(Page(a)) := v])
    else m.(slow := m.slow[a := v])
  }

  // ---- the register list ----

  /** Bit `c` of the list in the opcode. */
  predicate Listed(op: Word, c: nat)
    decreases c
  {
    if c == 0 then op % 2 == 1 else Listed(op / 2, c - 1)
  }

  /** The listed registers below `c`, lowest first: the order they are transferred in. */
  function Below(op: Word, c: nat): (l: seq<nat>)
    ensures |l| <= c
  {
    if c == 0 then [] else Below(op, c - 1) + if Listed(op, c - 1) then [c - 1] else []
  }

  function List(op: Word): (l: seq<nat>)
    ensures |l| <= 16
  {
    Below(op, 16)
  }

  predicate Ascending(l: seq<nat>, c: nat) {
    (forall i :: 0 <= i < |l| ==> l[i] < c) && (forall i, j :: 0 <= i < j < |l| ==> l[i] < l[j])
  }

  /** The list holds exactly the registers whose bits are set, in ascending order. */
  lemma {:induction false} BelowMeans(op: Word, c: nat)
    ensures Ascending(Below(op, c), c)
    ensures forall x :: x in Below(op, c) <==> 0 <= x < c && Listed(op, x)
  {
    if c != 0 { BelowMeans(op, c - 1); }
  }

  lemma {:induction false} BelowIsPrefix(op: Word, c: nat, d: nat)
    requires c <= d
    ensures Below(op, c) <= Below(op, d)
  {
    if c < d { BelowIsPrefix(op, c, d - 1); }
  }

  function Size(op: Word): (n: nat) ensures n <= 64 { 4 * |List(op)| }

  predicate WritesBack(op: Word) { (op / 0x20_0000) % 2 == 1 && Rn(op) != 15 }

  function Align(a: Word): Word { a - a % 4 }

  /** Where transfer `k` goes. */
  function At(base: Word, k: nat): Word { (base + 4 * k) % MOD }

  // ---- what a transfer of the first k registers means ----

  /** The emulated CPU's options that change block transfers. */
  datatype Model = Model(r15Diff: Word, baseRestored: bool, writebackAtEnd: bool)

  /** One block transfer: the opcode, the aligned address of its first word, the value for the base. */
  datatype Job = Job(cpu: Model, op: Word, base: Word, writeback: Word, bank: bool)

  type Bank = b: seq<Word> | |b| == 15 witness seq(15, _ => 0)
  type Places = p: seq<bool> | |p| == 15 witness seq(15, _ => true)

  /** `reg` as in Interpreter; `user` is the user bank's shadow, `main[c]` says where user register c is now. */
  datatype State = State(reg: Regs, user: Bank, main: Places)

  /** Register `c`, or with `bank` the user register `c`. */
  function Get(s: State, c: nat, bank: bool): Word {
    if c >= 17 then 0 else if c < 15 && bank && !s.main[c] then s.user[c] else s.reg[c]
  }

  /** A load into R0-R14. */
  function Put(s: State, c: nat, bank: bool, v: Word): State {
    if c >= 15 then s else if bank && !s.main[c] then s.(user := s.user[c := v]) else s.(reg := s.reg[c := v])
  }

  lemma PutMeans(s: State, c: nat, bank: bool, v: Word, d: nat)
    ensures var s' := Put(s, c, bank, v);
            && Get(s', d, bank) == (if d == c < 15 then v else Get(s, d, bank))
            && (d != c || c >= 15 ==> Get(s', d, !bank) == Get(s, d, !bank))
            && s'.reg[15] == s.reg[15] && s'.reg[16] == s.reg[16] && s'.main == s.main
  {
  }

  /** The first `k` transfers of a load; R15, always last, is dealt with separately. */
  function LoadPrefix(j: Job, m: Memory, s: State, l: seq<nat>, k: nat): State
    requires k <= |l|
  {
    if k == 0 then s
    else Put(LoadPrefix(j, m, s, l, k - 1), l[k - 1], j.bank, Read(m, At(j.base, k - 1)))
  }

  /** A listed register gets its own word ... */
  lemma {:induction false} LoadPrefixLoads(j: Job, m: Memory, s: State, l: seq<nat>, k: nat, i: nat)
    requires i < k <= |l| && Ascending(l, 16) && l[i] < 15
    ensures Get(LoadPrefix(j, m, s, l, k), l[i], j.bank) == Read(m, At(j.base, i))
  {
    hide Put; hide Get; hide Read; hide At;
    PutMeans(LoadPrefix(j, m, s, l, k - 1), l[k - 1], j.bank, Read(m, At(j.base, k - 1)), l[i]);
    if i < k - 1 { LoadPrefixLoads(j, m, s, l, k - 1, i); }
  }

  /** ... and no other register changes. */
  lemma {:induction false} LoadPrefixKeeps(j: Job, m: Memory, s: State, l: seq<nat>, k: nat, c: nat)
    requires k <= |l| && c !in l[..k]
    ensures var s' := LoadPrefix(j, m, s, l, k);
            && Get(s', c, j.bank) == Get(s, c, j.bank) && Get(s', c, !j.bank) == Get(s, c, !j.bank)
            && s'.reg[15] == s.reg[15] && s'.reg[16] == s.reg[16] && s'.main == s.main
  {
    hide Put; hide Get; hide Read; hide At;
    if k != 0 {
      assert l[..k] == l[..k - 1] + [l[k - 1]];
      LoadPrefixKeeps(j, m, s, l, k - 1, c);
      PutMeans(LoadPrefix(j, m, s, l, k - 1), l[k - 1], j.bank, Read(m, At(j.base, k - 1)), c);
    }
  }

  /** How many of the first `n` transfers succeed before one faults. */
  function Reads(m: Memory, base: Word, n: nat): (k: nat)
    ensures k <= n && (k < n ==> !CanRead(m, At(base, k)))
  {
    if n == 0 then 0
    else var k := Reads(m, base, n - 1);
         if k == n - 1 && CanRead(m, At(base, k)) then n else k
  }

  function Writes(m: Memory, base: Word, n: nat): (k: nat)
    ensures k <= n && (k < n ==> !CanWrite(m, At(base, k)))
  {
    if n == 0 then 0
    else var k := Writes(m, base, n - 1);
         if k == n - 1 && CanWrite(m, At(base, k)) then n else k
  }

  /** The transfers counted did succeed, so the one that stops the count is the first to fault. */
  lemma {:induction false} CountedSucceed(m: Memory, base: Word, n: nat, i: nat)
    ensures i < Reads(m, base, n) ==> CanRead(m, At(base, i))
    ensures i < Writes(m, base, n) ==> CanWrite(m, At(base, i))
  {
    hide CanRead; hide CanWrite; hide At;
    if n != 0 { CountedSucceed(m, base, n - 1, i); }
  }

  /** The base register set to `v`. */
  function BaseTo(s: State, op: Word, v: Word): State { s.(reg := s.reg[Rn(op) := v]) }

  predicate EarlyWriteback(j: Job) { WritesBack(j.op) && !j.cpu.writebackAtEnd }

  /**
   The value transfer `k` stores for register `c`: the register as it was, except that the base
   is already written back from the second transfer on, on the CPUs that do not wait for the end.
   */
  function StoredValue(j: Job, s: State, c: nat, k: nat): Word {
    if c == 15 then Add(s.reg[15], j.cpu.r15Diff)
    else Get(if EarlyWriteback(j) && k > 0 then BaseTo(s, j.op, j.writeback) else s, c, j.bank)
  }

  /** The memory after the first `k` transfers of a store of the registers in `l`. */
  function StorePrefix(j: Job, m: Memory, s: State, l: seq<nat>, k: nat): Memory
    requires k <= |l|
  {
    if k == 0 then m
    else Write(StorePrefix(j, m, s, l, k - 1), At(j.base, k - 1), StoredValue(j, s, l[k - 1], k - 1))
  }

  /** Storing does not change what may be stored to. */
  lemma {:induction false} StoreKeepsAccess(j: Job, m: Memory, s: State, l: seq<nat>, k: nat, a: Word)
    requires k <= |l|
    ensures CanWrite(StorePrefix(j, m, s, l, k), a) == CanWrite(m, a)
  {
    if k != 0 { StoreKeepsAccess(j, m, s, l, k - 1, a); }
  }

  /** One more register of the list. */
  lemma NextListed(op: Word, c: nat, d: nat)
    requires c < d && Listed(op, c)
    ensures var n := |Below(op, c)|;
            && Below(op, c + 1) == Below(op, c) + [c]
            && n < |Below(op, d)| && Below(op, d)[n] == c
  {
    BelowIsPrefix(op, c + 1, d);
  }

  lemma AtNext(base: Word, k: nat)
    ensures Add(At(base, k), 4) == At(base, k + 1)
  {
    var x := base + 4 * k;
    assert (x + 4) % MOD == (x % MOD + 4) % MOD;
  }

  // ---- the handlers' loops ----

  class Core {
    const cfg: Config
    var s: State
    var mem: Memory
    var event: bool       // a data abort is pending (bit 6 of arm.event)

    constructor (cfg: Config, s: State, mem: Memory)
      ensures this.cfg == cfg && this.s == s && this.mem == mem && !event
    {
      this.cfg, this.s, this.mem, event := cfg, s, mem, false;
    }

    method MemRead(a: Word) returns (v: Word)
      modifies this`event
      ensures event == (old(event) || !CanRead(mem, a))
      ensures v == Read(mem, a)
    {
      v := Read(mem, a);
      if !CanRead(mem, a) { event := true; }
    }

    method MemWrite(a: Word, v: Word)
      modifies this`event, this`mem
      ensures event == (old(event) || !CanWrite(old(mem), a))
      ensures mem == if CanWrite(old(mem), a) then Write(old(mem), a, v) else old(mem)
    {
      if CanWrite(mem, a) { mem := Write(mem, a, v); } else { event := true; }
    }

    /** Load R0-R14 from the list, stopping at the first fault. */
    method LoadLow(j: Job) returns (addr: Word)
      requires !event
      modifies this`s, this`event
      ensures var l := Below(j.op, 15);
              var k := Reads(mem, j.base, |l|);
              && event == (k < |l|)
              && s == LoadPrefix(j, mem, old(s), l, k)
              && (!event ==> addr == At(j.base, |l|))
    {
      hide Listed; hide Put; hide Read; hide CanRead; hide At; hide Add;
      addr := j.base;
      var c := 0;
      ghost var l := Below(j.op, 15);
      ghost var n := 0;
      AtZero(j.base);
      while c < 15
        invariant 0 <= c <= 15 && !event && n == |Below(j.op, c)| <= |l|
        invariant Reads(mem, j.base, n) == n && addr == At(j.base, n)
        invariant s == LoadPrefix(j, mem, old(s), l, n)
      {
        if Listed(j.op, c) {
          NextListed(j.op, c, 15);
          var temp := MemRead(addr);
          if event {
            ReadsStop(mem, j.base, n, |l|);
            return;
          }
          s := Put(s, c, j.bank, temp);
          addr := Add(addr, 4);
          AtNext(j.base, n);
          n := n + 1;
        }
        c := c + 1;
      }
    }

    /** The data_abort exit of both load forms. */
    method SettleBase(j: Job, origBase: Word)
      modifies this`s
      ensures s == BaseTo(old(s), j.op, if !j.cpu.baseRestored && WritesBack(j.op) then j.writeback else origBase)
    {
      if !j.cpu.baseRestored && WritesBack(j.op) {
        s := BaseTo(s, j.op, j.writeback);
      } else {
        s := BaseTo(s, j.op, origBase);
      }
    }

    /** arm_load_multiple, and arm_load_multiple_s when R15 is not in the list. */
    method LoadMultiple(j: Job)
      requires !event && (j.bank ==> !Listed(j.op, 15))
      modifies this`s, this`event
      ensures event == (Reads(mem, j.base, |List(j.op)|) < |List(j.op)|)
      ensures s == LoadOutcome(cfg, j, mem, old(s))
    {
      hide Listed; hide LoadPrefix; hide Read; hide CanRead; hide At; hide BranchTo; hide WritesBack; hide Rn; hide BaseTo; hide Below; hide List; hide Reads;
      var origBase := s.reg[Rn(j.op)];
      if WritesBack(j.op) { s := BaseTo(s, j.op, j.writeback); }
      var addr := LoadLow(j);
      ListEnds(j.op, mem, j.base);
      if !event && Listed(j.op, 15) {
        var temp := MemRead(addr);
        if !event {
          s := s.(reg := s.reg[15 := BranchTo(cfg, s.reg[15], temp)]);
        }
      }
      if event { SettleBase(j, origBase); }
    }

    /** The first listed register, R15 apart: `c` is where the list goes on. */
    method StoreFirst(j: Job) returns (c: nat, addr: Word)
      requires !event
      modifies this`mem, this`event
      ensures c <= 15
      ensures event ==> c > 0 && Below(j.op, c) == [c - 1] && !CanWrite(old(mem), j.base) && mem == old(mem)
      ensures !event ==> && addr == At(j.base, |Below(j.op, c)|)
                         && (c < 15 ==> |Below(j.op, c)| == 1) && |Below(j.op, c)| <= 1
                         && Writes(old(mem), j.base, |Below(j.op, c)|) == |Below(j.op, c)|
                         && mem == StorePrefix(j, old(mem), s, Below(j.op, c), |Below(j.op, c)|)
    {
      hide Listed; hide Write; hide CanWrite; hide At; hide Add; hide Get;
      AtZero(j.base);
      AtNext(j.base, 0);
      addr := j.base;
      c := 0;
      while c < 15 && !Listed(j.op, c)
        invariant 0 <= c <= 15 && Below(j.op, c) == []
      {
        c := c + 1;
      }
      if c < 15 {
        NextListed(j.op, c, 15);
        MemWrite(addr, Get(s, c, j.bank));
        addr := Add(addr, 4);
        c := c + 1;
        assert Below(j.op, c) == [c - 1];
      }
    }

    /** The other registers up to R14. */
    method StoreRest(j: Job, first: nat, from: Word, ghost s0: State, ghost m0: Memory) returns (addr: Word)
      requires !event && first <= 15 && (first < 15 ==> Below(j.op, first) != [])
      requires s == if EarlyWriteback(j) then BaseTo(s0, j.op, j.writeback) else s0
      requires from == At(j.base, |Below(j.op, first)|)
      requires Writes(m0, j.base, |Below(j.op, first)|) == |Below(j.op, first)|
      requires mem == StorePrefix(j, m0, s0, Below(j.op, first), |Below(j.op, first)|)
      modifies this`mem, this`event
      ensures var l := Below(j.op, 15);
              var k := Writes(m0, j.base, |l|);
              && event == (k < |l|)
              && mem == StorePrefix(j, m0, s0, l, k)
              && (!event ==> addr == At(j.base, |l|))
    {
      hide Listed; hide Get; hide Write; hide CanWrite; hide At; hide Add; hide BaseTo; hide EarlyWriteback;
      hide StorePrefix; hide Writes; hide StoredValue;
      ghost var l := Below(j.op, 15);
      ghost var n := |Below(j.op, first)|;
      addr := from;
      var c := first;
      BelowIsPrefix(j.op, first, 15);
      StorePrefixOf(j, m0, s0, Below(j.op, first), l, n);
      while c < 15
        invariant first <= c <= 15 && !event && n == |Below(j.op, c)| <= |l| && (c < 15 ==> n > 0)
        invariant Writes(m0, j.base, n) == n && addr == At(j.base, n)
        invariant mem == StorePrefix(j, m0, s0, l, n)
      {
        if Listed(j.op, c) {
          NextListed(j.op, c, 15);
          StoreNext(j, m0, s0, s, l, n);
          MemWrite(addr, Get(s, c, j.bank));
          if event {
            WritesStop(m0, j.base, n, |l|);
            return;
          }
          addr := Add(addr, 4);
          AtNext(j.base, n);
          n := n + 1;
        }
        c := c + 1;
      }
    }

    /** arm_store_multiple, and with `bank` arm_store_multiple_s. */
    method StoreMultiple(j: Job)
      requires !event
      modifies this`s, this`mem, this`event
      ensures var n := Writes(old(mem), j.base, |List(j.op)|);
              && event == (n < |List(j.op)|)
              && mem == StorePrefix(j, old(mem), old(s), List(j.op), n)
              && s == StoreOutcome(j, event, old(s))
    {
      hide Listed; hide Write; hide CanWrite; hide At; hide Get; hide Writes; hide StorePrefix; hide Below; hide List;
      ghost var s0, m0 := s, mem;
      var origBase := s.reg[Rn(j.op)];
      var c, addr := StoreFirst(j);
      if EarlyWriteback(j) { s := BaseTo(s, j.op, j.writeback); }
      StoreEnds(j, m0, s0);
      if event {
        FirstFaults(j, m0, s0, c);
      } else {
        addr := StoreRest(j, c, addr, s0, m0);
        if !event && Listed(j.op, 15) {
          StoreKeepsAccess(j, m0, s0, Below(j.op, 15), |Below(j.op, 15)|, addr);
          MemWrite(addr, Add(s.reg[15], j.cpu.r15Diff));
        }
      }
      if event {
        if j.cpu.baseRestored && WritesBack(j.op) { s := BaseTo(s, j.op, origBase); }
      } else if j.cpu.writebackAtEnd && WritesBack(j.op) {
        s := BaseTo(s, j.op, j.writeback);
      }
    }
  }

  lemma AtZero(base: Word)
    ensures At(base, 0) == base
  {
  }

  lemma {:induction false} StorePrefixOf(j: Job, m: Memory, s: State, l: seq<nat>, l': seq<nat>, k: nat)
    requires k <= |l| && l <= l'
    ensures StorePrefix(j, m, s, l, k) == StorePrefix(j, m, s, l', k)
  {
    hide Write; hide StoredValue; hide At;
    if k != 0 { StorePrefixOf(j, m, s, l, l', k - 1); }
  }

  /** The next store of the loop, from registers in which an early writeback has already happened. */
  lemma StoreNext(j: Job, m: Memory, s0: State, s: State, l: seq<nat>, n: nat)
    requires 0 < n < |l| && l[n] < 15 && Writes(m, j.base, n) == n
    requires s == if EarlyWriteback(j) then BaseTo(s0, j.op, j.writeback) else s0
    ensures var a, m' := At(j.base, n), StorePrefix(j, m, s0, l, n);
            && CanWrite(m', a) == CanWrite(m, a)
            && (CanWrite(m, a) ==> Writes(m, j.base, n + 1) == n + 1)
            && StorePrefix(j, m, s0, l, n + 1) == Write(m', a, Get(s, l[n], j.bank))
  {
    hide Get; hide Write; hide CanWrite; hide At; hide BaseTo; hide EarlyWriteback;
    StoreKeepsAccess(j, m, s0, l, n, At(j.base, n));
  }

  /** A fault on the very first store. */
  lemma FirstFaults(j: Job, m: Memory, s: State, c: nat)
    requires 0 < c <= 15 && Below(j.op, c) == [c - 1] && !CanWrite(m, j.base)
    ensures |List(j.op)| > 0 && Writes(m, j.base, |List(j.op)|) == 0
    ensures StorePrefix(j, m, s, List(j.op), 0) == m
  {
    hide CanWrite;
    AtZero(j.base);
    BelowIsPrefix(j.op, c, 16);
    WritesStop(m, j.base, 0, |List(j.op)|);
  }

  /** The last transfer of a store is R15's, if it is listed. */
  lemma StoreEnds(j: Job, m: Memory, s: State)
    ensures List(j.op) == Below(j.op, 15) + if Listed(j.op, 15) then [15] else []
    ensures var l, n := List(j.op), |Below(j.op, 15)|;
            && (forall k :: 0 <= k <= n ==> StorePrefix(j, m, s, l, k) == StorePrefix(j, m, s, Below(j.op, 15), k))
            && (Writes(m, j.base, n) < n ==> Writes(m, j.base, |l|) == Writes(m, j.base, n))
            && (Listed(j.op, 15) && Writes(m, j.base, n) == n ==>
                  && Writes(m, j.base, |l|) == (if CanWrite(m, At(j.base, n)) then n + 1 else n)
                  && StorePrefix(j, m, s, l, n + 1) ==
                     Write(StorePrefix(j, m, s, l, n), At(j.base, n), Add(s.reg[15], j.cpu.r15Diff)))
  {
    hide Write; hide CanWrite; hide At; hide Listed;
    var l, n := List(j.op), |Below(j.op, 15)|;
    forall k | 0 <= k <= n
      ensures StorePrefix(j, m, s, l, k) == StorePrefix(j, m, s, Below(j.op, 15), k)
    {
      StorePrefixOf(j, m, s, Below(j.op, 15), l, k);
    }
  }

  lemma {:induction false} ReadsStop(m: Memory, base: Word, k: nat, n: nat)
    requires k < n && Reads(m, base, k) == k && !CanRead(m, At(base, k))
    ensures Reads(m, base, n) == k
  {
    if n > k + 1 { ReadsStop(m, base, k, n - 1); }
  }

  lemma {:induction false} WritesStop(m: Memory, base: Word, k: nat, n: nat)
    requires k < n && Writes(m, base, k) == k && !CanWrite(m, At(base, k))
    ensures Writes(m, base, n) == k
  {
    if n > k + 1 { WritesStop(m, base, k, n - 1); }
  }

  /** The list is the registers below R15, then R15 itself. */
  lemma ListEnds(op: Word, m: Memory, base: Word)
    ensures List(op) == Below(op, 15) + if Listed(op, 15) then [15] else []
    ensures var n := |Below(op, 15)|;
            && (Reads(m, base, n) < n ==> Reads(m, base, |List(op)|) == Reads(m, base, n))
            && (Listed(op, 15) && Reads(m, base, n) == n ==>
                  Reads(m, base, |List(op)|) == (if CanRead(m, At(base, n)) then n + 1 else n))
  {
    hide Listed; hide CanRead; hide At;
  }

  // ---- outcomes ----

  /** The registers after a load multiple, faulting or not. */
  function LoadOutcome(cfg: Config, j: Job, m: Memory, s: State): State {
    var l := Below(j.op, 15);
    var n := Reads(m, j.base, |List(j.op)|);
    var s1 := if WritesBack(j.op) then BaseTo(s, j.op, j.writeback) else s;
    var s2 := LoadPrefix(j, m, s1, l, if n < |l| then n else |l|);
    if n < |List(j.op)| then
      BaseTo(s2, j.op, if !j.cpu.baseRestored && WritesBack(j.op) then j.writeback else s.reg[Rn(j.op)])
    else if Listed(j.op, 15) then s2.(reg := s2.reg[15 := BranchTo(cfg, s2.reg[15], Read(m, At(j.base, |l|)))])
    else s2
  }

  function StoreOutcome(j: Job, aborted: bool, s: State): State {
    if WritesBack(j.op) && (aborted ==> !j.cpu.baseRestored && !j.cpu.writebackAtEnd)
    then BaseTo(s, j.op, j.writeback) else s
  }

  /** Does the base register end up at the writeback value? */
  predicate LoadAbortWritesBack(j: Job) { WritesBack(j.op) && !j.cpu.baseRestored }

  /** Register `c` of the bank that is loaded is not the base register. */
  predicate NotBase(j: Job, s: State, c: nat) { c < 15 && (c != Rn(j.op) || (j.bank && !s.main[c])) }

  /**
   A load multiple stopped by a fault at transfer `n`: the base is settled by the CPU's rule even
   if it had already been loaded, R15 is never loaded, and no register from the faulting one on is.
   */
  lemma LoadAborted(cfg: Config, j: Job, m: Memory, s: State, i: nat, c: nat)
    requires Reads(m, j.base, |List(j.op)|) < |List(j.op)|
    requires i < |List(j.op)| && NotBase(j, s, c)
    ensures var s', n := LoadOutcome(cfg, j, m, s), Reads(m, j.base, |List(j.op)|);
            && s'.reg[Rn(j.op)] == (if LoadAbortWritesBack(j) then j.writeback else s.reg[Rn(j.op)])
            && s'.reg[15] == s.reg[15] && s'.reg[16] == s.reg[16]
            && (i < n && List(j.op)[i] == c ==> Get(s', c, j.bank) == Read(m, At(j.base, i)))
            && (n <= i && List(j.op)[i] == c ==> Get(s', c, j.bank) == Get(s, c, j.bank))
            && (!Listed(j.op, c) ==> Get(s', c, j.bank) == Get(s, c, j.bank))
  {
    hide Listed; hide Read; hide CanRead; hide At; hide LoadPrefix; hide Reads; hide Below; hide List; hide Rn;
    ListEnds(j.op, m, j.base);
    BelowMeans(j.op, 16); BelowMeans(j.op, 15);
    assert List(j.op) == Below(j.op, 16) by { WholeList(j.op); }
    var l, n := Below(j.op, 15), Reads(m, j.base, |List(j.op)|);
    var s1 := if WritesBack(j.op) then BaseTo(s, j.op, j.writeback) else s;
    var k := if n < |l| then n else |l|;
    assert Get(s1, c, j.bank) == Get(s, c, j.bank);
    LoadPrefixMain(j, m, s1, l, k);
    if i < k && List(j.op)[i] == c {
      LoadPrefixLoads(j, m, s1, l, k, i);
    }
    if c !in l[..k] {
      LoadPrefixKeeps(j, m, s1, l, k, c);
    }
    LoadPrefixKeeps(j, m, s1, l, k, 15);
  }

  lemma WholeList(op: Word)
    ensures List(op) == Below(op, 16)
  {
  }

  lemma {:induction false} LoadPrefixMain(j: Job, m: Memory, s: State, l: seq<nat>, k: nat)
    requires k <= |l|
    ensures LoadPrefix(j, m, s, l, k).main == s.main
  {
    hide Read; hide At;
    if k != 0 { LoadPrefixMain(j, m, s, l, k - 1); }
  }

  /** A load multiple that completes: every listed register holds its word, R15 branches, the rest keep their values. */
  lemma LoadCompleted(cfg: Config, j: Job, m: Memory, s: State, i: nat, c: nat)
    requires Reads(m, j.base, |List(j.op)|) == |List(j.op)|
    requires i < |List(j.op)| && c < 15
    ensures var s', l := LoadOutcome(cfg, j, m, s), List(j.op);
            var s1 := if WritesBack(j.op) then BaseTo(s, j.op, j.writeback) else s;
            && (l[i] < 15 ==> Get(s', l[i], j.bank) == Read(m, At(j.base, i)))
            && (!Listed(j.op, c) ==> Get(s', c, j.bank) == Get(s1, c, j.bank) && Get(s', c, !j.bank) == Get(s1, c, !j.bank))
            && s'.reg[15] == if Listed(j.op, 15) then BranchTo(cfg, s.reg[15], Read(m, At(j.base, |l| - 1))) else s.reg[15]
  {
    hide Listed; hide Read; hide CanRead; hide At; hide LoadPrefix; hide Reads; hide Below; hide List; hide Rn; hide BranchTo;
    ListEnds(j.op, m, j.base);
    BelowMeans(j.op, 15);
    var l := Below(j.op, 15);
    var s1 := if WritesBack(j.op) then BaseTo(s, j.op, j.writeback) else s;
    if List(j.op)[i] < 15 { LoadPrefixLoads(j, m, s1, l, |l|, i); }
    assert l[..|l|] == l;
    if !Listed(j.op, c) { LoadPrefixKeeps(j, m, s1, l, |l|, c); }
    LoadPrefixKeeps(j, m, s1, l, |l|, 15);
  }

  /** A load into one bank does not touch the other, listed or not, but for the base register of the current one. */
  lemma LoadOtherBank(cfg: Config, j: Job, m: Memory, s: State, c: nat)
    requires c < 15 && !s.main[c]
    ensures var s', aborted := LoadOutcome(cfg, j, m, s), Reads(m, j.base, |List(j.op)|) < |List(j.op)|;
            if j.bank then
              s'.reg[c] == if c == Rn(j.op) && WritesBack(j.op) && (aborted ==> !j.cpu.baseRestored) then j.writeback else s.reg[c]
            else s'.user[c] == s.user[c]
  {
    hide Listed; hide Read; hide CanRead; hide At; hide LoadPrefix; hide Reads; hide Below; hide List; hide Rn; hide BranchTo;
    var l, n := Below(j.op, 15), Reads(m, j.base, |List(j.op)|);
    var s1 := if WritesBack(j.op) then BaseTo(s, j.op, j.writeback) else s;
    LoadPrefixOther(j, m, s1, l, if n < |l| then n else |l|, c);
  }

  lemma {:induction false} LoadPrefixOther(j: Job, m: Memory, s: State, l: seq<nat>, k: nat, c: nat)
    requires k <= |l| && c < 15 && !s.main[c]
    ensures var s' := LoadPrefix(j, m, s, l, k);
            s'.main == s.main && (if j.bank then s'.reg[c] == s.reg[c] else s'.user[c] == s.user[c])
  {
    hide Read; hide At;
    if k != 0 { LoadPrefixOther(j, m, s, l, k - 1, c); }
  }

  // ---- what a store leaves in memory ----

  /** Where the word at an address is kept: in host memory, or behind the MMU. */
  datatype Place = Direct(at: int) | Mapped(a: Word)

  function PlaceOf(m: Memory, a: Word): Place { if FastWrite(m, a) then Direct(a + m.writeMap(Page(a))) else Mapped(a) }

  /** The word in a place. */
  function Held(m: Memory, p: Place): Word {
    match p
    case Direct(at) => HostWord(m, at)
    case Mapped(a) => if a in m.slow then m.slow[a] else 0
  }

  /** A store changes the word in its own place and no other. */
  lemma WriteHeld(m: Memory, a: Word, v: Word, p: Place)
    ensures Held(Write(m, a, v), p) == if p == PlaceOf(m, a) then v else Held(m, p)
    ensures Write(m, a, v).writeMap == m.writeMap
  {
  }

  lemma {:induction false} StorePlaces(j: Job, m: Memory, s: State, l: seq<nat>, k: nat)
    requires k <= |l|
    ensures StorePrefix(j, m, s, l, k).writeMap == m.writeMap
  {
    hide Write; hide StoredValue; hide At;
    if k != 0 {
      StorePlaces(j, m, s, l, k - 1);
      WriteHeld(StorePrefix(j, m, s, l, k - 1), At(j.base, k - 1), StoredValue(j, s, l[k - 1], k - 1), Direct(0));
    }
  }

  /** The last transfer to a place stays there ... */
  lemma {:induction false} StoredLast(j: Job, m: Memory, s: State, l: seq<nat>, k: nat, i: nat)
    requires i < k <= |l| && forall n :: i < n < k ==> PlaceOf(m, At(j.base, n)) != PlaceOf(m, At(j.base, i))
    ensures Held(StorePrefix(j, m, s, l, k), PlaceOf(m, At(j.base, i))) == StoredValue(j, s, l[i], i)
  {
    hide Write; hide StoredValue; hide At; hide Held; hide FastWrite;
    StorePlaces(j, m, s, l, k - 1);
    SamePlace(StorePrefix(j, m, s, l, k - 1), m, At(j.base, k - 1));
    WriteHeld(StorePrefix(j, m, s, l, k - 1), At(j.base, k - 1), StoredValue(j, s, l[k - 1], k - 1), PlaceOf(m, At(j.base, i)));
    if i < k - 1 { StoredLast(j, m, s, l, k - 1, i); }
  }

  /** ... and a place that no transfer goes to keeps its word. */
  lemma {:induction false} StoredNowhere(j: Job, m: Memory, s: State, l: seq<nat>, k: nat, p: Place)
    requires k <= |l| && forall n :: 0 <= n < k ==> PlaceOf(m, At(j.base, n)) != p
    ensures Held(StorePrefix(j, m, s, l, k), p) == Held(m, p)
  {
    hide Write; hide StoredValue; hide At; hide Held; hide FastWrite;
    if k != 0 {
      StorePlaces(j, m, s, l, k - 1);
      SamePlace(StorePrefix(j, m, s, l, k - 1), m, At(j.base, k - 1));
      WriteHeld(StorePrefix(j, m, s, l, k - 1), At(j.base, k - 1), StoredValue(j, s, l[k - 1], k - 1), p);
      StoredNowhere(j, m, s, l, k - 1, p);
    }
  }

  lemma SamePlace(m: Memory, m': Memory, a: Word)
    requires m.writeMap == m'.writeMap
    ensures PlaceOf(m, a) == PlaceOf(m', a)
  {
  }

  /** No two pages of the transfer are the same host memory. */
  predicate Unaliased(m: Memory, base: Word, n: nat) {
    forall i, k :: 0 <= i < k < n && Page(At(base, i)) != Page(At(base, k)) && FastWrite(m, At(base, i)) && FastWrite(m, At(base, k)) ==>
      PlaceOf(m, At(base, i)) != PlaceOf(m, At(base, k))
  }

  /** Then every transfer has its own place; within a page it always has. */
  lemma OwnPlaces(m: Memory, base: Word, n: nat, i: nat, k: nat)
    requires Unaliased(m, base, n) && n <= 16 && i < k < n
    ensures PlaceOf(m, At(base, i)) != PlaceOf(m, At(base, k))
  {
    hide Page; hide FastWrite;
    AtDiffer(base, i, k);
  }

  lemma AtDiffer(base: Word, i: nat, k: nat)
    requires i < k < 16
    ensures At(base, i) != At(base, k)
  {
    var a, b := base + 4 * i, base + 4 * k;
    assert (if a < MOD then a else a - MOD) == At(base, i);
    assert (if b < MOD then b else b - MOD) == At(base, k);
  }

  /** The word for register `c` at transfer `i`: an early writeback shows from the second transfer on. */
  lemma StoredValueIs(j: Job, s: State, c: nat, i: nat)
    requires c <= 15
    ensures StoredValue(j, s, c, i) ==
            if c == 15 then Add(s.reg[15], j.cpu.r15Diff)
            else if c == Rn(j.op) && EarlyWriteback(j) && i > 0 && !(j.bank && !s.main[c]) then j.writeback
            else Get(s, c, j.bank)
  {
    hide Rn;
  }

  /** The memory after a store, word by word. */
  lemma StoredWords(j: Job, m: Memory, s: State, n: nat, i: nat)
    requires n <= |List(j.op)| && i < |List(j.op)| && Unaliased(m, j.base, |List(j.op)|)
    ensures Held(StorePrefix(j, m, s, List(j.op), n), PlaceOf(m, At(j.base, i))) ==
            if i < n then StoredValue(j, s, List(j.op)[i], i) else Held(m, PlaceOf(m, At(j.base, i)))
  {
    hide StoredValue; hide At; hide Held; hide PlaceOf; hide List; hide StorePrefix; hide Unaliased;
    var l := List(j.op);
    forall k | 0 <= k < |l| && k != i ensures PlaceOf(m, At(j.base, k)) != PlaceOf(m, At(j.base, i)) {
      if i < k { OwnPlaces(m, j.base, |l|, i, k); } else { OwnPlaces(m, j.base, |l|, k, i); }
    }
    if i < n { StoredLast(j, m, s, l, n, i); } else { StoredNowhere(j, m, s, l, n, PlaceOf(m, At(j.base, i))); }
  }

  /**
   A store multiple stopped by a fault: the words before the first fault are in memory, the base showing its
   writeback value from the second word on where the CPU writes it early; no other word has changed; and the
   registers are as before, but for a base that the CPU does not restore.
   */
  lemma StoreAborted(j: Job, m: Memory, s: State, i: nat, c: nat, p: Place)
    requires Writes(m, j.base, |List(j.op)|) < |List(j.op)| && Unaliased(m, j.base, |List(j.op)|)
    requires i < |List(j.op)| && c < 17
    ensures var n := Writes(m, j.base, |List(j.op)|);
            var m', s' := StorePrefix(j, m, s, List(j.op), n), StoreOutcome(j, true, s);
            && !CanWrite(m, At(j.base, n)) && (i < n ==> CanWrite(m, At(j.base, i)))
            && Held(m', PlaceOf(m, At(j.base, i))) == (if i < n then StoredValue(j, s, List(j.op)[i], i) else Held(m, PlaceOf(m, At(j.base, i))))
            && ((forall k :: 0 <= k < n ==> PlaceOf(m, At(j.base, k)) != p) ==> Held(m', p) == Held(m, p))
            && s'.user == s.user
            && s'.reg[c] == if c == Rn(j.op) && EarlyWriteback(j) && !j.cpu.baseRestored then j.writeback else s.reg[c]
  {
    hide StoredValue; hide At; hide Held; hide PlaceOf; hide List; hide StorePrefix; hide Writes; hide Unaliased; hide CanWrite; hide Rn;
    var n := Writes(m, j.base, |List(j.op)|);
    StoredWords(j, m, s, n, i);
    CountedSucceed(m, j.base, |List(j.op)|, i);
    if forall k :: 0 <= k < n ==> PlaceOf(m, At(j.base, k)) != p { StoredNowhere(j, m, s, List(j.op), n, p); }
  }

  /** One that completes: every listed register's word is in memory, and the base is written back. */
  lemma StoreCompleted(j: Job, m: Memory, s: State, i: nat, c: nat, p: Place)
    requires Writes(m, j.base, |List(j.op)|) == |List(j.op)| && Unaliased(m, j.base, |List(j.op)|)
    requires i < |List(j.op)| && c < 17
    ensures var m', s' := StorePrefix(j, m, s, List(j.op), |List(j.op)|), StoreOutcome(j, false, s);
            && Held(m', PlaceOf(m, At(j.base, i))) == StoredValue(j, s, List(j.op)[i], i)
            && ((forall k :: 0 <= k < |List(j.op)| ==> PlaceOf(m, At(j.base, k)) != p) ==> Held(m', p) == Held(m, p))
            && s'.user == s.user && s'.reg[c] == if c == Rn(j.op) && WritesBack(j.op) then j.writeback else s.reg[c]
  {
    hide StoredValue; hide At; hide Held; hide PlaceOf; hide List; hide StorePrefix; hide Writes; hide Unaliased; hide Rn;
    StoredWords(j, m, s, |List(j.op)|, i);
    if forall k :: 0 <= k < |List(j.op)| ==> PlaceOf(m, At(j.base, k)) != p { StoredNowhere(j, m, s, List(j.op), |List(j.op)|, p); }
  }
}
