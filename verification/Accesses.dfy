/**
 What loads and stores do to memory, apart from how the two recompilers and the interpreter reach it: what is stored
 is what is loaded, words and bytes, and where the words of LDM and STM lie.
 */
module Accesses {
  import opened Words
  import opened Opcodes
  import opened Interpreter
  import opened BlockTransfer
  import InlineTransfer
  import InlineSingle
  import Encoding

  /** The page of `a` has the same host memory for reading and writing, or none for either. */
  predicate MapsAgree(m: Memory, a: Word) {
    FastRead(m, a) == FastWrite(m, a) && (FastRead(m, a) ==> m.readMap(Page(a)) == m.writeMap(Page(a)))
  }

  lemma ReadHeld(m: Memory, a: Word)
    requires MapsAgree(m, a)
    ensures Read(m, a) == Held(m, PlaceOf(m, a))
  {
  }

  /** A word stored is read back from its own place, and every other place reads as before. */
  lemma WordStored(m: Memory, a: Word, v: Word, b: Word)
    requires MapsAgree(m, b)
    ensures Read(Write(m, a, v), b) == if PlaceOf(m, a) == PlaceOf(m, b) then v else Read(m, b)
  {
    hide Page;
    ReadHeld(m, b);
    ReadHeld(Write(m, a, v), b);
    WriteHeld(m, a, v, PlaceOf(m, b));
  }

  /** A fault is refused memory behind the MMU: host memory in the fast map never faults. */
  lemma FaultsBehindMmu(m: Memory, a: Word)
    ensures (!CanRead(m, a) <==> m.readMap(Page(a)) % 2 != 0 && m.readFaults(a))
    ensures (!CanWrite(m, a) <==> m.writeMap(Page(a)) % 4 != 0 && m.writeFaults(a))
  {
    hide Page;
  }

  // ---- single loads and stores ----

  /** A word stored with STR is loaded by LDR, rotated to bring the byte addressed to the bottom. */
  lemma WordLoaded(store: Word, load: Word, m: Memory, a: Word, v: Word)
    requires !InlineSingle.OfByte(store) && !InlineSingle.OfByte(load) && MapsAgree(m, Align(a))
    ensures InlineSingle.Fetch(load, InlineSingle.Store(store, m, a, v), a) == Ror(v, 8 * (a % 4))
  {
    hide Ror; hide Read; hide Write; hide InlineSingle.OfByte; hide MapsAgree;
    WordStored(m, Align(a), v, Align(a));
  }

  /** A byte stored with STRB is loaded by LDRB. */
  lemma ByteLoaded(store: Word, load: Word, m: Memory, a: Word, v: Word)
    requires InlineSingle.OfByte(store) && InlineSingle.OfByte(load) && MapsAgree(m, a) && Page(Align(a)) == Page(a)
    ensures InlineSingle.Fetch(load, InlineSingle.Store(store, m, a, v), a) == v % 0x100
  {
    hide InlineSingle.OfByte; hide InlineSingle.HostByte; hide InlineSingle.PutHostByte; hide Page; hide InlineSingle.ByteIn; hide InlineSingle.WithByte;
    var at := a + m.writeMap(Page(a));
    InlineSingle.HostByteWritten(m, at, v % 0x100, at);
    InlineSingle.ByteKept(if Align(a) in m.slow then m.slow[Align(a)] else 0, a % 4, v % 0x100, a % 4);
    SameMaps(m, at, v % 0x100);
  }

  lemma SameMaps(m: Memory, at: int, v: InlineSingle.Byte)
    ensures var d := InlineSingle.PutHostByte(m, at, v); d.readMap == m.readMap && d.writeMap == m.writeMap && d.slow == m.slow
  {
  }

  /** The bytes of a word stored with STR, the lowest first. */
  lemma ByteOfWord(store: Word, load: Word, m: Memory, a: Word, v: Word, k: int)
    requires !InlineSingle.OfByte(store) && InlineSingle.OfByte(load) && a % 4 == 0 && 0 <= k < 4
    requires MapsAgree(m, a) && Page(a + k) == Page(a) && (FastRead(m, a) ==> m.readMap(Page(a)) % 4 == 0)
    ensures InlineSingle.Fetch(load, InlineSingle.Store(store, m, a, v), a + k) ==
            v / (if k == 0 then 1 else if k == 1 then 0x100 else if k == 2 then 0x1_0000 else 0x100_0000) % 0x100
  {
    hide InlineSingle.OfByte; hide Page;
    assert Align(a + k) == a && (a + k) % 4 == k;
    if FastRead(m, a) {
      var e := m.readMap(Page(a));
      RemainderUnique(a + k + e, 4, (a + e) / 4, k);
    }
  }

  /** The base moved by the offset, up or down. */
  function Sum(op: Word, base: int, offset: int): Word { (if InlineSingle.Up(op) then base + offset else base - offset) % MOD }

  function Addressed(op: Word, base: Word, offset: Word): Word { if InlineSingle.Pre(op) then Sum(op, base, offset) else base }

  /** May the word or the byte at `a` be loaded, or stored? */
  predicate Permitted(op: Word, m: Memory, a: Word) {
    var at := if InlineSingle.OfByte(op) then a else a - a % 4;
    if InlineSingle.Loads(op) then CanRead(m, at) else CanWrite(m, at)
  }

  /** All but plain pre-indexed transfers write the sum back, and a CPU that restores the base does not when refused. */
  predicate BaseMoves(op: Word, restored: bool) { (InlineSingle.Pre(op) ==> InlineSingle.BitW(op)) && !restored }

  /**
   LDR, STR, LDRB and STRB: the address is the base or the sum, the base becomes the sum in all but plain pre-indexed
   transfers, and an access that is refused changes nothing but the base, and not that on a CPU that restores it.
   */
  lemma SingleMeans(cfg: Config, cpu: Model, op: Word, r: Regs, m: Memory)
    ensures var after, base, offset := InlineSingle.Interpreted(cfg, cpu, op, r, m), Address(cfg, r, Rn(op)), InlineSingle.Offset(cfg, op, r);
            var sum, a := Sum(op, base, offset), Addressed(op, base, offset);
            var back, loaded := BaseMoves(op, after.aborted && cpu.baseRestored), InlineSingle.Loads(op) && !after.aborted;
            && (after.aborted <==> !Permitted(op, m, a))
            && (forall i :: 0 <= i < 17 && i != Rn(op) && !(loaded && i == Rd(op)) ==> after.reg[i] == r[i])
            && (!(loaded && Rd(op) == Rn(op)) ==> after.reg[Rn(op)] == if back then sum else r[Rn(op)])
            && (loaded && Rd(op) != 15 ==> after.reg[Rd(op)] == InlineSingle.Fetch(op, m, a))
            && (loaded && Rd(op) == 15 ==>
                  after.reg[15] == BranchTo(cfg, if back && Rn(op) == 15 then sum else r[15], InlineSingle.Fetch(op, m, a)))
            && after.mem == if InlineSingle.Loads(op) || after.aborted then m
                            else InlineSingle.Store(op, m, a, if Rd(op) == 15 then Add(r[15], cpu.r15Diff) else r[Rd(op)])
  {
    hide CanRead; hide CanWrite; hide InlineSingle.Fetch; hide InlineSingle.Store; hide InlineSingle.Offset; hide Address; hide BranchTo; hide Sum; hide InlineSingle.OffsetBy;
    hide InlineSingle.Up; hide InlineSingle.Pre; hide InlineSingle.OfByte; hide InlineSingle.BitW; hide InlineSingle.Loads; hide Rn; hide Rd;
    Moved(op, Address(cfg, r, Rn(op)), InlineSingle.Offset(cfg, op, r));
  }

  lemma Moved(op: Word, base: Word, offset: Word)
    ensures InlineSingle.OffsetBy(op, base, offset) == Sum(op, base, offset)
  {
    hide InlineSingle.Up;
    var b, o: int := base, offset;
    RemainderUnique(b + o, MOD, if b + o < MOD then 0 else 1, Add(base, offset));
    RemainderUnique(b - o, MOD, if b < o then -1 else 0, Add(base, Sub(0, offset)));
  }

  // ---- where the words of a block transfer are ----

  /**
   LDM and STM in the four modes: the lowest address, which the lowest register goes to, and the value the base is
   written back to, from the base and the number of registers listed.
   */
  lemma TransferAddresses(op: Word, base: Word)
    ensures var n, (low, back) := |List(op)|, InlineTransfer.Addresses(op, base);
            && low == (if InlineTransfer.Up(op) then base + (if InlineTransfer.Before(op) then 4 else 0)
                       else base - 4 * n + (if InlineTransfer.Before(op) then 0 else 4)) % MOD
            && back == (if InlineTransfer.Up(op) then base + 4 * n else base - 4 * n) % MOD
  {
    hide List; hide InlineTransfer.Up; hide InlineTransfer.Before;
    var n: int := |List(op)|;
    var b: int := base;
    RemainderUnique(b + 4 * n, MOD, if b + 4 * n < MOD then 0 else 1, Add(base, Size(op)));
    RemainderUnique(b - 4 * n, MOD, if b < 4 * n then -1 else 0, Sub(base, Size(op)));
    RemainderUnique(b + 4, MOD, if b + 4 < MOD then 0 else 1, Add(base, 4));
    var x := b - 4 * n + 4;
    RemainderUnique(x, MOD, if x < 0 then -1 else if x < MOD then 0 else 1, Add(Sub(base, Size(op)), 4));
  }

  /** Every register listed is counted once. */
  lemma {:induction false} ListedCount(op: Word, c: nat)
    ensures |Below(op, c)| == Ones(op, c)
  {
    hide Listed; hide BitAt;
    if c > 0 {
      ListedCount(op, c - 1);
      Encoding.ListedBit(op, c - 1);
    }
  }

  /** How many of the lowest bits are set. */
  function Ones(w: Word, c: nat): nat { if c == 0 then 0 else Ones(w, c - 1) + if BitAt(w, c - 1) then 1 else 0 }
}
