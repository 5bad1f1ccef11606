/**
 LDM with R15 in its list and the S bit (arm_load_multiple_s in arm_common.c): the loads, aborts and base rule
 of a block transfer together with the change of PSR, mode and bank that writing R15 brings.
 */
module LoadReturn {
  import opened Words
  import opened Opcodes
  import Interpreter
  import BlockTransfer
  import Modes

  type Job = BlockTransfer.Job
  type Memory = BlockTransfer.Memory

  /** A word as the bits of a register. */
  function BitsOf(w: Word): bv32 { w as bv32 }

  /** The registers of `s` are those in `reg` of the processor. */
  predicate Shows(c: Modes.Cpu, s: BlockTransfer.State) { forall i :: 0 <= i < 17 ==> c.reg[i] == BitsOf(s.reg[i]) }

  /** The words of the first `k` transfers. */
  function Fetched(j: Job, m: Memory, k: nat): (vs: seq<bv32>)
    ensures |vs| == k
  {
    seq(k, i requires 0 <= i < k => BitsOf(BlockTransfer.Read(m, BlockTransfer.At(j.base, i))))
  }

  predicate WritesBack(j: Job): (b: bool)
    ensures b ==> Rn(j.op) < 15
  {
    BlockTransfer.WritesBack(j.op)
  }

  function Low(j: Job): (l: seq<nat>)
    ensures forall i :: 0 <= i < |l| ==> l[i] < 15
  {
    BlockTransfer.BelowMeans(j.op, 15);
    BlockTransfer.Below(j.op, 15)
  }

  /** How many of R0-R14 are loaded before the first fault. */
  function LowReads(j: Job, m: Memory): (k: nat)
    ensures k <= |Low(j)|
  {
    var n := BlockTransfer.Reads(m, j.base, |BlockTransfer.List(j.op)|);
    if n < |Low(j)| then n else |Low(j)|
  }

  /** The base is written back and the registers up to the first fault are loaded. */
  function LoadLow(j: Job, m: Memory, c: Modes.Cpu): Modes.Cpu {
    var k := LowReads(j, m);
    Modes.LoadRegs(Modes.Based(c, WritesBack(j), Rn(j.op), BitsOf(j.writeback)), Low(j)[..k], Fetched(j, m, k))
  }

  predicate Faults(j: Job, m: Memory) {
    BlockTransfer.Reads(m, j.base, |BlockTransfer.List(j.op)|) < |BlockTransfer.List(j.op)|
  }

  /** The data_abort exit. */
  function Settled(j: Job, c: Modes.Cpu, d: Modes.Cpu): Modes.Cpu {
    d.(reg := d.reg[Rn(j.op) := if !j.cpu.baseRestored && WritesBack(j) then BitsOf(j.writeback) else c.reg[Rn(j.op)]])
  }

  /** arm_load_multiple_s(), R15 being in the list. */
  function LoadS(j: Job, m: Memory, c: Modes.Cpu): Modes.Cpu {
    var d := LoadLow(j, m, c);
    if Faults(j, m) then Settled(j, c, d) else Modes.WriteR15(d, BitsOf(BlockTransfer.Read(m, BlockTransfer.At(j.base, |Low(j)|))))
  }

  // ---- the two models of the loads agree ----

  lemma {:induction false} LoadRegsSnoc(c: Modes.Cpu, l: seq<nat>, vs: seq<bv32>)
    requires |l| == |vs| > 0 && forall n :: 0 <= n < |l| ==> l[n] < 15
    ensures var k := |l| - 1; Modes.LoadRegs(c, l, vs) == Modes.SetReg(Modes.LoadRegs(c, l[..k], vs[..k]), l[k], vs[k])
    decreases |l|
  {
    var k := |l| - 1;
    if k == 0 {
      assert l[1..] == [] && l[..0] == [];
    } else {
      LoadRegsSnoc(Modes.SetReg(c, l[0], vs[0]), l[1..], vs[1..]);
      assert l[1..][..k - 1] == l[..k][1..] && vs[1..][..k - 1] == vs[..k][1..];
    }
  }

  lemma {:induction false} LowAgrees(j: Job, m: Memory, c: Modes.Cpu, s: BlockTransfer.State, k: nat)
    requires !j.bank && k <= |Low(j)| && Shows(c, s)
    ensures Shows(Modes.LoadRegs(c, Low(j)[..k], Fetched(j, m, k)), BlockTransfer.LoadPrefix(j, m, s, Low(j), k))
    decreases k
  {
    hide BitsOf; hide BlockTransfer.Read; hide BlockTransfer.At; hide Low;
    if k > 0 {
      LowAgrees(j, m, c, s, k - 1);
      LoadRegsSnoc(c, Low(j)[..k], Fetched(j, m, k));
      assert Low(j)[..k][..k - 1] == Low(j)[..k - 1] && Fetched(j, m, k)[..k - 1] == Fetched(j, m, k - 1);
    }
  }

  lemma BasedAgrees(j: Job, c: Modes.Cpu, s: BlockTransfer.State)
    requires Shows(c, s)
    ensures var wb := WritesBack(j);
            Shows(Modes.Based(c, wb, Rn(j.op), BitsOf(j.writeback)), if wb then BlockTransfer.BaseTo(s, j.op, j.writeback) else s)
  {
    hide BitsOf; hide Rn;
  }

  /** R0-R14, as far as loaded, and the base, whichever of the two models they are taken from. */
  lemma LoadLowAgrees(j: Job, m: Memory, c: Modes.Cpu, s: BlockTransfer.State)
    requires !j.bank && Shows(c, s)
    ensures var s1 := if WritesBack(j) then BlockTransfer.BaseTo(s, j.op, j.writeback) else s;
            Shows(LoadLow(j, m, c), BlockTransfer.LoadPrefix(j, m, s1, Low(j), LowReads(j, m)))
  {
    hide BitsOf; hide Rn; hide Shows; hide WritesBack; hide Low; hide LowReads; hide Fetched;
    BasedAgrees(j, c, s);
    var s1 := if WritesBack(j) then BlockTransfer.BaseTo(s, j.op, j.writeback) else s;
    LowAgrees(j, m, Modes.Based(c, WritesBack(j), Rn(j.op), BitsOf(j.writeback)), s1, LowReads(j, m));
  }

  // ---- the whole instruction ----

  /** A fault leaves the registers of an aborted LDM, in the mode and with the banks there were. */
  lemma LoadSAborted(cfg: Interpreter.Config, j: Job, m: Memory, c: Modes.Cpu, s: BlockTransfer.State)
    requires !j.bank && Shows(c, s) && Faults(j, m)
    ensures var d := LoadS(j, m, c);
            Shows(d, BlockTransfer.LoadOutcome(cfg, j, m, s)) && d == c.(reg := d.reg)
  {
    hide BitsOf; hide Rn; hide BlockTransfer.LoadPrefix; hide BlockTransfer.Reads; hide BlockTransfer.Read; hide BlockTransfer.At;
    LoadLowAgrees(j, m, c, s);
    LoadLowKeeps(j, m, c);
  }

  lemma LoadLowKeeps(j: Job, m: Memory, c: Modes.Cpu)
    ensures LoadLow(j, m, c) == c.(reg := LoadLow(j, m, c).reg)
  {
    hide BitsOf; hide Low; hide LowReads; hide Fetched; hide WritesBack; hide Rn;
    LoadRegsFrame(Modes.Based(c, WritesBack(j), Rn(j.op), BitsOf(j.writeback)), Low(j)[..LowReads(j, m)], Fetched(j, m, LowReads(j, m)));
  }

  lemma {:induction false} LoadRegsFrame(c: Modes.Cpu, l: seq<nat>, vs: seq<bv32>)
    requires |l| == |vs| && forall n :: 0 <= n < |l| ==> l[n] < 15
    ensures Modes.LoadRegs(c, l, vs) == c.(reg := Modes.LoadRegs(c, l, vs).reg)
    decreases |l|
  {
    if l != [] { LoadRegsFrame(Modes.SetReg(c, l[0], vs[0]), l[1..], vs[1..]); }
  }

  /**
   Without a fault: R0-R14 of the mode that executes the instruction are those a plain LDM would leave, no register
   of another bank changes, and PC, PSR and mode are those of an S-set write of the loaded word to R15.
   */
  lemma LoadSCompleted(cfg: Interpreter.Config, j: Job, m: Memory, c: Modes.Cpu, s: BlockTransfer.State, k: Modes.Kind, i: nat)
    requires !j.bank && Shows(c, s) && !Faults(j, m) && BlockTransfer.Listed(j.op, 15)
    requires Modes.Inv(c) && Modes.ReturnsLegally(c) && k != Modes.Reserved && i < 15
    ensures var d := LoadS(j, m, c);
            && Modes.Inv(d)
            && Modes.KindOf(c.mode) != Modes.Reserved
            && Modes.Value(d, Modes.KindOf(c.mode), i) == BitsOf(BlockTransfer.LoadOutcome(cfg, j, m, s).reg[i])
            && (Modes.Home(k, i) != Modes.Home(Modes.KindOf(c.mode), i) ==> Modes.Value(d, k, i) == Modes.Value(c, k, i))
            && Modes.PsrAlike(d, Modes.WriteR15(c, BitsOf(BlockTransfer.Read(m, BlockTransfer.At(j.base, |Low(j)|)))))
  {
    hide BitsOf; hide Rn; hide BlockTransfer.LoadPrefix; hide BlockTransfer.Reads; hide BlockTransfer.Read; hide BlockTransfer.At; hide BlockTransfer.Below;
    hide Modes.Inv; hide Modes.WriteR15; hide Modes.PsrAlike; hide Modes.KindOf; hide Modes.ReturnsLegally; hide Modes.LoadRegs; hide Modes.Home; hide Fetched;
    hide BlockTransfer.Listed; hide WritesBack; hide Modes.Value;
    LoadLowAgrees(j, m, c, s);
    LoadLowKeeps(j, m, c);
    BlockTransfer.BelowMeans(j.op, 15);
    BlockTransfer.ListEnds(j.op, m, j.base);
    var e, dest := LoadLow(j, m, c), BitsOf(BlockTransfer.Read(m, BlockTransfer.At(j.base, |Low(j)|)));
    assert LowReads(j, m) == |Low(j)|;
    var vs := Fetched(j, m, |Low(j)|);
    assert Low(j)[..|Low(j)|] == Low(j);
    Modes.LoadAndReturns(c, WritesBack(j), Rn(j.op), BitsOf(j.writeback), Low(j), vs, dest, k, i);
    LowSound(j, m, c);
    Shown(e, dest, i);
    OutcomeLow(cfg, j, m, s, i);
  }

  lemma OutcomeLow(cfg: Interpreter.Config, j: Job, m: Memory, s: BlockTransfer.State, i: nat)
    requires !Faults(j, m) && i < 15
    ensures var s1 := if WritesBack(j) then BlockTransfer.BaseTo(s, j.op, j.writeback) else s;
            BlockTransfer.LoadOutcome(cfg, j, m, s).reg[i] == BlockTransfer.LoadPrefix(j, m, s1, Low(j), LowReads(j, m)).reg[i]
  {
    hide BlockTransfer.LoadPrefix; hide BlockTransfer.Reads; hide BlockTransfer.Read; hide BlockTransfer.At; hide BlockTransfer.Below; hide BlockTransfer.List;
    hide BlockTransfer.BaseTo; hide BlockTransfer.WritesBack; hide Interpreter.BranchTo;
  }

  lemma LowSound(j: Job, m: Memory, c: Modes.Cpu)
    requires Modes.Inv(c) && Modes.ReturnsLegally(c)
    ensures var e := LoadLow(j, m, c); Modes.Inv(e) && Modes.ReturnsLegally(e) && e.mode == c.mode
  {
    hide BitsOf; hide Low; hide LowReads; hide Fetched; hide WritesBack; hide Rn; hide Modes.Inv; hide Modes.LoadRegs; hide Modes.Index; hide Modes.Legal;
    var b := Modes.Based(c, WritesBack(j), Rn(j.op), BitsOf(j.writeback));
    Modes.BasedKeeps(c, WritesBack(j), Rn(j.op), BitsOf(j.writeback));
    Modes.LoadRegsKeep(b, Low(j)[..LowReads(j, m)], Fetched(j, m, LowReads(j, m)));
  }

  /** After an S-set write of R15 the registers of the mode that made it are those it had. */
  lemma Shown(e: Modes.Cpu, dest: bv32, i: nat)
    requires Modes.Inv(e) && Modes.ReturnsLegally(e) && i < 15
    ensures Modes.KindOf(e.mode) != Modes.Reserved && Modes.Value(Modes.WriteR15(e, dest), Modes.KindOf(e.mode), i) == e.reg[i]
  {
    hide Modes.Inv; hide Modes.WriteR15; hide Modes.KindOf; hide Modes.ReturnsLegally; hide Modes.NewR15; hide Modes.Target;
    Modes.InvKinds(e);
    Modes.TargetLegal(e, dest);
    Modes.WriteR15MovesNothing(e, dest, Modes.KindOf(e.mode), i);
  }
  // ---- the loop of the source ----

  lemma OneMore(j: Job, m: Memory, c: Modes.Cpu, i: nat, n: nat)
    requires i < 15 && BlockTransfer.Listed(j.op, i) && n == |BlockTransfer.Below(j.op, i)|
    ensures n < |Low(j)| && |BlockTransfer.Below(j.op, i + 1)| == n + 1
    ensures var v := BitsOf(BlockTransfer.Read(m, BlockTransfer.At(j.base, n)));
            Modes.LoadRegs(c, Low(j)[..n + 1], Fetched(j, m, n + 1)) == Modes.SetReg(Modes.LoadRegs(c, Low(j)[..n], Fetched(j, m, n)), i, v)
  {
    hide BitsOf; hide BlockTransfer.Read; hide BlockTransfer.At; hide BlockTransfer.Listed;
    BlockTransfer.NextListed(j.op, i, 15);
    LoadRegsSnoc(c, Low(j)[..n + 1], Fetched(j, m, n + 1));
    assert Low(j)[..n + 1][..n] == Low(j)[..n] && Fetched(j, m, n + 1)[..n] == Fetched(j, m, n);
  }

  method LoadMultipleS(j: Job, m: Memory, c: Modes.Cpu) returns (d: Modes.Cpu, abort: bool)
    requires BlockTransfer.Listed(j.op, 15)
    ensures abort == Faults(j, m) && d == LoadS(j, m, c)
  {
    hide BitsOf; hide BlockTransfer.Read; hide BlockTransfer.At; hide BlockTransfer.Listed; hide BlockTransfer.CanRead; hide Modes.WriteR15; hide Add;
    hide WritesBack; hide Rn; hide Modes.LoadRegs; hide Modes.Based; hide BlockTransfer.Below; hide BlockTransfer.Reads; hide BlockTransfer.List;
    d := Modes.Based(c, WritesBack(j), Rn(j.op), BitsOf(j.writeback));
    ghost var b, n := d, 0;
    var addr, i := j.base, 0;
    BlockTransfer.ListEnds(j.op, m, j.base);
    Nothing(j, m, b);
    while i < 15
      invariant 0 <= i <= 15 && n == |BlockTransfer.Below(j.op, i)| <= |Low(j)|
      invariant BlockTransfer.Reads(m, j.base, n) == n && addr == BlockTransfer.At(j.base, n)
      invariant d == Modes.LoadRegs(b, Low(j)[..n], Fetched(j, m, n))
    {
      if BlockTransfer.Listed(j.op, i) {
        OneMore(j, m, b, i, n);
        if !BlockTransfer.CanRead(m, addr) {
          Stops(j, m, n);
          return Settled(j, c, d), true;
        }
        Goes(j, m, n);
        d := Modes.SetReg(d, i, BitsOf(BlockTransfer.Read(m, addr)));
        addr := Add(addr, 4);
        n := n + 1;
      } else {
        Skips(j, i);
      }
      i := i + 1;
    }
    abort := !BlockTransfer.CanRead(m, addr);
    assert LowReads(j, m) == n;
    d := if abort then Settled(j, c, d) else Modes.WriteR15(d, BitsOf(BlockTransfer.Read(m, addr)));
  }

  lemma Nothing(j: Job, m: Memory, b: Modes.Cpu)
    ensures Modes.LoadRegs(b, Low(j)[..0], Fetched(j, m, 0)) == b
    ensures BlockTransfer.Below(j.op, 0) == [] && BlockTransfer.Reads(m, j.base, 0) == 0 && BlockTransfer.At(j.base, 0) == j.base
  {
    hide Low;
  }

  lemma Skips(j: Job, i: nat)
    requires !BlockTransfer.Listed(j.op, i)
    ensures |BlockTransfer.Below(j.op, i + 1)| == |BlockTransfer.Below(j.op, i)|
  {
    hide BlockTransfer.Listed;
  }

  lemma Goes(j: Job, m: Memory, n: nat)
    requires BlockTransfer.Reads(m, j.base, n) == n && BlockTransfer.CanRead(m, BlockTransfer.At(j.base, n))
    ensures BlockTransfer.Reads(m, j.base, n + 1) == n + 1 && BlockTransfer.At(j.base, n + 1) == Add(BlockTransfer.At(j.base, n), 4)
  {
    hide BlockTransfer.CanRead; hide BlockTransfer.At; hide Add;
    BlockTransfer.AtNext(j.base, n);
  }

  /** The first fault, among R0-R14. */
  lemma Stops(j: Job, m: Memory, n: nat)
    requires n < |Low(j)| && BlockTransfer.Reads(m, j.base, n) == n && !BlockTransfer.CanRead(m, BlockTransfer.At(j.base, n))
    ensures LowReads(j, m) == n && Faults(j, m)
  {
    hide BlockTransfer.CanRead; hide BlockTransfer.At; hide BlockTransfer.Below; hide BlockTransfer.List; hide BlockTransfer.Reads; hide BlockTransfer.Listed;
    BlockTransfer.ListEnds(j.op, m, j.base);
    BlockTransfer.ReadsStop(m, j.base, n, |BlockTransfer.List(j.op)|);
  }
}
