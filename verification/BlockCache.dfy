/**
 The cache of recompiled blocks (codegen_arm64.c): a table indexed by a hash of the program
 counter, over a ring of code slots that are reused in turn.
 */
module BlockCache {

  const HASHES: int := 0x8000
  const BLOCKS: int := 1024
  const PAGES: int := 0x1_0000
  const NONE: int := 0xffff_ffff

  type Word = x: int | 0 <= x < 0x1_0000_0000
  type PageNumber = x: int | 0 <= x < 0x10_0000

  /** codeblockpc, codeblocknum and codeblockword at one hash. */
  datatype Entry = Entry(pc: Word, num: int, word32: bool)

  /** What a code slot was last compiled for, and how often its page had been invalidated by then. */
  datatype Made = Never | Made(pc: Word, word32: bool, stamp: nat)

  type Table = s: seq<Entry> | |s| == HASHES witness seq(HASHES, _ => Entry(NONE, 0, false))
  type Ring = s: seq<int> | |s| == BLOCKS witness seq(BLOCKS, _ => NONE)
  type Marks = s: seq<bool> | |s| == PAGES witness seq(PAGES, _ => false)
  type Code = s: seq<Made> | |s| == BLOCKS witness seq(BLOCKS, _ => Never)

  /**
   The cache: table, hash of each ring slot, pages that may hold compiled code, last slot used; and
   the code itself, with the number of times each page has been invalidated.
   */
  datatype Cache = Cache(table: Table, blocks: Ring, present: Marks, point: int, code: Code, stamps: map<int, nat>)

  function Hash(l: Word): (h: int)
    ensures 0 <= h < HASHES
  {
    (l / 4) % HASHES
  }

  function Page(l: Word): PageNumber { l / 0x1000 }

  function Stamp(c: Cache, page: int): nat { if page in c.stamps then c.stamps[page] else 0 }

  function Drop(table: Table, slot: int): Table {
    if slot == NONE then table
    else table[slot % HASHES := table[slot % HASHES].(pc := NONE, num := -1)]
  }

  function Empty(): Cache {
    Cache(seq(HASHES, _ => Entry(NONE, 0, false)), seq(BLOCKS, _ => NONE), seq(PAGES, _ => false), 0,
          seq(BLOCKS, _ => Never), map[])
  }

  /** initcodeblock(), and the code that is then generated into the slot. */
  function Compile(c: Cache, l: Word, word32: bool): Cache {
    var point := (c.point + 1) % BLOCKS;
    var table := Drop(c.table, c.blocks[point]);
    Cache(table[Hash(l) := Entry(l, point, word32)], c.blocks[point := Hash(l)], c.present[Page(l) % PAGES := true], point,
          c.code[point := Made(l, word32, Stamp(c, Page(l)))], c.stamps)
  }

  /** resetcodeblocks(), from ring slot `k` on. */
  function ResetFrom(c: Cache, k: nat): Cache
    requires k <= BLOCKS
    decreases BLOCKS - k
  {
    if k == BLOCKS then c else ResetFrom(ResetSlot(c, k), k + 1)
  }

  function ResetSlot(c: Cache, k: nat): Cache
    requires k < BLOCKS
  {
    c.(table := Drop(c.table, c.blocks[k]), blocks := c.blocks[k := NONE])
  }

  function Reset(c: Cache): Cache { ResetFrom(c.(point := 0), 0) }

  /** The entry at a hash is for a block of page `a`. */
  predicate OnPage(e: Entry, a: PageNumber) { Page(e.pc) == a }

  /** Entries lo .. hi-1 that are for page `a` are dropped. */
  function Wiped(table: Table, a: PageNumber, lo: int, hi: int): Table {
    seq(HASHES, h requires 0 <= h < HASHES =>
      if lo <= h < hi && OnPage(table[h], a) then table[h].(pc := NONE) else table[h])
  }

  /** cacheclearpage(), the page being counted as invalidated. */
  function ClearPage(c: Cache, a: PageNumber): Cache
  {
    var c1 := c.(stamps := c.stamps[a := Stamp(c, a) + 1]);
    if !c.present[a % PAGES] then c1
    else
      var d := Hash(Base(a));
      c1.(present := c.present[a % PAGES := false], table := Wiped(c.table, a, d, d + 0x400))
  }

  function Base(a: PageNumber): Word
  {
    a * 0x1000
  }

  // ---- lookups ----

  /** A slot number, if there is a hit. */
  datatype Hit = Miss | Slot(num: int)

  /** The test of the dispatcher, which uses the slot number as it stands. */
  function Dispatch(c: Cache, pc: Word, word32: bool): Hit {
    var e := c.table[Hash(pc)];
    if e.pc == pc && e.word32 == word32 then Slot(e.num) else Miss
  }

  /** The test of jit_chain_next(), with its range check. */
  function ChainNext(c: Cache, pc: Word, word32: bool): Hit {
    var e := c.table[Hash(pc)];
    if e.pc != pc || e.word32 != word32 then Miss
    else if e.num < 0 || e.num >= BLOCKS then Miss
    else Slot(e.num)
  }

  // ---- soundness ----

  predicate Live(e: Entry) { e.pc != NONE }

  /** A live entry is at its own hash and leads to a slot of the ring that was compiled for it. */
  predicate EntrySound(c: Cache, h: int)
    requires 0 <= h < HASHES
  {
    var e := c.table[h];
    Live(e) ==>
      && Hash(e.pc) == h && 0 <= e.num < BLOCKS && c.blocks[e.num] == h
      && c.code[e.num].Made? && c.code[e.num].pc == e.pc && c.code[e.num].word32 == e.word32
  }

  predicate Sound(c: Cache) {
    && 0 <= c.point < BLOCKS
    && (forall h :: 0 <= h < HASHES ==> EntrySound(c, h))
    && (forall k :: 0 <= k < BLOCKS ==> c.blocks[k] == NONE || 0 <= c.blocks[k] < HASHES)
  }

  lemma EmptySound()
    ensures Sound(Empty())
  {
  }

  lemma CompileSound(c: Cache, l: Word, word32: bool)
    requires Sound(c)
    ensures Sound(Compile(c, l, word32))
  {
    hide Hash; hide Page; hide Stamp;
    var d := Compile(c, l, word32);
    var point := (c.point + 1) % BLOCKS;
    forall h | 0 <= h < HASHES ensures EntrySound(d, h) {
      assert EntrySound(c, h);
    }
  }

  lemma ResetSlotSound(c: Cache, k: nat)
    requires Sound(c) && k < BLOCKS
    ensures Sound(ResetSlot(c, k))
  {
    hide Hash;
    var d := ResetSlot(c, k);
    forall h | 0 <= h < HASHES ensures EntrySound(d, h) {
      assert EntrySound(c, h);
    }
  }

  lemma {:induction false} ResetFromSound(c: Cache, k: nat)
    requires Sound(c) && k <= BLOCKS
    requires forall i :: 0 <= i < k ==> c.blocks[i] == NONE
    ensures var d := ResetFrom(c, k);
            && Sound(d) && (forall i :: 0 <= i < BLOCKS ==> d.blocks[i] == NONE)
            && d == c.(table := d.table, blocks := d.blocks)
    decreases BLOCKS - k
  {
    hide Sound; hide Drop;
    if k < BLOCKS {
      ResetSlotSound(c, k);
      ResetFromSound(ResetSlot(c, k), k + 1);
    }
  }

  /** A reset leaves no live entry at all. */
  lemma ResetLeavesNone(c: Cache, h: int)
    requires Sound(c) && 0 <= h < HASHES
    ensures Sound(Reset(c)) && !Live(Reset(c).table[h])
  {
    hide ResetFrom; hide Hash;
    PointZero(c);
    ResetFromSound(c.(point := 0), 0);
    assert EntrySound(Reset(c), h);
  }

  lemma PointZero(c: Cache)
    requires Sound(c)
    ensures Sound(c.(point := 0))
  {
    hide Hash;
    forall h | 0 <= h < HASHES ensures EntrySound(c.(point := 0), h) {
      assert EntrySound(c, h);
    }
  }

  lemma ClearPageSound(c: Cache, a: PageNumber)
    requires Sound(c)
    ensures Sound(ClearPage(c, a))
  {
    hide Hash; hide Page; hide Stamp;
    var d := ClearPage(c, a);
    forall h | 0 <= h < HASHES ensures EntrySound(d, h) {
      assert EntrySound(c, h);
    }
  }

  /** A hit names a slot compiled for exactly that PC and word size. */
  lemma HitIsExact(c: Cache, pc: Word, word32: bool)
    requires Sound(c) && pc % 4 == 0
    ensures ChainNext(c, pc, word32) == Dispatch(c, pc, word32)
    ensures match Dispatch(c, pc, word32) {
              case Slot(num) => 0 <= num < BLOCKS && c.code[num].Made? && c.code[num].pc == pc && c.code[num].word32 == word32
              case Miss => true
            }
  {
    assert EntrySound(c, Hash(pc));
  }

  /** A block just compiled is found. */
  lemma CompileHits(c: Cache, l: Word, word32: bool)
    requires Sound(c)
    ensures Dispatch(Compile(c, l, word32), l, word32) == Slot(Compile(c, l, word32).point)
  {
  }

  // ---- freshness ----

  /** The page of a live entry is marked, and has not been invalidated since the code was made. */
  predicate EntryFresh(c: Cache, h: int)
    requires Sound(c) && 0 <= h < HASHES
  {
    var e := c.table[h];
    Live(e) ==> assert EntrySound(c, h); c.present[Page(e.pc) % PAGES] && c.code[e.num].stamp == Stamp(c, Page(e.pc))
  }

  predicate Fresh(c: Cache) { Sound(c) && forall h :: 0 <= h < HASHES ==> EntryFresh(c, h) }

  /** So whatever is found was compiled since its page was last invalidated. */
  lemma HitIsFresh(c: Cache, pc: Word, word32: bool)
    requires Fresh(c) && pc % 4 == 0
    ensures var hit := Dispatch(c, pc, word32);
            hit.Slot? ==> 0 <= hit.num < BLOCKS && c.code[hit.num] == Made(pc, word32, Stamp(c, Page(pc)))
  {
    hide Page; hide Stamp;
    assert EntrySound(c, Hash(pc)) && EntryFresh(c, Hash(pc));
  }

  lemma CompileFresh(c: Cache, l: Word, word32: bool)
    requires Fresh(c)
    ensures Fresh(Compile(c, l, word32))
  {
    hide Hash; hide Page;
    var d := Compile(c, l, word32);
    CompileSound(c, l, word32);
    forall h | 0 <= h < HASHES ensures EntryFresh(d, h) {
      assert EntrySound(c, h) && EntryFresh(c, h);
    }
  }

  lemma ResetFresh(c: Cache)
    requires Sound(c)
    ensures Fresh(Reset(c))
  {
    hide Hash; hide Reset;
    ResetLeavesNone(c, 0);
    forall h | 0 <= h < HASHES ensures EntryFresh(Reset(c), h) {
      ResetLeavesNone(c, h);
    }
  }

  /** All PCs of a page are in the 0x400 hashes that start at that of its first word. */
  lemma PageHashes(l: Word)
    ensures Hash(Base(Page(l))) <= Hash(l) < Hash(Base(Page(l))) + 0x400 <= HASHES
  {
    var a: int, off: int := Page(l), l % 0x1000;
    Quarter(l, a, off);
    Quarter(0x1000 * a, a, 0);
  }

  lemma Quarter(l: Word, a: int, off: int)
    requires l == 0x1000 * a + off && 0 <= off < 0x1000
    ensures Hash(l) == 0x400 * (a % 32) + off / 4
  {
    var q, r, o := a / 32, a % 32, off / 4;
    assert l == 4 * (0x400 * a + o) + off % 4;
    assert l / 4 == 0x400 * a + o;
    assert a == 32 * q + r;
    Wraps(q, 0x400 * r + o, l / 4);
  }

  lemma Wraps(q: int, x: int, y: int)
    requires 0 <= x < HASHES && y == HASHES * q + x
    ensures y % HASHES == x
  {
  }

  /** Invalidating a page leaves nothing live for it. */
  lemma ClearPageClears(c: Cache, a: PageNumber, h: int)
    requires Fresh(c) && 0 <= h < HASHES
    ensures var e := ClearPage(c, a).table[h];
            if Page(c.table[h].pc) == a then !Live(e) else e == c.table[h]
  {
    hide Hash; hide Page;
    assert EntrySound(c, h) && EntryFresh(c, h);
    PageHashes(c.table[h].pc);
  }

  /** No live entry on a different page shares the page's mark. */
  predicate OwnMark(c: Cache, a: PageNumber) {
    forall h :: 0 <= h < HASHES && Live(c.table[h]) && Page(c.table[h].pc) % PAGES == a % PAGES ==> Page(c.table[h].pc) == a
  }

  /** Invalidation keeps the cache fresh if and only if no other page shares the page's mark. */
  lemma ClearPageExact(c: Cache, a: PageNumber)
    requires Fresh(c)
    ensures Fresh(ClearPage(c, a)) <==> OwnMark(c, a)
  {
    hide Hash; hide Page; hide Sound; hide Live;
    var d := ClearPage(c, a);
    ClearPageSound(c, a);
    forall h | 0 <= h < HASHES
      ensures EntryFresh(d, h) <==> Live(c.table[h]) && Page(c.table[h].pc) % PAGES == a % PAGES ==> Page(c.table[h].pc) == a
    {
      ClearPageEntry(c, a, h);
    }
  }

  lemma ClearPageEntry(c: Cache, a: PageNumber, h: int)
    requires Fresh(c) && 0 <= h < HASHES && Sound(ClearPage(c, a))
    ensures EntryFresh(ClearPage(c, a), h) <==>
            (Live(c.table[h]) && Page(c.table[h].pc) % PAGES == a % PAGES ==> Page(c.table[h].pc) == a)
  {
    hide Hash; hide Page;
    assert EntrySound(c, h) && EntryFresh(c, h);
    ClearPageClears(c, a, h);
  }

  /**
   A block that is found, when page `a` and then the block's own page are invalidated: it is still found, and stale,
   if and only if `a` is another page with the same mark. Otherwise it is gone.
   */
  lemma StaleExactly(c: Cache, a: PageNumber, pc: Word, word32: bool)
    requires Fresh(c) && pc % 4 == 0 && Dispatch(c, pc, word32).Slot?
    ensures var b := Page(pc);
            var d, k := ClearPage(ClearPage(c, a), b), Dispatch(c, pc, word32).num;
            && 0 <= k < BLOCKS && d.code[k].Made? && d.code[k].stamp < Stamp(d, b)
            && Dispatch(d, pc, word32) == if a != b && a % PAGES == b % PAGES then Slot(k) else Miss
  {
    hide Hash; hide Page; hide Wiped;
    var b, h := Page(pc), Hash(pc);
    assert EntrySound(c, h) && EntryFresh(c, h);
    ClearPageClears(c, a, h);
    PageHashes(pc);
    WipedEntry(ClearPage(c, a).table, b, Hash(Base(b)), Hash(Base(b)) + 0x400, h);
  }

  lemma WipedEntry(table: Table, a: PageNumber, lo: int, hi: int, h: int)
    requires 0 <= h < HASHES
    ensures Wiped(table, a, lo, hi)[h] == if lo <= h < hi && OnPage(table[h], a) then table[h].(pc := NONE) else table[h]
  {
  }

  // ---- every run ----

  datatype Op = DoCompile(l: Word, word32: bool) | DoReset | DoClear(a: PageNumber)

  predicate InWindow(op: Op, window: int) {
    match op
    case DoCompile(l, _) => Page(l) / PAGES == window
    case DoReset => true
    case DoClear(a) => a / PAGES == window
  }

  function Apply(c: Cache, op: Op): Cache
  {
    match op
    case DoCompile(l, word32) => Compile(c, l, word32)
    case DoReset => Reset(c)
    case DoClear(a) => ClearPage(c, a)
  }

  function Run(c: Cache, ops: seq<Op>): Cache
    decreases |ops|
  {
    if ops == [] then c else Run(Apply(c, ops[0]), ops[1..])
  }

  /** Whatever was compiled, reset and invalidated: a hit is exact. */
  lemma {:induction false} RunSound(c: Cache, ops: seq<Op>)
    requires Sound(c)
    ensures Sound(Run(c, ops))
    decreases |ops|
  {
    hide Sound; hide Compile; hide Reset; hide ClearPage;
    if ops != [] {
      match ops[0] {
        case DoCompile(l, word32) => CompileSound(c, l, word32);
        case DoReset => ResetLeavesNone(c, 0);
        case DoClear(a) => ClearPageSound(c, a);
      }
      RunSound(Apply(c, ops[0]), ops[1..]);
    }
  }

  predicate Within(c: Cache, window: int) {
    forall h :: 0 <= h < HASHES && Live(c.table[h]) ==> Page(c.table[h].pc) / PAGES == window
  }

  lemma WithinOwnMark(c: Cache, window: int, a: PageNumber)
    requires Within(c, window) && a / PAGES == window
    ensures OwnMark(c, a)
  {
  }

  lemma ApplyWithin(c: Cache, op: Op, window: int)
    requires Fresh(c) && Within(c, window) && InWindow(op, window)
    ensures Fresh(Apply(c, op)) && Within(Apply(c, op), window)
  {
    hide Hash; hide Page; hide Sound; hide Fresh; hide Reset;
    match op {
      case DoCompile(l, word32) => CompileFresh(c, l, word32);
      case DoReset =>
        FreshSound(c);
        ResetFresh(c);
        forall h | 0 <= h < HASHES ensures !Live(Reset(c).table[h]) { ResetLeavesNone(c, h); }
      case DoClear(a) =>
        WithinOwnMark(c, window, a);
        ClearPageExact(c, a);
    }
  }

  lemma FreshSound(c: Cache)
    requires Fresh(c)
    ensures Sound(c)
  {
  }

  /** In a run that stays in one window of 0x10000 pages, nothing stale is ever found. */
  lemma {:induction false} RunFresh(c: Cache, ops: seq<Op>, window: int)
    requires Fresh(c) && Within(c, window) && forall i :: 0 <= i < |ops| ==> InWindow(ops[i], window)
    ensures Fresh(Run(c, ops)) && Within(Run(c, ops), window)
    decreases |ops|
  {
    hide Fresh; hide Within; hide Apply;
    if ops != [] {
      ApplyWithin(c, ops[0], window);
      RunFresh(Apply(c, ops[0]), ops[1..], window);
    }
  }

  lemma EmptyFresh(window: int)
    ensures Fresh(Empty()) && Within(Empty(), window)
  {
    EmptySound();
  }

  /** Two blocks on pages that share a mark. */
  function Two(): Cache { Compile(Compile(Empty(), 0x1000, true), 0x1000_1004, true) }

  /** Across windows stale code can be found: pages 1 and 0x10001 share a mark. */
  lemma StaleAcrossWindows()
    ensures var c := Run(Empty(), [DoCompile(0x1000, true), DoCompile(0x1000_1004, true), DoClear(1), DoClear(0x1_0001)]);
            Dispatch(c, 0x1000_1004, true) == Slot(2) && c.code[2].Made? && c.code[2].stamp != Stamp(c, Page(0x1000_1004))
  {
    hide Compile; hide ClearPage; hide Dispatch; hide Stamp; hide Empty; hide Fresh;
    var ops := [DoCompile(0x1000, true), DoCompile(0x1000_1004, true), DoClear(1), DoClear(0x1_0001)];
    assert ops[1..][1..][1..] == [DoClear(0x1_0001)];
    assert Run(Empty(), ops) == ClearPage(ClearPage(Two(), 1), 0x1_0001);
    TwoFresh();
    StaleExactly(Two(), 1, 0x1000_1004, true);
    assert 1 % PAGES == 0x1_0001 % PAGES;
  }

  lemma TwoFresh()
    ensures Fresh(Two()) && Dispatch(Two(), 0x1000_1004, true) == Slot(2)
  {
    hide Compile; hide Dispatch; hide Fresh; hide Sound;
    EmptyFresh(0);
    CompileFresh(Empty(), 0x1000, true);
    var one := Compile(Empty(), 0x1000, true);
    CompileFresh(one, 0x1000_1004, true);
    FreshSound(one);
    CompileHits(one, 0x1000_1004, true);
    NextPoints();
  }

  lemma NextPoints()
    ensures Two().point == 2
  {
    hide Drop; hide Hash;
  }

  // ---- the cache as the source keeps it ----

  class CodeCache {
    var c: Cache

    constructor ()
      ensures c == Empty()
    {
      c := Empty();
    }

    method InitCodeBlock(l: Word, word32: bool)
      requires Sound(c)
      modifies this
      ensures c == Compile(old(c), l, word32)
    {
      hide Hash; hide Page; hide EntrySound;
      c := c.(present := c.present[Page(l) % PAGES := true]);
      c := c.(point := (c.point + 1) % BLOCKS);
      var slot := c.blocks[c.point];
      if slot != NONE {
        c := c.(table := c.table[slot % HASHES := c.table[slot % HASHES].(pc := NONE)]);
        c := c.(table := c.table[slot % HASHES := c.table[slot % HASHES].(num := -1)]);
      }
      assert c.table == Drop(old(c.table), slot);
      var h := Hash(l);
      c := c.(table := c.table[h := Entry(l, c.point, word32)], blocks := c.blocks[c.point := h]);
      c := c.(code := c.code[c.point := Made(l, word32, Stamp(c, Page(l)))]);
    }

    method ResetCodeBlocks()
      modifies this
      ensures c == Reset(old(c))
    {
      hide Drop; hide ResetFrom;
      c := c.(point := 0);
      var k := 0;
      while k < BLOCKS
        invariant 0 <= k <= BLOCKS && ResetFrom(c, k) == Reset(old(c))
      {
        ResetUnfold(c, k);
        if c.blocks[k] != NONE {
          c := c.(table := Drop(c.table, c.blocks[k]));
          c := c.(blocks := c.blocks[k := NONE]);
        } else {
          FreeSlot(c, k);
        }
        k := k + 1;
      }
      ResetUnfold(c, k);
    }

    method CacheClearPage(a: PageNumber)
        modifies this
      ensures c == ClearPage(old(c), a)
    {
      hide Hash; hide Page; hide Stamp;
      var marked := c.present[a % PAGES];
      c := c.(stamps := c.stamps[a := Stamp(c, a) + 1]);
      if !marked { return; }
      c := c.(present := c.present[a % PAGES := false]);
      var d := Hash(Base(a));
      BaseHash(a);
      ghost var c0 := c;
      assert Wiped(c0.table, a, d, d) == c0.table;
      var k := 0;
      while k < 0x400
        invariant 0 <= k <= 0x400 && c == c0.(table := Wiped(c0.table, a, d, d + k))
      {
        if Page(c.table[k + d].pc) == a {
          c := c.(table := c.table[k + d := c.table[k + d].(pc := NONE)]);
        }
        assert c.table == Wiped(c0.table, a, d, d + k + 1);
        k := k + 1;
      }
    }

    method Next(pc: Word, word32: bool, pending: bool) returns (hit: Hit)
      ensures hit == if pending then Miss else ChainNext(c, pc, word32)
    {
      if pending { return Miss; }
      var e := c.table[Hash(pc)];
      if e.pc != pc || e.word32 != word32 { return Miss; }
      if e.num < 0 || e.num >= BLOCKS { return Miss; }
      return Slot(e.num);
    }
  }

  lemma ResetUnfold(c: Cache, k: nat)
    requires k <= BLOCKS
    ensures ResetFrom(c, k) == if k == BLOCKS then c else ResetFrom(ResetSlot(c, k), k + 1)
  {
    hide Drop;
  }

  lemma FreeSlot(c: Cache, k: nat)
    requires k < BLOCKS && c.blocks[k] == NONE
    ensures ResetSlot(c, k) == c
  {
    assert c.blocks[k := NONE] == c.blocks;
  }

  lemma BaseHash(a: PageNumber)
    ensures Hash(Base(a)) + 0x400 <= HASHES
  {
    PageHashes(Base(a));
  }
}
