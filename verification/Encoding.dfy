/**
 Where the fields of an instruction word are: words put together from fields, as the ARM architecture lays them out,
 are taken apart again by the functions that the handlers and both recompilers use.
 */
module Encoding {
  import opened Words
  import opened Opcodes
  import Interpreter
  import BlockTransfer
  import InlineTransfer
  import InlineSingle

  /** A field of `width` values at weight `at`, with `high` above it and `low` below. */
  lemma Field(word: int, high: int, at: int, width: int, field: int, low: int)
    requires at > 0 && width > 0 && 0 <= low < at && 0 <= field < width
    requires word == at * (width * high + field) + low
    ensures word / at % width == field && word / at == width * high + field
  {
    QuotientUnique(word, at, width * high + field, low);
    RemainderUnique(width * high + field, width, high, field);
  }

  function One(b: bool): int { if b then 1 else 0 }

  /** cond 00 I opcode S Rn Rd operand2. */
  function DataWord(cond: int, imm: bool, opn: int, s: bool, rn: int, rd: int, operand: int): Word
    requires 0 <= cond < 16 && 0 <= opn < 16 && 0 <= rn < 16 && 0 <= rd < 16 && 0 <= operand < 0x1000
  {
    cond * 0x1000_0000 + One(imm) * 0x200_0000 + opn * 0x20_0000 + One(s) * 0x10_0000 + rn * 0x1_0000 + rd * 0x1000 + operand
  }

  lemma DataFields(cond: int, imm: bool, opn: int, s: bool, rn: int, rd: int, operand: int)
    requires 0 <= cond < 16 && 0 <= opn < 16 && 0 <= rn < 16 && 0 <= rd < 16 && 0 <= operand < 0x1000
    ensures var op := DataWord(cond, imm, opn, s, rn, rd, operand);
            && Cond(op) == cond && Class(op) == 0 && Immediate(op) == imm && Operation(op) == opn && SetsFlags(op) == s
            && Rn(op) == rn && Rd(op) == rd && op % 0x1000 == operand
  {
    var op := DataWord(cond, imm, opn, s, rn, rd, operand);
    var i, f := One(imm), One(s);
    Field(op, 0, 0x1000_0000, 16, cond, i * 0x200_0000 + opn * 0x20_0000 + f * 0x10_0000 + rn * 0x1_0000 + rd * 0x1000 + operand);
    Field(op, cond, 0x400_0000, 4, 0, i * 0x200_0000 + opn * 0x20_0000 + f * 0x10_0000 + rn * 0x1_0000 + rd * 0x1000 + operand);
    Field(op, 4 * cond, 0x200_0000, 2, i, opn * 0x20_0000 + f * 0x10_0000 + rn * 0x1_0000 + rd * 0x1000 + operand);
    Field(op, 8 * cond + i, 0x20_0000, 16, opn, f * 0x10_0000 + rn * 0x1_0000 + rd * 0x1000 + operand);
    Field(op, 16 * (8 * cond + i) + opn, 0x10_0000, 2, f, rn * 0x1_0000 + rd * 0x1000 + operand);
    Field(op, 2 * (16 * (8 * cond + i) + opn) + f, 0x1_0000, 16, rn, rd * 0x1000 + operand);
    Field(op, 16 * (2 * (16 * (8 * cond + i) + opn) + f) + rn, 0x1000, 16, rd, operand);
  }

  /** The second operand: amount, kind, 0, Rm; or Rs, 0, kind, 1, Rm; or a rotation and eight bits. */
  lemma OperandFields(op: Word, amount: int, kind: int, byRegister: bool, rm: int)
    requires 0 <= amount < 32 && 0 <= kind < 4 && 0 <= rm < 16
    requires op % 0x1000 == amount * 0x80 + kind * 0x20 + One(byRegister) * 0x10 + rm
    ensures ShiftAmount(op) == amount && ShiftKind(op) == kind && ShiftByRegister(op) == byRegister && Rm(op) == rm
    ensures Rs(op) == amount / 2 && Imm8(op) == op % 0x100 && Rotation(op) == 2 * (amount / 2)
    ensures Unshifted(op) <==> amount == 0 && kind == 0 && !byRegister
  {
    var h, b := op / 0x1000, One(byRegister);
    assert op == 0x1000 * h + amount * 0x80 + kind * 0x20 + b * 0x10 + rm;
    Field(op, h, 0x80, 32, amount, kind * 0x20 + b * 0x10 + rm);
    Field(op, 32 * h + amount, 0x20, 4, kind, b * 0x10 + rm);
    Field(op, 4 * (32 * h + amount) + kind, 0x10, 2, b, rm);
    Field(op, 2 * (4 * (32 * h + amount) + kind) + b, 1, 16, rm, 0);
    Field(op, h, 0x100, 16, amount / 2, amount % 2 * 0x80 + kind * 0x20 + b * 0x10 + rm);
    Field(op, 16 * h + amount / 2, 0x10, 16, 8 * (amount % 2) + 2 * kind + b, rm);
    Field(op, h, 0x10, 256, 8 * amount + 2 * kind + b, rm);
  }

  /** cond 1 0 0 P U S W L Rn list, and cond 0 1 I P U B W L Rn Rd offset: bits 24 to 20 and Rn. */
  function TransferWord(cond: int, kind: int, p: bool, u: bool, b: bool, w: bool, l: bool, rn: int, rest: int): Word
    requires 0 <= cond < 16 && 0 <= kind < 8 && 0 <= rn < 16 && 0 <= rest < 0x1_0000
  {
    cond * 0x1000_0000 + kind * 0x200_0000 + One(p) * 0x100_0000 + One(u) * 0x80_0000 + One(b) * 0x40_0000 +
    One(w) * 0x20_0000 + One(l) * 0x10_0000 + rn * 0x1_0000 + rest
  }

  /** Each field of such a word by its weight. */
  lemma TransferBits(cond: int, kind: int, p: bool, u: bool, b: bool, w: bool, l: bool, rn: int, rest: int)
    requires 0 <= cond < 16 && 0 <= kind < 8 && 0 <= rn < 16 && 0 <= rest < 0x1_0000
    ensures var op := TransferWord(cond, kind, p, u, b, w, l, rn, rest);
            && op / 0x100_0000 % 2 == One(p) && op / 0x80_0000 % 2 == One(u) && op / 0x40_0000 % 2 == One(b)
            && op / 0x20_0000 % 2 == One(w) && op / 0x10_0000 % 2 == One(l) && op / 0x1_0000 % 16 == rn
            && op % 0x1_0000 == rest && op / 0x1000 % 16 == rest / 0x1000 && op % 0x1000 == rest % 0x1000
  {
    var op := TransferWord(cond, kind, p, u, b, w, l, rn, rest);
    var t0 := rn * 0x1_0000 + rest;
    var t1 := One(l) * 0x10_0000 + t0;
    var t2 := One(w) * 0x20_0000 + t1;
    var t3 := One(b) * 0x40_0000 + t2;
    var t4 := One(u) * 0x80_0000 + t3;
    var t5 := One(p) * 0x100_0000 + t4;
    var h5 := 8 * cond + kind;
    var h4 := 2 * h5 + One(p);
    var h3 := 2 * h4 + One(u);
    var h2 := 2 * h3 + One(b);
    var h1 := 2 * h2 + One(w);
    var h0 := 2 * h1 + One(l);
    Field(op, h5, 0x100_0000, 2, One(p), t4);
    Field(op, h4, 0x80_0000, 2, One(u), t3);
    Field(op, h3, 0x40_0000, 2, One(b), t2);
    Field(op, h2, 0x20_0000, 2, One(w), t1);
    Field(op, h1, 0x10_0000, 2, One(l), t0);
    Field(op, h0, 0x1_0000, 16, rn, rest);
    RestFields(op, 16 * h0 + rn, rest);
  }

  lemma KindBits(cond: int, kind: int, p: bool, u: bool, b: bool, w: bool, l: bool, rn: int, rest: int)
    requires 0 <= cond < 16 && 0 <= kind < 8 && 0 <= rn < 16 && 0 <= rest < 0x1_0000
    ensures var op := TransferWord(cond, kind, p, u, b, w, l, rn, rest);
            op / 0x1000_0000 == cond && op / 0x400_0000 % 4 == kind / 2 && op / 0x200_0000 % 8 == kind && op / 0x200_0000 % 2 == kind % 2
  {
    var op := TransferWord(cond, kind, p, u, b, w, l, rn, rest);
    var t := One(p) * 0x100_0000 + One(u) * 0x80_0000 + One(b) * 0x40_0000 + One(w) * 0x20_0000 + One(l) * 0x10_0000 + rn * 0x1_0000 + rest;
    Field(op, 0, 0x1000_0000, 16, cond, kind * 0x200_0000 + t);
    Field(op, cond, 0x200_0000, 8, kind, t);
    Field(op, cond, 0x400_0000, 4, kind / 2, kind % 2 * 0x200_0000 + t);
    Field(op, 4 * cond + kind / 2, 0x200_0000, 2, kind % 2, t);
  }

  lemma TransferFields(cond: int, kind: int, p: bool, u: bool, b: bool, w: bool, l: bool, rn: int, rest: int)
    requires 0 <= cond < 16 && 0 <= kind < 8 && 0 <= rn < 16 && 0 <= rest < 0x1_0000
    ensures var op := TransferWord(cond, kind, p, u, b, w, l, rn, rest);
            && Cond(op) == cond && Class(op) == kind / 2 && Immediate(op) == (kind % 2 == 1) && Rn(op) == rn && op % 0x1_0000 == rest
            && InlineTransfer.Before(op) == p && InlineTransfer.Up(op) == u && InlineTransfer.Loads(op) == l
            && BlockTransfer.WritesBack(op) == (w && rn != 15)
            && InlineSingle.Pre(op) == p && InlineSingle.Up(op) == u && InlineSingle.OfByte(op) == b && InlineSingle.BitW(op) == w
            && InlineSingle.Loads(op) == l && InlineSingle.ByRegister(op) == (kind % 2 == 1)
            && Rd(op) == rest / 0x1000 && InlineSingle.Imm12(op) == rest % 0x1000
            && (Interpreter.IsBranch(op) <==> kind == 5)
  {
    hide TransferWord;
    KindBits(cond, kind, p, u, b, w, l, rn, rest);
    TransferBits(cond, kind, p, u, b, w, l, rn, rest);
  }

  lemma RestFields(op: int, high: int, rest: int)
    requires op == 0x1_0000 * high + rest && 0 <= rest < 0x1_0000
    ensures op % 0x1_0000 == rest && op / 0x1000 % 16 == rest / 0x1000 && op % 0x1000 == rest % 0x1000
  {
    RemainderUnique(op, 0x1_0000, high, rest);
    Field(op, high, 0x1000, 16, rest / 0x1000, rest % 0x1000);
    RemainderUnique(op, 0x1000, 16 * high + rest / 0x1000, rest % 0x1000);
  }

  /** Register `c` is listed if and only if bit `c` is set. */
  lemma {:induction false} ListedBit(op: Word, c: nat)
    ensures BlockTransfer.Listed(op, c) <==> BitAt(op, c)
    decreases c
  {
    hide BitAt;
    BitHalved(op, c);
    if c > 0 { ListedBit(op / 2, c - 1); }
  }

  /** A branch goes by 24 bits of signed words, relative to its own address and eight. */
  lemma BranchField(cond: int, link: bool, words: int)
    requires 0 <= cond < 16 && -0x80_0000 <= words < 0x80_0000
    ensures var field := if words < 0 then words + 0x100_0000 else words;
            var op: Word := cond * 0x1000_0000 + 0xa00_0000 + One(link) * 0x100_0000 + field;
            && Interpreter.IsBranch(op) && Interpreter.Links(op) == link && Cond(op) == cond
            && Signed(Interpreter.BranchOffset(op)) == 4 * words
  {
    var field := if words < 0 then words + 0x100_0000 else words;
    var op: Word := cond * 0x1000_0000 + 0xa00_0000 + One(link) * 0x100_0000 + field;
    Field(op, 0, 0x1000_0000, 16, cond, 0xa00_0000 + One(link) * 0x100_0000 + field);
    Field(op, cond, 0x200_0000, 8, 5, One(link) * 0x100_0000 + field);
    Field(op, 8 * cond + 5, 0x100_0000, 2, One(link), field);
    RemainderUnique(op, 0x100_0000, 2 * (8 * cond + 5) + One(link), field);
  }
}
