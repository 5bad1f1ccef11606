/**
 The condition flags of the emulated processor's arithmetic, as arm_common.h
 computes them from the operands and the result, against the arithmetic they
 stand for: the carry out and the signed overflow of a 32-bit addition.
 */
module Flags {
  import opened Words

  datatype Nzcv = Nzcv(n: bool, z: bool, c: bool, v: bool)

  // ---- as the source computes them ----
  //
  // C of ADD and SUB compares the result with the first operand. The remaining
  // formulas keep only bit 31 of a bitwise combination, so they are written on the
  // bits 31; BySigns says that this is bit 31 of the source's own formula.

  predicate AddOverflow(op1: bool, op2: bool, result: bool) { op1 != result && op2 != result }

  predicate SubOverflow(op1: bool, op2: bool, result: bool) { op1 != op2 && op1 != result }

  predicate Majority(op1: bool, op2: bool, result: bool) { (op1 && op2) || ((op1 || op2) && !result) }

  lemma BySigns(a: Word, b: Word, r: Word)
    ensures Neg(AndW(XorW(a, r), XorW(b, r))) <==> AddOverflow(Neg(a), Neg(b), Neg(r))
    ensures Neg(AndW(XorW(a, b), XorW(a, r))) <==> SubOverflow(Neg(a), Neg(b), Neg(r))
    ensures Neg(OrW(AndW(a, b), AndW(OrW(a, b), Not(r)))) <==> Majority(Neg(a), Neg(b), Neg(r))
  {
    hide And; hide Or; hide Xor;
    TopBits(a, r); TopBits(b, r); TopBits(a, b);
    TopBits(XorW(a, r), XorW(b, r)); TopBits(XorW(a, b), XorW(a, r));
    TopBits(OrW(a, b), Not(r)); TopBits(AndW(a, b), AndW(OrW(a, b), Not(r)));
  }

  function FlagsAdd(op1: Word, op2: Word, result: Word): Nzcv {
    Nzcv(Neg(result), result == 0, result < op1, AddOverflow(Neg(op1), Neg(op2), Neg(result)))
  }

  function FlagsSub(op1: Word, op2: Word, result: Word): Nzcv {
    Nzcv(Neg(result), result == 0, result <= op1, SubOverflow(Neg(op1), Neg(op2), Neg(result)))
  }

  function FlagsAdc(op1: Word, op2: Word, result: Word): Nzcv {
    Nzcv(Neg(result), result == 0, Majority(Neg(op1), Neg(op2), Neg(result)),
         AddOverflow(Neg(op1), Neg(op2), Neg(result)))
  }

  function FlagsSbc(op1: Word, op2: Word, result: Word): Nzcv {
    Nzcv(Neg(result), result == 0, Majority(Neg(op1), Neg(Not(op2)), Neg(result)),
         SubOverflow(Neg(op1), Neg(op2), Neg(result)))
  }

  // ---- what they mean ----

  function Bit(b: bool): Word { if b then 1 else 0 }

  /** The sum of two words and a carry, with the flags of the ideal sum. */
  function AddWithCarry(x: Word, y: Word, carry: bool): (r: (Word, Nzcv)) {
    var unsigned := x + y + Bit(carry);
    var signed := Signed(x) + Signed(y) + Bit(carry);
    var result: Word := if unsigned < MOD then unsigned else unsigned - MOD;
    (result, Nzcv(Neg(result), result == 0, unsigned != result, signed != Signed(result)))
  }

  lemma AddExact(a: Word, b: Word)
    ensures (Add(a, b), FlagsAdd(a, b, Add(a, b))) == AddWithCarry(a, b, false)
  {
  }

  lemma SubExact(a: Word, b: Word)
    ensures (Sub(a, b), FlagsSub(a, b, Sub(a, b))) == AddWithCarry(a, Not(b), true)
  {
  }

  lemma AdcExact(a: Word, b: Word, carry: bool)
    ensures var r := Add(Add(a, b), Bit(carry));
            (r, FlagsAdc(a, b, r)) == AddWithCarry(a, b, carry)
  {
  }

  lemma SbcExact(a: Word, b: Word, carry: bool)
    ensures var r := Sub(Sub(a, b), Bit(!carry));
            (r, FlagsSbc(a, b, r)) == AddWithCarry(a, Not(b), carry)
  {
  }

  // ---- chained arithmetic on numbers of any length ----

  /** The number a list of words stands for, least significant word first. */
  function Value(ws: seq<Word>): nat {
    if ws == [] then 0 else ws[0] + MOD * Value(ws[1..])
  }

  function Weight(n: nat): (w: nat)
    ensures w > 0
  {
    if n == 0 then 1 else MOD * Weight(n - 1)
  }

  /** ADCS over every word in turn, each taking the carry the one before it left. */
  function AdcChain(a: seq<Word>, b: seq<Word>, carry: bool): (r: (seq<Word>, bool))
    requires |a| == |b|
    ensures |r.0| == |a|
  {
    if a == [] then ([], carry)
    else
      var w := Add(Add(a[0], b[0]), Bit(carry));
      var (rest, out) := AdcChain(a[1..], b[1..], FlagsAdc(a[0], b[0], w).c);
      ([w] + rest, out)
  }

  /** SBCS over every word in turn. */
  function SbcChain(a: seq<Word>, b: seq<Word>, carry: bool): (r: (seq<Word>, bool))
    requires |a| == |b|
    ensures |r.0| == |a|
  {
    if a == [] then ([], carry)
    else
      var w := Sub(Sub(a[0], b[0]), Bit(!carry));
      var (rest, out) := SbcChain(a[1..], b[1..], FlagsSbc(a[0], b[0], w).c);
      ([w] + rest, out)
  }

  /** ADDS on the lowest word, then ADCS on the others. */
  function AddsThenAdcs(a: seq<Word>, b: seq<Word>): (r: (seq<Word>, bool))
    requires |a| == |b| > 0
  {
    var w := Add(a[0], b[0]);
    var (rest, out) := AdcChain(a[1..], b[1..], FlagsAdd(a[0], b[0], w).c);
    ([w] + rest, out)
  }

  /** SUBS on the lowest word, then SBCS on the others. */
  function SubsThenSbcs(a: seq<Word>, b: seq<Word>): (r: (seq<Word>, bool))
    requires |a| == |b| > 0
  {
    var w := Sub(a[0], b[0]);
    var (rest, out) := SbcChain(a[1..], b[1..], FlagsSub(a[0], b[0], w).c);
    ([w] + rest, out)
  }

  lemma {:induction false} AdcChainExact(a: seq<Word>, b: seq<Word>, carry: bool)
    requires |a| == |b|
    ensures var (s, out) := AdcChain(a, b, carry);
            Value(s) + Weight(|a|) * Bit(out) == Value(a) + Value(b) + Bit(carry)
  {
    if a != [] {
      var w := Add(Add(a[0], b[0]), Bit(carry));
      AdcExact(a[0], b[0], carry);
      var c := FlagsAdc(a[0], b[0], w).c;
      AdcChainExact(a[1..], b[1..], c);
      var (rest, out) := AdcChain(a[1..], b[1..], c);
      assert ([w] + rest)[1..] == rest;
      assert w + MOD * Bit(c) == a[0] + b[0] + Bit(carry);
      Scale(Value(rest), Weight(|a| - 1), Value(a[1..]), Value(b[1..]), out, c);
    }
  }

  lemma Scale(s: int, w: int, x: int, y: int, out: bool, c: bool)
    requires s + w * Bit(out) == x + y + Bit(c)
    ensures MOD * s + (MOD * w) * Bit(out) == MOD * x + MOD * y + MOD * Bit(c)
  {
  }

  lemma ScaleDown(d: int, w: int, x: int, y: int, out: bool, c: bool)
    requires d == x - y - Bit(!c) + w * Bit(!out)
    ensures MOD * d == MOD * x - MOD * y - MOD * Bit(!c) + (MOD * w) * Bit(!out)
  {
  }

  lemma {:induction false} SbcChainExact(a: seq<Word>, b: seq<Word>, carry: bool)
    requires |a| == |b|
    ensures var (d, out) := SbcChain(a, b, carry);
            Value(d) == Value(a) - Value(b) - Bit(!carry) + Weight(|a|) * Bit(!out)
  {
    if a != [] {
      var w := Sub(Sub(a[0], b[0]), Bit(!carry));
      SbcExact(a[0], b[0], carry);
      var c := FlagsSbc(a[0], b[0], w).c;
      SbcChainExact(a[1..], b[1..], c);
      var (rest, out) := SbcChain(a[1..], b[1..], c);
      assert ([w] + rest)[1..] == rest;
      assert w == a[0] - b[0] - Bit(!carry) + MOD * Bit(!c);
      ScaleDown(Value(rest), Weight(|a| - 1), Value(a[1..]), Value(b[1..]), out, c);
    }
  }

  lemma ValueBound(ws: seq<Word>)
    ensures Value(ws) < Weight(|ws|)
  {
    if ws != [] {
      ValueBound(ws[1..]);
      assert MOD * Value(ws[1..]) <= MOD * (Weight(|ws| - 1) - 1);
    }
  }

  /** The first word's ADDS is an ADCS that carries nothing in, its SUBS an SBCS that borrows nothing. */
  lemma FirstWord(a: seq<Word>, b: seq<Word>)
    requires |a| == |b| > 0
    ensures AddsThenAdcs(a, b) == AdcChain(a, b, false)
    ensures SubsThenSbcs(a, b) == SbcChain(a, b, true)
  {
    AddExact(a[0], b[0]); AdcExact(a[0], b[0], false);
    SubExact(a[0], b[0]); SbcExact(a[0], b[0], true);
  }

  /** An ADDS/ADCS chain of any length computes the sum, and C is its carry. */
  lemma MultiWordAdd(a: seq<Word>, b: seq<Word>)
    requires |a| == |b| > 0
    ensures var (s, carry) := AddsThenAdcs(a, b);
            && |s| == |a|
            && (carry <==> Value(a) + Value(b) >= Weight(|a|))
            && Value(s) == if carry then Value(a) + Value(b) - Weight(|a|) else Value(a) + Value(b)
  {
    hide *;
    FirstWord(a, b);
    AdcChainExact(a, b, false);
    var (s, carry) := AdcChain(a, b, false);
    ValueBound(s);
    Carries(Value(s), Weight(|a|), Value(a) + Value(b), carry);
  }

  lemma Carries(s: int, w: int, sum: int, carry: bool)
    requires 0 <= s < w && s + w * Bit(carry) == sum + Bit(false)
    ensures carry <==> sum >= w
    ensures s == if carry then sum - w else sum
  {
  }

  /** A SUBS/SBCS chain of any length computes the difference, and C means no borrow. */
  lemma MultiWordSub(a: seq<Word>, b: seq<Word>)
    requires |a| == |b| > 0
    ensures var (d, noBorrow) := SubsThenSbcs(a, b);
            && |d| == |a|
            && (noBorrow <==> Value(a) >= Value(b))
            && Value(d) == if noBorrow then Value(a) - Value(b) else Value(a) - Value(b) + Weight(|a|)
  {
    hide *;
    FirstWord(a, b);
    SbcChainExact(a, b, true);
    var (d, noBorrow) := SbcChain(a, b, true);
    ValueBound(d);
    Borrows(Value(d), Weight(|a|), Value(a) - Value(b), noBorrow);
  }

  lemma Borrows(d: int, w: int, diff: int, noBorrow: bool)
    requires 0 <= d < w && d == diff - Bit(!true) + w * Bit(!noBorrow)
    ensures noBorrow <==> diff >= 0
    ensures d == if noBorrow then diff else diff + w
  {
  }
}
